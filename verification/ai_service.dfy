/**
 * The summarisation client: the configuration check made once at import time
 * and `summarize_text`, a chain of guarded early returns around one call to
 * the external chat-completion service. The call itself is abstracted into a
 * `CallOutcome`, and the function reports which texts it sent to the service.
 */
module AiService {

  import opened Wrappers

  /** The four environment variables read at import time (`None` when unset). */
  datatype Environment = Environment(
    apiKey: Option<string>,
    endpoint: Option<string>,
    apiVersion: Option<string>,
    deploymentName: Option<string>)

  /** Python truthiness of an optional string: set and non-empty. */
  predicate Truthy(v: Option<string>) {
    v.Some? && v.value != ""
  }

  /**
   * Whether a client object exists after import. The three credentials must be
   * truthy; `clientInitOk` is whether the client constructor returned instead of
   * raising (a raise is caught and leaves the client unset). The API version is
   * not part of the check.
   */
  function ClientConfigured(env: Environment, clientInitOk: bool): (configured: bool)
    ensures configured ==> Truthy(env.apiKey) && Truthy(env.endpoint) && Truthy(env.deploymentName)
    ensures configured ==> clientInitOk
    ensures Truthy(env.apiKey) && Truthy(env.endpoint) && Truthy(env.deploymentName) && clientInitOk ==> configured
  {
    Truthy(env.apiKey) && Truthy(env.endpoint) && Truthy(env.deploymentName) && clientInitOk
  }

  /** The credential check itself does not read the API version. */
  lemma ApiVersionNotChecked(env: Environment, version: Option<string>, clientInitOk: bool)
    ensures ClientConfigured(env.(apiVersion := version), clientInitOk) == ClientConfigured(env, clientInitOk)
  {
  }

  // ---------------------------------------------------------------------------
  // Python's str.strip() with no argument

  /** The characters for which Python's `str.isspace` holds. */
  predicate IsWhitespace(c: char) {
    var n := c as int;
    || 0x09 <= n <= 0x0D
    || 0x1C <= n <= 0x20
    || n == 0x85 || n == 0xA0 || n == 0x1680
    || 0x2000 <= n <= 0x200A
    || n == 0x2028 || n == 0x2029 || n == 0x202F || n == 0x205F || n == 0x3000
  }

  /** Removes leading whitespace: what is left is a suffix that does not start with whitespace. */
  function TrimStart(s: string): (r: string)
    ensures |r| <= |s| && r == s[|s| - |r|..]
    ensures forall i :: 0 <= i < |s| - |r| ==> IsWhitespace(s[i])
    ensures r == [] || !IsWhitespace(r[0])
  {
    if s != [] && IsWhitespace(s[0]) then TrimStart(s[1..]) else s
  }

  /** Removes trailing whitespace: what is left is a prefix that does not end with whitespace. */
  function TrimEnd(s: string): (r: string)
    ensures |r| <= |s| && r == s[..|r|]
    ensures forall i :: |r| <= i < |s| ==> IsWhitespace(s[i])
    ensures r == [] || !IsWhitespace(r[|r| - 1])
  {
    if s != [] && IsWhitespace(s[|s| - 1]) then TrimEnd(s[..|s| - 1]) else s
  }

  /**
   * `str.strip()`: a contiguous piece of the input with no whitespace at either
   * end, and only whitespace before and after it.
   */
  function Strip(s: string): (r: string)
    ensures r == [] || (!IsWhitespace(r[0]) && !IsWhitespace(r[|r| - 1]))
    ensures var lead := |s| - |TrimStart(s)|;
      && lead + |r| <= |s| && r == s[lead..lead + |r|]
      && (forall i :: 0 <= i < lead ==> IsWhitespace(s[i]))
      && (forall i :: lead + |r| <= i < |s| ==> IsWhitespace(s[i]))
  {
    var t := TrimStart(s);
    var core := TrimEnd(t);
    StripShape(s, t, core);
    core
  }

  /**
   * A prefix `core` of a suffix `t` of `s`, followed in `t` by whitespace only,
   * is a slice of `s` followed by whitespace only.
   */
  lemma StripShape(s: string, t: string, core: string)
    requires |t| <= |s| && t == s[|s| - |t|..]
    requires |core| <= |t| && core == t[..|core|]
    requires forall i :: |core| <= i < |t| ==> IsWhitespace(t[i])
    ensures |s| - |t| + |core| <= |s|
    ensures core == s[|s| - |t|..|s| - |t| + |core|]
    ensures forall i :: |s| - |t| + |core| <= i < |s| ==> IsWhitespace(s[i])
  {
    var lead := |s| - |t|;
    SliceOfSuffix(s, lead, |core|);
    forall i | lead + |core| <= i < |s| ensures IsWhitespace(s[i]) {
      assert s[i] == t[i - lead];
    }
  }

  /** A prefix of a suffix is a slice. */
  lemma SliceOfSuffix<T>(s: seq<T>, k: nat, m: nat)
    requires k + m <= |s|
    ensures s[k..][..m] == s[k..k + m]
  {
  }

  /**
   * Strip removes exactly the whitespace at both ends: whenever `s` is some
   * whitespace, then `core`, then some whitespace, and `core` neither starts
   * nor ends with whitespace, stripping `s` gives `core`.
   */
  lemma StripExact(lead: string, core: string, trail: string)
    requires forall i :: 0 <= i < |lead| ==> IsWhitespace(lead[i])
    requires forall i :: 0 <= i < |trail| ==> IsWhitespace(trail[i])
    requires core == [] || (!IsWhitespace(core[0]) && !IsWhitespace(core[|core| - 1]))
    ensures Strip(lead + core + trail) == core
  {
    var rest := core + trail;
    assert lead + core + trail == lead + rest;
    TrimStartSkips(lead, rest);
    TrimStartClean(core, trail);
    TrimEndSkips(core, trail);
    TrimEndClean(core);
  }

  /** A text that does not start with whitespace (followed by anything) loses nothing at the front. */
  lemma TrimStartClean(core: string, trail: string)
    requires forall i :: 0 <= i < |trail| ==> IsWhitespace(trail[i])
    requires core == [] || !IsWhitespace(core[0])
    ensures TrimStart(core + trail) == if core == [] then TrimStart(trail) else core + trail
  {
    if core == [] {
      assert core + trail == trail;
    }
  }

  /** A text that does not end with whitespace loses nothing at the back. */
  lemma TrimEndClean(core: string)
    requires core == [] || !IsWhitespace(core[|core| - 1])
    ensures TrimEnd(core) == core
  {
  }

  lemma {:induction false} TrimStartSkips(lead: string, rest: string)
    requires forall i :: 0 <= i < |lead| ==> IsWhitespace(lead[i])
    ensures TrimStart(lead + rest) == TrimStart(rest)
  {
    if lead != [] {
      assert (lead + rest)[1..] == lead[1..] + rest;
      TrimStartSkips(lead[1..], rest);
    } else {
      assert lead + rest == rest;
    }
  }

  lemma {:induction false} TrimEndSkips(body: string, trail: string)
    requires forall i :: 0 <= i < |trail| ==> IsWhitespace(trail[i])
    ensures TrimEnd(body + trail) == TrimEnd(body)
  {
    if trail != [] {
      var n := |body + trail|;
      assert (body + trail)[..n - 1] == body + trail[..|trail| - 1];
      TrimEndSkips(body, trail[..|trail| - 1]);
    } else {
      assert body + trail == body;
    }
  }

  /** Stripping twice is stripping once. */
  lemma StripIdempotent(s: string)
    ensures Strip(Strip(s)) == Strip(s)
  {
    var t := Strip(s);
    var u := TrimStart(s);
    if t != [] {
      assert t[0] == u[0];
    }
    assert TrimStart(t) == t;
  }

  // ---------------------------------------------------------------------------
  // summarize_text

  const OfflineMessage: string := "AI Service is offline (Configuration Error)."
  const TooShortMessage: string := "Content too short to summarize (min 50 characters)."
  const ApiErrorPrefix: string := "AI summarization failed due to API error: "
  /** Texts shorter than this many characters are never sent. */
  const MinLength: nat := 50

  /** `str(e)` of the two exceptions the success path itself can raise. */
  const NoChoicesError: string := "list index out of range"
  const NoContentError: string := "'NoneType' object has no attribute 'strip'"

  /**
   * What the chat-completion call does: it returns the message contents of its
   * choices (a content may be null), or it raises with the given message.
   */
  datatype CallOutcome = Completion(choices: seq<Option<string>>) | Raised(message: string)

  /** The returned string and the texts sent to the external service, in order. */
  datatype SummaryRun = SummaryRun(result: string, sent: seq<string>)

  /** The message returned when an exception is caught: the prefix then `str(e)`. */
  function ApiErrorMessage(message: string): string {
    ApiErrorPrefix + message
  }

  /**
   * The result of the `try` block once the call has been made: the stripped
   * first choice, or, when the call or reading its first choice raises, the
   * error report.
   */
  function ReadCompletion(outcome: CallOutcome): (r: string)
    ensures outcome.Raised? ==> r == ApiErrorPrefix + outcome.message
    ensures outcome.Completion? && outcome.choices == [] ==> r == ApiErrorPrefix + NoChoicesError
    ensures outcome.Completion? && outcome.choices != [] && outcome.choices[0].None? ==>
              r == ApiErrorPrefix + NoContentError
    ensures outcome.Completion? && outcome.choices != [] && outcome.choices[0].Some? ==>
              r == Strip(outcome.choices[0].value)
  {
    match outcome
    case Raised(message) => ApiErrorMessage(message)
    case Completion(choices) =>
      if choices == [] then ApiErrorMessage(NoChoicesError)
      else if choices[0].None? then ApiErrorMessage(NoContentError)
      else Strip(choices[0].value)
  }

  /**
   * `summarize_text(text)` given whether the client is configured and what the
   * external call would do if made. Never fails: every path returns a string.
   */
  function SummarizeText(configured: bool, text: string, outcome: CallOutcome): (run: SummaryRun)
    ensures run.sent == (if configured && |text| >= MinLength then [text] else [])
    ensures !configured ==> run.result == OfflineMessage
    ensures configured && |text| < MinLength ==> run.result == TooShortMessage
    ensures run.sent != [] && outcome.Raised? ==> run.result == ApiErrorPrefix + outcome.message
    ensures run.sent != [] && outcome.Completion? && outcome.choices != [] && outcome.choices[0].Some? ==>
              run.result == Strip(outcome.choices[0].value)
    ensures run.sent != [] ==> run.result == ReadCompletion(outcome)
  {
    if !configured then SummaryRun(OfflineMessage, [])
    else if |text| < MinLength then SummaryRun(TooShortMessage, [])
    else SummaryRun(ReadCompletion(outcome), [text])
  }

  /**
   * With a credential missing at start-up, every summary request gets the
   * offline notice, whatever the text and whatever the service would do.
   */
  lemma MissingCredentialsOffline(env: Environment, clientInitOk: bool, text: string, outcome: CallOutcome)
    requires !Truthy(env.apiKey) || !Truthy(env.endpoint) || !Truthy(env.deploymentName)
    ensures SummarizeText(ClientConfigured(env, clientInitOk), text, outcome) == SummaryRun(OfflineMessage, [])
  {
  }

  /** When nothing is sent, the outcome of the (unmade) call cannot matter. */
  lemma NoCallNoDependence(configured: bool, text: string, a: CallOutcome, b: CallOutcome)
    requires !configured || |text| < MinLength
    ensures SummarizeText(configured, text, a) == SummarizeText(configured, text, b)
  {
  }

  /**
   * Every result is one of the two fixed notices, an error report carrying the
   * prefix, or the stripped text of a completion, which has no surrounding whitespace.
   */
  lemma ResultKinds(configured: bool, text: string, outcome: CallOutcome)
    ensures var r := SummarizeText(configured, text, outcome).result;
      || r == OfflineMessage
      || r == TooShortMessage
      || (|r| >= |ApiErrorPrefix| && r[..|ApiErrorPrefix|] == ApiErrorPrefix)
      || (outcome.Completion? && outcome.choices != [] && outcome.choices[0].Some? &&
          r == Strip(outcome.choices[0].value) && Strip(r) == r)
  {
    if configured && |text| >= MinLength && outcome.Completion? && outcome.choices != [] && outcome.choices[0].Some? {
      StripIdempotent(outcome.choices[0].value);
    }
  }
}
