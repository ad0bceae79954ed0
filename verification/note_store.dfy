/**
 * The backend's database and endpoints as a state machine over values. `Db`
 * holds the two tables, the logical clock and the next primary keys; each
 * endpoint is a transition that returns its HTTP response and the committed
 * state (every endpoint commits atomically, or not at all). The class in
 * endpoints.dfy is proved to commit exactly these transitions.
 */
module NoteStore {

  import opened Wrappers
  import opened Models
  import AiService

  /**
   * The password and token helpers of the auth module, which is not part of
   * this model: hashing, verification and token signing are uninterpreted.
   */
  datatype AuthService = AuthService(
    hash: string -> string,
    verify: (string, string) -> bool,
    createToken: string -> string)

  /** An `HTTPException`: status code and detail. */
  datatype ApiError = ApiError(status: nat, detail: string)

  const EmailTaken := ApiError(400, "Email already registered")
  const BadCredentials := ApiError(401, "Incorrect username or password")
  const NoteNotFound := ApiError(404, "Note not found")

  /** What an endpoint answers: a success code with its body, or an error. */
  datatype Response<T> = Ok(code: nat, value: T) | Fail(error: ApiError)

  /** The committed database plus the logical clock and the next primary keys. */
  datatype Db = Db(
    users: map<nat, User>,
    notes: map<nat, Note>,
    clock: nat,
    nextUserId: nat,
    nextNoteId: nat)
  {
    /** The table constraints, and timestamps that lie in the past. */
    ghost predicate Valid() {
      && UsersKeyedById(users) && (forall k :: k in users ==> k < nextUserId)
      && UniqueEmails(users)
      && NotesKeyedById(notes) && (forall k :: k in notes ==> k < nextNoteId)
      && OwnersExist(notes, users)
      && (forall k :: k in notes ==> notes[k].createdAt <= notes[k].updatedAt < clock)
    }
  }

  /** The database right after the tables are created. */
  const EmptyDb := Db(map[], map[], 0, 1, 1)

  lemma EmptyDbValid()
    ensures EmptyDb.Valid() && EmptyDb.users == map[] && EmptyDb.notes == map[]
  {
  }

  // ---------------------------------------------------------------------------
  // Queries

  ghost predicate EmailRegistered(users: map<nat, User>, email: string) {
    exists k :: k in users && users[k].email == email
  }

  /** `query(UserDB).filter(email == e).first()`. */
  ghost function UserWithEmail(users: map<nat, User>, email: string): (found: Option<User>)
    ensures found.Some? <==> EmailRegistered(users, email)
    ensures found.Some? ==> found.value.email == email && found.value in users.Values
  {
    if EmailRegistered(users, email) then
      var k :| k in users && users[k].email == email; Some(users[k])
    else None
  }

  /** With unique emails, the user found is the one registered under that email. */
  lemma UserWithEmailUnique(users: map<nat, User>, k: nat)
    requires UsersKeyedById(users) && UniqueEmails(users) && k in users
    ensures UserWithEmail(users, users[k].email) == Some(users[k])
  {
    var found := UserWithEmail(users, users[k].email);
    var j :| j in users && users[j] == found.value;
  }

  /**
   * `query(NoteDB).filter(id == noteId, owner_id == userId).first()`. The path
   * parameter is any integer; a negative one names no row.
   */
  function OwnedNote(db: Db, userId: nat, noteId: int): (found: Option<Note>)
    ensures found.Some? ==> noteId in db.notes && found.value == db.notes[noteId] && found.value.ownerId == userId
    ensures found.None? ==> noteId !in db.notes || db.notes[noteId].ownerId != userId
  {
    if noteId in db.notes && db.notes[noteId].ownerId == userId then Some(db.notes[noteId]) else None
  }

  /** The part of the notes table owned by `userId`. */
  ghost function NotesOf(notes: map<nat, Note>, userId: nat): map<nat, Note> {
    map k | k in notes && notes[k].ownerId == userId :: notes[k]
  }

  /** The rows of the notes table owned by `userId`. */
  ghost function OwnedNotes(notes: map<nat, Note>, userId: nat): set<Note> {
    NotesOf(notes, userId).Values
  }

  /** `order_by(updated_at.desc())`; ties may come in any order. */
  predicate SortedByRecency(s: seq<Note>) {
    forall i, j :: 0 <= i < j < |s| ==> s[i].updatedAt >= s[j].updatedAt
  }

  /** What `read_notes` may answer: the caller's rows, each once, most recently updated first. */
  ghost predicate IsRecencyListing(db: Db, userId: nat, listing: seq<Note>) {
    SortedByRecency(listing) && multiset(listing) == multiset(OwnedNotes(db.notes, userId))
  }

  // ---------------------------------------------------------------------------
  // Transitions, one per endpoint

  /**
   * Assigning the columns of a loaded row: when some value really changes,
   * the flush issues an UPDATE and `onupdate` refreshes `updated_at`;
   * otherwise no UPDATE is issued and the row stays as it was.
   */
  function Touch(n: Note, title: string, content: string, summary: Option<string>, now: nat): (r: Note)
    ensures r.title == title && r.content == content && r.summary == summary
    ensures r.id == n.id && r.ownerId == n.ownerId && r.createdAt == n.createdAt
    ensures r != n ==> r.updatedAt == now
    ensures r.updatedAt == n.updatedAt || r.updatedAt == now
    ensures n.title == title && n.content == content && n.summary == summary ==> r == n
  {
    if n.title == title && n.content == content && n.summary == summary then n
    else n.(title := title, content := content, summary := summary, updatedAt := now)
  }

  /** `signup_user`: 400 for a registered email, else one new user and a bearer token for the email. */
  ghost function SignupStep(db: Db, form: UserCreate, auth: AuthService): (out: (Response<Token>, Db))
    ensures out.1.notes == db.notes && out.1.clock == db.clock
    ensures out.0.Fail? <==> EmailRegistered(db.users, form.email)
    ensures out.0.Fail? ==> out.0 == Fail(EmailTaken) && out.1 == db
    ensures out.0.Ok? ==> out.0 == Ok(200, Token(auth.createToken(form.email), "bearer"))
    ensures out.0.Ok? ==> db.users.Keys <= out.1.users.Keys && form.email in (set k | k in out.1.users :: out.1.users[k].email)
    ensures out.0.Ok? ==> out.1.users.Keys == db.users.Keys + {db.nextUserId}
    ensures out.0.Ok? && db.nextUserId !in db.users ==> forall k :: k in db.users ==> out.1.users[k] == db.users[k]
  {
    if UserWithEmail(db.users, form.email).Some? then (Fail(EmailTaken), db)
    else
      var user := User(db.nextUserId, form.email, auth.hash(form.password));
      var after := db.(users := db.users[user.id := user], nextUserId := db.nextUserId + 1);
      assert after.users[user.id].email == form.email;
      (Ok(200, Token(auth.createToken(user.email), "bearer")), after)
  }

  /** `login_for_access_token`: one 401 for both failures, else a bearer token for the email. */
  ghost function LoginStep(db: Db, form: UserCreate, auth: AuthService): (r: Response<Token>)
    ensures r.Fail? ==> r == Fail(BadCredentials)
    ensures r.Ok? ==> r == Ok(200, Token(auth.createToken(form.email), "bearer"))
    ensures r.Ok? ==> EmailRegistered(db.users, form.email)
  {
    match UserWithEmail(db.users, form.email)
    case None => Fail(BadCredentials)
    case Some(user) =>
      if !auth.verify(form.password, user.hashedPassword) then Fail(BadCredentials)
      else Ok(200, Token(auth.createToken(user.email), "bearer"))
  }

  /** `create_note`: a new row under the next id, owned by the caller; users are untouched. */
  ghost function CreateStep(db: Db, userId: nat, input: NoteCreate): (out: (Note, Db))
    ensures out.0.ownerId == userId && out.0.summary == None
    ensures out.0.title == input.title && out.0.content == input.content
    ensures out.1.notes == db.notes[out.0.id := out.0] && out.1.users == db.users
    ensures out.1.clock > db.clock
  {
    var note := NewNote(input, db.nextNoteId, userId, db.clock);
    (note, db.(notes := db.notes[note.id := note], nextNoteId := db.nextNoteId + 1, clock := db.clock + 1))
  }

  /** `update_note`: 404 unless the caller owns the note, else new title and content and a null summary. */
  ghost function UpdateStep(db: Db, userId: nat, noteId: int, input: NoteCreate): (out: (Response<Note>, Db))
    ensures out.1.users == db.users
    ensures out.0.Fail? ==> out.0 == Fail(NoteNotFound) && out.1 == db
    ensures out.0.Fail? <==> OwnedNote(db, userId, noteId).None?
    ensures out.0.Ok? ==> out.0.value.summary == None
    ensures out.0.Ok? ==> out.0.value.title == input.title && out.0.value.content == input.content
    ensures out.0.Ok? ==> noteId in db.notes && out.1.notes == db.notes[noteId := out.0.value]
  {
    match OwnedNote(db, userId, noteId)
    case None => (Fail(NoteNotFound), db)
    case Some(note) =>
      var updated := Touch(note, input.title, input.content, None, db.clock);
      (Ok(200, updated), db.(notes := db.notes[noteId := updated], clock := db.clock + 1))
  }

  /** `delete_note`: 404 unless the caller owns the note, else that row is gone. */
  ghost function DeleteStep(db: Db, userId: nat, noteId: int): (out: (Response<()>, Db))
    ensures out.1.users == db.users
    ensures out.0.Fail? ==> out.0 == Fail(NoteNotFound) && out.1 == db
    ensures out.0.Fail? <==> OwnedNote(db, userId, noteId).None?
    ensures out.0.Ok? ==> noteId in db.notes && noteId !in out.1.notes && out.1.notes.Keys == db.notes.Keys - {noteId}
  {
    match OwnedNote(db, userId, noteId)
    case None => (Fail(NoteNotFound), db)
    case Some(_) => (Ok(204, ()), db.(notes := db.notes - {noteId}))
  }

  /** `summarize_note`: 404 unless the caller owns the note, else only the summary is written. */
  ghost function SummarizeStep(db: Db, userId: nat, noteId: int, aiConfigured: bool, outcome: AiService.CallOutcome)
    : (out: (Response<Note>, Db))
    ensures out.1.users == db.users
    ensures out.0.Fail? ==> out.0 == Fail(NoteNotFound) && out.1 == db
    ensures out.0.Fail? <==> OwnedNote(db, userId, noteId).None?
    ensures out.0.Ok? ==> noteId in db.notes && out.1.notes == db.notes[noteId := out.0.value]
    ensures out.0.Ok? ==> out.0.value.title == db.notes[noteId].title && out.0.value.content == db.notes[noteId].content
    ensures out.0.Ok? ==> out.0.value.summary.Some? && out.0.value.ownerId == userId
  {
    match OwnedNote(db, userId, noteId)
    case None => (Fail(NoteNotFound), db)
    case Some(note) =>
      var summary := AiService.SummarizeText(aiConfigured, note.content, outcome).result;
      var updated := Touch(note, note.title, note.content, Some(summary), db.clock);
      (Ok(200, updated), db.(notes := db.notes[noteId := updated], clock := db.clock + 1))
  }

  // ---------------------------------------------------------------------------
  // Per-endpoint properties

  /**
   * Signup rejects a registered email with 400 and changes nothing; otherwise it
   * adds exactly one user, under a fresh id, that the email now resolves to, and
   * answers a bearer token for that email. Existing users and all notes stay.
   */
  lemma SignupOutcome(db: Db, form: UserCreate, auth: AuthService)
    requires db.Valid()
    ensures var (r, after) := SignupStep(db, form, auth);
      && after.Valid()
      && after.notes == db.notes
      && (forall k :: k in db.users ==> k in after.users && after.users[k] == db.users[k])
      && (EmailRegistered(db.users, form.email) ==> r == Fail(EmailTaken) && after == db)
      && (!EmailRegistered(db.users, form.email) ==>
            && r == Ok(200, Token(auth.createToken(form.email), "bearer"))
            && db.nextUserId !in db.users
            && after.users.Keys == db.users.Keys + {db.nextUserId}
            && |after.users| == |db.users| + 1
            && UserWithEmail(after.users, form.email)
               == Some(User(db.nextUserId, form.email, auth.hash(form.password))))
  {
    if !EmailRegistered(db.users, form.email) {
      SignupFresh(db, form, auth);
    }
  }

  /** The fresh-email case of signup: the new row keeps both keys and emails unique. */
  lemma SignupFresh(db: Db, form: UserCreate, auth: AuthService)
    requires db.Valid() && !EmailRegistered(db.users, form.email)
    ensures var after := SignupStep(db, form, auth).1;
      && after.Valid()
      && UserWithEmail(after.users, form.email) == Some(User(db.nextUserId, form.email, auth.hash(form.password)))
  {
    var user := User(db.nextUserId, form.email, auth.hash(form.password));
    var after := db.(users := db.users[user.id := user], nextUserId := db.nextUserId + 1);
    assert SignupStep(db, form, auth).1 == after;
    assert db.nextUserId !in db.users;
    assert UsersKeyedById(after.users);
    assert UniqueEmails(after.users) by {
      forall a, b | a in after.users && b in after.users && after.users[a].email == after.users[b].email
        ensures a == b
      {
        if a != user.id && b != user.id {
          assert db.users[a].email == db.users[b].email;
        }
      }
    }
    assert OwnersExist(after.notes, after.users);
    UserWithEmailUnique(after.users, user.id);
  }

  /** A second signup with the same email fails with 400, whatever the password. */
  lemma SignupTwice(db: Db, form: UserCreate, password: string, auth: AuthService)
    requires db.Valid()
    ensures var after := SignupStep(db, form, auth).1;
      SignupStep(after, UserCreate(form.email, password), auth) == (Fail(EmailTaken), after)
  {
    SignupOutcome(db, form, auth);
  }

  /**
   * Login answers a token for the email exactly when a user has that email and
   * the password verifies against its hash; both failures give the same 401.
   */
  lemma LoginOutcome(db: Db, form: UserCreate, auth: AuthService)
    requires db.Valid()
    ensures var r := LoginStep(db, form, auth);
      && (r.Fail? ==> r == Fail(BadCredentials))
      && (r.Ok? <==> exists k :: k in db.users && db.users[k].email == form.email &&
                                 auth.verify(form.password, db.users[k].hashedPassword))
      && (r.Ok? ==> r == Ok(200, Token(auth.createToken(form.email), "bearer")))
  {
    if k :| k in db.users && db.users[k].email == form.email && auth.verify(form.password, db.users[k].hashedPassword) {
      UserWithEmailUnique(db.users, k);
    }
  }

  /** After signing up, logging in with the same password succeeds when verification accepts the stored hash. */
  lemma SignupThenLogin(db: Db, form: UserCreate, auth: AuthService)
    requires db.Valid() && !EmailRegistered(db.users, form.email)
    requires auth.verify(form.password, auth.hash(form.password))
    ensures LoginStep(SignupStep(db, form, auth).1, form, auth)
            == SignupStep(db, form, auth).0
  {
    SignupOutcome(db, form, auth);
  }

  /**
   * Create adds one note under a fresh id, owned by the caller, with the input's
   * title and content (empty strings included), no summary, and both timestamps
   * set to the current tick; users and all earlier notes are unchanged.
   */
  lemma CreateOutcome(db: Db, userId: nat, input: NoteCreate)
    requires db.Valid() && userId in db.users
    ensures var (n, after) := CreateStep(db, userId, input);
      && after.Valid()
      && n.id !in db.notes && after.notes == db.notes[n.id := n]
      && n.ownerId == userId && n.title == input.title && n.content == input.content
      && n.summary == None && n.createdAt == n.updatedAt == db.clock
      && after.users == db.users
  {
  }

  /**
   * Round trip: the caller's listing after a create is the listing before it
   * plus the new note, which appears exactly once; nobody else's listing changes.
   */
  lemma CreateThenList(db: Db, userId: nat, input: NoteCreate, before: seq<Note>, listing: seq<Note>)
    requires db.Valid() && userId in db.users
    requires IsRecencyListing(db, userId, before)
    requires IsRecencyListing(CreateStep(db, userId, input).1, userId, listing)
    ensures var n := CreateStep(db, userId, input).0;
      multiset(listing) == multiset(before) + multiset{n} && multiset(listing)[n] == 1
    ensures forall other :: other != userId ==>
      OwnedNotes(CreateStep(db, userId, input).1.notes, other) == OwnedNotes(db.notes, other)
  {
    var (n, after) := CreateStep(db, userId, input);
    forall other ensures OwnedNotes(after.notes, other) == OwnedNotes(db.notes, other) + (if other == userId then {n} else {}) {
      OwnedNotesAfterInsert(db.notes, after.notes, n, other);
    }
    assert n !in OwnedNotes(db.notes, userId);
  }

  /** Inserting a row under a fresh key adds it to its owner's rows and to no one else's. */
  lemma OwnedNotesAfterInsert(notes: map<nat, Note>, after: map<nat, Note>, n: Note, u: nat)
    requires n.id !in notes && after == notes[n.id := n]
    ensures OwnedNotes(after, u) == OwnedNotes(notes, u) + (if n.ownerId == u then {n} else {})
  {
    var before, now := NotesOf(notes, u), NotesOf(after, u);
    forall x | x in OwnedNotes(after, u) ensures x in OwnedNotes(notes, u) || (x == n && n.ownerId == u) {
      var k :| k in now && now[k] == x;
      if k != n.id {
        assert k in before && before[k] == x;
      }
    }
    forall x | x in OwnedNotes(notes, u) ensures x in OwnedNotes(after, u) {
      var k :| k in before && before[k] == x;
      assert k in now && now[k] == x;
    }
    if n.ownerId == u {
      assert n.id in now && now[n.id] == n;
    }
  }

  /**
   * Update answers 404 and changes nothing unless the caller owns the note. On
   * success the note gets the input's title and content and no summary, keeps
   * its id, owner and creation time, and no other note changes.
   */
  lemma UpdateOutcome(db: Db, userId: nat, noteId: int, input: NoteCreate)
    requires db.Valid()
    ensures var (r, after) := UpdateStep(db, userId, noteId, input);
      && after.Valid()
      && after.users == db.users
      && (OwnedNote(db, userId, noteId).None? ==> r == Fail(NoteNotFound) && after == db)
      && (OwnedNote(db, userId, noteId).Some? ==>
            var prior := db.notes[noteId];
            && r.Ok? && r.code == 200
            && after.notes == db.notes[noteId := r.value]
            && r.value.title == input.title && r.value.content == input.content
            && r.value.summary == None
            && r.value.id == noteId && r.value.ownerId == userId && r.value.createdAt == prior.createdAt
            && r.value.updatedAt == (if r.value == prior then prior.updatedAt else db.clock))
  {
  }

  /**
   * Delete answers 404 and changes nothing unless the caller owns the note;
   * otherwise it removes that one row and nothing else.
   */
  lemma DeleteOutcome(db: Db, userId: nat, noteId: int)
    requires db.Valid()
    ensures var (r, after) := DeleteStep(db, userId, noteId);
      && after.Valid()
      && after.users == db.users
      && (OwnedNote(db, userId, noteId).None? ==> r == Fail(NoteNotFound) && after == db)
      && (OwnedNote(db, userId, noteId).Some? ==>
            && r == Ok(204, ())
            && after.notes == db.notes - {noteId}
            && |after.notes| == |db.notes| - 1)
  {
    if noteId in db.notes {
      assert db.notes.Keys == (db.notes - {noteId}).Keys + {noteId};
    }
  }

  /** Deleting the same note twice: the second request answers 404. */
  lemma DeleteTwice(db: Db, userId: nat, noteId: int)
    requires db.Valid() && OwnedNote(db, userId, noteId).Some?
    ensures var after := DeleteStep(db, userId, noteId).1;
      DeleteStep(after, userId, noteId) == (Fail(NoteNotFound), after)
  {
  }

  /**
   * Summarize answers 404 and changes nothing unless the caller owns the note.
   * On success only the summary is written, with what `summarize_text` returns
   * for the note's content; title, content, id, owner and creation time stay,
   * and no other note changes.
   */
  lemma SummarizeOutcome(db: Db, userId: nat, noteId: int, aiConfigured: bool, outcome: AiService.CallOutcome)
    requires db.Valid()
    ensures var (r, after) := SummarizeStep(db, userId, noteId, aiConfigured, outcome);
      && after.Valid()
      && after.users == db.users
      && (OwnedNote(db, userId, noteId).None? ==> r == Fail(NoteNotFound) && after == db)
      && (OwnedNote(db, userId, noteId).Some? ==>
            var prior := db.notes[noteId];
            && r.Ok? && r.code == 200
            && after.notes == db.notes[noteId := r.value]
            && r.value == Touch(prior, prior.title, prior.content, r.value.summary, db.clock)
            && r.value.summary == Some(AiService.SummarizeText(aiConfigured, prior.content, outcome).result)
            && r.value.title == prior.title && r.value.content == prior.content
            && r.value.id == noteId && r.value.ownerId == userId && r.value.createdAt == prior.createdAt)
  {
  }

  /** A listing holds only the caller's own rows, exactly as stored. */
  lemma ListingIsolation(db: Db, userId: nat, listing: seq<Note>)
    requires db.Valid() && IsRecencyListing(db, userId, listing)
    ensures forall i :: 0 <= i < |listing| ==>
      listing[i].ownerId == userId && listing[i].id in db.notes && db.notes[listing[i].id] == listing[i]
  {
    forall i | 0 <= i < |listing|
      ensures listing[i].ownerId == userId && listing[i].id in db.notes && db.notes[listing[i].id] == listing[i]
    {
      assert listing[i] in multiset(listing);
      assert listing[i] in OwnedNotes(db.notes, userId);
    }
  }

  /**
   * Two listings of the same state hold the same notes and carry the same
   * `updated_at` at every position: they can differ only in the order of notes
   * updated at the same time.
   */
  lemma ListingsAgree(db: Db, userId: nat, a: seq<Note>, b: seq<Note>)
    requires IsRecencyListing(db, userId, a) && IsRecencyListing(db, userId, b)
    ensures |a| == |b| && forall i :: 0 <= i < |a| ==> a[i] in b
    ensures forall i :: 0 <= i < |a| ==> a[i].updatedAt == b[i].updatedAt
  {
    assert |a| == |multiset(a)| == |multiset(b)| == |b|;
    forall i | 0 <= i < |a| ensures a[i] in b {
      assert a[i] in multiset(a);
    }
    SameStamps(a, b);
  }

  /**
   * Two listings sorted newest first that hold the same notes carry the same
   * `updated_at` at every position.
   */
  lemma {:induction false} SameStamps(a: seq<Note>, b: seq<Note>)
    requires SortedByRecency(a) && SortedByRecency(b) && multiset(a) == multiset(b)
    ensures |a| == |b| && forall i :: 0 <= i < |a| ==> a[i].updatedAt == b[i].updatedAt
    decreases |a|
  {
    assert |a| == |multiset(a)| == |multiset(b)| == |b|;
    if a != [] {
      assert a[0] in multiset(b);
      var j :| 0 <= j < |b| && b[j] == a[0];
      HeadsAgree(a, b, j);
      RestPermutation(a, b, j);
      SortedWithout(b, j);
      SameStamps(a[1..], b[..j] + b[j + 1..]);
      StampsAcrossRemoval(a, b, j);
    }
  }

  lemma HeadsAgree(a: seq<Note>, b: seq<Note>, j: nat)
    requires SortedByRecency(a) && SortedByRecency(b) && multiset(a) == multiset(b)
    requires j < |b| && a != [] && b[j] == a[0]
    ensures a[0].updatedAt == b[0].updatedAt == b[j].updatedAt
  {
    assert b[0] in multiset(a);
    var m :| 0 <= m < |a| && a[m] == b[0];
    if m > 0 { assert a[0].updatedAt >= a[m].updatedAt; }
    if j > 0 { assert b[0].updatedAt >= b[j].updatedAt; }
  }

  lemma RestPermutation(a: seq<Note>, b: seq<Note>, j: nat)
    requires multiset(a) == multiset(b) && j < |b| && a != [] && b[j] == a[0]
    ensures multiset(a[1..]) == multiset(b[..j] + b[j + 1..])
  {
    RemoveAt(b, j);
    RemoveAt(a, 0);
    assert a[..0] + a[1..] == a[1..];
    MultisetCancel(multiset(a[1..]), multiset(b[..j] + b[j + 1..]), a[0]);
  }

  /**
   * The inductive step of SameStamps: `a` minus its head matches `b` minus its
   * `j`-th note, and that note is as recent as `b`'s head.
   */
  lemma StampsAcrossRemoval(a: seq<Note>, b: seq<Note>, j: nat)
    requires SortedByRecency(b) && j < |b| == |a|
    requires a[0].updatedAt == b[0].updatedAt == b[j].updatedAt
    requires var rest := b[..j] + b[j + 1..];
      forall i :: 0 <= i < |rest| ==> a[1..][i].updatedAt == rest[i].updatedAt
    ensures forall i :: 0 <= i < |a| ==> a[i].updatedAt == b[i].updatedAt
  {
    var rest := b[..j] + b[j + 1..];
    forall i | 0 < i < |a| ensures a[i].updatedAt == b[i].updatedAt {
      assert a[i] == a[1..][i - 1];
      if i <= j {
        assert rest[i - 1] == b[i - 1];
        assert b[0].updatedAt >= b[i - 1].updatedAt >= b[i].updatedAt;
        if i < j { assert b[i].updatedAt >= b[j].updatedAt; }
      } else {
        assert rest[i - 1] == b[i];
      }
    }
  }

  /** Leaving one note out of a sorted listing keeps it sorted. */
  lemma SortedWithout(b: seq<Note>, j: nat)
    requires SortedByRecency(b) && j < |b|
    ensures SortedByRecency(b[..j] + b[j + 1..])
  {
    var rest := b[..j] + b[j + 1..];
    forall p, q | 0 <= p < q < |rest| ensures rest[p].updatedAt >= rest[q].updatedAt {
      var p', q' := if p < j then p else p + 1, if q < j then q else q + 1;
      assert rest[p] == b[p'] && rest[q] == b[q'];
    }
  }

  /** Taking one element out of a sequence takes it out of its multiset. */
  lemma RemoveAt<T>(s: seq<T>, j: nat)
    requires j < |s|
    ensures multiset(s) == multiset(s[..j] + s[j + 1..]) + multiset{s[j]}
  {
    assert s == s[..j] + [s[j]] + s[j + 1..];
  }

  lemma MultisetCancel<T>(p: multiset<T>, q: multiset<T>, x: T)
    requires p + multiset{x} == q + multiset{x}
    ensures p == q
  {
    forall z ensures p[z] == q[z] {
      assert (p + multiset{x})[z] == (q + multiset{x})[z];
    }
  }

  // ---------------------------------------------------------------------------
  // Any sequence of requests

  /** An HTTP request, with the user its bearer token resolves to for the note endpoints. */
  datatype Request =
    | Signup(form: UserCreate)
    | Login(form: UserCreate)
    | ReadNotes(user: nat)
    | CreateNote(user: nat, input: NoteCreate)
    | UpdateNote(user: nat, noteId: int, input: NoteCreate)
    | DeleteNote(user: nat, noteId: int)
    | SummarizeNote(user: nat, noteId: int, outcome: AiService.CallOutcome)
  {
    /** Whether the request acts as user `u`. */
    predicate ActsAs(u: nat) {
      !Signup? && !Login? && user == u
    }
  }

  /**
   * The state after one request. A note request whose user no longer exists is
   * rejected by token resolution before the store is touched.
   */
  ghost function Apply(db: Db, req: Request, auth: AuthService, aiConfigured: bool): Db {
    match req
    case Signup(form) => SignupStep(db, form, auth).1
    case Login(_) => db
    case ReadNotes(_) => db
    case CreateNote(u, input) => if u in db.users then CreateStep(db, u, input).1 else db
    case UpdateNote(u, id, input) => if u in db.users then UpdateStep(db, u, id, input).1 else db
    case DeleteNote(u, id) => if u in db.users then DeleteStep(db, u, id).1 else db
    case SummarizeNote(u, id, outcome) =>
      if u in db.users then SummarizeStep(db, u, id, aiConfigured, outcome).1 else db
  }

  /** The state after a sequence of requests, handled one at a time. */
  ghost function Run(db: Db, reqs: seq<Request>, auth: AuthService, aiConfigured: bool): Db
    decreases |reqs|
  {
    if reqs == [] then db else Run(Apply(db, reqs[0], auth, aiConfigured), reqs[1..], auth, aiConfigured)
  }

  lemma ApplyKeepsValid(db: Db, req: Request, auth: AuthService, aiConfigured: bool)
    requires db.Valid()
    ensures Apply(db, req, auth, aiConfigured).Valid()
  {
    match req
    case Signup(form) => SignupKeepsValid(db, form, auth);
    case Login(_) =>
    case ReadNotes(_) =>
    case CreateNote(u, input) => if u in db.users { CreateKeepsValid(db, u, input); }
    case UpdateNote(u, id, input) => UpdateKeepsValid(db, u, id, input);
    case DeleteNote(u, id) => DeleteKeepsValid(db, u, id);
    case SummarizeNote(u, id, outcome) => SummarizeKeepsValid(db, u, id, aiConfigured, outcome);
  }

  lemma SignupKeepsValid(db: Db, form: UserCreate, auth: AuthService)
    requires db.Valid()
    ensures SignupStep(db, form, auth).1.Valid()
  {
    SignupOutcome(db, form, auth);
  }

  lemma CreateKeepsValid(db: Db, userId: nat, input: NoteCreate)
    requires db.Valid() && userId in db.users
    ensures CreateStep(db, userId, input).1.Valid()
  {
    CreateOutcome(db, userId, input);
  }

  lemma UpdateKeepsValid(db: Db, userId: nat, noteId: int, input: NoteCreate)
    requires db.Valid()
    ensures UpdateStep(db, userId, noteId, input).1.Valid()
  {
    UpdateOutcome(db, userId, noteId, input);
  }

  lemma DeleteKeepsValid(db: Db, userId: nat, noteId: int)
    requires db.Valid()
    ensures DeleteStep(db, userId, noteId).1.Valid()
  {
    DeleteOutcome(db, userId, noteId);
  }

  lemma SummarizeKeepsValid(db: Db, userId: nat, noteId: int, aiConfigured: bool, outcome: AiService.CallOutcome)
    requires db.Valid()
    ensures SummarizeStep(db, userId, noteId, aiConfigured, outcome).1.Valid()
  {
    SummarizeOutcome(db, userId, noteId, aiConfigured, outcome);
  }

  /** Every reachable state satisfies the table constraints. */
  lemma {:induction false} RunKeepsValid(db: Db, reqs: seq<Request>, auth: AuthService, aiConfigured: bool)
    requires db.Valid()
    ensures Run(db, reqs, auth, aiConfigured).Valid()
    decreases |reqs|
  {
    if reqs != [] {
      ApplyKeepsValid(db, reqs[0], auth, aiConfigured);
      RunKeepsValid(Apply(db, reqs[0], auth, aiConfigured), reqs[1..], auth, aiConfigured);
    }
  }

  /** A request not acting as `u` leaves `u`'s notes exactly as they were. */
  lemma ApplyIsolation(db: Db, req: Request, u: nat, auth: AuthService, aiConfigured: bool)
    requires db.Valid() && !req.ActsAs(u)
    ensures NotesOf(Apply(db, req, auth, aiConfigured).notes, u) == NotesOf(db.notes, u)
  {
    var after := Apply(db, req, auth, aiConfigured);
    match req
    case Signup(form) =>
    case Login(_) =>
    case ReadNotes(_) =>
    case CreateNote(v, input) =>
      if v in db.users {
        NotesOfWrite(db.notes, db.nextNoteId, CreateStep(db, v, input).0, u);
      }
    case UpdateNote(v, id, input) =>
      if v in db.users && OwnedNote(db, v, id).Some? {
        NotesOfWrite(db.notes, id, UpdateStep(db, v, id, input).0.value, u);
      }
    case DeleteNote(v, id) =>
      if v in db.users && OwnedNote(db, v, id).Some? {
        NotesOfRemove(db.notes, id, u);
      }
    case SummarizeNote(v, id, outcome) =>
      if v in db.users && OwnedNote(db, v, id).Some? {
        NotesOfWrite(db.notes, id, SummarizeStep(db, v, id, aiConfigured, outcome).0.value, u);
      }
  }

  /** Writing a row that neither was nor becomes `u`'s leaves `u`'s part of the table alone. */
  lemma NotesOfWrite(notes: map<nat, Note>, k: int, n: Note, u: nat)
    requires k >= 0
    requires k in notes ==> notes[k].ownerId != u
    requires n.ownerId != u
    ensures NotesOf(notes[k := n], u) == NotesOf(notes, u)
  {
    assert NotesOf(notes[k := n], u).Keys == NotesOf(notes, u).Keys;
  }

  /** Removing a row that is not `u`'s leaves `u`'s part of the table alone. */
  lemma NotesOfRemove(notes: map<nat, Note>, k: int, u: nat)
    requires k in notes ==> notes[k].ownerId != u
    ensures NotesOf(notes - {k}, u) == NotesOf(notes, u)
  {
    assert NotesOf(notes - {k}, u).Keys == NotesOf(notes, u).Keys;
  }

  /**
   * Ownership isolation: whatever other users (and anonymous signups and logins)
   * request, in any order, a user's notes are neither modified, created nor deleted.
   */
  lemma {:induction false} RunIsolation(db: Db, reqs: seq<Request>, u: nat, auth: AuthService, aiConfigured: bool)
    requires db.Valid()
    requires forall i :: 0 <= i < |reqs| ==> !reqs[i].ActsAs(u)
    ensures NotesOf(Run(db, reqs, auth, aiConfigured).notes, u) == NotesOf(db.notes, u)
    decreases |reqs|
  {
    if reqs != [] {
      ApplyIsolation(db, reqs[0], u, auth, aiConfigured);
      ApplyKeepsValid(db, reqs[0], auth, aiConfigured);
      RunIsolation(Apply(db, reqs[0], auth, aiConfigured), reqs[1..], u, auth, aiConfigured);
    }
  }
}
