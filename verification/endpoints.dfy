/**
 * The endpoint handlers over an in-memory store. Each field is one piece of the
 * committed database; each handler queries, assigns and commits as its endpoint
 * does, and its postcondition says the committed state and the response are
 * exactly those of the matching transition in NoteStore.
 */
module Endpoints {

  import opened Wrappers
  import opened Models
  import opened NoteStore
  import AiService

  /** Inserts a note into a listing, after every note updated at the same time or later. */
  function InsertByRecency(s: seq<Note>, n: Note): (r: seq<Note>)
    requires SortedByRecency(s)
    ensures SortedByRecency(r)
    ensures multiset(r) == multiset(s) + multiset{n}
    ensures r[0] == n || r[0] == s[0]
  {
    if s == [] || s[0].updatedAt <= n.updatedAt then
      SortedCons(n, s);
      [n] + s
    else
      var rest := InsertByRecency(s[1..], n);
      assert s == [s[0]] + s[1..];
      SortedCons(s[0], rest);
      [s[0]] + rest
  }

  /** A note no older than the head of a sorted listing can go in front of it. */
  lemma SortedCons(x: Note, t: seq<Note>)
    requires SortedByRecency(t) && (t == [] || x.updatedAt >= t[0].updatedAt)
    ensures SortedByRecency([x] + t)
  {
    var r := [x] + t;
    forall i, j | 0 <= i < j < |r| ensures r[i].updatedAt >= r[j].updatedAt {
      if i == 0 && j > 1 {
        assert t[0].updatedAt >= t[j - 1].updatedAt;
      }
    }
  }

  /** The part of `notes` under the keys `keys`: what a scan has visited so far. */
  ghost function Scanned(notes: map<nat, Note>, keys: set<nat>): map<nat, Note> {
    map k | k in keys && k in notes :: notes[k]
  }

  /** Scanning one more key adds that key's row, if it is the user's, and it was not there yet. */
  lemma ScanStep(notes: map<nat, Note>, userId: nat, keys: set<nat>, k: nat)
    requires NotesKeyedById(notes) && k in notes && k !in keys
    ensures multiset(OwnedNotes(Scanned(notes, keys + {k}), userId))
            == multiset(OwnedNotes(Scanned(notes, keys), userId))
               + (if notes[k].ownerId == userId then multiset{notes[k]} else multiset{})
  {
    var before := Scanned(notes, keys);
    assert Scanned(notes, keys + {k}) == before[k := notes[k]];
    OwnedNotesAfterInsert(before, before[k := notes[k]], notes[k], userId);
    assert notes[k] !in OwnedNotes(before, userId);
  }

  class Store {
    var users: map<nat, User>
    var notes: map<nat, Note>
    var clock: nat
    var nextUserId: nat
    var nextNoteId: nat
    /** The auth helpers the handlers call. */
    const auth: AuthService
    /** Whether the summarisation client was configured at start-up. */
    const aiConfigured: bool

    ghost function State(): Db
      reads this
    {
      Db(users, notes, clock, nextUserId, nextNoteId)
    }

    ghost predicate Valid()
      reads this
    {
      State().Valid()
    }

    /** Empty tables, created at start-up. */
    constructor (auth: AuthService, aiConfigured: bool)
      ensures Valid() && State() == EmptyDb
      ensures this.auth == auth && this.aiConfigured == aiConfigured
    {
      users, notes := map[], map[];
      clock, nextUserId, nextNoteId := 0, 1, 1;
      this.auth, this.aiConfigured := auth, aiConfigured;
    }

    /** Scans the users table for the row with this email. */
    method FindUserByEmail(email: string) returns (found: Option<User>)
      requires Valid()
      ensures found == UserWithEmail(users, email)
    {
      found := None;
      var pending := users.Keys;
      while found.None? && pending != {}
        invariant pending <= users.Keys
        invariant found.None? ==> forall k :: k in users.Keys - pending ==> users[k].email != email
        invariant found.Some? ==> found.value.id in users && users[found.value.id] == found.value
                                  && found.value.email == email
        decreases pending
      {
        var k :| k in pending;
        if users[k].email == email {
          found := Some(users[k]);
        }
        pending := pending - {k};
      }
      if found.Some? {
        UserWithEmailUnique(users, found.value.id);
      }
    }

    /** POST /signup */
    method Signup(form: UserCreate) returns (r: Response<Token>)
      requires Valid()
      modifies this
      ensures Valid()
      ensures (r, State()) == SignupStep(old(State()), form, auth)
    {
      var existing := FindUserByEmail(form.email);
      if existing.Some? {
        return Fail(EmailTaken);
      }
      var user := User(nextUserId, form.email, auth.hash(form.password));
      users := users[user.id := user];
      nextUserId := nextUserId + 1;
      r := Ok(200, Token(auth.createToken(user.email), "bearer"));
      SignupOutcome(old(State()), form, auth);
    }

    /** POST /token: one answer for an unknown email and for a wrong password. */
    method Login(form: UserCreate) returns (r: Response<Token>)
      requires Valid()
      ensures r == LoginStep(State(), form, auth)
      ensures r.Fail? ==> r == Fail(BadCredentials)
      ensures r.Ok? <==> exists k :: k in users && users[k].email == form.email &&
                                     auth.verify(form.password, users[k].hashedPassword)
    {
      var user := FindUserByEmail(form.email);
      if user.None? || !auth.verify(form.password, user.value.hashedPassword) {
        r := Fail(BadCredentials);
      } else {
        r := Ok(200, Token(auth.createToken(user.value.email), "bearer"));
      }
      LoginOutcome(State(), form, auth);
    }

    /** GET /notes: a scan of the notes table, kept sorted by `updated_at`, newest first. */
    method ReadNotes(userId: nat) returns (listing: seq<Note>)
      requires Valid()
      ensures IsRecencyListing(State(), userId, listing)
    {
      listing := [];
      var pending := notes.Keys;
      while pending != {}
        invariant pending <= notes.Keys
        invariant SortedByRecency(listing)
        invariant multiset(listing) == multiset(OwnedNotes(Scanned(notes, notes.Keys - pending), userId))
        decreases pending
      {
        var k :| k in pending;
        ScanStep(notes, userId, notes.Keys - pending, k);
        assert notes.Keys - (pending - {k}) == (notes.Keys - pending) + {k};
        if notes[k].ownerId == userId {
          listing := InsertByRecency(listing, notes[k]);
        }
        pending := pending - {k};
      }
      assert Scanned(notes, notes.Keys - pending) == notes;
    }

    /** POST /notes (answers 201 with the new note). */
    method CreateNote(userId: nat, input: NoteCreate) returns (n: Note)
      requires Valid() && userId in users
      modifies this
      ensures Valid()
      ensures (n, State()) == CreateStep(old(State()), userId, input)
    {
      n := NewNote(input, nextNoteId, userId, clock);
      notes := notes[n.id := n];
      nextNoteId := nextNoteId + 1;
      clock := clock + 1;
      CreateOutcome(old(State()), userId, input);
    }

    /** PUT /notes/{id} */
    method UpdateNote(userId: nat, noteId: int, input: NoteCreate) returns (r: Response<Note>)
      requires Valid()
      modifies this
      ensures Valid()
      ensures (r, State()) == UpdateStep(old(State()), userId, noteId, input)
    {
      if noteId !in notes || notes[noteId].ownerId != userId {
        return Fail(NoteNotFound);
      }
      var note := Touch(notes[noteId], input.title, input.content, None, clock);
      notes := notes[noteId := note];
      clock := clock + 1;
      r := Ok(200, note);
      UpdateOutcome(old(State()), userId, noteId, input);
    }

    /** DELETE /notes/{id} (answers 204, no body). */
    method DeleteNote(userId: nat, noteId: int) returns (r: Response<()>)
      requires Valid()
      modifies this
      ensures Valid()
      ensures (r, State()) == DeleteStep(old(State()), userId, noteId)
    {
      if noteId !in notes || notes[noteId].ownerId != userId {
        return Fail(NoteNotFound);
      }
      notes := notes - {noteId};
      r := Ok(204, ());
      DeleteOutcome(old(State()), userId, noteId);
    }

    /** POST /notes/{id}/summarize, where `outcome` is what the external call would do. */
    method SummarizeNote(userId: nat, noteId: int, outcome: AiService.CallOutcome) returns (r: Response<Note>)
      requires Valid()
      modifies this
      ensures Valid()
      ensures (r, State()) == SummarizeStep(old(State()), userId, noteId, aiConfigured, outcome)
    {
      if noteId !in notes || notes[noteId].ownerId != userId {
        return Fail(NoteNotFound);
      }
      var note := notes[noteId];
      var run := AiService.SummarizeText(aiConfigured, note.content, outcome);
      note := Touch(note, note.title, note.content, Some(run.result), clock);
      notes := notes[noteId := note];
      clock := clock + 1;
      r := Ok(200, note);
      SummarizeOutcome(old(State()), userId, noteId, aiConfigured, outcome);
    }
  }
}
