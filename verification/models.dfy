/**
 * The record shapes of the backend: the `users` and `notes` tables and the
 * request/response schemas. Timestamps are ticks of a logical clock.
 */
module Models {

  import opened Wrappers

  /** A row of the `users` table. */
  datatype User = User(id: nat, email: string, hashedPassword: string)

  /**
   * A row of the `notes` table. It is also the `Note` response schema, which
   * carries the same fields. `summary` is the only optional field of the
   * `Note` schema; the API never writes a null title or content.
   */
  datatype Note = Note(
    id: nat,
    title: string,
    content: string,
    summary: Option<string>,
    createdAt: nat,
    updatedAt: nat,
    ownerId: nat)

  /** Request body of signup and login. */
  datatype UserCreate = UserCreate(email: string, password: string)

  /** Request body of note creation and update: two arbitrary strings, empty ones included. */
  datatype NoteCreate = NoteCreate(title: string, content: string)

  /** Response body of signup and login. */
  datatype Token = Token(accessToken: string, tokenType: string)

  /** Each user row is stored under its primary key. */
  ghost predicate UsersKeyedById(users: map<nat, User>) {
    forall k :: k in users ==> users[k].id == k
  }

  /** Each note row is stored under its primary key. */
  ghost predicate NotesKeyedById(notes: map<nat, Note>) {
    forall k :: k in notes ==> notes[k].id == k
  }

  /** The `unique=True` constraint on `users.email`. */
  ghost predicate UniqueEmails(users: map<nat, User>) {
    forall a, b :: a in users && b in users && users[a].email == users[b].email ==> a == b
  }

  /** The foreign key `notes.owner_id -> users.id`. */
  ghost predicate OwnersExist(notes: map<nat, Note>, users: map<nat, User>) {
    forall k :: k in notes ==> notes[k].ownerId in users
  }

  /**
   * A fresh row built from a `NoteCreate`: the input's two strings are copied
   * unchecked, the summary starts null and both timestamps are `now`.
   */
  function NewNote(input: NoteCreate, id: nat, ownerId: nat, now: nat): (n: Note)
    ensures n.title == input.title && n.content == input.content
    ensures n.summary == None
    ensures n.id == id && n.ownerId == ownerId
    ensures n.createdAt == n.updatedAt == now
  {
    Note(id, input.title, input.content, None, now, now, ownerId)
  }
}
