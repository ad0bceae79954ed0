# Notes backend with AI summaries — a Dafny model

This project models the backend of a small note-taking service. Users sign up and log in with an email and a password. They keep private notes with a title and a content. On request, they can ask a hosted language model to write a summary of a note.

The model has four parts:

- `models.dfy` (module `Models`) holds the records: `User` and `Note` (the table rows) and `UserCreate`, `NoteCreate` and `Token` (the request and response bodies). It also holds the table constraints: primary keys, the unique email and the owner foreign key.
- `ai_service.dfy` (module `AiService`) holds the summarisation client. `ClientConfigured` is the check made once at start-up. `SummarizeText` is `summarize_text`, a pure function of three inputs: whether the client is configured, the text, and what the external call would do (`CallOutcome`: the contents of its choices, or an exception message). The function also returns the texts it sent to the service, so "the call is made" and "the call is not made" can be stated. Python's `str.strip()` is modelled exactly (`TrimStart`, `TrimEnd`, `Strip`).
- `note_store.dfy` (module `NoteStore`) models the database as a value `Db`: the users table, the notes table, a logical clock and the next primary keys. Each endpoint is a transition that gives the HTTP response and the committed state. `Db.Valid()` states the table constraints. The lemmas state what each endpoint promises. `Run` applies any sequence of requests, and the lemmas about it prove that every reachable state is valid and that users are isolated from each other.
- `endpoints.dfy` (module `Endpoints`) holds the class `Store`. Its fields are map-valued tables, a clock and id counters. Its methods are the endpoint handlers and update the fields in place. Each method is proved to commit exactly the state of the matching `NoteStore` transition and to give the same response. `FindUserByEmail` scans the users table with a loop. `ReadNotes` scans the notes table and inserts each of the caller's notes into a list kept newest first.

Some choices in the model:

- Timestamps are ticks of a logical clock. A create, update or summarise request uses the current tick and then advances the clock. A delete and a rejected request leave the clock alone.
- `updated_at` carries an `onupdate` default. It is refreshed only when the flush really issues an UPDATE, which happens when at least one column changed value (`NoteStore.Touch`). So an update refreshes it unless title, content and summary are all unchanged. A summarise request refreshes it whenever the stored summary changes.
- Three choices follow the code. (1) A summary write is a row update, so it refreshes `updated_at` as above. (2) Empty titles and contents are accepted, because the backend's request bodies do not check them. (3) An update clears the summary every time, even when the content is unchanged.
- The caller of a note endpoint is the user its bearer token resolves to. Only `Endpoints.Store.CreateNote` requires that user to exist, because it writes the user's id as the owner. The other note handlers work for any user id: a user who does not exist owns no note, so they answer 404 or an empty listing. In `NoteStore.Apply`, a request by a user who does not exist leaves the state unchanged, as the 401 answer of the token resolution does.
- A note id taken from the path is any integer. A negative id names no row, so it gets 404.

## Model

| member | source | states |
|---|---|---|
| AiService.ClientConfigured | Backend/ai_service.py:14-26 | The client exists exactly when the key, the endpoint and the deployment name are all set and non-empty and the client constructor did not raise: each direction is stated. |
| AiService.ApiVersionNotChecked | Backend/ai_service.py:14 | The check at line 14 does not read the API version: with the constructor's outcome held fixed, changing the version does not change whether the client is configured. |
| AiService.MissingCredentialsOffline | Backend/ai_service.py:14-31 | When any of the key, the endpoint or the deployment name is missing or empty, every summary request gets the offline notice and nothing is sent. |
| AiService.TrimStart | Backend/ai_service.py:48 | The result is a suffix of the input. Everything removed is whitespace (as Python's `isspace` defines it). The result is empty or does not start with whitespace. |
| AiService.TrimEnd | Backend/ai_service.py:48 | The result is a prefix of the input. Everything removed is whitespace. The result is empty or does not end with whitespace. |
| AiService.Strip | Backend/ai_service.py:48 | The result is a contiguous piece of the input with no whitespace at either end, and only whitespace comes before and after it in the input. |
| AiService.StripExact | Backend/ai_service.py:48 | Stripping whitespace, then a core that has no whitespace at either end, then whitespace, gives back exactly the core. |
| AiService.StripIdempotent | Backend/ai_service.py:48 | Stripping twice is the same as stripping once. |
| AiService.ReadCompletion | Backend/ai_service.py:38-51 | A raised call gives the error prefix and the exception's message. No choices gives the prefix and Python's index-error message. A null first content gives the prefix and Python's attribute-error message. Otherwise the answer is the first choice's content, stripped. |
| AiService.SummarizeText | Backend/ai_service.py:28-51 | The text is sent exactly once when the client is configured and the text has at least 50 characters, and never otherwise. Unconfigured gives the offline notice for every input, and this check comes before the length check. A text that is too short gives the too-short notice. A raised call gives the error prefix followed by the message. A completion gives its first choice, stripped. |
| AiService.NoCallNoDependence | Backend/ai_service.py:30-34 | When nothing is sent, the result does not depend on the outcome of the external call. |
| AiService.ResultKinds | Backend/ai_service.py:28-51 | The function never fails. It always returns one of: the offline notice, the too-short notice, a string that starts with the API-error prefix (this covers a raised call, no choices, and a null content), or a stripped completion that has no surrounding whitespace. |
| Models.NewNote | Backend/main.py:61 | A new note row takes the request's title and content, the given id and owner, no summary, and equal creation and update times. |
| NoteStore.EmptyDbValid | Backend/main.py:18 | The freshly created tables are empty and satisfy every table constraint. |
| NoteStore.UserWithEmail | Backend/main.py:29 | The email lookup finds a user exactly when some user has that email, and the user it finds is a row of the table with that email. |
| NoteStore.UserWithEmailUnique | Backend/models.py:17 | Since emails are unique, the lookup of a user's email finds that user. |
| NoteStore.OwnedNote | Backend/main.py:69-71 | The lookup finds a note exactly when a row has that id and belongs to the caller, and then it is that row. |
| NoteStore.Touch | Backend/models.py:28 | Assigning columns sets title, content and summary and keeps id, owner and `created_at`. A row in which some column changes gets `updated_at` set to now. A row in which no column changes is left exactly as it was. |
| NoteStore.SignupStep | Backend/main.py:27-40 | Signup fails exactly when the email is registered, and then it answers 400 and changes nothing. Otherwise it answers a bearer token for the email and adds exactly one id, the next user id. When that id is fresh, as in every valid state, every existing user row is kept unchanged. The email is then registered. Notes and the clock are untouched. |
| NoteStore.LoginStep | Backend/main.py:42-52 | Every failure is the same 401. A success is a bearer token for the email and needs the email to be registered. |
| NoteStore.CreateStep | Backend/main.py:59-65 | The new note is owned by the caller, has the input's title and content and no summary. It is stored under its id, users are unchanged and the clock advances. |
| NoteStore.UpdateStep | Backend/main.py:67-78 | It fails exactly when the caller owns no note with that id, and then it answers 404 and changes nothing. Otherwise the stored row is replaced by one with the input's title and content and a null summary. Users are unchanged. |
| NoteStore.DeleteStep | Backend/main.py:80-87 | It fails exactly when the caller owns no note with that id, and then it answers 404 and changes nothing. Otherwise the table loses exactly that id. Users are unchanged. |
| NoteStore.SummarizeStep | Backend/main.py:90-101 | It fails exactly when the caller owns no note with that id, and then it answers 404 and changes nothing. Otherwise the stored row is replaced by one that keeps its title, content and owner and has a summary. Users are unchanged. |
| NoteStore.SignupOutcome | Backend/main.py:27-40 | A registered email gets 400 and nothing changes. A new email adds exactly one user under a fresh id, and the email then resolves to that user. The response is a bearer token for that email. Existing users and all notes are unchanged, and the table constraints still hold. |
| NoteStore.SignupTwice | Backend/main.py:29-31 | A second signup with the same email fails with 400 whatever the password, and the state is unchanged. |
| NoteStore.LoginOutcome | Backend/main.py:42-52 | Login gives a token for the email exactly when a user has that email and the password verifies against that user's hash. An unknown email and a wrong password give the same 401 response. |
| NoteStore.SignupThenLogin | Backend/main.py:33-52 | After a signup, a login with the same password succeeds with a token for the same email, provided verification accepts the hash it stored. |
| NoteStore.CreateOutcome | Backend/main.py:59-65 | Create adds one note under a fresh id. The note is owned by the caller and has the input's title and content, empty strings included. It has no summary, and both timestamps are the current tick. Users and all earlier notes are unchanged, and the constraints still hold. |
| NoteStore.CreateThenList | Backend/main.py:57-65 | After a create, the caller's listing is the earlier listing plus the new note, and the new note appears exactly once. Every other user's rows are unchanged. |
| NoteStore.UpdateOutcome | Backend/main.py:67-78 | A note that is missing or owned by someone else gets 404 and nothing changes. Otherwise the note takes the input's title and content and its summary becomes null whatever it was. Its id, owner and `created_at` stay. `updated_at` is refreshed when the row changed. No other note and no user changes. |
| NoteStore.DeleteOutcome | Backend/main.py:80-87 | A note that is missing or owned by someone else gets 404 and nothing changes. Otherwise exactly that row is removed, the table shrinks by one and nothing else changes. The answer is 204. |
| NoteStore.DeleteTwice | Backend/main.py:82-85 | Deleting the same note a second time gets 404. |
| NoteStore.SummarizeOutcome | Backend/main.py:90-101 | A note that is missing or owned by someone else gets 404 and nothing changes. Otherwise only the summary is written, with the result of `summarize_text` on the note's content, and `updated_at` follows the update rule. Title, content, id, owner and `created_at` stay, and no other note changes. |
| NoteStore.ListingIsolation | Backend/main.py:57 | Every note in a caller's listing is owned by the caller and is exactly the stored row. |
| NoteStore.ListingsAgree | Backend/main.py:57 | Two listings of the same state have the same length and hold the same notes. At each position they have the same `updated_at`, so only the order of notes with equal `updated_at` may differ. |
| NoteStore.ApplyKeepsValid | Backend/models.py:14-29 | Every request keeps the constraints: unique ids and emails, existing owners, and `created_at <= updated_at` in the past. |
| NoteStore.RunKeepsValid | Backend/models.py:14-29 | Every state reachable from a valid state by any sequence of requests satisfies the table constraints. |
| NoteStore.ApplyIsolation | Backend/main.py:54-101 | A request that does not act as user `u` leaves `u`'s notes exactly as they were. |
| NoteStore.RunIsolation | Backend/main.py:54-101 | Any sequence of requests by other users, signups and logins never creates, modifies or deletes a note owned by `u`. |
| Endpoints.InsertByRecency | Backend/main.py:57 | Inserting into a listing sorted newest first keeps it sorted. The result holds the old elements plus the new note. |
| Endpoints.Store.constructor | Backend/main.py:18 | The store starts with empty, valid tables. |
| Endpoints.Store.FindUserByEmail | Backend/main.py:29 | The scan of the users table returns exactly the row the email lookup specifies. |
| Endpoints.Store.Signup | Backend/main.py:27-40 | It commits the signup transition and gives its response, and it keeps the constraints. |
| Endpoints.Store.Login | Backend/main.py:42-52 | It gives the login response and changes nothing. Both failures give the same 401. Success happens exactly when some user with that email has a hash that the password verifies against. |
| Endpoints.Store.ReadNotes | Backend/main.py:55-57 | It returns the caller's notes, each exactly once, sorted by `updated_at` with the newest first. |
| Endpoints.Store.CreateNote | Backend/main.py:59-65 | It commits the create transition and returns the new note, and it keeps the constraints. |
| Endpoints.Store.UpdateNote | Backend/main.py:67-78 | It commits the update transition and gives its response, and it keeps the constraints. |
| Endpoints.Store.DeleteNote | Backend/main.py:80-87 | It commits the delete transition and gives its response, and it keeps the constraints. |
| Endpoints.Store.SummarizeNote | Backend/main.py:90-101 | It commits the summarise transition and gives its response, and it keeps the constraints. |

## Left out

- The auth module is not part of this model. `NoteStore.AuthService` stands for its password hashing, password verification and token signing, as uninterpreted functions. Salted hashing, which can give a different hash for the same password, is modelled as a fixed function.
- Token expiry and the token's own claims are not modelled. A token is whatever the signing function returns for the email.
- Resolving a bearer token to a user is not modelled as a function. Only `Endpoints.Store.CreateNote` requires the user to exist. For the other note handlers, a user who does not exist gets 404 or an empty listing here, where the service answers 401 before the handler runs. `NoteStore.Apply` models that 401 as a rejection that changes nothing. The detail text of that 401 is not modelled.
- AiService.ClientConfigured: whether the client constructor returns, which may depend on the API version, is the free input `clientInitOk`. So the model does not say which versions the constructor accepts.
- Endpoints.Store.constructor: the store is only ever built empty. On a restart the tables are created only if missing, and existing rows are kept. That case is covered at the value level only, because the `NoteStore.Run` lemmas hold from any valid state.
- The `WWW-Authenticate` header of the login failure is not modelled.
- The database engine, sessions, commit and refresh are replaced by map fields, and each handler commits atomically. New ids come from counters and are never reused. How the engine actually picks a new primary key is not modelled.
- The database module is not part of this model.
- Wall-clock `utcnow` is replaced by the logical clock. Timestamps are not serialised to ISO-8601. The two column defaults of a new note each call `utcnow`, so the stored `created_at` and `updated_at` can differ by microseconds. `Models.NewNote` puts both on the same tick.
- The chat-completion request is not modelled: its prompt, model name, temperature and token limit. Neither is the network. `CallOutcome` stands for what the call returns or raises.
- The two `print` calls in the summarisation client are not modelled.
- The web client in `Frontend/app.py` is not modelled. It is UI and HTTP plumbing, and its non-empty check on title and content runs only in the client.
- Concurrent requests and lost updates are not modelled. Requests are applied one at a time.
- The order of notes with equal `updated_at` is left open, because any such order is accepted as a listing.
- Python strings may hold lone surrogate code points. A Dafny `char` cannot, so such texts are not modelled.
