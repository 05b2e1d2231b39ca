# Todo list and user table, modelled in Dafny

This project models the list logic of two small Express servers.

- **Todo server** (`todoServer.js`, module `TodoServer` in `todo_server.dfy`). The file `./data/todos.json` holds a list of records `{id, title, description}`. Here it is the `todos` field of class `TodoFile`. Every handler reads the list. GET only reads. POST always writes the new list back. PUT and DELETE write it back only when the id is found; on a 404 they leave it unchanged. A handler that writes is a method that reassigns the field. `findIndex` is a first-match linear search, and it is proved against the recursive reference function `IndexOf`. `removeAtIndex` builds a new list that skips one position. Ids come from the clock and can collide, so nothing here assumes they are unique. The lemmas say what that means for each handler: a read after a create can find an older record with the same id, and a delete removes only the first record that has the id.
- **Authentication server** (`authenticationServer.js`, module `AuthenticationServer` in `authentication_server.dfy`). The module-level `userList` is the `userList` field of class `UserTable`. The pure helpers `checkUserExists` (`some`), `loginUser` (`find`) and the `/data` projection (`map`) are functions over the list. The `/signup`, `/login` and `/data` handlers are methods of the class. The class invariant `Valid()` says no two users share an email, and signup preserves it.

New ids are passed in as parameters. In the source they come from the clock. Passwords are plain strings, compared for equality, as in the source. `Wrappers` (`wrappers.dfy`) defines the `Option` type, which plays the role of JavaScript's `undefined` search result.

## Model

| member | source | states |
|---|---|---|
| TodoServer.IndexOf | week-2/Week-2-Assignments/02-nodejs/todoServer.js:74-79 | reference first-match search: result in [-1, length); -1 exactly when no record has the id; otherwise that record has the id and no earlier one does |
| TodoServer.FindIndex | week-2/Week-2-Assignments/02-nodejs/todoServer.js:74-79 | the indexed loop with early return finds the first record with the id, or -1 exactly when there is none, and agrees with `IndexOf` |
| TodoServer.IndexOfFirstMatch | week-2/Week-2-Assignments/02-nodejs/todoServer.js:75-76 | a position holding the id with no earlier position holding it is the first-match result, which is what the early return in the loop relies on |
| TodoServer.RemoveAtIndex | week-2/Week-2-Assignments/02-nodejs/todoServer.js:138-144 | for an index inside the list the result is the list without that position (length one less, others in order); for an index outside it the result equals the input |
| TodoServer.CountId | week-2/Week-2-Assignments/02-nodejs/todoServer.js:74-79 | specification helper (the source keeps no count): number of records carrying an id; zero exactly when the first-match search finds nothing |
| TodoServer.CreateThenRead | week-2/Week-2-Assignments/02-nodejs/todoServer.js:97-105 | after appending a record, a read of its id finds the new record at the end, unless an earlier record already had that id, which then shadows it |
| TodoServer.UpdateThenRead | week-2/Week-2-Assignments/02-nodejs/todoServer.js:118-128 | replacing the first match with a record that keeps the id leaves it the first match, so a read after an update returns the updated record |
| TodoServer.DeleteRemovesOne | week-2/Week-2-Assignments/02-nodejs/todoServer.js:156 | removing a position takes exactly that record out of the list's multiset of records |
| TodoServer.CountIdConcat | week-2/Week-2-Assignments/02-nodejs/todoServer.js:138-144 | specification helper (the source keeps no count): the id count of a concatenation is the sum of the counts of its parts; used to state what removal does to the count |
| TodoServer.DeleteThenRead | week-2/Week-2-Assignments/02-nodejs/todoServer.js:151-156 | deleting the first match lowers that id's count by exactly one; if the id was unique, a read afterwards finds nothing |
| TodoServer.TodoFile.constructor | week-2/Week-2-Assignments/02-nodejs/todoServer.js:45 | the file object starts with the given contents |
| TodoServer.TodoFile.Get | week-2/Week-2-Assignments/02-nodejs/todoServer.js:85-91 | answers NotFound exactly when no record has the id; otherwise Ok with the first record that has it; the list is not changed |
| TodoServer.TodoFile.Post | week-2/Week-2-Assignments/02-nodejs/todoServer.js:97-108 | answers Created with the record built from the given id, title and description, appended as the one new last element; earlier records are unchanged |
| TodoServer.TodoFile.Put | week-2/Week-2-Assignments/02-nodejs/todoServer.js:118-131 | NotFound and no change when no record has the id; otherwise the same length, the first match keeps its id and takes the new title and description, every other index is untouched, and the reply carries the updated record |
| TodoServer.TodoFile.Delete | week-2/Week-2-Assignments/02-nodejs/todoServer.js:151-159 | NotFound and no change when no record has the id; otherwise exactly the first record with that id is removed, the rest stay in order, and the list's multiset loses exactly that record |
| AuthenticationServer.Matches | week-2/Week-2-Assignments/02-nodejs/authenticationServer.js:67 | the predicate `find` applies: both the email and the password equal the supplied ones |
| AuthenticationServer.Public | week-2/Week-2-Assignments/02-nodejs/authenticationServer.js:97 | the public view of a user: email, first name and last name, with no password |
| AuthenticationServer.CheckUserExists | week-2/Week-2-Assignments/02-nodejs/authenticationServer.js:58-62 | true exactly when some user in the list has the email |
| AuthenticationServer.LoginUser | week-2/Week-2-Assignments/02-nodejs/authenticationServer.js:65-69 | nothing exactly when no user matches both email and password; otherwise the first user that matches both |
| AuthenticationServer.PublicList | week-2/Week-2-Assignments/02-nodejs/authenticationServer.js:96-98 | same length and order as the user list; each entry has that user's email, first name and last name, and no password |
| AuthenticationServer.LoginOnUniqueTable | week-2/Week-2-Assignments/02-nodejs/authenticationServer.js:65-69 | on a table with unique emails, logging in with a registered email yields that user exactly when the password is theirs, and nothing otherwise |
| AuthenticationServer.AppendKeepsEmailsUnique | week-2/Week-2-Assignments/02-nodejs/authenticationServer.js:73-82 | appending a user whose email is not yet present keeps all emails distinct |
| AuthenticationServer.SignupThenLogin | week-2/Week-2-Assignments/02-nodejs/authenticationServer.js:72-90 | after a successful signup the email exists, so a second signup with it is refused, and the new credentials log in as the new user |
| AuthenticationServer.UserTable.constructor | week-2/Week-2-Assignments/02-nodejs/authenticationServer.js:50 | the table starts empty, so the uniqueness invariant holds |
| AuthenticationServer.UserTable.Signup | week-2/Week-2-Assignments/02-nodejs/authenticationServer.js:72-90 | Created exactly when no user had the email, and then exactly one user with the given id and fields is appended; otherwise BadRequest and the list is unchanged; email uniqueness is preserved |
| AuthenticationServer.UserTable.Login | week-2/Week-2-Assignments/02-nodejs/authenticationServer.js:107-117 | Unauthorized exactly when no user matches both credentials; otherwise the email and names of the first matching user, and no password; when emails are unique (the invariant signup keeps), a login with a registered email succeeds exactly when the password is that user's |
| AuthenticationServer.UserTable.Data | week-2/Week-2-Assignments/02-nodejs/authenticationServer.js:93-104 | succeeds exactly when some user matches both credentials, and then returns every user's email and names in table order, without passwords; otherwise Unauthorized |

## Left out

- Express routing, the CORS middleware, body parsing and the catch-all 404 routes. These are framework glue.
- `GET /todos` is not modelled. It only returns the file contents as they are.
- Reading and writing `./data/todos.json` and the JSON encoding are not modelled. The `todos` field stands for the file contents. Read and write failures are not modelled, and neither are the paths that send a second response after a 500 (`todoServer.js` lines 130-131 and 158), nor the path at line 149 that sends a 500 and then throws in `JSON.parse`.
- `getTimeStamp` (`Date.now()` divided by 100) is not modelled. The new id is a parameter of `Post` and `Signup`. Id uniqueness is not claimed, because the source does not guarantee it.
- `parseInt` on the route parameter and JavaScript's loose equality `==` are not modelled. Ids are integers and emails and passwords are strings, compared exactly. Missing request-body fields (`undefined`) are not modelled.
- The `console.log` of the user list when signup is refused is not modelled. It is output only.
- JSON key names are not modelled. `/login` answers with `firstName`/`lastName`, and `/data` uses `firstname`/`lastname`. Both are modelled as the same `PublicUser` value.
- Concurrency is not modelled. The interleaving of asynchronous read-modify-write callbacks on the todo file is out of scope, and every handler is treated as one atomic step.
- The in-place mutation of the parsed JavaScript array (`push`, indexed assignment) is modelled as reassigning a `seq` field. The parsed array is freshly built for each request, so no aliasing is lost.
- A durable log, a monotonic id counter, password hashing and a secondary email index are not modelled. The code has none of them; the model follows the code as written, with plaintext passwords, a refused signup answered with 400 and failed credentials answered with 401.
