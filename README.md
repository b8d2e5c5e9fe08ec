# Activity roster API — Dafny model

This project models the core of the Mergington High School activity API
(`src/app.py`). The API keeps two registries in process memory:

- the **activity registry** maps an activity name to a record whose
  `participants` list holds student e-mails. It is loaded from
  `activities.json` at start-up and written back after every successful
  change.
- the **session registry** maps an admin token to a teacher's username.
  Logging in fills it.

A teacher logs in with a username and password that are checked against
`teachers.json`. With the token they receive, they sign students up for
activities or unregister them.

Modules:

- `Wrappers` (`wrappers.dfy`): `Option`, used for absent JSON keys, absent request fields and an absent file.
- `Participants` (`participants.dfy`): one participant list. `Remove` is Python's `list.remove`. The module states the no-duplicates invariant and the lemmas about append and remove.
- `Registry` (`registry.dfy`): an `Activity` record whose `participants` entry may be absent. `ParticipantsOf` is `get("participants", [])` and `LoadActivities` is `load_activities`. `WithParticipant` and `WithoutParticipant` give the registry after a signup and after an unregister. The module also holds the round-trip and no-duplicates lemmas at registry level.
- `Credentials` (`credentials.dfy`): the teacher list and `load_teachers`. `FindTeacher` is the login handler's scan for a teacher with exactly matching credentials.
- `App` (`app.dfy`): the class `Roster`, which holds the in-memory registry (`activities`), the sessions and `persisted`, the last content written to the catalog file. It has one method per handler. Each method returns a `Reply`: a 200 body, or an error status with its detail text. `ChessClubSession` is a client of these methods. Dafny proves its assertions about one sequence of calls: log in, sign up, repeat the signup (400), unregister (list restored), and a call without a token (401).

`Roster.Valid()` is the state invariant. Reloading the catalog file always gives the in-memory registry, so `GET /activities` never differs from what the file holds. Every session has a non-empty token and a non-empty username.

The model follows the code's exact checks:

- A login with an empty username or password is rejected with 400, just like a missing one. The code tests Python truthiness (`not username`).
- An empty admin token is rejected with 401, just like a missing one.
- The teacher file is read again on every login, so `Login` takes that file's content as a parameter.
- Signing up and then unregistering restores an activity's participant list. It restores the registry itself only when the record already had a `participants` key. When the key was absent, `setdefault` creates it, and the record afterwards holds an explicit empty list. `Registry.SignupThenUnregister` states both cases.

## Model

| member | source | states |
|---|---|---|
| `Participants.Remove` | src/app.py:132 | `list.remove(email)` yields the list without its first occurrence of `email` (the elements before it, then those after it, in order), one element shorter |
| `Participants.RemoveMultiset` | src/app.py:132 | removal takes exactly one copy of the email out of the list and keeps every other element |
| `Participants.RemoveAppended` | src/app.py:99-132 | appending an email that is not in the list and then removing it gives back exactly the original list |
| `Participants.AppendKeepsNoDuplicates` | src/app.py:99-106 | appending an email that the duplicate check found absent keeps a duplicate-free list duplicate-free |
| `Participants.RemoveKeepsNoDuplicates` | src/app.py:125-132 | removing an email from a duplicate-free list keeps it duplicate-free, and the email is then absent |
| `Registry.WithParticipant` | src/app.py:106 | after `setdefault("participants", []).append(email)` the activity's list is the old list (empty when the key was absent) with the email at the end; no other activity changes and no activity is added or removed |
| `Registry.WithoutParticipant` | src/app.py:132 | after `remove(email)` the activity's list has the first occurrence of the email removed and the rest in order; no other activity changes |
| `Registry.SignupThenUnregister` | src/app.py:99-134 | signup of a new email followed by its unregister restores every activity's participant list; the registry is restored exactly if and only if the record had a `participants` key, and otherwise the record now holds an explicit empty list |
| `Registry.WithParticipantKeepsNoDuplicates` | src/app.py:99-106 | a successful signup keeps every participant list duplicate-free and leaves the student enrolled |
| `Registry.WithoutParticipantKeepsNoDuplicates` | src/app.py:125-132 | a successful unregister keeps every participant list duplicate-free and leaves the student not enrolled |
| `Credentials.FindTeacher` | src/app.py:74-79 | the scan stops at the first teacher whose username and password both equal the given ones; it reaches the end if and only if no teacher matches |
| `App.Roster.constructor` | src/app.py:32-53 | at start-up the registry is the catalog file's content, or empty when there is no file, and there are no sessions |
| `App.Roster.GetActivities` | src/app.py:61-63 | the listing returns the whole registry as modelled (each record's participant list only), which equals what the catalog file holds (empty when there is none) |
| `App.Roster.Login` | src/app.py:66-81 | a missing or empty username or password gives 400; otherwise, if some teacher matches both fields, the new token maps to the username and the reply carries the token, and if none matches the reply is 401; in the failure cases the sessions are unchanged, and the activity registry and file are unchanged in every case |
| `App.Roster.Signup` | src/app.py:84-108 | the guards run in order: no, empty or unknown token gives 401, then an unknown activity gives 404, then an enrolled email gives 400 "Student is already signed up", each leaving the registry and file unchanged; otherwise the email is appended to that activity alone, the file is rewritten with the new registry and the reply is the confirmation message; the sessions never change and a duplicate-free registry stays duplicate-free |
| `App.Roster.Unregister` | src/app.py:111-134 | same guards (401, then 404, then 400 "Student is not signed up for this activity" when the email is absent, including when the record has no `participants` key), each leaving the registry and file unchanged; otherwise the first occurrence of the email is removed from that activity alone and the file is rewritten; the sessions never change and a duplicate-free registry stays duplicate-free |

## Left out

- FastAPI app construction, the static-files mount and the `/` redirect (src/app.py:17-23, 56-58): framework wiring with no logic.
- File I/O and JSON (src/app.py:26-48): `mkdir`, reading and writing files, the JSON format and its parse errors. A file is modelled as its content: `persisted` for `activities.json`, a parameter of `Login` for `teachers.json`. `save_activities` is the assignment `persisted := Some(activities)`. Every write is assumed to succeed, and `Roster.Valid()` depends on that. In the code, a failing `save_activities` (a full disk, say) leaves the change already made in memory at lines 106 and 132 in place, the file out of date, and the client with a 500 reply; the model does not capture this.
- UUID generation (src/app.py:77): the token is an argument of `Login`. Its precondition says the token is non-empty and not already a session, as a version-4 UUID (section 4.4 of RFC 4122) is in practice.
- Request parsing: JSON values in the login payload or the teacher file that are not strings, a missing `email` query parameter (rejected by the framework before the handler runs), and a `participants` value that is not a list. Status codes and detail texts are modelled; the response rendering is not.
- Concurrency on the shared registries: the handlers are modelled as running one at a time.
- Activity metadata other than `participants`: no handler reads or changes it; `GET /activities` returns it and every save rewrites it unchanged. The model's `Activity` holds only `participants`, so `GetActivities` returns the participant view of each record.
