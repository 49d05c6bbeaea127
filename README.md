# Story-sharing backend: the service layer over its tables

This project models the service layer of a NestJS backend for sharing stories. Users send
anonymous stories, comment on them, bookmark pieces of advice, and log in through Google
with a session cookie. Every service delegates storage to an ORM. Here that storage is an
in-memory `Database` (module `Store`). Each table is a sequence of rows in storage order,
and the database keeps the schema's unique keys:
- every id;
- a user's email;
- a bookmark's `(userId, adviceId)` pair.

Each service is a class holding that database. Its methods change only the table they
write: each `modifies` clause names just that table. Each method states when it succeeds, which
error each failing input gives, the new table and the invariant it keeps.

- `Tables`: generic table operations.
  - A unique-key lookup (`findUnique`).
  - A filter (`findMany` with `where`).
  - Deleting and overwriting by key.
  - A newest-first sort (`orderBy: { createdAt: 'desc' }`), proved to be ordered and a permutation.
  - Lemmas on uniqueness and on append-then-delete.
- `Store`: the records, the error kinds, and the `Database` with its `Valid()` invariant.
- `Bookmarks`, `Users`, `Auth`, `Comments`, `Stories`: the services, one module per service file.
- `SessionGuard`: the guard that admits a request only when its session cookie names a valid session.
- `Embedding`: the embedding client.
  - Base-URL normalisation and the timeout default.
  - How the outcome of the HTTP exchange becomes vectors or `ServiceUnavailable`.

Some inputs are parameters of the model:
- The clock is the `now` argument of the create methods.
- The ids the store generates are any id unused in their table, chosen nondeterministically.
- `ORDER BY RANDOM() LIMIT 5` is any pick of distinct candidates, as many as the limit allows.
- A random emotion is any value of the enumeration.
- The session store's `validateSession` is a function-valued field of the guard.
- The HTTP exchange of the embedding client is a function-valued field of the client.

The stories service picks similar stories by emotion at random and never calls the
embedding client.

## Model

| member | source | states |
|---|---|---|
| `Tables.Lookup` | backend/src/bookmarks/bookmarks.service.ts:25-32 | a unique-key lookup returns a row of the table with that key, and returns nothing exactly when no row has it |
| `Tables.Where` | backend/src/stories/stories.service.ts:48-50 | a `where` filter returns rows whose column has the value, and every such row of the table is among them |
| `Tables.WhereKeepsCounts` | backend/src/stories/stories.service.ts:48-50 | a `where` filter keeps each matching row exactly as often as the table holds it, and no other row |
| `Tables.SortNewestFirst` | backend/src/comments/comments.service.ts:40-42 | `orderBy createdAt desc` returns a permutation of its rows, ordered newest first |
| `Tables.WithoutKey` | backend/src/comments/comments.service.ts:55 | a `delete` by key returns rows with another key, every such row of the table is among them, and no row with that key remains |
| `Tables.WithoutKeyKeepsCounts` | backend/src/comments/comments.service.ts:55 | a `delete` by key keeps each row with another key exactly as often as the table holds it, and drops every row with that key |
| `Tables.ReplaceKey` | backend/src/stories/stories.service.ts:68-71 | an `update` by key overwrites the rows with that key and keeps every other row in its place |
| `Tables.MapRows` | backend/src/users/users.service.ts:35-37 | `map` gives one result per row, in the rows' order, each the function applied to its row |
| `Tables.MapIdentity` | backend/src/users/users.service.ts:35-37 | mapping `user => user` over the users gives the same list |
| `Tables.LookupAppended` | backend/src/auth/auth.service.ts:13-27 | after a user with a new email is created, looking that email up finds exactly the created user |
| `Tables.WithoutKeyAfterAppend` | backend/src/bookmarks/bookmarks.service.ts:9-83 | appending a row whose key was absent and then deleting that key restores the table |
| `Tables.WithoutKeyRemovesOne` | backend/src/bookmarks/bookmarks.service.ts:75-82 | under a unique key, deleting a present key removes exactly one row |
| `Tables.WithoutKeyUnique` | backend/src/comments/comments.service.ts:55 | deleting rows keeps every unique key unique |
| `Tables.ReplaceKeyUnique` | backend/src/users/users.service.ts:55-58 | overwriting one row keeps a key unique when no other row has the new value |
| `Bookmarks.BookmarksService.Create` | backend/src/bookmarks/bookmarks.service.ts:9-44 | the user is checked before the advice and both before the pair ("User not found", then "Advice not found", then Conflict "Bookmark already exists"); every failure leaves the table unchanged; success appends exactly one bookmark with that pair, a fresh id and time `now`; pairs stay unique |
| `Bookmarks.BookmarksService.FindAll` | backend/src/bookmarks/bookmarks.service.ts:46-59 | fails NotFound exactly for an unknown user; otherwise returns exactly that user's bookmarks, each once, newest first |
| `Bookmarks.BookmarksService.Remove` | backend/src/bookmarks/bookmarks.service.ts:61-83 | fails NotFound "Bookmark not found" exactly when the pair is absent, with no change; otherwise returns the bookmark with that pair and deletes exactly it, and every other bookmark remains, including other users' bookmarks of the same advice |
| `Bookmarks.CreateThenRemove` | backend/src/bookmarks/bookmarks.service.ts:9-83 | a successful create followed by a remove of the same pair returns the created bookmark and restores the original table |
| `Users.ApplyPatch` | backend/src/users/users.service.ts:55-58 | an update overwrites exactly the fields it carries and keeps the id, name and image |
| `Users.UsersService.Create` | backend/src/users/users.service.ts:10-30 | an email already in use throws "Email already in use" and leaves the table unchanged; otherwise exactly one user with the given email, nickname, name and image and a fresh id is appended and returned |
| `Users.UsersService.FindAll` | backend/src/users/users.service.ts:32-38 | returns every user, unchanged and in storage order |
| `Users.UsersService.FindOne` | backend/src/users/users.service.ts:40-50 | fails NotFound with the id in its message exactly for an unknown id; otherwise returns the user with that id |
| `Users.UsersService.Update` | backend/src/users/users.service.ts:52-61 | an unknown id fails NotFound before any write; a patch carrying `password`, which is not a user column, is refused by the store; an email another user already has is refused as a unique violation; the update succeeds exactly in every other case, and then only the user with that id is overwritten by its patched version; a failure changes nothing |
| `Users.UsersService.Remove` | backend/src/users/users.service.ts:63-69 | an unknown id fails NotFound with no change; otherwise exactly that user is deleted and returned, and the others remain |
| `Auth.ProfileEmail` | backend/src/auth/auth.service.ts:9-11 | the login proceeds exactly when there is a profile whose email is present and non-empty |
| `Auth.LocalPart` | backend/src/auth/auth.service.ts:18 | `email.split('@')[0]` is the prefix of the email up to its first '@', or the whole email when it has none |
| `Auth.Nickname` | backend/src/auth/auth.service.ts:18 | the nickname is the name whenever one is present, even an empty one, and otherwise the email's part before '@' |
| `Auth.OrNull` | backend/src/auth/auth.service.ts:23-24 | the fallback to null keeps a non-empty string and turns a missing or empty one into null |
| `Auth.NewUser` | backend/src/auth/auth.service.ts:18-26 | a first login stores the email, the derived nickname, the name or null, and the picture or null |
| `Auth.EmptyNameKeepsEmptyNickname` | backend/src/auth/auth.service.ts:18-24 | an empty name gives the nickname "" but the stored name null |
| `Auth.AuthService.GoogleLogin` | backend/src/auth/auth.service.ts:8-33 | a missing profile or email fails Unauthorized and creates nothing; a known email returns that user with the table unchanged; a new email appends exactly one user built from the profile; emails stay unique |
| `Auth.LoginTwice` | backend/src/auth/auth.service.ts:13-27 | two logins with the same profile return the same user; the first adds at most its own user to the table, and the second leaves the table exactly as the first left it |
| `Comments.CommentsService.Create` | backend/src/comments/comments.service.ts:9-32 | "User not found" is checked before "Story not found", and a failure adds nothing; success appends exactly one comment with the given user, story and content and a fresh id |
| `Comments.CommentsService.FindAll` | backend/src/comments/comments.service.ts:34-47 | fails NotFound exactly for an unknown story; otherwise returns exactly the comments of that story, newest first |
| `Comments.CommentsService.Remove` | backend/src/comments/comments.service.ts:49-56 | fails NotFound exactly for a missing comment, with no change; otherwise deletes exactly that comment, with no check of who asks |
| `Stories.ApplyPatch` | backend/src/stories/stories.service.ts:67-71 | an update overwrites exactly the fields it carries and keeps the id, owner and creation time |
| `Stories.SimilarCandidates` | backend/src/stories/stories.service.ts:31-36 | the query draws from exactly the public stories of the emotion other than the new story |
| `Stories.RandomPick` | backend/src/stories/stories.service.ts:37-38 | `ORDER BY RANDOM() LIMIT 5` returns min(5, candidates) distinct candidates |
| `Stories.PickedStoriesAreOlderMatches` | backend/src/stories/stories.service.ts:31-36 | every picked story already existed, is public, has the new story's emotion and is not the new story |
| `Stories.StoriesService.Create` | backend/src/stories/stories.service.ts:11-46 | stores the caller's story with `isPublic` defaulting to false, the supplied emotion or some value of the enumeration, and a fresh id; returns it as `myStory` with at most five similar stories |
| `Stories.StoriesService.FindAll` | backend/src/stories/stories.service.ts:48-56 | returns exactly the public stories, each once, newest first |
| `Stories.StoriesService.FindOne` | backend/src/stories/stories.service.ts:58-65 | returns nothing exactly for an unknown id; otherwise the story with that id and exactly its comments, each as often as it is stored |
| `Stories.StoriesService.Update` | backend/src/stories/stories.service.ts:67-72 | a missing story is refused by the store with no change; otherwise only that story is overwritten by its patched version, whoever owns it |
| `Stories.StoriesService.Remove` | backend/src/stories/stories.service.ts:74-78 | a missing story is refused by the store with no change; otherwise exactly that story is deleted, whoever owns it |
| `SessionGuard.CookieName` | backend/src/auth/guards/session-auth.guard.ts:14 | the cookie name is the configured one whenever one is configured, even an empty one, and `session` otherwise |
| `SessionGuard.SessionToken` | backend/src/auth/guards/session-auth.guard.ts:15-17 | a token exists exactly when the cookies hold a non-empty value under the cookie name |
| `SessionGuard.SessionAuthGuard.CanActivate` | backend/src/auth/guards/session-auth.guard.ts:12-29 | looks under the configured cookie name, or `session` when none is configured; a missing or empty cookie fails Unauthorized without consulting the session store; a session the store rejects fails Unauthorized without touching the request; otherwise sets `request.user` and `request.session` and returns true; it never returns false |
| `Embedding.StripTrailingSlashes` | backend/src/embedding/embedding.service.ts:16 | the base URL is a prefix of the raw URL, does not end in '/', and lacks only a run of trailing slashes |
| `Embedding.StripIdempotent` | backend/src/embedding/embedding.service.ts:16 | normalising the base URL again leaves it unchanged |
| `Embedding.OnlySlashesStripToEmpty` | backend/src/embedding/embedding.service.ts:15-16 | a URL made only of slashes, or none, gives the empty base |
| `Embedding.Decimal` | backend/src/embedding/embedding.service.ts:44 | the status is written as a non-empty string of decimal digits |
| `Embedding.DecimalRoundTrip` | backend/src/embedding/embedding.service.ts:44 | reading the decimal digits back gives the number |
| `Embedding.StatusText` | backend/src/embedding/embedding.service.ts:44 | `${res.status}` is decimal digits, preceded by '-' exactly when the status is negative |
| `Embedding.StatusTextRoundTrip` | backend/src/embedding/embedding.service.ts:44 | the status text denotes the status |
| `Embedding.Classify` | backend/src/embedding/embedding.service.ts:41-64 | succeeds exactly on a 2xx response whose decoded `embeddings` is present and non-empty, and returns those embeddings unchanged; every failure is ServiceUnavailable: a non-2xx status gives "Embedding service error: " with the status and body, a missing or empty `embeddings` gives "Embedding service returned no vectors", a timeout gives "Embedding service request timed out", and an undecodable body or any other failure gives "Embedding service request failed" |
| `Embedding.EmbeddingService.constructor` | backend/src/embedding/embedding.service.ts:14-18 | the base URL is the setting without trailing slashes (empty when unset); the timeout is 8000 ms when unset |
| `Embedding.EmbeddingService.EmbedMany` | backend/src/embedding/embedding.service.ts:25-68 | an empty base URL fails ServiceUnavailable before any request; otherwise exactly one request goes to the base URL followed by `/embed`, carrying the texts, and its outcome is classified; a success is never empty |
| `Embedding.EmbeddingService.EmbedOne` | backend/src/embedding/embedding.service.ts:20-23 | returns the first vector of embedding `[text]`, an index that is always in range, and fails exactly when that call fails |

## Left out

- Session issuance, validation and expiry. The guard calls `validateSession`, which `AuthService` (backend/src/auth/auth.service.ts) does not define, so the guard treats it as a given function.
- Like toggles, comment adoption, vector persistence and nearest-neighbour search. The controllers call them, but the services do not implement them.
- Controllers and framework glue: the controllers (including their fallback user id and query parsing), DTO validation, API documentation, the response interceptor, the exception filter, and module wiring.
- The OAuth handshake and the writing of the session cookie: these belong to the identity-provider strategy and the auth controller.
- Related rows that queries attach (`include`): the advice of a bookmark and the author nickname of a story or comment. The similar-story query's column projection is left out too: it returns whole rows here.
- Schema defaults that the code does not set: like counters, the best-comment flag, user statistics, and user creation times. `createdAt` is the `now` argument of the create methods.
- Foreign-key checks and cascading deletes: the schema that would define them is not part of this model.
- Store-side checks of enumeration values: a supplied emotion is stored as given.
- Concurrency. The two lookups of `Promise.all` run in sequence, user first. No race between a check and the write that follows it is modelled.
- Stories.StoriesService.FindOne: the story's comments come in storage order, because the query requests no order.
- Embedding.EmbeddingService.constructor: takes the timeout setting as a number; `Number()` parsing of the setting string (`NaN`, or an empty string giving 0) is not modelled.
- Embedding.EmbeddingService.EmbedMany: `fetch`, the abort timer, `clearTimeout` and logging are replaced by an abstract exchange whose outcome is a status and body, an abort, or any other failure. Embedding vectors are carried without arithmetic.
- The embedding service itself (a model wrapper) and the advice service (a stub) are not part of this model.
