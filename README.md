# Anonymous message board: threads, replies and their moderation

This project models the route handlers of an anonymous message board
(`routes/api.js`). A board is a collection of thread documents. Each thread
has an id, a text, a creation time, a bump time, a `reported` flag, a
`delete_password` and an ordered array of replies. Each reply has an id, a
text, a creation time, a `delete_password` and a `reported` flag. Eight
handlers act on one board:

- list threads (`GET /api/threads/:board`)
- create a thread (`POST`)
- delete a thread given its password (`DELETE`)
- report a thread (`PUT`)
- read one thread (`GET /api/replies/:board`)
- append a reply, which also bumps its thread (`POST`)
- delete a reply given its password, by replacing its text with `"[deleted]"` (`DELETE`)
- report a reply (`PUT`)

Every handler first checks the fields it needs. It then makes at most one
store call and answers with a fixed text, a redirect or a JSON body.

Layout:

- `posts.dfy` (module `Posts`): the thread and reply records, and the
  public views that reads return. The views have no field for `reported` or
  `delete_password`, so a redacted answer cannot carry them. `Redact` adds
  `replyCount`.
- `store.dfy` (module `Store`): the collection as a `seq<Thread>`, and each
  store call's effect on it as a function. `FirstMatch` models a query that
  stops at the first matching document. The filters are named after the
  query documents they model. `RemoveThread`, `FlagThread`, `PushReply`,
  `TombstoneReply` and `FlagReply` model `findOneAndDelete` and the four
  `findOneAndUpdate` calls. The lemmas state what each write preserves:
  - ids stay unique;
  - replies are never dropped, reordered or renumbered;
  - report flags are never cleared;
  - timestamps stay in order;
  - each report and each tombstone is idempotent.
- `listing.dfy` (module `Listing`): the listing query. It sorts by
  `bumped_on` (newest first), limits the result to 10, projects each thread
  and adds `replycount`.
- `board.dfy` (module `MessageBoard`): class `Board`, with a `name` and a
  `threads` sequence it updates in place, and one member per handler. The
  two reads are functions over the state; the six writes are methods.
  `Outcome` lists every non-JSON answer, and `Message` gives the exact
  response texts. The same file models the ten tests of
  `tests/2_functional-tests.js`, one method per test:
  - Each test starts from `BeforeEach`: a new `mocha_test` board that holds
    only the fixture thread `Fixture`. The suite's `afterEach` drops the
    collection, so no test sees another test's writes.
  - Each test sends the same request with the same field values.
  - It then asserts the answer the test checks (through `Message` where the
    test compares the response text) and the board that results.
  - These answers follow from the handlers' contracts alone.
  - The generated object ids become 1 (thread), 2 (reply) and 3 (new
    documents), and the fixture's insertion time becomes 100.

Request fields: a missing or empty string is `""`, and a missing id is
`None`. The ids of new threads and replies are natural numbers the caller
chooses; the handlers' preconditions require them to be fresh, as a newly
generated object id is. The clock is a `now: nat` parameter.

## Model

| member | source | states |
|---|---|---|
| `Posts.RedactReplies` | routes/api.js:27-28 | the projection keeps every reply, in order, each without `reported` and `delete_password` |
| `Posts.Redact` | routes/api.js:24-35 | a read shows every stored reply (no truncation), and `replyCount` equals the number of replies shown and stored |
| `Posts.RedactionKeepsOnlyPublicFields` | routes/api.js:116-121 | two threads have the same redacted view if and only if they agree on every public field of the thread and of each reply, so moderation fields never reach a reader |
| `Store.FirstMatch` | routes/api.js:113-114 | the index returned is the first document matching the filter; `None` exactly when no document matches |
| `Store.NewThread` | routes/api.js:51-58 | a new thread stores the given id, text and password, has `created_on = bumped_on = now`, is not reported and has no replies |
| `Store.NewReply` | routes/api.js:140-146 | a new reply stores the given id, text and password, is created at `now` and is not reported |
| `Store.RemoveThread` | routes/api.js:76-79 | a thread is deleted if and only if some thread has both that id and that password; exactly that one thread is cut out, keeping the order of the rest; otherwise the board is unchanged |
| `Store.RemoveThreadExact` | routes/api.js:76-82 | on a well-formed board the delete leaves one thread fewer, no thread with that id, every other thread present, nothing new, and ids and timestamps still valid |
| `Store.FlagThread` | routes/api.js:94-96 | a report matches if and only if the thread id exists; it sets only that thread's `reported`; otherwise the board is unchanged |
| `Store.FlagThreadIdempotent` | routes/api.js:94-99 | reporting a thread a second time matches again and changes nothing |
| `Store.FlagThreadEvolves` | routes/api.js:94-96 | a report never clears a flag and keeps every thread's id, text, password, `created_on`, `bumped_on` and replies exactly; ids stay unique and timestamps in order |
| `Store.PushReply` | routes/api.js:148-153 | a reply is appended if and only if the thread id exists; in one write, that thread gets exactly the new reply at the end of its replies and `bumped_on = now`; otherwise the board is unchanged |
| `Store.PushReplyEvolves` | routes/api.js:140-153 | appending keeps every thread's id, text, password and `reported` flag, adds at most one reply to a thread and keeps every earlier reply exactly as its prefix; with a fresh reply id the board stays well formed |
| `Store.PushReplyKeepsChronology` | routes/api.js:143-151 | if the clock has not gone back, a bump never moves a thread back in time, and every thread is still bumped no earlier than it and its replies were created |
| `Store.TombstoneReply` | routes/api.js:171-174 | a reply delete matches if and only if the thread has a reply with that id and password; only that reply's text becomes `"[deleted]"`; otherwise the board is unchanged |
| `Store.TombstoneReplyIdempotent` | routes/api.js:171-177 | deleting a reply again with the right password matches again and leaves the board as the first delete left it |
| `Store.TombstoneReplyEvolves` | routes/api.js:171-174 | a tombstone keeps every thread's `bumped_on`, `reported` flag and number of replies, and every reply's id, `created_on`, password and report flag; a text may only become `"[deleted]"` |
| `Store.FlagReply` | routes/api.js:190-193 | a reply report matches if and only if the thread has a reply with that id; it sets only that reply's `reported`; otherwise the board is unchanged |
| `Store.FlagReplyIdempotent` | routes/api.js:190-196 | reporting a reply a second time matches again and changes nothing |
| `Store.FlagReplyEvolves` | routes/api.js:190-193 | a reply report keeps every thread's `bumped_on`, `reported` flag and number of replies, and every reply's id, text, `created_on` and password; it never clears a flag |
| `Listing.Insert` | routes/api.js:30 | inserting a thread into a newest-first sequence keeps it newest-first and adds exactly that thread |
| `Listing.SortByBump` | routes/api.js:30 | the sorted collection is a permutation of the board, newest bump first |
| `Listing.CutKeepsNewest` | routes/api.js:30-31 | cutting the sorted collection leaves out only threads bumped no later than every thread kept |
| `Listing.Page` | routes/api.js:30-31 | the query returns `min(10, n)` stored threads, newest bump first; every thread left out was bumped no later than every thread returned |
| `Listing.RedactAll` | routes/api.js:34-38 | each returned thread is the redaction of the document at the same position |
| `Listing.ListThreads` | routes/api.js:24-38 | the listing has `min(10, n)` entries with non-increasing `bumped_on`, and its `replyCount` is the number of replies it shows; entry by entry, it is the redaction of threads drawn from the board, none more often than stored, such that every thread left out was bumped no later than every thread shown |
| `MessageBoard.Board.constructor` | routes/api.js:23 | a board starts with the given name and no threads |
| `MessageBoard.Board.ListThreads` | routes/api.js:18-42 | with no board name the answer is "missing board information"; otherwise it is the listing of the current threads |
| `MessageBoard.Board.CreateThread` | routes/api.js:44-66 | with a missing board, text or password the answer is "missing thread information" and nothing changes; otherwise exactly the new thread is appended and the answer is the redirect to the board |
| `MessageBoard.Board.DeleteThread` | routes/api.js:68-85 | a missing field changes nothing; otherwise the thread matching both id and password is deleted and the answer is "success"; if none matches, whether the id or the password was wrong, the answer is "incorrect password" and nothing changes |
| `MessageBoard.Board.ReportThread` | routes/api.js:87-102 | a missing field changes nothing; otherwise the thread is flagged ("success"), or the answer is "incorrect thread id" and nothing changes |
| `MessageBoard.Board.GetThread` | routes/api.js:106-128 | with no thread id the answer is "missing thread ID"; a stored thread is answered with its redaction, all replies included and `replyCount` equal to their number; an unknown id gets no answer |
| `MessageBoard.Board.AddReply` | routes/api.js:130-160 | a missing thread id, text or password gives "missing reply information" and changes nothing; otherwise the reply is appended and the thread bumped (redirect to the thread), or the answer is "incorrect thread id" and nothing changes |
| `MessageBoard.Board.DeleteReply` | routes/api.js:162-180 | a missing field changes nothing; otherwise the reply matching thread id, reply id and password is tombstoned ("success"), or the answer is "incorrect password" and nothing changes |
| `MessageBoard.Board.ReportReply` | routes/api.js:182-199 | a missing field changes nothing; otherwise the reply is flagged ("success"), or the answer is "incorrect id provided" and nothing changes |
| `MessageBoard.BeforeEach` | tests/2_functional-tests.js:24-54 | each test starts from a fresh `mocha_test` board holding only the fixture thread and its one reply |

## Left out

- HTTP and Express: routing, status codes, `res.send`, `res.json` and the two redirects (lines 63 and 156). Each answer is an `Outcome` or an `Answer`.
- The MongoDB driver: projection syntax, the parsing of `$set`, `$push` and `$elemMatch`, and the creation of one collection per board name. Each call is modelled by its effect on one board's sequence of threads.
- Object ids: generating, parsing and printing them. An id string that is not a valid object id throws in the source; here ids are natural numbers that are either present or missing.
- The wall clock: each `new Date()` becomes the `now` parameter. The two calls at lines 53-54 are one value, and so are the two calls at lines 143 and 151.
- Store errors: the source logs them and then dereferences a null result (lines 33-34, 61-62, 80-81, 123-124). That crash is not modelled.
- Reading an unknown thread (`GET /api/replies/:board` with an id that matches nothing): the source dereferences the null document at line 124 and sends no answer. The model answers `Refused(NoSuchThread)`, which has no response text.
- Truncating listed replies to the 3 most recent: line 36 is only a comment, so every reply is listed, as the code does.
- `NotFound` versus `Unauthorized`: the handlers answer "incorrect password" for both a wrong id and a wrong password (lines 81 and 176). The model keeps that single outcome, as the code does.
- Listing.SortByBump: breaks ties between equal `bumped_on` values by keeping board order. The source leaves ties to the database, so no contract states a tie order.
- JavaScript truthiness: a field is missing when it is absent or empty. Non-string request values are not modelled.
- The `console.log` calls, including line 136, which has no effect on the board.
- Concurrency: every store call is atomic in the database. The model is sequential, one handler call at a time.
