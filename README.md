# dps-claudecode session/stream manager, in Dafny

This project models the session manager of the `claudecode` denops plugin
(`denops/claudecode/main.ts`): the process-wide store of conversational
sessions with its capacity limit (10) and idle timeout (30 minutes), the
current-session pointer, the dispatcher operations that create, switch,
end and query sessions, and `sendMessage`'s turn: it consumes the
generation service's event stream, splits text into lines, batches them
through a time-based flush buffer into the session's display buffer,
prints the usage notice and the closing separator, and renders a stream
failure as a sanitized error line.

Modules, one per component:

- `Wrappers` (wrappers.dfy): `Option` and `Result`.
- `Types` (types.dfy): sessions, stream events and assistant messages, after `denops/claudecode/types.ts`.
- `Sanitizer` (sanitize.dfy): `sanitizeErrorMessage` as a left-to-right, case-insensitive, non-overlapping replace.
- `Lines` (lines.dfy): `split("\n")`, the filter that drops the empty tail piece, the batching loop, decimal rendering of token counts.
- `Turn` (turn.dfy): `flushPendingLines`, the turn as a fold over events (`TurnSpec`), an unbuffered reference turn (`ReferenceTurn`), the lemmas relating them, and `RunTurn`, the turn's loops proved equal to `TurnSpec`.
- `Store` (store.dfy): the limits, the eviction sweep, the default model.
- `Manager` (manager.dfy): class `SessionManager` with fields `sessions`, `current` and `buffers` and one method per dispatcher operation.
- `Scenarios` (scenarios.dfy): client walk-throughs that use only the manager's contracts.

Interfaces with the outside world are parameters. `Date.now()` becomes a
`now: int` argument, or, inside a turn, a `clock: nat -> int` read in order:
reading 0 is the new `lastActivity`, reading 1 the initial `lastFlushTime`,
and each later reading belongs to one `flushPendingLines` call.
`crypto.randomUUID()` is a fresh `id` argument with `requires id !in sessions`.
The SDK's `query()` stream becomes the sequence of events it yielded plus
`Option<string>`, the error message it raised after them, if any.
The Vim display is the `buffers` field, mapping a buffer number to its lines.
`append_line`/`append_lines` append to that sequence, and `replace_last_line`
is `Turn.ReplaceLastLine`.

Some behaviours of the code are easy to miss. The model keeps each of them as written:

- There is no `Busy` error. A second send on a session is not refused.
- Ending a session does not cancel a turn in flight.
- A stream failure does not flush pending lines. Lines still pending are never shown (`Turn.FailedTurnShape`).
- On failure, `replace_last_line("")` blanks whatever line is last. That may be the thinking notice, `Claude:`, a flushed text line or a usage notice.
- A `result` event before the first `assistant` event writes its usage notice. `Claude:` then overwrites that notice rather than the thinking notice.
- The sanitizer pattern is `api[_-]?key|token|secret|auth|bearer`. `api key` with a space is not redacted.
- An empty model string given to `startSession` is falsy, so the session gets `"sonnet"` (`Store.ModelName`).

## Model

| member | source | states |
|---|---|---|
| Sanitizer.MatchLength | denops/claudecode/main.ts:10 | the length of the pattern match at the front of a string: 0, or 4 to 7 and within the string |
| Sanitizer.SanitizeLeavesNoMatch | denops/claudecode/main.ts:7-18 | after sanitizing, no position of the message starts a credential-like word, even where the marker meets its neighbours |
| Sanitizer.SanitizeUnchangedIff | denops/claudecode/main.ts:9-17 | the sanitizer leaves a message unchanged exactly when it contains no match |
| Sanitizer.SanitizeIdempotent | denops/claudecode/main.ts:9-17 | sanitizing an already sanitized message changes nothing |
| Lines.Split | denops/claudecode/main.ts:152 | `split("\n")` gives at least one piece and no piece holds a break |
| Lines.JoinSplit | denops/claudecode/main.ts:152 | joining the pieces of a split with `"\n"` restores the text |
| Lines.SplitJoin | denops/claudecode/main.ts:152 | splitting joined break-free lines gives the lines back |
| Lines.QueuedLinesRoundTrip | denops/claudecode/main.ts:152-158 | the queued lines of a fragment, joined with `"\n"`, give the fragment with at most one trailing break removed |
| Lines.QueuedLinesOfShortText | denops/claudecode/main.ts:153-157 | an empty fragment queues no line; a non-empty fragment without breaks queues exactly itself |
| Lines.QueueFragment | denops/claudecode/main.ts:152-158 | the loop pushes exactly the split pieces except an empty last piece, after what was pending |
| Lines.ParseNatToString | denops/claudecode/main.ts:199 | the decimal rendering of a token count reads back as the same count |
| Turn.ReplaceLastLine | denops/claudecode/main.ts:138-142 | overwriting the last line keeps every earlier line and the length; the last line becomes the new one |
| Turn.FlushPendingLines | denops/claudecode/main.ts:43-63 | a batch is written exactly when lines are pending and the flush is forced or 100 ms have passed; then all pending lines are appended and `now` is returned, otherwise nothing is written and null is returned |
| Turn.Flush | denops/claudecode/main.ts:160-169 | a flush attempt with the caller's clearing neither loses nor duplicates a line (written plus pending is unchanged); a forced one leaves nothing pending |
| Turn.ContentsFoldDelivers | denops/claudecode/main.ts:146-172 | after an assistant message's content, written plus pending lines equal the earlier ones followed by every line the text content queues, in order; earlier buffer lines stay a prefix |
| Turn.BufferingIsInvisible | denops/claudecode/main.ts:117-224 | for every clock, a turn that ends normally leaves the buffer equal to the unbuffered reference: blank line, thinking notice (replaced once by `Claude:`), text lines in order, usage notices, separator; every queued line appears exactly once |
| Turn.FailedTurnShape | denops/claudecode/main.ts:225-237 | a failed turn ends with a blank line, `Error: ` plus the sanitized message, and a blank line; before them stands a prefix of what the reference would have shown, its last line blanked; the error line holds no credential-like word |
| Turn.TurnKeepsEarlierLines | denops/claudecode/main.ts:108-237 | on both paths the turn never alters the buffer's earlier lines or its own opening blank line |
| Turn.TurnStoresAssistantBodies | denops/claudecode/main.ts:174-177 | the messages a turn stores are exactly the bodies of its assistant events, in order, on both paths |
| Turn.NoticeStaysWithoutAssistant | denops/claudecode/main.ts:135-144 | without an assistant event the thinking notice is never overwritten |
| Turn.HelloTurn | denops/claudecode/main.ts:108-224 | a "Hello!" assistant event and a 15/8 result give `"", "Claude:", "Hello!", "", "[Tokens used: 15 input, 8 output]", "", "---", ""`, whatever the clock |
| Turn.OneLineThenUsage | denops/claudecode/main.ts:135-224 | an assistant event holding one non-empty break-free text, then a result with usage, shows the header, the text, a blank line, the usage notice and the separator |
| Turn.ConsumeContent | denops/claudecode/main.ts:146-172 | the loop over a message's content (queue the text's lines, then a periodic flush) computes exactly the content fold |
| Turn.RunTurn | denops/claudecode/main.ts:108-237 | the event loop, the inner content loop and the final flush or error path compute exactly `TurnSpec` |
| Store.Sweep | denops/claudecode/main.ts:30-40 | every session left is active and idle for no more than 30 minutes and unchanged; every such session is kept |
| Store.SweptCurrent | denops/claudecode/main.ts:35-37 | the current pointer is cleared exactly when its session was swept away |
| Store.ModelName | denops/claudecode/main.ts:69 | a new session's model is the one given when non-empty, otherwise `"sonnet"`; it is never empty |
| Store.SweepShrinks | denops/claudecode/main.ts:32-34 | a sweep never adds sessions |
| Store.SweepKeepsCurrentLive | denops/claudecode/main.ts:30-40 | after a sweep the current pointer is absent or names a stored active session |
| Store.SweepIdempotent | denops/claudecode/main.ts:30-40 | a second sweep at the same time removes nothing |
| Store.IdleSessionEvicted | denops/claudecode/main.ts:33-37 | a session idle for more than 30 minutes is gone after the sweep, and a current pointer to it is cleared |
| Manager.SessionManager.constructor | denops/claudecode/main.ts:22-23 | the store starts empty with no current session |
| Manager.SessionManager.CleanupInactiveSessions | denops/claudecode/main.ts:30-40 | the deleting loop leaves exactly `Sweep` of the old store and `SweptCurrent` of the old pointer; buffers unchanged; the invariant holds |
| Manager.SessionManager.StartSession | denops/claudecode/main.ts:67-94 | after the sweep it fails exactly when 10 sessions remain (the sweep still happened); otherwise it inserts one active session with the given bufnr, the model name, no messages and `lastActivity = now`, makes it current and returns its id; the store never exceeds 10 |
| Manager.SessionManager.SendMessage | denops/claudecode/main.ts:96-238 | a missing or inactive session is refused before any write, with nothing changed; otherwise only that session's `lastActivity` and messages and that session's buffer change, as `TurnSpec` says, the stream failure is absorbed, and current is unchanged |
| Manager.SessionManager.EndSession | denops/claudecode/main.ts:240-253 | removes exactly that id and clears current only if it named it; an unknown id changes nothing |
| Manager.SessionManager.ListSessions | denops/claudecode/main.ts:255-257 | every stored id, each exactly once |
| Manager.SessionManager.GetSession | denops/claudecode/main.ts:259-262 | the stored session for the id, or none when absent; nothing changes (also `getSession`, lines 286-289) |
| Manager.SessionManager.GetCurrentSession | denops/claudecode/main.ts:264-266 | the current id is absent or names a stored active session |
| Manager.SessionManager.SetCurrentSession | denops/claudecode/main.ts:268-284 | `NotFound` for an absent id and `Inactive` for an inactive one, with no state change; otherwise current becomes the id and only its `lastActivity` changes |
| Manager.SessionManager.GetAllSessions | denops/claudecode/main.ts:291-297 | the copy holds exactly the store's entries |
| Manager.SessionManager.SwitchModel | denops/claudecode/main.ts:299-318 | a missing or inactive session is refused with no change; otherwise only its model and `lastActivity` change and its buffer gains `Switched to model: <m>` and a blank line |

## Left out

- `denops/claudecode/app.ts` is not part of this model: the WebSocket server, port probing, lock files, Vim window commands and configuration loading are I/O.
- A failing display write: in the source, an error from a `denops.call` inside the turn's `try` is handled like a stream failure. Display writes here always succeed.
- Concurrency: each dispatcher call runs to completion here. The source awaits between display writes, so other calls can interleave with a turn. An `endSession` during a turn lets the turn keep writing to the buffer and to the removed session.
- Manager.SessionManager.EndSession: does not model `session.active = false` on the removed session object; once removed, nothing reachable from the store sees that flag.
- Manager.SessionManager.StartSession: the sweep time and the new session's `lastActivity` are one `now`; the source reads the clock twice.
- Manager.SessionManager.ListSessions: does not promise the insertion order that `Array.from(sessions.keys())` gives; only that each stored id appears once.
- `maxTurns`, the `AbortController` and the prompt passed to `query()`: the event sequence stands for whatever the service yields.
- The unused `responseText` accumulator.
- Runtime argument checks (`ensure`/`is`): inputs are typed. `sanitizeErrorMessage`'s conversion of a thrown value to a string (`error.message` or `String(error)`) is left out; the failure is given as its message.
- Token counts are natural numbers; the cache-token counts and `service_tier` of the usage records are dropped.
- The Vim side of `replace_last_line` is not part of this model. On an empty buffer, `Turn.ReplaceLastLine` makes the line the buffer's only line; a turn never reaches that case, because it opens with two appended lines.
- Case-insensitive matching folds ASCII letters only. That agrees with the regular expression for every letter of its pattern.
