# Posting job bookkeeping, modelled in Dafny

This project models the bookkeeping of the group-posting server in
`main.py`. It covers three pieces:

- **The tables of running jobs.** `stop_events` and `threads` are kept in the `TaskRegistry` class.
  - `cleanup_tasks` is the `Cleanup` method: a loop that deletes entries in place.
  - Starting a task is `Register`.
- **The background worker `send_messages`.** It is written as three nested imperative methods, as in the source:
  - `SendMessages` is the outer `while`;
  - `RunPass` is `for message`;
  - `RunMessage` is `for token`.

  They update the job's `cookies_data` record. That record is the `Checkpoint` datatype, and one token visit is its `Step`.
- **The checks of the POST handler.** These are the `Validate` function, with the string helpers it shares with the worker: `strip`, message composition and the token filter.

The network and the stop flag are not code the model can see. They are an
`Oracle` indexed by how many token visits the worker has made:

- `tokenValid(k)` is the validity check of visit k;
- `post(k)` is the outcome of its POST;
- `stopSet(k)` is what a poll of the flag reads after k visits.

A task's stop flag is an `Event`, and no modelled part of `main.py` clears it. The
model takes a set flag to stay set, so once a poll reads it set, every later
poll reads it set too. Suppose a poll
between visit k and visit k + 1 reads the flag set:

- every poll after it reads set;
- whichever loop it breaks, the `while` test that follows also reads set;
- the worker ends without making visit k + 1.

If no poll in that gap reads set, the worker goes on to visit k + 1. Either
way the outcome depends only on whether some poll after k visits reads the
flag set, and that is what `stopSet(k)` says.

`SendMessages` is proved against a specification function. `After(vs)` is the
state after visits `vs` made from the fresh record (empty token lists, counter
0). It consists of the record, every record saved, the POSTs issued and the
pauses taken. The method ends in `After(planned[..n])`, where:

- `planned` is the visits of its passes (`PassPlan`) laid end to end;
- `n` is fixed by `StopsAt`: every poll before visit `n` reads unset, and the worker stops short only at a poll that reads set.

The properties of `After` (growth, the counter, duplicate freedom, the order of
visits) are proved as lemmas.

The pause after each visit is `time.sleep(max(delay, 10))`, and the handler
puts no upper bound on `delay`. CPython converts a sleep duration to a signed
64-bit count of nanoseconds. It raises `OverflowError` for a whole number of
seconds at or above `SLEEP_LIMIT` (9223372037). With such a delay:

- the first visit of a pass is made and its record saved;
- the pause then raises;
- the outer `except` pauses 10 seconds;
- the `while` starts a new pass from the first message line.

The model includes this path. `PassPlan` is then the first visit alone, so the
worker visits the first message line with the first token, and nothing else,
once every 10 seconds.

Three points about the code that a reader might not expect:

- `cleanup_tasks` removes every task whose flag is set. It does not check
  whether the worker thread has finished.
- The valid and invalid token lists are not kept disjoint. A token found
  valid once and invalid later is in both (`ValidAndInvalidMayOverlap`).
- The outer `while` of the worker is endless. The model bounds it by a
  `passes` parameter.

## Model

| member | source | states |
|---|---|---|
| Text.Strip | main.py:77 | `str.strip()`: whitespace removed at both ends. It has no ensures; its properties are the lemmas below |
| Text.StripTrims | main.py:77 | after `strip` no whitespace is left at either end, the result is never longer, and it is empty exactly when the input is blank |
| Text.StripSplits | main.py:77 | `strip` removes only whitespace, and only at the two ends |
| Text.StripPadded | main.py:77 | whitespace padded around a trimmed string is exactly what `strip` removes |
| Text.StripIdempotent | main.py:79 | stripping twice is stripping once |
| Text.ComposeMessage | main.py:77 | `f"{prefix} {message}".strip()`. It has no ensures; see ComposeTrimmed, ComposeWithoutPrefix, ComposeTrimmedParts and ComposeBlankLine |
| Text.ComposeTrimmed | main.py:77 | the composed message has no leading or trailing whitespace |
| Text.ComposeWithoutPrefix | main.py:77 | with the default empty prefix the posted message is the stripped line |
| Text.ComposeTrimmedParts | main.py:77 | a non-empty trimmed prefix and line are joined by exactly one space |
| Text.ComposeBlankLine | main.py:77 | a blank message line is posted as the stripped prefix alone |
| Text.NormaliseTokens | main.py:159 | `[t.strip() for t in tokens if t.strip()]`, used at line 159 and again at line 79. It has no ensures; see NormaliseShape, NormaliseMembers, NormaliseAppend and NormaliseSingle |
| Text.NormaliseShape | main.py:79 | every kept token is non-empty and trimmed, never more tokens than given, and none kept exactly when all are blank |
| Text.NormaliseMembers | main.py:159 | a value is kept exactly when it is the stripped form of a non-blank input token |
| Text.NormaliseAppend | main.py:159 | the filter keeps order: filtering a concatenation concatenates the filtered parts |
| Text.NormaliseIdempotent | main.py:79 | filtering an already filtered list (as the worker does with the handler's list) changes nothing |
| Text.NormaliseSingle | main.py:152 | one token filters to itself stripped, or to nothing when blank |
| Text.DuplicatesKept | main.py:159 | for any tokens before it, a non-blank token given twice is kept twice, stripped, after what the earlier tokens give |
| Checkpoints.Step | main.py:86-111 | one token visit's update of the record. It has no ensures; see StepEffect and StepGrows |
| Checkpoints.AddTokenUnion | main.py:87 | adding a token to a list is a set union |
| Checkpoints.AddTokenKeepsDistinct | main.py:110 | adding a token keeps the list duplicate-free |
| Checkpoints.StepEffect | main.py:84-111 | valid branch: the token joins the valid list, the invalid list is unchanged, and the counter rises by one exactly when the POST answered 200. Invalid branch: the token joins the invalid list and the rest is unchanged |
| Checkpoints.StepGrows | main.py:84-111 | one visit only adds tokens and never lowers the counter, and the visited token ends up in the list of its branch |
| Dispatch.PerTokenWait | main.py:117 | the pause after a visit is `max(delay, 10)`: at least 10 and at least the delay |
| Dispatch.SleepFailsExactly | main.py:117 | the pause raises exactly when the delay is at least 9223372037 seconds, and the worker then waits the outer handler's 10 seconds instead |
| Dispatch.PassPlanCases | main.py:71-124 | with an ordinary delay a pass is every message line with every token; with a delay whose pause raises, every pass is the first line with the first token alone |
| Dispatch.After | main.py:84-117 | the worker's record, saved records, POSTs and pauses after a run of visits. It has one ensures (one saved record per visit); see AfterSnoc and the lemmas below |
| Dispatch.Replay | main.py:84-111 | the record after a run of visits. It has no ensures; see ReplayGrows, ReplaySent and ReplayKeepsDistinct |
| Dispatch.Posts | main.py:86-98 | the POSTs of a run of visits. It has no ensures; see PostsAreValidVisits |
| Dispatch.AfterSnoc | main.py:84-117 | one more visit steps the record, saves it, posts only with a valid token and pauses once |
| Dispatch.RunMessage | main.py:79-117 | the token loop makes the visits of its row up to the first poll that reads the flag set, or only the first visit when the pause raises, and ends in the state after exactly those visits, less the pause the outer handler still owes |
| Dispatch.RunPass | main.py:73-120 | a pass makes a prefix of its plan, the whole plan unless a poll read the flag set, and reports whether the pause raised |
| Dispatch.SendMessages | main.py:60-124 | from the fresh record the worker makes exactly the planned visits before the first poll that reads the flag set, taking the outer handler's pause after a pass that raised, and its record, saved records, POSTs and pauses are those of `After` on them |
| Dispatch.StopsAtUnique | main.py:71-81 | the number of visits made is determined by the flag |
| Dispatch.NeverStoppedMakesAll | main.py:71-81 | a flag that is never set lets every planned visit happen |
| Dispatch.StoppedAtOnceMakesNone | main.py:71-75 | a flag set before the first poll lets no visit happen |
| Dispatch.NoVisitAfterStop | main.py:80-81 | no visit is made at or after a poll that reads the flag set |
| Dispatch.AfterUsesOnlyMadeVisits | main.py:84-98 | the worker's state depends only on the checks and POSTs of visits it made, so nothing after the stop is checked or posted |
| Dispatch.SnapshotsAt | main.py:113-115 | the record saved after visit k is the record after the first k + 1 visits |
| Dispatch.ReplayGrows | main.py:87-110 | along a run both token lists only gain members and the counter never goes down |
| Dispatch.SnapshotsGrow | main.py:115 | every saved record extends the starting record and every earlier saved one |
| Dispatch.ReplaySent | main.py:100-102 | the counter rises by exactly the number of valid-token POSTs that answered 200 |
| Dispatch.NothingDeliveredNothingCounted | main.py:100-105 | if no POST answers 200 the counter stays where it was |
| Dispatch.ReplayKeepsDistinct | main.py:87-110 | both token lists stay free of duplicates along a run |
| Dispatch.AlwaysValidNeverInvalid | main.py:109-110 | a token that every check finds valid never enters the invalid list |
| Dispatch.ValidAndInvalidMayOverlap | main.py:86-110 | a token found valid and later invalid is in both lists |
| Dispatch.PostsAreValidVisits | main.py:86-98 | the POSTs are exactly the visits whose token was found valid, in the order made: POST m is the visit at the m-th valid index |
| Dispatch.PassVisitsAt | main.py:73-79 | a pass goes message line by message line, each composed line with every filtered token in order |
| Registry.Completed | main.py:54 | the ids collected at line 54. It has no ensures; see SweepLeavesNoSetFlag, SweepKeepsUnset and SweepThreadsExactly |
| Registry.SweptFlags | main.py:55-56 | the flag table after a sweep. It has no ensures; see SweepLeavesNoSetFlag and SweepKeepsUnset |
| Registry.SweptThreads | main.py:57-58 | the thread table after a sweep. It has no ensures; see SweepThreadsExactly and SweepRemovesSameIds |
| Registry.TaskRegistry.constructor | main.py:21-22 | both tables start empty |
| Registry.TaskRegistry.Register | main.py:165-166 | a new task gets an unset flag and its worker |
| Registry.TaskRegistry.Cleanup | main.py:52-58 | both tables lose exactly the ids whose flag was set, and nothing else changes |
| Registry.SweepLeavesNoSetFlag | main.py:54-56 | after a sweep no remaining flag is set |
| Registry.SweepKeepsUnset | main.py:54-56 | a task with an unset flag survives with its flag unchanged |
| Registry.SweepThreadsExactly | main.py:55-58 | a thread entry goes exactly when its id had a set flag. Others stay unchanged, including ids with no flag |
| Registry.SweepRemovesSameIds | main.py:55-58 | an id in both tables leaves both or neither |
| Registry.SweepIdempotent | main.py:52-58 | a second sweep with no new flag set changes nothing |
| Submission.ClampDelay | main.py:135 | the accepted delay is `max(n, 5)`: at least 5 and at least the given value |
| Submission.Delay | main.py:135 | `max(int(time), 5)` with 10 when absent, or a failure when `int()` raises. It has no ensures; see DefaultDelay and ClampDelay |
| Submission.RawTokens | main.py:150-157 | the single stripped token, or the token file's lines, or nothing when that file is missing. It has no ensures; see SingleTokenUsed |
| Submission.Validate | main.py:133-161 | the handler's checks in order. It has no ensures; see ValidateAcceptsExactly and AcceptedJob |
| Submission.ValidateAcceptsExactly | main.py:133-161 | a form is accepted exactly when every field and file is present, the time parses, the message file is non-empty and some token is non-blank |
| Submission.AcceptedJob | main.py:133-161 | an accepted job has delay at least 5, the file's message lines (non-empty) and a non-empty list of trimmed non-blank tokens that refiltering leaves unchanged |
| Submission.DefaultDelay | main.py:135 | without a `time` field the delay is 10, and so is the pause |
| Submission.AcceptedPause | main.py:117 | for any accepted delay the requested pause is at least 10 seconds and at least the delay |
| Submission.OverlongDelayAccepted | main.py:135 | a `time` of 9223372037 or more is accepted unchanged, and the worker's pause then raises |
| Submission.EmptyMessagesRejected | main.py:147-148 | an empty message file is refused with its own message, before any token check |
| Submission.BlankTokensRejected | main.py:159-161 | a token list with only blank entries is refused |
| Submission.SingleTokenUsed | main.py:151-152 | in single-token mode a non-blank token is used alone, stripped |
| Submission.HandlePost | main.py:127-170 | a request sweeps the tables, answers with the checks' verdict, and registers a task only for an accepted form |

## Left out

- The HTTP calls are oracle inputs: the validity check (main.py:39-50) and the POST (main.py:90-98). The logging of the error body (main.py:104) and every `print` are left out.
- `save_cookies` and `load_cookies` write JSON files. They are not modelled as files: each save is an entry of the worker's `saved` sequence, and `load_cookies` is unused by the core.
- Threads, `Event` objects and `time.sleep` are left out. The flag is an oracle read at each poll, and each pause is the computed duration in the `waits` sequence.
- The `last_checked` timestamps (main.py:67, 114) come from a wall clock and are not modelled.
- The id of a new job is drawn at random by `secrets.token_urlsafe`. It is a parameter of `HandlePost`, and the model does not rely on or claim its uniqueness.
- The worker's outer `except` (main.py:122-124) is modelled only for the pause that raises. It also catches failures of the file write in `save_cookies` and of the `print` calls at main.py:108 and main.py:111. Those come from I/O and are not modelled. After one of them, the worker pauses 10 seconds and starts a new pass from the first message line.
- Python leaves the order of `list(set(...))` unspecified. The model appends a new token at the end, and no property depends on that order.
- Dispatch.SendMessages: the endless outer `while` is bounded by `passes`. The method does not model a run that goes on past that bound.
- Form and file parsing are modelled only as their results:
  - `read().decode().splitlines()` gives the list of lines of an upload. An upload that is not valid UTF-8 makes `decode()` raise at main.py:146 or main.py:157, and the handler's `except` (main.py:416-417) answers 400 with `Error: ...`. `Upload` holds decoded lines only, so the model has no rejection for that case;
  - the whole-file `strip()` of the token file is not modelled, and it has no effect once each token is stripped and blank ones are dropped;
  - `int()` on the `time` field is modelled as a parsed number or a failure.
- The text of error answers that come from raised exceptions (`Error: ...`) is left out; only the rejection kind is kept.
- A stop flag, once set, is taken to stay set. No modelled code calls `clear()`, but the handler that sets the flag is not part of this model. The one-value-per-gap reading of `stopSet(k)` rests on this.
- The Flask routes, the HTML templates and the response cookies are not modelled. The `/stop` and `/monitor` handlers are not part of this model, so nothing here sets a stop flag.
