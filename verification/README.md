# SmolClaw: models and proofs

A Dafny model of five components of the SmolClaw runtime, with proofs about every input, every run or
every reachable state. `dafny verify dfyconfig.toml` verifies the whole project.

| files | component |
|---|---|
| `Calendar`, `CronSchedule`, `CronFormat`, `CronMeaning`, `CronCoverage`, `CronStore`, `Routine`, `SopRun` | schedules and the next-fire search, the job store and its file, event routines, operating-procedure runs |
| `SeenWindow`, `RateLimit`, `WebhookInbox`, `Base64`, `SessionReplay`, `Mail` | the channel orchestrator and the webhook inbox |
| `ConfigState`, `ConfigFields`, `ConfigLayers`, `ConfigMeaning`, `ConfigOrder`, `ConfigRefusal`, `ConfigServers`, `ConfigStore` | layered configuration |
| `AcpSessions`, `AcpFrames` | the ACP session table and its update frames |
| `Template` (and `RateLimit`) | the named-webhook router |
| `Text`, `Sequences` | byte strings, decimal printing and scanning, splitting; linear search |

Each component comes twice: as functions on values, which say what an operation means and over which the
theorems are stated, and, where the C code updates something in place, as a class or a method with the
code's own loops, whose `ensures` clauses tie it to those functions.

Conventions. Byte strings are sequences of characters, so a theorem about all texts covers all byte
strings. Division truncates toward zero where C divides signed values (`Quotient`). Integer widths are
written out where they matter: `int64` ranges, the 32-bit accumulator of the decoder, `size_t` indices,
the 32-bit schema version, the 64-bit session counter. Allocation succeeds. The clock, the payload-field
lookup, the history type with its append, the agent's turn result, the configuration schema and the
validation rules for single fields are parameters.

## Where the code does less than one might expect

Each of these is a theorem with the exact condition.

- A next-fire search from a negative time that is no minute boundary skips the boundary right after it
  (`CronSchedule.FirstCursorIsLeast`).
- A schedule that fixes both the day of month and the weekday, or a date such as February 29th or
  February 30th, times out from some starting time although it may fire later
  (`CronCoverage.SearchNeverTimesOut`).
- A job without a schedule text does not load back as it was saved: it gains the formatted text, and the
  cancel flag is never saved (`CronStore.SaveThenLoad`).
- A routine forgets a match at time zero or before (`Routine.CooldownHolds`).
- A second advance while waiting for approval passes the step as completed, without approval
  (`SopRun.ApprovedIff`, with the input in `SopRun.SecondAdvancePasses`).
- Twice the limit less one requests can pass the webhook channel within 60 seconds
  (`RateLimit.MinuteLimitIsTight`, `RateLimit.LimitIsExact`).
- Session keys with underscores in channel or sender, or with a thread other than the conversation, replay
  into another scope or none (`SessionReplay.KeyRoundTrip`,
  `SessionReplay.ReplayIffFaithful`).
- Mail headers are searched for in the body too (`Mail.PlaceholderIff`, `Mail.BodyTakenForHeader`).
- A refused server flag leaves its text stored without a source (`ConfigLayers.StepKeepsKeys`,
  `ConfigLayers.RefusedFlagIsStored`).
- An attachment whose body is then refused for want of a text stays on disk, without an owner
  (`WebhookInbox.OrphansIff`).
- A refused source keeps what it had written, which depends on hash order (`ConfigRefusal.RefusedOrder`,
  `ConfigRefusal.ChangeShows`).
- Two keys that name the same field of the same server, such as index `1` and `01`, make the result of a
  source depend on hash order (`ConfigOrder.OrderMatters`, `ConfigOrder.SpellingsClash`).
- A disabled MCP server hides an enabled one of the same name behind it (`ConfigServers.EnabledIsFound`).
- An ACP response can say finished without a final update, and the other way round
  (`AcpFrames.ResponseAgrees`).
- The template renderer drops the last byte of trailing text (`Template.RenderKeepsMeaning`,
  `Template.PlainTextIsCut`).

## Model

| member | source | states |
|---|---|---|
| Calendar.DateOf | src/autonomy/autonomy.c:242-261 | the month, day and year the matcher reads for a day number form a valid date with exactly that day number |
| Calendar.DateOfDayNumber | src/autonomy/autonomy.c:242-261 | breaking a day number down inverts counting days from a valid date, so the broken-down date is the only one |
| Calendar.NextDay | src/autonomy/autonomy.c:242-261 | the date of the next day number is the next date by the calendar rules (month lengths, leap years) |
| Calendar.YearStep | src/autonomy/autonomy.c:242-261 | the year formula of the POSIX epoch grows by 366 days over leap years and 365 over the others |
| Calendar.EpochDay | src/autonomy/autonomy.c:242-261 | day 0 is January 1st 1970, a Thursday; with the laws of the next day and weekday this fixes every date |
| Calendar.NextWeekday | src/autonomy/autonomy.c:242-261 | the weekday moves on by one each day, from Saturday to Sunday |
| Calendar.KnownDays | src/autonomy/autonomy.c:242-261 | February 2000 ends on the 29th, February 1900 and 2023 on the 28th |
| CronSchedule.ParseSchedule | src/autonomy/autonomy.c:181-240 | every accepted schedule has each field in its range, with a free minute whenever it has a step |
| CronFormat.FormatReads | src/autonomy/autonomy.c:288-354 | a schedule without a text of its own prints to a text that parses to the same fields (a step that is not positive becoming zero) and matches at the same times |
| CronFormat.OutOfRange | src/autonomy/autonomy.c:1203-1228 | in each of the five places a plain number below or above the range of its field is refused as out of range |
| CronFormat.FieldCount | src/autonomy/autonomy.c:200-208 | a text that does not have five tokens is refused with the field count key |
| CronFormat.ParsedReads | src/autonomy/autonomy.c:181-354 | a parsed schedule prints as its recorded text, which parses to the same schedule if and only if the source has no NUL byte or no white space right before the first |
| CronFormat.JoinedTokens | src/autonomy/autonomy.c:200-206 | five printed fields are cut into exactly those five tokens |
| CronSchedule.MatchesAtBoundary | src/autonomy/autonomy.c:242-261 | at a minute boundary the second-level match is a match of minute, hour and day counted from the epoch, also before it |
| CronMeaning.PlainMatches | src/autonomy/autonomy.c:242-261 | a five-field text with a plain minute matches a minute boundary if and only if each field is `*` or the number of its minute, hour, day, month or weekday |
| CronMeaning.StepMatches | src/autonomy/autonomy.c:1230-1254 | a text with a stepped minute matches, among the boundaries its other fields admit, exactly those of the minutes 0, k, 2k, ... below 60 |
| CronMeaning.StepNext | src/autonomy/autonomy.c:263-286 | every k minutes, from a boundary the text matches, the answer of the search is k minutes on, or the next full hour when that is sooner |
| CronMeaning.FixedNext | src/autonomy/autonomy.c:263-286 | at minute v of every hour, from any boundary, the answer is the next minute v, an hour on from a boundary the text matches |
| CronMeaning.NextIsUnique | src/autonomy/autonomy.c:263-286 | the search has one possible answer |
| CronSchedule.FirstCursorIsLeast | src/autonomy/autonomy.c:263-267 | the first boundary tried is the least one strictly after the given time if and only if that time is not negative or is itself a boundary (truncating division) |
| CronSchedule.QuietUntil | src/autonomy/autonomy.c:263-286 | what a quiet stretch of boundaries says about the least match and about the whole window |
| CronSchedule.NextAfter | src/autonomy/autonomy.c:263-286 | succeeds iff the 366-day window holds a match; the result matches, is after the given time, and no earlier boundary of the window (for times from the epoch on: no earlier boundary at all) matches |
| CronCoverage.DateComesRound | src/autonomy/autonomy.c:263-286 | a date that exists in every year falls on one of any 366 consecutive days |
| CronCoverage.MonthDayComesRound | src/autonomy/autonomy.c:263-286 | every weekday of a fixed month falls on one of any 366 consecutive days |
| CronCoverage.RecurringScheduleFires | src/autonomy/autonomy.c:263-286 | a schedule with a free day of month, or with a free weekday and a date of every year, matches in every window, whatever its hour and minute |
| CronCoverage.FirstsAvoidJulyWeekday | src/autonomy/autonomy.c:263-286 | from July 1st of a year before a common year until September of the next, no first of a month repeats the weekday of that July 1st |
| CronCoverage.DayAndWeekdayGap | src/autonomy/autonomy.c:263-286 | for every day of month and weekday there are 367 consecutive days without that combination |
| CronCoverage.RareScheduleMisses | src/autonomy/autonomy.c:263-286 | every schedule outside the recurring ones has a starting time from which the search times out |
| CronCoverage.SearchNeverTimesOut | src/autonomy/autonomy.c:263-286 | the search succeeds from every time if and only if the day of month is free, or the weekday is free and the date (if fixed) exists in every year |
| CronStore.WriteEscaped | src/autonomy/autonomy.c:1670-1689 | the byte loop writes the escaped text |
| CronStore.DecodeEscaped | src/autonomy/autonomy.c:1691-1724 | the cursor loop decodes, or fails, just as the recursive decoder does |
| CronStore.UnescapeEscape | src/autonomy/autonomy.c:1670-1724 | every text survives escaping |
| CronStore.BrokenEscape | src/autonomy/autonomy.c:1691-1724 | a percent sign without two hexadecimal digits behind it is refused, wherever it stands |
| CronStore.EscapeIsPlain | src/autonomy/autonomy.c:1670-1689 | escaped text holds no bar, line break or other control character |
| CronStore.SplitFields | src/autonomy/autonomy.c:1584-1620 | the field loop yields the pieces between bars, or gives up past nine when there are more |
| CronStore.JobLineSplits | src/autonomy/autonomy.c:1584-1620 | a written job line splits back into its nine fields |
| CronStore.JobLineRoundTrip | src/autonomy/autonomy.c:1584-1668 | parsing a written job line gives the job with its schedule re-parsed from the saved text and its cancel flag gone, or the schedule error |
| CronStore.CleanIsKept | src/autonomy/autonomy.c:1670-1689 | exactly the texts of visible characters and blanks without a percent sign or a bar are written as they stand; every other text grows, by two upper-case hexadecimal digits a character |
| CronStore.LineRead | src/autonomy/autonomy.c:1584-1668 | a line reads if and only if it has nine readable fields; which key each defect has, and what each field sets in the job |
| CronStore.LoadRefused | src/autonomy/autonomy.c:1502-1582 | a job line without an id and a file over one mebibyte are refused |
| CronStore.LineSpelled | src/autonomy/autonomy.c:519-575 | the text of a job line, field by field, for texts without anything to escape |
| CronStore.TextlessJob | src/autonomy/autonomy.c:519-575 | a job with a parsed schedule and no text of its own reads back with the schedule unchanged |
| CronStore.WriteLine | src/autonomy/autonomy.c:519-575 | the fields written one after another make the job line |
| CronStore.PutKeepsIds | src/autonomy/autonomy.c:387-412 | putting keeps ids distinct and makes the job the one found under its id |
| CronStore.RemoveTakesOne | src/autonomy/autonomy.c:428-448 | removing takes out the job of that id and leaves every other in its place; an absent id changes nothing |
| CronStore.PutReplacesOne | src/autonomy/autonomy.c:387-412 | putting under an id in the store replaces its job and leaves every other in its place; under a new id it appends |
| CronStore.RemoveUndoesPut | src/autonomy/autonomy.c:387-448 | removing a newly put job restores the vector |
| CronStore.LoadOfSave | src/autonomy/autonomy.c:1545-1582 | loading a saved body into any store adds exactly the saved jobs as re-read, in order, up to the first that does not read |
| CronStore.LoadAppends | src/autonomy/autonomy.c:1545-1582 | loading saved jobs of new ids into a store appends them in order |
| CronStore.LineEnds | src/autonomy/autonomy.c:1557-1577 | a line may end in a carriage return, and empty lines are skipped |
| CronStore.HeaderIsRequired | src/autonomy/autonomy.c:1569-1573 | a body whose first line is not the header is refused and the store left alone |
| CronStore.AddAllShape | src/autonomy/autonomy.c:387-412 | a run of puts that ends with one more job a line met every id for the first time, and conversely |
| CronStore.SaveThenLoad | src/autonomy/autonomy.c:455-586 | save then load into an empty store gives the same jobs in the same order if and only if the body is at most 1 MiB, ids are distinct and non-empty, no cancel flag is set, and each job carries a text that parses to its schedule |
| CronStore.JobStore.Put | src/autonomy/autonomy.c:387-412 | replaces the job with that id or appends, and refuses an empty id |
| CronStore.JobStore.Find | src/autonomy/autonomy.c:414-426 | the position of the first job with the id |
| CronStore.JobStore.Remove | src/autonomy/autonomy.c:428-448 | removes in place what the sequence removal does, and says whether the id was there |
| CronStore.JobStore.Save | src/autonomy/autonomy.c:494-586 | the written file is the header and one line a job |
| CronStore.JobStore.ParseLine | src/autonomy/autonomy.c:1584-1668 | parses a line and adds its job, or leaves the store alone with the error |
| CronStore.JobStore.Parse | src/autonomy/autonomy.c:1545-1582 | the offset loop over lines has the outcome of the line-by-line meaning, error and partial store included |
| CronStore.JobStore.Load | src/autonomy/autonomy.c:455-492 | as Parse, after the size limit |
| SopRun.Run.AdvanceRun | src/autonomy/autonomy.c:904-928 | one advance in place: state, audit records and status |
| SopRun.Run.ApproveRun | src/autonomy/autonomy.c:930-943 | one manual approval in place: state, audit records and status |
| SopRun.AuditFollowsGrammar | src/autonomy/autonomy.c:888-943 | after any calls the audit trail is the document-order trail of some closings, as many as the step counter, ending on an approval request iff the run waits; a completed run has passed every step; every passed approval step was approved by hand if and only if no advance was called while the run waited |
| SopRun.ApprovedIff | src/autonomy/autonomy.c:904-943 | the same equivalence for any reading of the audit trail, since the trail has only one |
| SopRun.SecondAdvancePasses | src/autonomy/autonomy.c:914-927 | on a one-step document that requires approval, two advances leave the trail approval required, step completed, and the run completed |
| SopRun.StatusTells | src/autonomy/autonomy.c:904-943 | an advance is pending exactly when it has asked for an approval and done nothing else; an approval is refused exactly when the run does not wait on a step, and then changes nothing |
| SopRun.AdvanceCompletes | src/autonomy/autonomy.c:910-913 | an advance past the last step completes the run |
| SopRun.TrailDeterminesRun | src/autonomy/autonomy.c:904-943 | the trail tells how each step was closed and whether the run waits |
| SopRun.CounterCountsClosings | src/autonomy/autonomy.c:904-943 | the step counter is the number of closing records and never exceeds the step count |
| Routine.Instance.Matches | src/autonomy/autonomy.c:992-1006 | accepts exactly the enabled, equally named events past the cooldown and remembers the last one |
| Routine.AcceptedAreApart | src/autonomy/autonomy.c:992-1006 | on a time-sorted stream the accepted events are the cooldown apart |
| Routine.GreedyIsAhead | src/autonomy/autonomy.c:992-1006 | no choice of events the cooldown apart is ever larger than the accepted ones, nor as large and earlier |
| Routine.AcceptsMost | src/autonomy/autonomy.c:992-1006 | the accepted events are a largest possible choice of events the cooldown apart |
| Routine.CooldownHolds | src/autonomy/autonomy.c:992-1006 | on every time-sorted stream the accepted events are the cooldown apart if and only if no event of the routine stamped zero or less is followed within the cooldown by another; in that case they are as many as can be |
| Routine.DisabledAcceptsNothing | src/autonomy/autonomy.c:992-997 | a disabled routine accepts nothing |
| Routine.NoCooldown | src/autonomy/autonomy.c:998-1005 | without a cooldown an enabled routine accepts its own events and just those |
| Routine.EpochIsForgotten | src/autonomy/autonomy.c:998-1005 | two events of the routine at time zero are accepted too close |
| SeenWindow.IdWindow.IsSeen | src/channels/orchestrator.c:2446-2458 | true iff the id is non-empty and in the window |
| SeenWindow.IdWindow.Add | src/channels/orchestrator.c:2460-2499 | drops the oldest ids until the new one fits, then appends it |
| SeenWindow.IdWindow.Accept | src/channels/orchestrator.c:1404-1411 | reports a duplicate iff the id is in the window, and remembers it otherwise |
| SeenWindow.WindowIsRecent | src/channels/orchestrator.c:2446-2499 | after any run the window is exactly the last accepted non-empty ids, and equal accepted ids are more than the bound apart |
| SeenWindow.DuplicateIff | src/channels/orchestrator.c:2446-2499 | after any run an id is a duplicate iff it is non-empty and among the last accepted ones; the window is bounded and free of duplicates |
| SeenWindow.AcceptancesAreApart | src/channels/orchestrator.c:2446-2499 | between two acceptances of one id lie at least as many distinct other accepted ids as the window holds |
| RateLimit.MinuteLimiter.Request | src/channels/orchestrator.c:2156-2182 | one request against the 60-second window, in place |
| RateLimit.MinuteLimit | src/channels/orchestrator.c:2156-2182 | any 60 consecutive seconds see at most twice the limit less one pass |
| RateLimit.MinuteLimitIsTight | src/channels/orchestrator.c:2156-2182 | for every limit some request sequence reaches that bound |
| RateLimit.LimitIsExact | src/channels/orchestrator.c:2156-2182 | every 60 seconds of every run see at most the limit pass if and only if the limit is one |
| RateLimit.RefusedOnlyWhenUsed | src/channels/orchestrator.c:2156-2182 | a request is refused only when the whole limit has passed within the last 60 seconds |
| RateLimit.NoLimit | src/channels/orchestrator.c:2165-2167 | a limit of zero lets every request pass |
| RateLimit.EndpointLimiter.Request | src/channels/webhooks.c:276-292 | one request against the one-second window, in place |
| RateLimit.SecondLimit | src/channels/webhooks.c:276-292 | each second passes its requests up to the limit, and exactly those |
| WebhookInbox.WebhookChannel.CheckReplay | src/channels/orchestrator.c:2126-2154 | denies iff a positive timestamp is outside the window or the nonce was seen |
| WebhookInbox.WebhookChannel.Receive | src/channels/orchestrator.c:936-994 | rate limit, parse (refused, refused with its attachment stored, or a message), replay test on a second clock reading, hand-over to the inbox, nonce and clean-up leave the state of `Ingest` |
| WebhookInbox.FileSystem.Create | src/media/media.c:838-862 | a file is created only where none exists |
| WebhookInbox.WebhookChannel.Listen | src/channels/orchestrator.c:4429-4451 | hands over the oldest message with its file, and unlinks nothing |
| WebhookInbox.WebhookChannel.Destroy | src/channels/orchestrator.c:3756-3781 | clears every record left in the inbox |
| WebhookInbox.FileSystem.ClearRecord | src/channels/orchestrator.c:770-790 | clearing a record unlinks the file it owns, and only then |
| WebhookInbox.RunInvariant | src/channels/orchestrator.c:936-994 | in every run: every file ever stored is kept or unlinked, no path is kept twice, delivery is in order, the nonce window is the recent accepted nonces |
| WebhookInbox.StepInOrder | src/channels/orchestrator.c:4429-4451 | every step keeps what was delivered a prefix of what was accepted, and the inbox the rest |
| WebhookInbox.OneOwnerOrUnlinkedOnce | src/channels/orchestrator.c:1953-2086 | in every state of every run a path is flagged by at most one record, and is on disk exactly when flagged by one or left behind by a refused body; each time it was stored its file is still there or was unlinked, once |
| WebhookInbox.OrphansIff | src/channels/orchestrator.c:4560-4583 | no file is without an owner if and only if no request past the limiter stored an attachment and was then refused for want of a text |
| WebhookInbox.SentAgain | src/media/media.c:807-846 | one body received, delivered, cleared and received again stores and unlinks its path twice, the second time as a replay |
| WebhookInbox.FileExistsWhileHeld | src/channels/orchestrator.c:1546-1563 | from the listen that hands a record over until it is cleared, in every state between, its file exists; processing happens in that span |
| WebhookInbox.NothingLeaks | src/channels/orchestrator.c:3756-3781 | once the channel is destroyed and its consumer holds nothing, the files left are those of refused bodies and every other was unlinked once for each time it was stored; none is left if and only if no request left one behind |
| WebhookInbox.ReplayedIff | src/channels/orchestrator.c:2144-2203 | in every run a nonce is answered as replayed iff it is one of the last 1024 accepted, and equal accepted nonces are more than 1024 apart |
| WebhookInbox.AcceptedIff | src/channels/orchestrator.c:936-994 | in every run a request is accepted if and only if it passes the limiter, its body is a message whose attachment can be stored, its timestamp is missing or within the window around the clock, and its nonce is empty or not among the last 1024 accepted |
| WebhookInbox.AcceptedJoins | src/channels/orchestrator.c:960-994 | an accepted message is the last of the inbox with its file on disk; any other request leaves inbox and nonces alone |
| Base64.DecodeText | src/channels/orchestrator.c:2324-2369 | the loop with its 32-bit accumulator has the result of the mathematical decoder, so the shift never loses a bit |
| Base64.FeedAll | src/channels/orchestrator.c:2324-2369 | after any input the held bits are 0, 2, 4 or 6 and the accumulator is below two to their number |
| Base64.SpacingIsSkipped | src/channels/orchestrator.c:2336-2338 | white space changes nothing wherever it stands |
| Base64.DecodeIff | src/channels/orchestrator.c:2324-2389 | accepts exactly two or more symbols followed by padding, white space aside; the output is the big-endian regrouping of the symbols, fewer than eight bits dropped |
| Base64.RefusedIff | src/channels/orchestrator.c:2324-2369 | input of the accepted shape with at most one symbol is refused as empty, all other refused input as invalid |
| Base64.DecodeInvertsEncode | src/channels/orchestrator.c:2324-2389 | inverts the encoder of section 4 of RFC 4648 on every non-empty byte string with white space put in anywhere |
| Base64.SymbolsAreAlphabet | src/channels/orchestrator.c:2371-2389 | the symbols are the 64 characters of table 1 of RFC 4648, each with its place there for its value |
| SessionReplay.KeyRoundTrip | src/channels/orchestrator.c:3260-3334 | a NUL-free key splits back into its scope if and only if channel and sender are non-empty and free of underscores and the thread id is empty or equals the conversation id |
| SessionReplay.SharedScope | src/channels/orchestrator.c:2515-2520 | two turns share a history if and only if they are of one channel (the unnamed one is `unknown`), one sender and one thread, a turn without a thread being in that of its conversation |
| SessionReplay.KeySpelled | src/channels/orchestrator.c:3310-3334 | the key is channel, conversation and sender with underscores between them |
| SessionReplay.SplitDeterminesKey | src/channels/orchestrator.c:3260-3288 | distinct scopes have distinct keys |
| SessionReplay.AppendReads | src/channels/orchestrator.c:2515-2559 | an append changes the history of its own scope and no other |
| SessionReplay.TurnAppends | src/channels/orchestrator.c:1523-1535 | a turn adds the input and then the reply to its own history and to the end of the table, and changes no other history |
| SessionReplay.ReplayIsFold | src/channels/orchestrator.c:3188-3258 | replayed rows give each scope the fold of the appends they stand for |
| SessionReplay.SelectedFolds | src/channels/orchestrator.c:3188-3258 | reading the table by session key and id gives every scope the fold of its rows in insertion order |
| SessionReplay.RespectsIff | src/channels/orchestrator.c:2515-2520 | a NUL-free turn goes to a scope exactly when its key splits into it if and only if, being of the scope, its key is faithful and, being of another, its key leads elsewhere |
| SessionReplay.RunIsFaithful | src/channels/orchestrator.c:1523-1535 | over any run of NUL-free turns and restarts, the live history of a scope that every turn respects is the fold of its stored rows, whatever keys the other turns have |
| SessionReplay.ReplayRebuilds | src/channels/orchestrator.c:3188-3288 | at any point of such a run a replay rebuilds the live history of every scope that the turns so far respect |
| SessionReplay.ReplayRebuildsAll | src/channels/orchestrator.c:3188-3288 | when every turn has a faithful key the replay rebuilds every scope |
| SessionReplay.ReplayIffFaithful | src/channels/orchestrator.c:3188-3334 | for any turns under NUL-free keys, the replay rebuilds every scope whatever NUL-free texts they have if and only if every turn has a faithful key |
| SessionReplay.UnfaithfulShows | src/channels/orchestrator.c:3260-3288 | any turn with an unfaithful key spoils the replay for some texts |
| SessionReplay.UnderscoreMoves | src/channels/orchestrator.c:3260-3288 | an underscore in the channel name sends the key to another scope |
| SessionReplay.SingleTurn | src/channels/orchestrator.c:1523-1535 | for one NUL-free turn the replay agrees with the live histories if and only if its key is faithful |
| SessionReplay.Sessions.HistoryFor | src/channels/orchestrator.c:2522-2559 | the position of the scope, pushed with the empty history when it is new |
| SessionReplay.Sessions.ProcessTurn | src/channels/orchestrator.c:1523-1535 | a turn in place: two appends and two rows |
| SessionReplay.Sessions.LoadHistory | src/channels/orchestrator.c:3188-3258 | the row loop leaves the replay of the rows |
| Mail.FindHeader | src/channels/orchestrator.c:4285-4305 | the nested scan returns the header value of the line-by-line meaning |
| Mail.FindBody | src/channels/orchestrator.c:4307-4318 | what follows the first empty line |
| Mail.TrimText | src/channels/orchestrator.c:4320-4332 | the two loops trim both ends |
| Mail.ParseInvertsBuild | src/channels/orchestrator.c:4230-4332 | for one-line From, To, prefix and reply id and any body, the built mail gives back the trimmed From, Subject and body |
| Mail.ParsedMail | src/channels/orchestrator.c:4163-4332 | the parsed record of a built mail has the trimmed sender, or the placeholder, and as text the subject, an empty line and the trimmed body, or the subject alone |
| Mail.ParseFailsIff | src/channels/orchestrator.c:4163-4228 | parsing fails exactly on an empty text and on one whose subject and body are both blank; otherwise the sender is the trimmed From or the placeholder, and a text with one of the two blank is the other |
| Mail.OtherHeaders | src/channels/orchestrator.c:4230-4283 | a built mail names its receiver, and the message it answers in two headers |
| Mail.SubjectSpelled | src/channels/orchestrator.c:4245-4253 | the subject is `SmolClaw reply` behind the prefix and a space, if any |
| Mail.MessageIdComesFromBody | src/channels/orchestrator.c:4163-4190 | a built mail parses, and its Message-ID is the header of that name its body holds, or the placeholder |
| Mail.PlaceholderIff | src/channels/orchestrator.c:4163-4190 | the id is the placeholder if and only if no line of the body is a Message-ID header, or the first that is one has a blank value or the placeholder itself |
| Mail.BodyTakenForHeader | src/channels/orchestrator.c:4285-4305 | a body that reads as a Message-ID header becomes the id: the header search runs past the empty line |
| ConfigState.MirrorPaths | src/config/config.c:1187-1226 | each mirrored field has its own path |
| ConfigStore.ParseMcpServerPath | src/config/config.c:1571-1598 | the index is read exactly: refused iff there are no digits, no field behind them, or the value does not fit in `size_t`; no wrap-around |
| ConfigStore.AssignField | src/config/config.c:1519-1550 | the branch for a field name sets the slot of that name to the converted text, or refuses it |
| ConfigStore.Config.SetSource | src/config/config.c:1325-1365 | records kind and path under the path, and changes nothing else |
| ConfigStore.Config.ServerForIndex | src/config/config.c:1552-1569 | the push loop extends the table with fresh servers that follow the global flag, up to the index |
| ConfigStore.Config.ApplyMcpServerProp | src/config/config.c:1507-1550 | sets the named slot of the named server, or refuses a flag text after growing the table |
| ConfigStore.Config.SetMirrorField | src/config/config.c:1187-1233 | stores a typed field; the loop passes the deferred flag on to just the servers without their own |
| ConfigStore.Config.SetPropFromText | src/config/config.c:1149-1275 | the whole record afterwards, and the error, are those of `SetProp`, refused writes included |
| ConfigStore.Config.ApplyTomlSource | src/config/config.c:188-249 | the entry loop stops at the first refusal with the record of `ApplyToml` |
| ConfigStore.Config.ApplyOverride | src/config/config.c:251-258 | a text override is one step of a run |
| ConfigStore.Config.ValidateAll | src/config/config.c:450-663 | the rules for single fields, then those for the server table |
| ConfigStore.Config.Load | src/config/config.c:99-186 | defaults and their validation, three files (each may be refused by the TOML parser), environment, runtime and the final validation in turn have the outcome of `Loaded`; the record is cleared when anything is refused |
| ConfigStore.LoadedIff | src/config/config.c:68-186 | a load succeeds if and only if every file can be read, no write of any layer is refused and both the defaults and the result are valid; it then leaves what the run of all layers leaves, with a valid server table, and otherwise nothing |
| ConfigStore.SourceRuns | src/config/config.c:188-249 | applying a source is the run of its entries |
| ConfigLayers.SuccessfulStep | src/config/config.c:1277-1365 | a successful write changes one path of each map: its text, and its source |
| ConfigLayers.RefusedStep | src/config/config.c:1162-1176 | a refused write changes nothing, unless its path is outside the schema and names a server flag and its text is no flag: then the text is stored and the table has grown |
| ConfigLayers.StepKeepsKeys | src/config/config.c:1162-1176 | a write keeps both maps on the same keys if and only if it is not such a refused flag at a path not stored before |
| ConfigLayers.RefusedFlagIsStored | src/config/config.c:1162-1176 | setting a server flag that the schema does not know to `maybe` stores the text and no source, in any state |
| ConfigLayers.RunAgrees | src/config/config.c:1149-1275 | after every run, failed ones too, each mirror is the parse of its stored text and each server without its own setting follows the global flag |
| ConfigLayers.LastWriterWins | src/config/config.c:1277-1365 | after a successful run every path holds the text and source of its last writer, and unwritten paths are untouched |
| ConfigLayers.LoadIsLayered | src/config/config.c:99-186 | a load writes its layers in rising precedence |
| ConfigLayers.LoadedValues | src/config/config.c:99-186 | after a successful load a path is stored iff some layer writes it, in both maps, and holds text and source of the last write of the highest layer |
| ConfigLayers.LoadedMirrors | src/config/config.c:99-186 | after a successful load each of the seventeen mirrors is the parse of its winning text (the schema version modulo 2^32) |
| ConfigFields.PatternIff | src/config/sc_config_schema.c:1554-1588 | a path fits a pattern exactly when it puts one dotless, non-empty segment in the place of `<name>`; a path without the mark is no pattern |
| ConfigFields.LookupFinds | src/config/sc_config_schema.c:1532-1552 | the first field of that very path is found, else the first pattern the path fits, else none |
| ConfigFields.ServerPathIff | src/config/config.c:1571-1605 | a path names a server field exactly when it is the prefix, an index that fits in `size_t`, a dot and a field that is not empty |
| ConfigFields.IntegerIff | src/config/config.c:1377-1393 | an integer text is white space, at most one sign and digits up to the end or a NUL byte, in under 64 bytes; its value is clamped to 64 bits |
| ConfigFields.RefusedKey | src/config/config.c:1160-1190 | a text of another type is refused with one key, a field outside the known ones with another, and the record stands |
| ConfigFields.OldSpelling | src/config/config.c:1319-1322 | the old spelling of the schema version writes the new path |
| ConfigMeaning.LoadStores | src/config/config.c:99-186 | after a successful load each path holds the text and source of the highest layer that writes it (runtime, environment, explicit file, workspace marker, default file, defaults), of the last write there; a path no layer writes is not stored |
| ConfigMeaning.EntryAtMirror | src/config/config.c:188-249 | an entry at a mirrored path is accepted if and only if its value has the type of the field, and the field then has that value (the schema version modulo 2^32) |
| ConfigMeaning.ScalarPaths | src/config/config.c:1174-1262 | an entry with an integer is accepted at five mirrored paths and sets the field to it, one with a flag at two others |
| ConfigMeaning.ZeroFields | src/config/config.c:1160-1262 | a number or flag nobody has written, or whose path the schema lists as a string, is zero |
| ConfigMeaning.ProxyAndPort | src/config/config.c:219-235 | `proxy.enabled` and `gateway.port` as written are as read |
| ConfigMeaning.TextAtFlag | src/config/config.c:1395-1409 | a text written to a flag is accepted if and only if it is `true` or `false`, and says which |
| ConfigMeaning.IntReadsBack | src/config/config.c:1377-1393 | every 64-bit integer survives being stored as text |
| ConfigMeaning.SectionField | src/config/config.c:1193-1264 | a schema field in an open section takes exactly the texts of its type |
| ConfigMeaning.ServerWrite | src/config/config.c:1507-1569 | a write to a field of a server changes that field of that server alone, in a table grown as far as it must; a flag takes `true` and `false` only |
| ConfigMeaning.FirstNaming | src/config/config.c:1552-1569 | a server first named by a write of its name is enabled, follows the global flag, and has no transport and no other text |
| ConfigMeaning.GlobalFlagWrite | src/config/config.c:1225-1233 | the global flag reaches the servers without a setting of their own and changes nothing else of the table |
| ConfigLayers.ReadBack | src/config/config.c:260-327 | reading a stored property returns its text, except that mirrored integers come back in canonical decimal |
| ConfigOrder.WritesCommute | src/config/config.c:1507-1569 | two writes that do not clash leave the same state in both orders, growth of the server table and the global flag included |
| ConfigOrder.ClashShows | src/config/config.c:1507-1550 | two clashing writes leave different states |
| ConfigOrder.SourceIsRun | src/config/config.c:188-249 | a source succeeds iff each of its entries is acceptable by itself |
| ConfigOrder.PeacefulOrder | src/config/config.c:188-249 | without clashes every order of the writes leaves the same state |
| ConfigOrder.OrderMatters | src/config/config.c:188-249 | a source succeeds or fails alike in every iteration order and, when it succeeds, leaves the same record, if and only if some entry is refused, or no two entries store different texts at one path or different values in one slot of one server |
| ConfigRefusal.RefusedEntry | src/config/config.c:1149-1176 | the error key of a refused entry does not depend on the record, nor does what it leaves but for a server flag |
| ConfigRefusal.RefusedOrder | src/config/config.c:188-249 | a source with a refused entry leaves the same record and reports the same error key in every order if and only if no entry of it, put alone in front of a refused one, changes what that one leaves and reports |
| ConfigRefusal.AcceptedOrder | src/config/config.c:188-249 | a source without a refused entry leaves the same record in every order if and only if no two entries clash |
| ConfigRefusal.ChangeShows | src/config/config.c:188-249 | in front of a refused entry that is no server flag, an accepted one shows if and only if it changes the record |
| ConfigOrder.ClashingKeys | src/config/config.c:1571-1598 | entries that clash have the same key (up to the two spellings of the schema version) or name the same field of the same server |
| ConfigOrder.SpellingsClash | src/config/config.c:1571-1598 | two spellings of one index, neither in the schema, that give the server different names clash, and the outcome depends on their order |
| ConfigOrder.OneAndZeroOne | src/config/config.c:1585-1592 | `1` and `01` are spellings of one index |
| ConfigServers.Validate | src/config/config.c:614-663 | accepts exactly the tables whose enabled servers are usable and differently named, and reports the fault of the first faulty server |
| ConfigServers.VerdictIff | src/config/config.c:614-663 | from any point up to which no server has a fault, the verdict is empty if and only if the table is valid |
| ConfigServers.ValidIff | src/config/config.c:614-663 | no server has a fault if and only if the enabled ones are usable and their names pairwise distinct |
| ConfigServers.FirstDefect | src/config/config.c:614-663 | the key reported is that of the first defect: no name or transport, no command, no address, or a later namesake |
| ConfigServers.FindByName | src/config/config.c:929-942 | the first server of the name, or the length |
| ConfigServers.EnabledIsFound | src/config/config.c:929-942 | in a valid table an enabled server is found under its name if and only if no disabled server of that name stands before it |
| ConfigServers.DisabledHides | src/config/config.c:929-942 | a disabled namesake in front of any usable server makes a valid table in which that server is not found |
| ConfigServers.GapIsRefused | src/config/config.c:1552-1569 | a write that skips an index leaves an enabled server without a name, which validation refuses |
| AcpSessions.IdsAreDistinct | src/channels/acp.c:492-501 | different counters print as different ids |
| AcpSessions.Server.Remove | src/channels/acp.c:206-227 | removes the session with the id, keeping the order of the others |
| AcpSessions.Server.EvictIdle | src/channels/acp.c:229-249 | removing by id while walking ends, and leaves exactly the sessions that have not expired, in order |
| AcpSessions.Server.NewSession | src/channels/acp.c:337-385 | refuses at the bound, else issues the next id and appends |
| AcpSessions.Server.Prompt | src/channels/acp.c:387-412 | touches the session found, and only for a non-empty id and prompt |
| AcpSessions.RunIsSound | src/channels/acp.c:192-249 | in every run the table is within its bound and holds an ascending choice of the ids issued so far |
| AcpSessions.SessionsAreDistinct | src/channels/acp.c:337-385 | in every run no two sessions share an id and no id is issued twice |
| AcpSessions.GoneForGood | src/channels/acp.c:206-249 | an id that left the table by stop or eviction never comes back |
| AcpSessions.OneSession | src/channels/acp.c:206-227 | a stop takes out the session of that id and no other; a prompt only stamps it |
| AcpSessions.NewIsLast | src/channels/acp.c:337-385 | a new session is the last of the table with what the request gave, and the others stay |
| AcpSessions.KeptIff | src/channels/acp.c:229-249 | eviction keeps exactly the sessions used within the idle time |
| AcpSessions.PromptKeeps | src/channels/acp.c:387-412 | a prompt keeps its session through every eviction within the idle time that follows |
| AcpSessions.PromptStep | src/channels/acp.c:401-412 | in a run a prompt stamps its session unless the prompt is empty |
| AcpFrames.AppendJsonString | src/channels/acp.c:638-665 | the byte loop appends the quoted, escaped string |
| AcpFrames.AppendField | src/channels/acp.c:667-687 | a field is a member, behind a comma unless it is the first |
| AcpFrames.EmitUpdate | src/channels/acp.c:523-554 | the appended pieces make one frame |
| AcpFrames.EmitResult | src/channels/acp.c:556-621 | the event loop with its two flags emits the updates of the result, in order |
| AcpFrames.StringReadsBack | src/channels/acp.c:638-665 | every text printed as a JSON string reads back as itself by section 7 of RFC 8259 |
| AcpFrames.LineReadsBack | src/channels/acp.c:523-554 | every frame reads back as the members it was printed from |
| AcpFrames.MembersDetermineUpdate | src/channels/acp.c:523-554 | the members of a frame determine the update, absent name or text meaning empty |
| AcpFrames.StreamSplits | src/channels/acp.c:523-554 | any concatenation of frames splits at newlines into exactly those frames, and each reads back |
| AcpFrames.OnlyLastIsFinal | src/channels/acp.c:556-621 | within a prompt only the last update can be final, and it is unless the turn failed or waits for an approval with no output |
| AcpFrames.EventShown | src/channels/acp.c:566-605 | the kind of frame each kind of event is shown as, and which events are not shown |
| AcpFrames.EventsInOrder | src/channels/acp.c:566-605 | events are shown in their order |
| AcpFrames.ResultShown | src/channels/acp.c:606-620 | output is shown as a text unless it was streamed, then as the final update; a result that waits for an approval stops before |
| AcpFrames.PromptShown | src/channels/acp.c:413-450 | every prompt shows its acceptance first; without an agent it is echoed and final |
| AcpFrames.ResponseAgrees | src/channels/acp.c:413-464 | the response flag agrees with the presence of a final update in exactly the listed cases |
| AcpFrames.ResponseCanDisagree | src/channels/acp.c:413-464 | a completed turn that ends on an approval request, and a cancelled one that says something, disagree in the two directions |
| Template.CutIsLeftmost | src/channels/webhooks.c:427-445 | a placeholder starts at the leftmost opening and ends at the first closing behind it |
| Template.PiecesCover | src/channels/webhooks.c:417-471 | the pieces of a template put together again are the template |
| Template.FindFrom | src/channels/webhooks.c:428-431 | the cursor stops at the first doubled character, or at the last byte |
| Template.RenderTemplate | src/channels/webhooks.c:417-471 | the cursor loops terminate with the result of the scan |
| Template.ScanMeaning | src/channels/webhooks.c:417-471 | the scan gives the literals and expansions in order, short of the last byte exactly when the template ends in text without an opening |
| Template.PlaceholderMeans | src/channels/webhooks.c:446-461 | with any blanks around its name, a placeholder stands for the payload, a field of it, or nothing |
| Template.EmptyTemplate | src/channels/webhooks.c:423-425 | an empty template stands for the whole payload |
| Template.RenderKeepsMeaning | src/channels/webhooks.c:417-471 | a non-empty template renders to its meaning for every payload and field lookup if and only if it does not end in text without an opening; it does render to its meaning when it ends in a closed placeholder |
| Template.PlainTextIsCut | src/channels/webhooks.c:429-435 | the template `ab` renders to `a` |

## Left out

- The schedule path built on nanocron, and the delivery of due jobs, heartbeats and run history.
- The time zone database and leap seconds: the calendar is UTC as arithmetic.
- Overflow of the search cursor next to the end of `int64_t`: `NextAfter` is stated where the window fits.
- Reading and writing of files, the SQLite library, curl, libuv, RabbitMQ and dynamic loading: files and tables are sequences, and their calls succeed.
- A partly written job file: `Save` gives the whole body.
- Saving to JSON lines next to the session table, and the trimming of histories: the append is a parameter.
- Request checks before the rate limit (method, path, token, body size, address list) and the signature of named webhooks.
- The parser of webhook bodies: what it makes of a body is a parameter of a request, together with the path it stores an attachment under.
- The rules between the duplicate check and the agent's turn (allowed senders, routing, drafts, audio, media).
- The JSON and TOML parsers, the payload-field lookup and the JSON-RPC library; the frame reader covers the shape the printer emits, not all of JSON.
- Mail transport, and the fixed fields of a parsed mail (channel name, inbox address, empty thread).
- The secret store, diagnostics, provider aliases, proxy rules and migration; the validation rules for single fields are a parameter of `Load`.
- The table of schema fields itself: the theorems take any schema, and those about mirrors ask that it lists the seventeen mirrored paths with their types.
- The order of a hash table's slots: the theorems about sources quantify over all orders.
- ConfigStore.Config.SetMirrorField: the seventeen fields of the C record are kept in one map keyed by field, because they are all set and read the same way.
- AcpSessions.RunIsSound: does not go past the wrap of the 64-bit session counter, after which ids would repeat.
- SessionReplay.ReplayRebuilds: covers turns without NUL bytes, which the reading of C strings from the table would cut.
- SopRun.AuditFollowsGrammar: assumes that audit appends succeed, since the code ignores their failure.
- Memory: a server index is honoured however large, where the C code would run out of it.
- Freeing, aliasing of strings and wiping of secrets: values are immutable, so what the C code must copy or clear is not visible here.
- Health and capability calls, approval prompts, command line and daemon code.
