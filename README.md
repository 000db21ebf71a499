# botis reminder logic, modelled in Dafny

botis is a GitHub bot. Every ten seconds it lists the issues of one
repository that carry a watched label and have comments, reads their comment
threads, and looks for a comment that mentions a date ("Remind me to do this
on March 29th"). For the most recent such comment that the bot has not yet
answered it schedules a reminder in a Redis-backed expiring-key store, and
it posts an acknowledgement. When the reminder expires, the bot comments on
the issue again.

This project models the decision logic of `lib/index.js`:

- `commands.dfy` (module `Commands`): `parseCommand`. It ignores the bot's
  own comments, takes the last comment whose body yields a date, and rejects
  it when the bot has written any comment after it. The date parser
  (chrono-node's `parseDate`) is the parameter `extract: string -> Option<Date>`.
- `issues.dfy` (module `Issues`): the listing query and the
  `filterIssues`/`hasLabels` selection of `getIssuesWithLabels`, and the
  `merge` step that attaches each fetched thread to its issue.
- `reminders.dfy` (module `Reminders`): the store key
  `<repo>:issue:<number>`, the comment path, the two message bodies, and
  `scheduleReminder`. The store is a class `Scheduler` that holds a
  `map<string, Entry>`. Its `Cancel` and `Schedule` methods stand for the
  store's own operations.
- `decimal.dfy` (module `Decimal`): the decimal rendering of issue numbers
  that string concatenation performs.
- `github.dfy` and `wrappers.dfy`: the records (label, comment, issue,
  command) and `Option`/`Result`.

Modelling choices:

- A JavaScript `Date` is its millisecond timestamp (`Github.Date = int`).
  Its text renderings are parameters: `toISOString` for the query's `since`,
  and the default string conversion for the acknowledgement.
- `null` results and rejected promises are `Option.None` and `Result.Err`.
- An issue carries both `commentCount` and `comments`. The filter reads
  `commentCount`, which is the number in the listing's `comments` field.
  `comments` is the thread that `merge` attaches.
- Each store call takes a flag `answered`. The flag says whether the store
  carries that call out. A call that is not carried out fails and changes
  nothing. The cancel and the schedule of one `ScheduleReminder` get their
  own flags, so either can fail alone. `Cancel` of an absent key fails with
  `NotFound`. `ScheduleReminder` ignores every failure of the cancel step.
  It returns the failure of the schedule step. When the cancel succeeds and
  the schedule is refused, the issue is left with no entry.
- A store handler is the value `SendReminderTo(repo, command)`, which is
  what the bound `sendReminder` call captures. `Fire` gives the comment it
  posts.

## Model

| member | source | states |
|---|---|---|
| `Commands.FindLastIndex` | lib/index.js:95-97 | the result is -1 or an index whose element satisfies the predicate, and no later element satisfies it |
| `Commands.CommandIndex` | lib/index.js:92-97 | `commandIdx` is negative exactly when no comment outside the bot's own yields a date; otherwise it is the last such comment |
| `Commands.ParseCommand` | lib/index.js:91-116 | a command exists iff there is a last dated non-bot comment with no bot comment after it; the command then holds that comment, its extracted date and the input issue |
| `Commands.NoDatedCommentNoCommand` | lib/index.js:92-101 | when no comment outside the bot's own yields a date, the result is null |
| `Commands.CommandIsNotTheBots` | lib/index.js:92-107 | a returned command's comment is not the bot's, belongs to the issue, and its date is what the parser extracts from that comment's body |
| `Commands.AnsweredMeansNoCommand` | lib/index.js:99-111 | any bot comment after the last dated comment makes the result null, whatever precedes it |
| `Commands.BotReplySilences` | lib/index.js:109-115 | a thread whose newest comment is the bot's yields no command |
| `Commands.NewDatedCommentWins` | lib/index.js:95-107 | a newly appended dated comment from someone other than the bot becomes the command, with its own date |
| `Commands.UndatedCommentKeepsCommand` | lib/index.js:92-111 | appending an undated comment from someone other than the bot changes neither whether there is a command nor its date and comment |
| `Commands.SingleDatedCommentIsCommand` | test/index.test.js:15-33 | index 0 counts: a single dated comment by someone other than the bot is the command |
| `Issues.IssuesQuery` | lib/index.js:72-73 | the query always has state `all`, page 1 and 3000 per page, and carries `since` (as an ISO string) iff a time was given |
| `Issues.FilterIssues` | lib/index.js:77-81 | each issue of the listing is kept as often as it appears when it is eligible, and not at all otherwise |
| `Issues.FilterKeepsExactlyEligible` | lib/index.js:77-87 | an issue is selected iff it is in the listing, has a label named exactly as a watched label, and its comment count is not zero |
| `Issues.FilterAppend` | lib/index.js:77-81 | the filter keeps the listing's order: filtering a concatenation is concatenating the filtered parts |
| `Issues.UnlabelledNeverSelected` | lib/index.js:83-87 | an issue without labels is never selected |
| `Issues.FilterScenario` | lib/index.js:77-87 | with watched label `waiting`, of (waiting, 3 comments), (something-else, 2), (waiting, 0) only the first is kept |
| `Issues.Merge` | lib/index.js:61-67 | each issue gets the thread fetched at its position and keeps its number and labels |
| `Decimal.ParseDecimalString` | lib/index.js:120 | the decimal text of an issue number reads back as that number |
| `Decimal.DecimalStringInjective` | lib/index.js:120 | distinct issue numbers have distinct decimal text |
| `Reminders.KeyRoundTrip` | lib/index.js:120 | the key of an issue, read back within its repository, gives that issue's number |
| `Reminders.KeyInjective` | lib/index.js:120 | distinct issues of one repository never share a store key |
| `Reminders.CommentUrlInjective` | lib/index.js:146 | distinct issues of one repository have distinct comment paths |
| `Reminders.AckBodyShowsDate` | lib/index.js:139-142 | the acknowledgement determines the rendered date and never equals the reminder body |
| `Reminders.CommentOnIssue` | lib/index.js:145-149 | the post carries the message as its body and goes to that issue's comment path, which is the path of no other issue |
| `Reminders.SendReminder` | lib/index.js:133-136 | the reminder post carries the fixed reminder body and goes to the comment path of the command's issue, which is no other issue's path |
| `Reminders.ReplyToComment` | lib/index.js:139-143 | the acknowledgement carries the rendered date in its body, is never the reminder body, and goes to the comment path of the command's issue, which is no other issue's path |
| `Reminders.RepliesDetermineIssueAndDate` | lib/index.js:139-143 | two equal acknowledgements are for the same issue number and show the same rendered date |
| `Reminders.BotPostStopsRescheduling` | lib/index.js:132-143 | after a command is found, the bot's acknowledgement for it, or its later reminder, as the newest comment makes the thread yield no command |
| `Reminders.Scheduled` | lib/index.js:120-129 | after scheduling, the command's key holds exactly one entry expiring at the command's date; the key set gains only that key; every other entry is unchanged |
| `Reminders.ScheduleTwiceSame` | lib/index.js:120-129 | scheduling the same command twice leaves the same store as scheduling it once |
| `Reminders.LaterCommandReplaces` | lib/index.js:120-129 | a later command for the same issue replaces the earlier entry entirely |
| `Reminders.OtherIssueUntouched` | lib/index.js:120-129 | scheduling for one issue leaves the entry of every other issue of the repository as it was |
| `Reminders.DifferentIssuesCommute` | lib/index.js:120-129 | commands for different issues give the same store in either order |
| `Reminders.ScheduledEntryRemindsItsIssue` | lib/index.js:127-136 | the scheduled entry, on expiry, posts the reminder body to the command's issue |
| `Reminders.Scheduler.Cancel` | lib/index.js:121-122 | cancel removes the key; it fails with not-found when the key is absent, and fails changing nothing when the store does not carry it out |
| `Reminders.Scheduler.Schedule` | lib/index.js:124-128 | schedule stores `{expire, handler}` under the key, or fails and changes nothing when the store does not carry it out |
| `Reminders.ScheduleReminder` | lib/index.js:119-130 | a failing cancel does not stop the schedule step; when the schedule succeeds the store is the old store with the command's entry under its key; when it is refused the error is returned and the key's old entry is gone if the cancel succeeded, kept otherwise; every other key is unchanged in every outcome |

## Left out

- `mainLoop` (lib/index.js:16-68): the ten-second timer, the promise fan-out
  and joins, when the `since` cursor is updated, and error logging. This is
  asynchronous orchestration. Only its `merge` step is modelled.
- bin/index.js is not part of this model. It is the command-line entry point
  and holds an older copy of the logic. That copy hard-codes the bot login,
  rejects index 0, and filters on `issue.comments[0]`.
- lib/request-logger.js is not part of this model. It is console logging of
  HTTP calls.
- chrono-node's date parsing is the parameter `extract`. JavaScript `Date`
  arithmetic and text rendering are also parameters. `extract` stands for
  the parser at one fixed reference time. The real parser resolves relative
  expressions such as "tomorrow" against the current clock, so two polls
  can read the same body differently. Lemmas that compare two parses, such
  as `NewDatedCommentWins`, assume one fixed `extract`.
- The HTTP calls to GitHub (listing issues, fetching comments, posting) are
  not made. The model builds the query and the posts (`Post`) that would be
  sent.
- The store's delivery of handlers at expiry is not modelled. Its failures
  are reduced to one flag per call, with no reason beyond `Rejected`.
- Cancel-then-set is not atomic in the store. A crash between the two steps
  is not modelled.
- The account that posts the bot's comments is the owner of the API token.
  The model assumes that account's login is `botUser`, the login `isMe`
  compares against. The source does not check this. If the two differ,
  the acknowledgement does not count as the bot's comment. Its body holds
  a rendered date, so the next poll could take it as a new command.
- Comments whose author record is missing are not modelled. In the source,
  `comment.user.login` would throw for them.
- Decimal.DecimalString: numbers are rendered as plain decimal digits.
  JavaScript writes integers of 10^21 and above in exponent form, and issue
  numbers never reach that size.
- Issues.Merge: the model keeps the listing's comment count in its own
  field `commentCount`. The source overwrites that count with the fetched
  thread (lib/index.js:64). Nothing reads the count after the merge.
- Issues.Merge requires as many threads as issues. `mainLoop` always builds
  the threads by mapping over the issues.
