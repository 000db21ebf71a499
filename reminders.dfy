/** Scheduling a reminder for a command (`scheduleReminder`) and the comments
    the bot posts (`sendReminder`, `replyToComment`, `commentOnIssue`).

    The expiring-key store is modelled as a map from keys to entries; its
    delivery of handlers at expiry time is not part of this model. A handler
    is the value `SendReminderTo(repo, command)`: what the bound
    `sendReminder` call would do when the entry expires. */
module Reminders {
  import opened Wrappers
  import opened Github
  import opened Decimal
  import Commands

  /** Removing the same prefix and suffix from two equal strings leaves equal
      middles. */
  lemma SameMiddle(p: string, x: string, y: string, q: string)
    requires p + x + q == p + y + q
    ensures x == y
  {
    assert |x| == |y|;
    assert x == (p + x + q)[|p|..|p| + |x|];
    assert y == (p + y + q)[|p|..|p| + |y|];
  }

  // ---------------------------------------------------------------------------
  // Keys, URLs and message bodies

  /** The store key of an issue's reminder: `<repo>:issue:<number>`. */
  function ScheduleKey(repo: string, number: nat): string {
    repo + ":issue:" + DecimalString(number)
  }

  /** Reading the issue number back out of a key of the given repository. */
  function KeyIssueNumber(repo: string, key: string): Option<nat> {
    var prefix := repo + ":issue:";
    if |key| > |prefix| && key[..|prefix|] == prefix &&
       forall i :: |prefix| <= i < |key| ==> IsDigit(key[i])
    then Some(ParseDecimal(key[|prefix|..]))
    else None
  }

  /** The key names its issue: within one repository it gives back the
      issue number, so two issues never share a key. */
  lemma KeyRoundTrip(repo: string, number: nat)
    ensures KeyIssueNumber(repo, ScheduleKey(repo, number)) == Some(number)
  {
    var prefix := repo + ":issue:";
    var key := ScheduleKey(repo, number);
    assert key[..|prefix|] == prefix;
    assert key[|prefix|..] == DecimalString(number);
    ParseDecimalString(number);
  }

  /** Distinct issues of one repository have distinct keys. */
  lemma KeyInjective(repo: string, a: nat, b: nat)
    requires ScheduleKey(repo, a) == ScheduleKey(repo, b)
    ensures a == b
  {
    KeyRoundTrip(repo, a);
    KeyRoundTrip(repo, b);
  }

  /** The path `commentOnIssue` posts to. */
  function CommentUrl(repo: string, number: nat): string {
    "/repos/" + repo + "/issues/" + DecimalString(number) + "/comments"
  }

  /** Within one repository, comments for distinct issues go to distinct
      paths. */
  lemma CommentUrlInjective(repo: string, a: nat, b: nat)
    requires CommentUrl(repo, a) == CommentUrl(repo, b)
    ensures a == b
  {
    var p := "/repos/" + repo + "/issues/";
    assert CommentUrl(repo, a) == p + DecimalString(a) + "/comments";
    assert CommentUrl(repo, b) == p + DecimalString(b) + "/comments";
    SameMiddle(p, DecimalString(a), DecimalString(b), "/comments");
    DecimalStringInjective(a, b);
  }

  /** The body of the comment posted when a reminder expires. */
  const ReminderBody: string := "Reminding you about this :)"

  /** The body of the acknowledgement, with the date as `dateText` renders
      it. */
  function AckBody(dateText: string): string {
    "I've set a reminder for this issue which will expire on:\n" + "**" + dateText + "**"
  }

  /** The acknowledgement shows the date: different renderings give
      different bodies, and none of them is the reminder's body. */
  lemma AckBodyShowsDate(a: string, b: string)
    ensures AckBody(a) == AckBody(b) ==> a == b
    ensures AckBody(a) != ReminderBody
  {
    var p := "I've set a reminder for this issue which will expire on:\n" + "**";
    assert AckBody(a) == p + a + "**";
    assert AckBody(b) == p + b + "**";
    if AckBody(a) == AckBody(b) {
      SameMiddle(p, a, b, "**");
    }
    assert |AckBody(a)| > |ReminderBody|;
  }

  /** A comment the bot asks the tracker to post. */
  datatype Post = Post(url: string, body: string)

  /** `commentOnIssue`: the request that posts `message` on an issue. */
  function CommentOnIssue(repo: string, number: nat, message: string): (p: Post)
    ensures p.body == message
    ensures p.url == CommentUrl(repo, number)
    ensures forall n: nat :: CommentUrl(repo, n) == p.url ==> n == number
  {
    var p := Post(CommentUrl(repo, number), message);
    assert forall n: nat :: CommentUrl(repo, n) == p.url ==> n == number by {
      forall n: nat | CommentUrl(repo, n) == p.url ensures n == number {
        CommentUrlInjective(repo, n, number);
      }
    }
    p
  }

  /** `sendReminder`: the reminder comment on the command's issue. */
  function SendReminder(repo: string, command: Command): (p: Post)
    ensures p.body == ReminderBody
    ensures p.url == CommentUrl(repo, command.issue.number)
    ensures forall n: nat :: CommentUrl(repo, n) == p.url ==> n == command.issue.number
  {
    CommentOnIssue(repo, command.issue.number, ReminderBody)
  }

  /** `replyToComment`: the acknowledgement on the command's issue, naming
      the date (`dateText` is JavaScript's rendering of a `Date` as text). */
  function ReplyToComment(repo: string, dateText: Date -> string, command: Command): (p: Post)
    ensures p.body == AckBody(dateText(command.date)) && p.body != ReminderBody
    ensures p.url == CommentUrl(repo, command.issue.number)
    ensures forall n: nat :: CommentUrl(repo, n) == p.url ==> n == command.issue.number
  {
    AckBodyShowsDate(dateText(command.date), dateText(command.date));
    CommentOnIssue(repo, command.issue.number, AckBody(dateText(command.date)))
  }

  /** Two acknowledgements are the same post only when they are for the same
      issue and show the same date. */
  lemma RepliesDetermineIssueAndDate(repo: string, dateText: Date -> string, c1: Command, c2: Command)
    requires ReplyToComment(repo, dateText, c1) == ReplyToComment(repo, dateText, c2)
    ensures c1.issue.number == c2.issue.number
    ensures dateText(c1.date) == dateText(c2.date)
  {
    AckBodyShowsDate(dateText(c1.date), dateText(c2.date));
  }

  /** After a command is found, the acknowledgement the bot posts for it, or
      the reminder it posts later, makes the next poll of the thread find no
      command, so the reminder is not scheduled again. */
  lemma BotPostStopsRescheduling(extract: string -> Option<Date>, botUser: string, repo: string,
                                 dateText: Date -> string, issue: Issue, command: Command)
    requires Commands.ParseCommand(extract, botUser, issue) == Some(command)
    ensures var ack := Comment(botUser, ReplyToComment(repo, dateText, command).body);
      Commands.ParseCommand(extract, botUser, issue.(comments := issue.comments + [ack])) == None
    ensures var reminder := Comment(botUser, SendReminder(repo, command).body);
      Commands.ParseCommand(extract, botUser, issue.(comments := issue.comments + [reminder])) == None
  {
    Commands.BotReplySilences(extract, botUser, issue, Comment(botUser, ReplyToComment(repo, dateText, command).body));
    Commands.BotReplySilences(extract, botUser, issue, Comment(botUser, SendReminder(repo, command).body));
  }

  // ---------------------------------------------------------------------------
  // The expiring-key store

  /** What an entry does when it expires: `sendReminder` bound to the
      repository and the command. */
  datatype Handler = SendReminderTo(repo: string, command: Command)

  /** The post a handler makes when its entry expires. */
  function Fire(h: Handler): Post {
    SendReminder(h.repo, h.command)
  }

  datatype Entry = Entry(expire: Date, handler: Handler)

  datatype StoreError = NotFound | Rejected

  /** The store's contents once the reminder for `command` is in place:
      exactly one entry under the command's key, expiring at the command's
      date, and every other key as before. */
  function Scheduled(entries: map<string, Entry>, repo: string, command: Command): (r: map<string, Entry>)
    ensures var key := ScheduleKey(repo, command.issue.number);
      key in r && r[key] == Entry(command.date, SendReminderTo(repo, command))
    ensures r.Keys == entries.Keys + {ScheduleKey(repo, command.issue.number)}
    ensures forall k :: k in entries && k != ScheduleKey(repo, command.issue.number) ==> r[k] == entries[k]
  {
    entries[ScheduleKey(repo, command.issue.number) := Entry(command.date, SendReminderTo(repo, command))]
  }

  /** Scheduling the same command twice leaves the same single entry as
      scheduling it once. */
  lemma ScheduleTwiceSame(entries: map<string, Entry>, repo: string, command: Command)
    ensures Scheduled(Scheduled(entries, repo, command), repo, command) == Scheduled(entries, repo, command)
  {
  }

  /** A later command for the same issue replaces the earlier one's entry
      entirely. */
  lemma LaterCommandReplaces(entries: map<string, Entry>, repo: string, earlier: Command, later: Command)
    requires earlier.issue.number == later.issue.number
    ensures Scheduled(Scheduled(entries, repo, earlier), repo, later) == Scheduled(entries, repo, later)
  {
  }

  /** Scheduling a command leaves the reminder of every other issue of the
      repository as it was. */
  lemma OtherIssueUntouched(entries: map<string, Entry>, repo: string, command: Command, other: nat)
    requires other != command.issue.number
    ensures var k := ScheduleKey(repo, other);
      var r := Scheduled(entries, repo, command);
      (k in r <==> k in entries) && (k in entries ==> r[k] == entries[k])
  {
    if ScheduleKey(repo, other) == ScheduleKey(repo, command.issue.number) {
      KeyInjective(repo, other, command.issue.number);
    }
  }

  /** Commands for different issues can be scheduled in either order. */
  lemma DifferentIssuesCommute(entries: map<string, Entry>, repo: string, c1: Command, c2: Command)
    requires c1.issue.number != c2.issue.number
    ensures Scheduled(Scheduled(entries, repo, c1), repo, c2) == Scheduled(Scheduled(entries, repo, c2), repo, c1)
  {
    if ScheduleKey(repo, c1.issue.number) == ScheduleKey(repo, c2.issue.number) {
      KeyInjective(repo, c1.issue.number, c2.issue.number);
    }
  }

  /** The entry scheduled for a command, when it expires, posts the reminder
      on that command's issue. */
  lemma ScheduledEntryRemindsItsIssue(entries: map<string, Entry>, repo: string, command: Command)
    ensures var e := Scheduled(entries, repo, command)[ScheduleKey(repo, command.issue.number)];
      Fire(e.handler) == Post(CommentUrl(repo, command.issue.number), ReminderBody)
  {
  }

  /** The expiring-key store the reminders live in. Each call to it takes
      `answered`, which says whether the store carries that call out; a call
      it does not carry out (the connection drops, the store refuses the
      request) fails and changes nothing. Successive calls fail or succeed
      independently. */
  class Scheduler {
    var entries: map<string, Entry>

    constructor ()
      ensures entries == map[]
    {
      entries := map[];
    }

    /** `cancel`: removes the key; fails when the key is absent. */
    method Cancel(key: string, answered: bool) returns (r: Result<(), StoreError>)
      modifies this`entries
      ensures entries == if answered then old(entries) - {key} else old(entries)
      ensures r == if !answered then Err(Rejected) else if key in old(entries) then Ok(()) else Err(NotFound)
    {
      if !answered {
        r := Err(Rejected);
      } else if key in entries {
        entries := entries - {key};
        r := Ok(());
      } else {
        r := Err(NotFound);
      }
    }

    /** `schedule`: stores `{expire, handler}` under the key. */
    method Schedule(key: string, expire: Date, handler: Handler, answered: bool) returns (r: Result<(), StoreError>)
      modifies this`entries
      ensures entries == if answered then old(entries)[key := Entry(expire, handler)] else old(entries)
      ensures r == if answered then Ok(()) else Err(Rejected)
    {
      if answered {
        entries := entries[key := Entry(expire, handler)];
        r := Ok(());
      } else {
        r := Err(Rejected);
      }
    }
  }

  /** `scheduleReminder`: cancels whatever the store holds under the
      command's key, ignoring any failure of that step, then stores the new
      entry; a failure of the second step is the result. `cancelAnswered`
      and `scheduleAnswered` say whether the store carries out each of the
      two calls. When the cancel succeeds and the schedule is then refused,
      the issue is left with no entry at all. */
  method ScheduleReminder(repo: string, scheduler: Scheduler, command: Command, cancelAnswered: bool, scheduleAnswered: bool)
    returns (r: Result<(), StoreError>)
    modifies scheduler`entries
    ensures r.Ok? <==> scheduleAnswered
    ensures r.Err? ==> r.error == Rejected
    ensures scheduleAnswered ==> scheduler.entries == Scheduled(old(scheduler.entries), repo, command)
    ensures !scheduleAnswered && cancelAnswered ==>
      scheduler.entries == old(scheduler.entries) - {ScheduleKey(repo, command.issue.number)}
    ensures !scheduleAnswered && !cancelAnswered ==> scheduler.entries == old(scheduler.entries)
    ensures forall k :: k != ScheduleKey(repo, command.issue.number) ==>
      (k in scheduler.entries <==> k in old(scheduler.entries)) &&
      (k in scheduler.entries ==> scheduler.entries[k] == old(scheduler.entries)[k])
  {
    var key := ScheduleKey(repo, command.issue.number);
    var _ := scheduler.Cancel(key, cancelAnswered);
    r := scheduler.Schedule(key, command.date, SendReminderTo(repo, command), scheduleAnswered);
    assert scheduleAnswered && cancelAnswered ==>
      (old(scheduler.entries) - {key})[key := Entry(command.date, SendReminderTo(repo, command))] ==
      old(scheduler.entries)[key := Entry(command.date, SendReminderTo(repo, command))];
  }
}
