/** Finding the reminder command in an issue thread (`parseCommand`).

    The natural-language date parser is not part of this model: it is the
    parameter `extract`, which maps a comment body to the date it mentions,
    if any. */
module Commands {
  import opened Wrappers
  import opened Github

  /** `isMe`: the comment was written by the bot's own account. */
  predicate IsMe(botUser: string, c: Comment) {
    c.login == botUser
  }

  /** The entry of `commentsDates` for one comment: nothing for the bot's own
      comments, otherwise whatever the date parser finds in the body. */
  function CommentDate(extract: string -> Option<Date>, botUser: string, c: Comment): Option<Date> {
    if IsMe(botUser, c) then None else extract(c.body)
  }

  /** `commentsDates`: one entry per comment, in thread order. */
  function CommentDates(extract: string -> Option<Date>, botUser: string, cs: seq<Comment>): seq<Option<Date>> {
    seq(|cs|, i requires 0 <= i < |cs| => CommentDate(extract, botUser, cs[i]))
  }

  /** lodash's `findLastIndex`: the highest index whose element satisfies
      `p`, or -1 when there is none. */
  function FindLastIndex<T>(s: seq<T>, p: T -> bool): (r: int)
    ensures -1 <= r < |s|
    ensures r >= 0 ==> p(s[r])
    ensures forall j :: r < j < |s| ==> !p(s[j])
  {
    if |s| == 0 then -1
    else if p(s[|s| - 1]) then |s| - 1
    else FindLastIndex(s[..|s| - 1], p)
  }

  /** A comment that can carry a command: not written by the bot, and the
      date parser finds a date in its body. */
  predicate Dated(extract: string -> Option<Date>, botUser: string, c: Comment) {
    !IsMe(botUser, c) && extract(c.body).Some?
  }

  /** `i` is the position of the last comment of `cs` that can carry a
      command. */
  predicate LastDatedAt(extract: string -> Option<Date>, botUser: string, cs: seq<Comment>, i: int) {
    0 <= i < |cs| && Dated(extract, botUser, cs[i]) &&
    forall j :: i < j < |cs| ==> !Dated(extract, botUser, cs[j])
  }

  /** `alreadyAnswered`: the bot wrote some comment after position `i`. */
  predicate AlreadyAnswered(botUser: string, cs: seq<Comment>, i: int)
    requires 0 <= i
  {
    exists j :: i < j < |cs| && IsMe(botUser, cs[j])
  }

  /** `commandIdx`: the position `parseCommand` looks at, -1 when no comment
      can carry a command. */
  function CommandIndex(extract: string -> Option<Date>, botUser: string, cs: seq<Comment>): (k: int)
    ensures -1 <= k < |cs|
    ensures k >= 0 ==> LastDatedAt(extract, botUser, cs, k)
    ensures k < 0 <==> forall i :: 0 <= i < |cs| ==> !Dated(extract, botUser, cs[i])
  {
    var dates := CommentDates(extract, botUser, cs);
    var k := FindLastIndex(dates, (d: Option<Date>) => d.Some?);
    assert forall j :: 0 <= j < |cs| ==> (dates[j].Some? <==> Dated(extract, botUser, cs[j]));
    k
  }

  /** There is at most one last dated comment. */
  lemma LastDatedUnique(extract: string -> Option<Date>, botUser: string, cs: seq<Comment>, i: int, j: int)
    requires LastDatedAt(extract, botUser, cs, i) && LastDatedAt(extract, botUser, cs, j)
    ensures i == j
  {
  }

  /** `parseCommand(botUser, issue)`: the command is the last comment not
      written by the bot whose body holds a date, unless the bot has written
      a comment after it. */
  function ParseCommand(extract: string -> Option<Date>, botUser: string, issue: Issue): (r: Option<Command>)
    ensures r.Some? <==>
      exists i :: LastDatedAt(extract, botUser, issue.comments, i) && !AlreadyAnswered(botUser, issue.comments, i)
    ensures forall i :: LastDatedAt(extract, botUser, issue.comments, i) && !AlreadyAnswered(botUser, issue.comments, i) ==>
      r == Some(Command(extract(issue.comments[i].body).value, issue.comments[i], issue))
  {
    var cs := issue.comments;
    var dates := CommentDates(extract, botUser, cs);
    var commandIdx := CommandIndex(extract, botUser, cs);
    if commandIdx < 0 || AlreadyAnswered(botUser, cs, commandIdx) then None
    else
      assert forall i :: LastDatedAt(extract, botUser, cs, i) ==> i == commandIdx by {
        forall i | LastDatedAt(extract, botUser, cs, i) ensures i == commandIdx {
          LastDatedUnique(extract, botUser, cs, i, commandIdx);
        }
      }
      Some(Command(dates[commandIdx].value, cs[commandIdx], issue))
  }

  /** When no comment outside the bot's own holds a date, there is no
      command. */
  lemma NoDatedCommentNoCommand(extract: string -> Option<Date>, botUser: string, issue: Issue)
    requires forall i :: 0 <= i < |issue.comments| ==> !Dated(extract, botUser, issue.comments[i])
    ensures ParseCommand(extract, botUser, issue) == None
  {
  }

  /** The command is never one of the bot's own comments, whatever their
      bodies say, and it is always a comment of the issue it names. */
  lemma CommandIsNotTheBots(extract: string -> Option<Date>, botUser: string, issue: Issue)
    requires ParseCommand(extract, botUser, issue).Some?
    ensures var cmd := ParseCommand(extract, botUser, issue).value;
      !IsMe(botUser, cmd.comment) && cmd.comment in issue.comments && cmd.issue == issue &&
      Some(cmd.date) == extract(cmd.comment.body)
  {
  }

  /** Whatever precedes the last dated comment, a bot comment after it means
      the command was already answered. */
  lemma AnsweredMeansNoCommand(extract: string -> Option<Date>, botUser: string, issue: Issue, i: int, j: int)
    requires LastDatedAt(extract, botUser, issue.comments, i)
    requires i < j < |issue.comments| && IsMe(botUser, issue.comments[j])
    ensures ParseCommand(extract, botUser, issue) == None
  {
  }

  /** Once the bot has written the latest comment of a thread, the thread
      yields no command: the bot's reply keeps it from acting twice. */
  lemma BotReplySilences(extract: string -> Option<Date>, botUser: string, issue: Issue, reply: Comment)
    requires IsMe(botUser, reply)
    ensures ParseCommand(extract, botUser, issue.(comments := issue.comments + [reply])) == None
  {
  }

  /** A new dated comment from anyone but the bot becomes the command, with
      the date found in its body. */
  lemma NewDatedCommentWins(extract: string -> Option<Date>, botUser: string, issue: Issue, c: Comment)
    requires Dated(extract, botUser, c)
    ensures var after := issue.(comments := issue.comments + [c]);
      ParseCommand(extract, botUser, after) == Some(Command(extract(c.body).value, c, after))
  {
  }

  /** A new comment without a date, from anyone but the bot, leaves the
      command's date and comment as they were. */
  lemma UndatedCommentKeepsCommand(extract: string -> Option<Date>, botUser: string, issue: Issue, c: Comment)
    requires !IsMe(botUser, c) && extract(c.body).None?
    ensures var before := ParseCommand(extract, botUser, issue);
      var after := ParseCommand(extract, botUser, issue.(comments := issue.comments + [c]));
      before.Some? == after.Some? &&
      (before.Some? ==> after.value.date == before.value.date && after.value.comment == before.value.comment)
  {
    var cs := issue.comments;
    var cs' := cs + [c];
    forall i ensures LastDatedAt(extract, botUser, cs, i) <==> LastDatedAt(extract, botUser, cs', i) {
      if 0 <= i < |cs| {
        assert forall j :: i < j < |cs| ==> cs'[j] == cs[j];
      }
    }
    forall i | 0 <= i < |cs| ensures AlreadyAnswered(botUser, cs, i) <==> AlreadyAnswered(botUser, cs', i) {
      assert forall j :: i < j < |cs| ==> cs'[j] == cs[j];
    }
  }

  /** The first comment of a thread counts: a thread holding one dated
      comment by someone other than the bot yields that comment as the
      command. */
  lemma SingleDatedCommentIsCommand(extract: string -> Option<Date>, botUser: string, issue: Issue, d: Date)
    requires |issue.comments| == 1 && !IsMe(botUser, issue.comments[0])
    requires extract(issue.comments[0].body) == Some(d)
    ensures ParseCommand(extract, botUser, issue) == Some(Command(d, issue.comments[0], issue))
  {
  }
}
