/** The records the issue tracker hands to the bot, reduced to the fields
    lib/index.js reads. */
module Github {

  /** A JavaScript `Date`, represented by its millisecond timestamp. */
  type Date = int

  /** A label attached to an issue; only its name is consulted. */
  datatype Label = Label(name: string)

  /** A comment of an issue thread: its author's login (`comment.user.login`)
      and its free-text body. */
  datatype Comment = Comment(login: string, body: string)

  /** An issue as the bot sees it. `commentCount` is the number the issue
      listing reports in its `comments` field; `comments` is the thread that
      the poll loop attaches afterwards, in creation order. */
  datatype Issue = Issue(number: nat, labels: seq<Label>, commentCount: nat, comments: seq<Comment>)

  /** A reminder request found in an issue: the date to remind on, the
      comment that asked for it and the issue it belongs to. */
  datatype Command = Command(date: Date, comment: Comment, issue: Issue)
}
