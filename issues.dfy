/** Selecting the issues to look at (`getIssuesWithLabels`) and attaching
    their comment threads (`merge`). */
module Issues {
  import opened Wrappers
  import opened Github

  /** The query sent with the issue listing request. */
  datatype Query = Query(state: string, page: nat, perPage: nat, since: Option<string>)

  /** The query of `getIssuesWithLabels`: every issue, open or closed, in one
      page of up to 3000, and only those updated since the given time when
      one is given. `isoString` is the `Date.toISOString` rendering. */
  function IssuesQuery(since: Option<Date>, isoString: Date -> string): (q: Query)
    ensures q.state == "all" && q.page == 1 && q.perPage == 3000
    ensures q.since.Some? <==> since.Some?
    ensures since.Some? ==> q.since.value == isoString(since.value)
  {
    var base := Query("all", 1, 3000, None);
    if since.Some? then base.(since := Some(isoString(since.value))) else base
  }

  /** `hasLabels`: some label of the issue carries one of the watched names
      exactly. */
  predicate HasLabels(targetLabels: seq<string>, issue: Issue) {
    exists l :: l in issue.labels && l.name in targetLabels
  }

  /** The condition `filterIssues` keeps an issue under: a watched label and
      a comment count other than zero. */
  predicate Eligible(targetLabels: seq<string>, issue: Issue) {
    HasLabels(targetLabels, issue) && issue.commentCount != 0
  }

  /** `filterIssues`: the eligible issues, each as often as the listing holds
      it and no other. */
  function FilterIssues(targetLabels: seq<string>, issues: seq<Issue>): (r: seq<Issue>)
    ensures forall x :: multiset(r)[x] == if Eligible(targetLabels, x) then multiset(issues)[x] else 0
  {
    if |issues| == 0 then []
    else
      assert issues == [issues[0]] + issues[1..];
      if Eligible(targetLabels, issues[0]) then [issues[0]] + FilterIssues(targetLabels, issues[1..])
      else FilterIssues(targetLabels, issues[1..])
  }

  /** Every issue the filter keeps is eligible, and every eligible issue of
      the listing is kept. */
  lemma FilterKeepsExactlyEligible(targetLabels: seq<string>, issues: seq<Issue>, x: Issue)
    ensures x in FilterIssues(targetLabels, issues) <==> x in issues && Eligible(targetLabels, x)
  {
  }

  /** The filter keeps the listing's order: filtering two parts one after
      the other gives the filtered whole. */
  lemma {:induction false} FilterAppend(targetLabels: seq<string>, a: seq<Issue>, b: seq<Issue>)
    ensures FilterIssues(targetLabels, a + b) == FilterIssues(targetLabels, a) + FilterIssues(targetLabels, b)
  {
    if |a| == 0 {
      assert a + b == b;
    } else {
      assert (a + b)[1..] == a[1..] + b;
      FilterAppend(targetLabels, a[1..], b);
    }
  }

  /** An issue without labels is never selected, whatever its comments. */
  lemma UnlabelledNeverSelected(targetLabels: seq<string>, issues: seq<Issue>, x: Issue)
    requires x.labels == []
    ensures x !in FilterIssues(targetLabels, issues)
  {
  }

  /** Three issues watched for `waiting`: labelled and commented, labelled
      otherwise, labelled but without comments; only the first is kept. */
  lemma FilterScenario(a: Issue, b: Issue, c: Issue)
    requires a.labels == [Label("waiting")] && a.commentCount == 3
    requires b.labels == [Label("something-else")] && b.commentCount == 2
    requires c.labels == [Label("waiting")] && c.commentCount == 0
    ensures FilterIssues(["waiting"], [a, b, c]) == [a]
  {
  }

  /** `merge`: each issue gets the comment thread fetched for it (the
      fetches are made in the order of `issues`), and keeps everything
      else. */
  method Merge(issues: seq<Issue>, commentss: seq<seq<Comment>>) returns (merged: seq<Issue>)
    requires |commentss| == |issues|
    ensures |merged| == |issues|
    ensures forall i :: 0 <= i < |issues| ==> merged[i].comments == commentss[i]
    ensures forall i :: 0 <= i < |issues| ==>
      merged[i].number == issues[i].number && merged[i].labels == issues[i].labels &&
      merged[i].commentCount == issues[i].commentCount
  {
    merged := [];
    var i := 0;
    while i < |issues|
      invariant 0 <= i <= |issues|
      invariant |merged| == i
      invariant forall k :: 0 <= k < i ==> merged[k] == issues[k].(comments := commentss[k])
    {
      merged := merged + [issues[i].(comments := commentss[i])];
      i := i + 1;
    }
  }
}
