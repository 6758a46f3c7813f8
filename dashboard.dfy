/** The summary cards of src/pages/Index.tsx (`DashboardStats`): the number of
    issues, of issues in progress, of issues done and of urgent issues. */
module Dashboard {
  import opened Collections
  import opened IssueTypes

  datatype Stats = Stats(total: nat, inProgress: nat, done: nat, urgent: nat)

  function HasStatus(status: string): Issue -> bool {
    (i: Issue) => i.status == status
  }

  function HasPriority(priority: string): Issue -> bool {
    (i: Issue) => i.priority == priority
  }

  /** `issues.filter(...).length` for each card. */
  function ComputeStats(issues: seq<Issue>): (r: Stats)
    ensures r.inProgress + r.done <= r.total
    ensures r.urgent <= r.total
  {
    KeepDisjoint(issues, HasStatus("In Progress"), HasStatus("Done"));
    Stats(
      |issues|,
      |Keep(issues, HasStatus("In Progress"))|,
      |Keep(issues, HasStatus("Done"))|,
      |Keep(issues, HasPriority("Urgent"))|)
  }

  /** The number of issues satisfying `p`, counted one by one. */
  function Count(issues: seq<Issue>, p: Issue -> bool): nat {
    if issues == [] then 0 else (if p(issues[0]) then 1 else 0) + Count(issues[1..], p)
  }

  /** The length of a filter is the number of elements that pass it. */
  lemma {:induction false} KeepLengthIsCount(issues: seq<Issue>, p: Issue -> bool)
    ensures |Keep(issues, p)| == Count(issues, p)
  {
    if issues != [] {
      assert issues == [issues[0]] + issues[1..];
      KeepAppend([issues[0]], issues[1..], p);
      KeepLengthIsCount(issues[1..], p);
    }
  }

  /** Each card counts the issues with its status or priority; no count exceeds
      the total, and since no issue is both "In Progress" and "Done", the two
      status counts together do not exceed it either. */
  lemma StatsSpec(issues: seq<Issue>)
    ensures ComputeStats(issues).total == |issues|
    ensures ComputeStats(issues).inProgress == Count(issues, HasStatus("In Progress"))
    ensures ComputeStats(issues).done == Count(issues, HasStatus("Done"))
    ensures ComputeStats(issues).urgent == Count(issues, HasPriority("Urgent"))
    ensures ComputeStats(issues).inProgress + ComputeStats(issues).done <= ComputeStats(issues).total
    ensures ComputeStats(issues).urgent <= ComputeStats(issues).total
  {
    KeepLengthIsCount(issues, HasStatus("In Progress"));
    KeepLengthIsCount(issues, HasStatus("Done"));
    KeepLengthIsCount(issues, HasPriority("Urgent"));
    KeepDisjoint(issues, HasStatus("In Progress"), HasStatus("Done"));
  }
}
