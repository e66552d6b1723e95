/**
 * The task view: searching tasks, the split into open and completed tasks, the overdue
 * test, the four counters and the action each task offers.
 */
module Tasks {

  import opened Wrappers
  import opened Seqs
  import opened Text
  import opened Dates

  datatype Priority = Low | Medium | High | Urgent

  datatype TaskStatus = Pending | InProgress | Completed

  datatype TaskKind = Call | Email | Meeting | FollowUp | Other

  /** A task; `dueDate` is the `YYYY-MM-DD` text the source stores. */
  datatype Task = Task(
    id: int,
    title: string,
    description: string,
    priority: Priority,
    status: TaskStatus,
    dueDate: string,
    assignee: string,
    relatedTo: string,
    kind: TaskKind)

  /** The search box test: the query occurs, ignoring case, in the title, description or relatedTo. */
  predicate Matches(t: Task, query: string)
  {
    ContainsIgnoreCase(t.title, query) ||
    ContainsIgnoreCase(t.description, query) ||
    ContainsIgnoreCase(t.relatedTo, query)
  }

  function MatchesQuery(query: string): Task -> bool
  {
    t => Matches(t, query)
  }

  /** `filteredTasks`: the tasks the query matches, in their order. */
  function FilteredTasks(ts: seq<Task>, query: string): (r: seq<Task>)
    ensures forall i :: 0 <= i < |r| ==> r[i] in ts && Matches(r[i], query)
    ensures forall i :: 0 <= i < |ts| && Matches(ts[i], query) ==> ts[i] in r
    ensures forall t :: multiset(r)[t] == if Matches(t, query) then multiset(ts)[t] else 0
    ensures IsSubsequence(r, ts)
  {
    FilterMembers(MatchesQuery(query), ts);
    FilterMultiplicity(MatchesQuery(query), ts);
    Filter(MatchesQuery(query), ts)
  }

  /** The empty query keeps every task. */
  lemma EmptyQueryKeepsAll(ts: seq<Task>)
    ensures FilteredTasks(ts, "") == ts
  {
    forall i | 0 <= i < |ts| ensures MatchesQuery("")(ts[i]) {
      EmptyQueryMatches(ts[i].title);
    }
    FilterKeepsAll(MatchesQuery(""), ts);
  }

  /** Searching for the upper-cased query finds the same tasks. */
  lemma SearchIgnoresQueryCase(ts: seq<Task>, query: string)
    ensures FilteredTasks(ts, Upper(query)) == FilteredTasks(ts, query)
  {
    forall i | 0 <= i < |ts| ensures MatchesQuery(Upper(query))(ts[i]) == MatchesQuery(query)(ts[i]) {
      QueryCaseIgnored(ts[i].title, query);
      QueryCaseIgnored(ts[i].description, query);
      QueryCaseIgnored(ts[i].relatedTo, query);
    }
    FilterSame(MatchesQuery(Upper(query)), MatchesQuery(query), ts);
  }

  // ---------------------------------------------------------------------------
  // Open and completed tasks

  /** `pendingTasks` keeps every task that is not completed, in-progress ones included. */
  function IsOpen(t: Task): bool
  {
    t.status != Completed
  }

  function IsCompleted(t: Task): bool
  {
    t.status == Completed
  }

  /** `pendingTasks`: the tasks not yet completed, in their order. */
  function OpenTasks(filtered: seq<Task>): (r: seq<Task>)
    ensures forall i :: 0 <= i < |r| ==> r[i] in filtered && r[i].status != Completed
    ensures forall i :: 0 <= i < |filtered| && filtered[i].status != Completed ==> filtered[i] in r
    ensures forall t :: multiset(r)[t] == if t.status != Completed then multiset(filtered)[t] else 0
    ensures IsSubsequence(r, filtered)
  {
    FilterMembers(IsOpen, filtered);
    FilterMultiplicity(IsOpen, filtered);
    Filter(IsOpen, filtered)
  }

  /** `completedTasks`: the completed tasks, in their order. */
  function CompletedTasks(filtered: seq<Task>): (r: seq<Task>)
    ensures forall i :: 0 <= i < |r| ==> r[i] in filtered && r[i].status == Completed
    ensures forall i :: 0 <= i < |filtered| && filtered[i].status == Completed ==> filtered[i] in r
    ensures forall t :: multiset(r)[t] == if t.status == Completed then multiset(filtered)[t] else 0
    ensures IsSubsequence(r, filtered)
  {
    FilterMembers(IsCompleted, filtered);
    FilterMultiplicity(IsCompleted, filtered);
    Filter(IsCompleted, filtered)
  }

  /**
   * The open and the completed tasks split the list: no task is in both, together they hold
   * every task as often as the list does, and their lengths add up to its length.
   */
  lemma OpenAndCompletedPartition(filtered: seq<Task>)
    ensures forall t :: t in OpenTasks(filtered) ==> t !in CompletedTasks(filtered)
    ensures multiset(OpenTasks(filtered)) + multiset(CompletedTasks(filtered)) == multiset(filtered)
    ensures |OpenTasks(filtered)| + |CompletedTasks(filtered)| == |filtered|
  {
    FilterPartition(IsOpen, IsCompleted, filtered);
  }

  // ---------------------------------------------------------------------------
  // Overdue tasks

  /**
   * `isOverdue` as written: the due date, read as midnight UTC, lies before the current
   * time value `now`, and it is not today's date (local time taken as UTC). An unreadable
   * date is the invalid date, and every comparison with it is false.
   */
  predicate IsOverdue(dueDate: string, now: int)
  {
    match ParseIsoDate(dueDate)
    case Some(d) => d * MsPerDay < now && d != DayOf(now)
    case None => false
  }

  /**
   * A date is overdue exactly when it reads as a day strictly before today; in particular a
   * task due today is never overdue, and neither is one whose date cannot be read.
   */
  lemma OverdueIffBeforeToday(dueDate: string, now: int)
    ensures IsOverdue(dueDate, now) <==>
              ParseIsoDate(dueDate).Some? && ParseIsoDate(dueDate).value < DayOf(now)
  {
    var today := DayOf(now);
    assert today * MsPerDay <= now < (today + 1) * MsPerDay;
    match ParseIsoDate(dueDate)
    case Some(d) =>
      if d < today {
        assert d * MsPerDay <= (today - 1) * MsPerDay;
      } else if d > today {
        assert d * MsPerDay >= (today + 1) * MsPerDay;
      }
    case None =>
  }

  /** A task is shown as overdue (red border, red due date, counted) when it is overdue and not completed. */
  function FlaggedOverdue(now: int): Task -> bool
  {
    (t: Task) => IsOverdue(t.dueDate, now) && t.status != Completed
  }

  /** The four counters above the list: all, open, completed and overdue tasks. */
  datatype TaskCounts = TaskCounts(total: nat, open: nat, completed: nat, overdue: nat)

  /**
   * The counters for the filtered tasks: each counts the indices of the tasks it is about; open
   * and completed add up to the total, the overdue tasks are among the open ones, and the
   * overdue counter is zero exactly when no task is due before today and still open.
   */
  function Counts(filtered: seq<Task>, now: int): (r: TaskCounts)
    ensures r.total == |filtered|
    ensures r.open == IndexCount(IsOpen, filtered)
    ensures r.completed == IndexCount(IsCompleted, filtered)
    ensures r.overdue == IndexCount(FlaggedOverdue(now), filtered)
    ensures r.open + r.completed == r.total
    ensures r.overdue <= r.open
    ensures r.overdue == 0 <==>
              forall i :: 0 <= i < |filtered| && filtered[i].status != Completed ==>
                ParseIsoDate(filtered[i].dueDate).None? ||
                ParseIsoDate(filtered[i].dueDate).value >= DayOf(now)
  {
    FilterPartition(IsOpen, IsCompleted, filtered);
    FilterMonotone(FlaggedOverdue(now), IsOpen, filtered);
    FilterEmpty(FlaggedOverdue(now), filtered);
    forall i | 0 <= i < |filtered| {
      OverdueIffBeforeToday(filtered[i].dueDate, now);
    }
    FilterLength(IsOpen, filtered);
    FilterLength(IsCompleted, filtered);
    FilterLength(FlaggedOverdue(now), filtered);
    TaskCounts(|filtered|, |Filter(IsOpen, filtered)|, |Filter(IsCompleted, filtered)|,
               |Filter(FlaggedOverdue(now), filtered)|)
  }

  // ---------------------------------------------------------------------------
  // Actions and labels

  datatype TaskAction = Start | Complete

  /** The button a task offers: Start while pending, Complete while in progress, none once completed. */
  function OfferedAction(status: TaskStatus): (r: Option<TaskAction>)
    ensures r == Some(Start) <==> status == Pending
    ensures r == Some(Complete) <==> status == InProgress
    ensures r == None <==> status == Completed
  {
    match status
    case Pending => Some(Start)
    case InProgress => Some(Complete)
    case Completed => None
  }

  /** The priority as the source stores it. */
  function PriorityText(p: Priority): string
  {
    match p
    case Low => "low"
    case Medium => "medium"
    case High => "high"
    case Urgent => "urgent"
  }

  /** The priority badge: the stored text with its first character upper-cased. */
  function PriorityLabel(p: Priority): (r: string)
    ensures p == Low ==> r == "Low"
    ensures p == Medium ==> r == "Medium"
    ensures p == High ==> r == "High"
    ensures p == Urgent ==> r == "Urgent"
  {
    var s := PriorityText(p);
    [UpperChar(s[0])] + s[1..]
  }

  /** No two priorities share a badge. */
  lemma PriorityLabels()
    ensures forall p, q :: PriorityLabel(p) == PriorityLabel(q) ==> p == q
  {
  }
}
