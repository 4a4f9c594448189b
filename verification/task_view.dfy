/** The `Tasks` component of the home page: which tasks it shows for the
    display mode, in which order, and what each row says. */
module TaskView {
  import opened Values
  import Countdown

  /** The display-mode value that selects the completed view. */
  const DoneMode: string := "done"

  /** Row labels: completed / not completed. */
  const DoneLabel: string := "完了"
  const TodoLabel: string := "未完了"

  /** The flag a task must carry, strictly, to appear in the view for `mode`. */
  function WantedFlag(mode: string): (f: Flag)
    ensures f == True <==> mode == DoneMode
    ensures f != Unset
  {
    FlagOf(mode == DoneMode)
  }

  /** `tasks.filter(task => task.done === want)`: a stable filter. */
  function Keep(tasks: seq<Task>, want: Flag): (r: seq<Task>)
    ensures |r| <= |tasks|
    ensures forall i :: 0 <= i < |r| ==> r[i].done == want
    ensures forall t :: t in r <==> t in tasks && t.done == want
  {
    if |tasks| == 0 then []
    else if tasks[|tasks| - 1].done == want then Keep(tasks[..|tasks| - 1], want) + [tasks[|tasks| - 1]]
    else Keep(tasks[..|tasks| - 1], want)
  }

  /** The number of tasks carrying `f`. */
  function Count(tasks: seq<Task>, f: Flag): nat
  {
    if |tasks| == 0 then 0
    else Count(tasks[..|tasks| - 1], f) + (if tasks[|tasks| - 1].done == f then 1 else 0)
  }

  /** Filtering distributes over concatenation: the view keeps the order of
      the tasks it keeps. */
  lemma {:induction false} KeepAppend(a: seq<Task>, b: seq<Task>, want: Flag)
    ensures Keep(a + b, want) == Keep(a, want) + Keep(b, want)
    decreases |b|
  {
    if |b| == 0 {
      assert a + b == a;
    } else {
      var b' := b[..|b| - 1];
      assert (a + b)[..|a + b| - 1] == a + b';
      KeepAppend(a, b', want);
    }
  }

  /** A single task is kept exactly when it carries the wanted flag. */
  lemma KeepOne(t: Task, want: Flag)
    ensures Keep([t], want) == if t.done == want then [t] else []
  {
    assert [t][..0] == [];
  }

  /** The view keeps exactly as many tasks as carry the wanted flag. */
  lemma {:induction false} KeepCount(tasks: seq<Task>, want: Flag)
    ensures |Keep(tasks, want)| == Count(tasks, want)
  {
    if |tasks| > 0 {
      KeepCount(tasks[..|tasks| - 1], want);
    }
  }

  /** The three flags split the tasks: every task carries exactly one. */
  lemma {:induction false} CountPartition(tasks: seq<Task>)
    ensures Count(tasks, True) + Count(tasks, False) + Count(tasks, Unset) == |tasks|
  {
    if |tasks| > 0 {
      CountPartition(tasks[..|tasks| - 1]);
    }
  }

  /** The tasks the component lists for `mode`; a `null` task array lists none. */
  function View(tasks: Option<seq<Task>>, mode: string): (r: seq<Task>)
    ensures tasks.None? ==> r == []
    ensures forall t :: t in r <==> tasks.Some? && t in tasks.value && t.done == WantedFlag(mode)
    ensures mode == DoneMode ==> forall t :: t in r ==> t.done == True
    ensures mode != DoneMode ==> forall t :: t in r ==> t.done == False
  {
    if tasks.None? then [] else Keep(tasks.value, WantedFlag(mode))
  }

  /** The completed view and the not-completed view share no task, lose no
      task with a boolean flag, and together hold every task but those whose
      flag is not a boolean. */
  lemma ViewsPartition(tasks: seq<Task>, other: string)
    requires other != DoneMode
    ensures forall t :: !(t in View(Some(tasks), DoneMode) && t in View(Some(tasks), other))
    ensures forall t :: t in tasks && t.done != Unset ==>
      t in View(Some(tasks), DoneMode) || t in View(Some(tasks), other)
    ensures forall t :: t in tasks && t.done == Unset ==>
      t !in View(Some(tasks), DoneMode) && t !in View(Some(tasks), other)
    ensures |View(Some(tasks), DoneMode)| + |View(Some(tasks), other)| + Count(tasks, Unset) == |tasks|
  {
    KeepCount(tasks, True);
    KeepCount(tasks, False);
    CountPartition(tasks);
  }

  /** Every mode other than `"done"` shows the same, not-completed, view. */
  lemma OtherModesAgree(tasks: Option<seq<Task>>, m1: string, m2: string)
    requires m1 != DoneMode && m2 != DoneMode
    ensures View(tasks, m1) == View(tasks, m2)
  {
  }

  /** One rendered task: its id (the link target), title, status label and,
      when the task has a deadline, the remaining-time text. */
  datatype Row = Row(taskId: Id, title: string, status: string, remaining: Option<string>)

  /** The row for `t`. `deadlineOf` stands for `new Date(limit)` in
      milliseconds; `now` for `new Date()`. The displayed deadline itself is
      produced by a locale formatter outside this model. */
  function RowOf(t: Task, deadlineOf: string -> int, now: int): (row: Row)
    ensures row.taskId == t.id && row.title == t.title
    ensures row.status == DoneLabel <==> t.done == True
    ensures row.remaining.Some? <==> Truthy(t.limit)
    ensures Truthy(t.limit) ==> row.remaining == Some(Countdown.RemainingTime(deadlineOf(t.limit.value), now))
    ensures row.remaining.Some? ==>
      (row.remaining.value == Countdown.Expired <==> deadlineOf(t.limit.value) <= now)
  {
    Row(t.id, t.title,
        if t.done == True then DoneLabel else TodoLabel,
        if Truthy(t.limit) then Some(Countdown.RemainingTime(deadlineOf(t.limit.value), now)) else None)
  }

  /** The rows for a sequence of tasks, in order. */
  function RowsOf(view: seq<Task>, deadlineOf: string -> int, now: int): (rows: seq<Row>)
    ensures |rows| == |view|
    ensures forall i :: 0 <= i < |rows| ==> rows[i] == RowOf(view[i], deadlineOf, now)
  {
    if |view| == 0 then []
    else RowsOf(view[..|view| - 1], deadlineOf, now) + [RowOf(view[|view| - 1], deadlineOf, now)]
  }

  /** Extending the scanned prefix by one task extends the view by that task
      exactly when it carries the wanted flag. */
  lemma KeepStep(ts: seq<Task>, i: nat, want: Flag)
    requires i < |ts|
    ensures Keep(ts[..i + 1], want) == Keep(ts[..i], want) + (if ts[i].done == want then [ts[i]] else [])
  {
    KeepAppend(ts[..i], [ts[i]], want);
    KeepOne(ts[i], want);
    assert ts[..i + 1] == ts[..i] + [ts[i]];
  }

  lemma RowsOfAppend(view: seq<Task>, t: Task, deadlineOf: string -> int, now: int)
    ensures RowsOf(view + [t], deadlineOf, now) == RowsOf(view, deadlineOf, now) + [RowOf(t, deadlineOf, now)]
  {
    assert (view + [t])[..|view|] == view;
  }

  /** The rows the component renders, built in one pass over the task array as
      the page's `filter` and `map` do. */
  method Render(tasks: Option<seq<Task>>, mode: string, deadlineOf: string -> int, now: int)
    returns (rows: seq<Row>)
    ensures rows == RowsOf(View(tasks, mode), deadlineOf, now)
    ensures forall i :: 0 <= i < |rows| ==> (rows[i].status == DoneLabel <==> mode == DoneMode)
  {
    rows := [];
    if tasks.None? {
      assert View(tasks, mode) == [];
      return;
    }
    var ts := tasks.value;
    var want := WantedFlag(mode);
    var i := 0;
    while i < |ts|
      invariant 0 <= i <= |ts|
      invariant rows == RowsOf(Keep(ts[..i], want), deadlineOf, now)
    {
      KeepStep(ts, i, want);
      if ts[i].done == want {
        RowsOfAppend(Keep(ts[..i], want), ts[i], deadlineOf, now);
        rows := rows + [RowOf(ts[i], deadlineOf, now)];
      }
      i := i + 1;
    }
    assert ts[..i] == ts;
    StatusMatchesMode(View(tasks, mode), mode, deadlineOf, now);
  }

  /** Every row of a view carries the status label of that view. */
  lemma StatusMatchesMode(view: seq<Task>, mode: string, deadlineOf: string -> int, now: int)
    requires forall t :: t in view ==> t.done == WantedFlag(mode)
    ensures forall i :: 0 <= i < |view| ==>
      (RowOf(view[i], deadlineOf, now).status == DoneLabel <==> mode == DoneMode)
  {
    forall i | 0 <= i < |view|
      ensures RowOf(view[i], deadlineOf, now).status == DoneLabel <==> mode == DoneMode
    {
      assert view[i] in view;
    }
  }
}
