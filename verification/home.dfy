/** The home page as a state machine: the list collection, the selected list,
    the loaded tasks, the display mode and the error message, driven by user
    input and by responses of the task service. Each task fetch the page
    issues is recorded in `requests`; the service's answer arrives later as
    a separate event. Responses are applied in whatever order they arrive:
    the page has no guard against an older fetch overwriting a newer one. */
module Home {
  import opened Values
  import TaskView

  const ListsFetchError: string := "リストの取得に失敗しました。"
  const TasksFetchError: string := "タスクの取得に失敗しました。"

  datatype State = State(
    mode: string,                 // the display-mode select: "todo" or "done"
    lists: seq<TaskList>,
    selected: Option<Id>,
    tasks: Option<seq<Task>>,     // None is the `null` the task view guards against
    error: string,
    requests: seq<Id>             // task fetches issued, oldest first
  )

  datatype Event =
    | ListsFetched(lists: seq<TaskList>)
    | ListsFetchFailed(fault: string)
    | ListClicked(id: Id)
    | ListKeyDown(key: string, id: Id)
    | TasksFetched(forList: Id, tasks: Option<seq<Task>>)
    | TasksFetchFailed(forList: Id, fault: string)
    | ModeChanged(value: string)

  /** The page as it is first rendered; the lists fetch is then in flight but,
      unlike the task fetches, it is not recorded in `requests`. The effect on
      `lists` also runs once here, on the empty array, and does nothing. */
  function Init(): (s: State)
    ensures s.selected.None? && s.requests == [] && s.error == ""
    ensures s.tasks == Some([]) && s.lists == [] && s.mode == "todo"
    ensures Shown(s) == []
    ensures SelectionIsLastFetch(s)
  {
    State("todo", [], None, Some([]), "", [])
  }

  /** `handleSelectList`: select `id` and fetch its tasks, even when `id` is
      already the selected list. */
  function SelectList(s: State, id: Id): (s': State)
    ensures s'.selected == Some(id)
    ensures s'.requests == s.requests + [id]
    ensures s'.tasks == s.tasks && s'.lists == s.lists && s'.error == s.error && s'.mode == s.mode
  {
    s.(selected := Some(id), requests := s.requests + [id])
  }

  /** The lists arrive: they replace the collection, and the effect on `lists`
      selects the first list and fetches its tasks. An empty collection leaves
      the selection and the fetches as they were. */
  function OnListsFetched(s: State, lists: seq<TaskList>): (s': State)
    ensures s'.lists == lists
    ensures |lists| > 0 ==> s'.selected == Some(lists[0].id) && s'.requests == s.requests + [lists[0].id]
    ensures |lists| == 0 ==> s'.selected == s.selected && s'.requests == s.requests
    ensures s'.tasks == s.tasks && s'.error == s.error && s'.mode == s.mode
  {
    var s1 := s.(lists := lists);
    if |lists| > 0 then SelectList(s1, lists[0].id) else s1
  }

  /** `handleKeyDown`: Enter selects the list exactly as a click does; any
      other key does nothing. */
  function OnKeyDown(s: State, key: string, id: Id): (s': State)
    ensures key == "Enter" ==> s' == SelectList(s, id)
    ensures key != "Enter" ==> s' == s
  {
    if key == "Enter" then SelectList(s, id) else s
  }

  function Step(s: State, e: Event): (s': State)
    ensures s'.requests == s.requests || (|s'.requests| == |s.requests| + 1 && s'.requests[..|s.requests|] == s.requests)
  {
    match e
    case ListsFetched(lists) => OnListsFetched(s, lists)
    case ListsFetchFailed(fault) => s.(error := ListsFetchError + fault)
    case ListClicked(id) => SelectList(s, id)
    case ListKeyDown(key, id) => OnKeyDown(s, key, id)
    case TasksFetched(_, tasks) => s.(tasks := tasks)
    case TasksFetchFailed(_, fault) => s.(error := TasksFetchError + fault)
    case ModeChanged(value) => s.(mode := value)
  }

  /** The state after a sequence of events, applied in order. */
  function Run(s: State, events: seq<Event>): State
    decreases |events|
  {
    if |events| == 0 then s else Run(Step(s, events[0]), events[1..])
  }

  /** The rows the page lists. */
  function Shown(s: State): seq<Task>
  {
    TaskView.View(s.tasks, s.mode)
  }

  /** The selection is the list whose tasks were fetched last, and no list is
      selected before any fetch has been issued. */
  predicate SelectionIsLastFetch(s: State)
  {
    if |s.requests| == 0 then s.selected.None? else s.selected == Some(s.requests[|s.requests| - 1])
  }

  lemma StepKeepsSelectionIsLastFetch(s: State, e: Event)
    requires SelectionIsLastFetch(s)
    ensures SelectionIsLastFetch(Step(s, e))
  {
  }

  /** Over any sequence of events from the first render, the selected list is
      always the one most recently fetched, and fetches are only ever added. */
  lemma {:induction false} RunKeepsSelectionIsLastFetch(s: State, events: seq<Event>)
    requires SelectionIsLastFetch(s)
    ensures SelectionIsLastFetch(Run(s, events))
    ensures |s.requests| <= |Run(s, events).requests|
    ensures Run(s, events).requests[..|s.requests|] == s.requests
    decreases |events|
  {
    if |events| > 0 {
      var s1 := Step(s, events[0]);
      StepKeepsSelectionIsLastFetch(s, events[0]);
      RunKeepsSelectionIsLastFetch(s1, events[1..]);
      assert s1.requests[..|s.requests|] == s.requests;
    }
  }

  /** A successful fetch replaces the tasks wholesale and touches nothing
      else; a failed one reports the fault and keeps the previous tasks. */
  lemma FetchOutcomes(s: State, id: Id, tasks: Option<seq<Task>>, fault: string)
    ensures Step(s, TasksFetched(id, tasks)) == s.(tasks := tasks)
    ensures Step(s, TasksFetchFailed(id, fault)) == s.(error := TasksFetchError + fault)
  {
  }

  /** A failed lists fetch reports the fault and changes nothing else. */
  lemma ListsFetchFailure(s: State, fault: string)
    ensures Step(s, ListsFetchFailed(fault)) == s.(error := ListsFetchError + fault)
  {
  }

  /** Selecting the already selected list fetches its tasks again. */
  lemma ReselectFetchesAgain(s: State, id: Id)
    requires s.selected == Some(id)
    ensures Step(s, ListClicked(id)).requests == s.requests + [id]
    ensures Step(s, ListKeyDown("Enter", id)) == Step(s, ListClicked(id))
  {
  }

  /** The first render followed by one list arriving selects that list and
      fetches its tasks with no user action. */
  lemma FirstListsLoad(l: TaskList)
    ensures Run(Init(), [ListsFetched([l])]).selected == Some(l.id)
    ensures Run(Init(), [ListsFetched([l])]).requests == [l.id]
  {
    assert [ListsFetched([l])][1..] == [];
  }

  /** Clicking list "2" twice in a row issues two fetches for it. */
  lemma SelectTwiceFetchesTwice(s: State)
    ensures Run(s, [ListClicked("2"), ListClicked("2")]).requests == s.requests + ["2", "2"]
  {
    var evs := [ListClicked("2"), ListClicked("2")];
    assert evs[1..] == [ListClicked("2")];
    assert evs[1..][1..] == [];
  }

  /** No staleness guard: when the fetch for list A answers after the user
      has switched to list B and B's answer has already arrived, A's tasks
      replace B's although B stays selected. */
  lemma LateResponseWins(s: State, a: Id, b: Id, tasksA: seq<Task>, tasksB: seq<Task>)
    requires a != b
    ensures var t := Run(s, [ListClicked(a), ListClicked(b), TasksFetched(b, Some(tasksB)), TasksFetched(a, Some(tasksA))]);
      t.selected == Some(b) && t.tasks == Some(tasksA)
  {
    var evs := [ListClicked(a), ListClicked(b), TasksFetched(b, Some(tasksB)), TasksFetched(a, Some(tasksA))];
    var s1 := Step(s, evs[0]);
    var s2 := Step(s1, evs[1]);
    var s3 := Step(s2, evs[2]);
    var s4 := Step(s3, evs[3]);
    assert evs[1..][1..][1..][1..] == [];
    assert Run(s3, evs[3..]) == s4;
    assert Run(s2, evs[2..]) == Run(s3, evs[3..]);
    assert Run(s1, evs[1..]) == Run(s2, evs[2..]);
    assert Run(s, evs) == Run(s1, evs[1..]);
    assert s4.selected == Some(b) && s4.tasks == Some(tasksA);
  }

  /** Changing the display mode changes nothing but the rows shown. */
  lemma ModeChangeOnlyChangesView(s: State, value: string)
    ensures Step(s, ModeChanged(value)) == s.(mode := value)
    ensures Shown(Step(s, ModeChanged(value))) == TaskView.View(s.tasks, value)
  {
  }
}
