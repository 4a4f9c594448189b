/** The task edit page as a state machine: the draft fields, the error
    message and where the page has navigated, driven by form input and by
    responses of the task service. Requests the page sends are recorded in
    `sent`; their outcomes arrive later as separate events. */
module EditTask {
  import opened Values
  import Deadline

  const LoadError: string := "タスク情報の取得に失敗しました。"
  const UpdateError: string := "更新に失敗しました。"
  const DeleteError: string := "削除に失敗しました。"

  /** The route the page navigates to after a successful update or delete. */
  const HomeRoute: string := "/"

  /** The body of the update request. `done` is sent as held, unset included. */
  datatype Payload = Payload(title: string, detail: string, done: Flag, limit: Deadline.WireLimit)

  datatype Request = Fetch | Update(payload: Payload) | Remove

  datatype State = State(
    title: string,
    detail: string,
    done: Flag,
    limit: string,               // the `datetime-local` value, "" when empty
    error: string,
    navigated: Option<string>,   // the route navigated to, once it happens
    sent: seq<Request>
  )

  datatype Event =
    | TitleInput(value: string)
    | DetailInput(value: string)
    | LimitInput(value: string)
    | StatusInput(value: string)
    | TaskLoaded(task: Task)
    | TaskLoadFailed(fault: string)
    | UpdateClicked
    | UpdateSucceeded
    | UpdateFailed(fault: string)
    | DeleteClicked
    | DeleteSucceeded
    | DeleteFailed(fault: string)

  /** The page as first rendered: an empty draft with `done` unset, and the
      fetch of the task already sent. */
  function Init(): (s: State)
    ensures s.done == Unset && s.limit == "" && s.title == "" && s.detail == ""
    ensures s.navigated.None? && s.sent == [Fetch]
    ensures WellFormedUpdates(s)
  {
    State("", "", Unset, "", "", None, [Fetch])
  }

  /** `handleIsDoneChange`: the radio value `"done"` sets the flag, every
      other value (the form's other radio is `"todo"`) clears it. */
  function OnStatusInput(s: State, value: string): (s': State)
    ensures s'.done == True <==> value == "done"
    ensures s'.done != Unset
    ensures s' == s.(done := s'.done)
  {
    s.(done := FlagOf(value == "done"))
  }

  /** The update payload built from the draft: the text fields and the flag as
      held, and the deadline through the suffix codec. */
  function BuildPayload(s: State): (p: Payload)
    ensures p.title == s.title && p.detail == s.detail && p.done == s.done
    ensures s.limit != "" ==> p.limit == Deadline.Stamp(s.limit + Deadline.Suffix)
    ensures s.limit == "" ==> p.limit == Deadline.Null
  {
    Payload(s.title, s.detail, s.done, Deadline.Encode(s.limit))
  }

  /** The task arrives: title, detail and flag are copied; a truthy deadline
      is stripped of its suffix, a falsy one leaves the draft deadline alone. */
  function OnTaskLoaded(s: State, t: Task): (s': State)
    ensures s'.title == t.title && s'.detail == t.detail && s'.done == t.done
    ensures s'.limit == Deadline.Load(s.limit, t.limit)
    ensures s'.error == s.error && s'.navigated == s.navigated && s'.sent == s.sent
  {
    s.(title := t.title, detail := t.detail, done := t.done, limit := Deadline.Load(s.limit, t.limit))
  }

  /** One event of the edit page. Only the two buttons send a request, one
      each; only a success navigates; only a failure touches the error. */
  function Step(s: State, e: Event): (s': State)
    ensures e.UpdateClicked? ==> s'.sent == s.sent + [Update(BuildPayload(s))]
    ensures e.DeleteClicked? ==> s'.sent == s.sent + [Remove]
    ensures !e.UpdateClicked? && !e.DeleteClicked? ==> s'.sent == s.sent
    ensures e.UpdateSucceeded? || e.DeleteSucceeded? ==> s'.navigated == Some(HomeRoute)
    ensures !e.UpdateSucceeded? && !e.DeleteSucceeded? ==> s'.navigated == s.navigated
    ensures !e.TaskLoadFailed? && !e.UpdateFailed? && !e.DeleteFailed? ==> s'.error == s.error
  {
    match e
    case TitleInput(value) => s.(title := value)
    case DetailInput(value) => s.(detail := value)
    case LimitInput(value) => s.(limit := value)
    case StatusInput(value) => OnStatusInput(s, value)
    case TaskLoaded(t) => OnTaskLoaded(s, t)
    case TaskLoadFailed(fault) => s.(error := LoadError + fault)
    case UpdateClicked => s.(sent := s.sent + [Update(BuildPayload(s))])
    case UpdateSucceeded => s.(navigated := Some(HomeRoute))
    case UpdateFailed(fault) => s.(error := UpdateError + fault)
    case DeleteClicked => s.(sent := s.sent + [Remove])
    case DeleteSucceeded => s.(navigated := Some(HomeRoute))
    case DeleteFailed(fault) => s.(error := DeleteError + fault)
  }

  /** The state after a sequence of events, applied in order. */
  function Run(s: State, events: seq<Event>): State
    decreases |events|
  {
    if |events| == 0 then s else Run(Step(s, events[0]), events[1..])
  }

  /** Typing into a text field or the deadline field replaces that field only. */
  lemma InputsChangeOneField(s: State, value: string)
    ensures Step(s, TitleInput(value)) == s.(title := value)
    ensures Step(s, DetailInput(value)) == s.(detail := value)
    ensures Step(s, LimitInput(value)) == s.(limit := value)
  {
  }

  /** An update click sends the draft as it stands, without checking it: an
      unset flag goes out unset. */
  lemma UpdateSendsDraft(s: State)
    ensures var s' := Step(s, UpdateClicked);
      && s'.sent == s.sent + [Update(Payload(s.title, s.detail, s.done, Deadline.Encode(s.limit)))]
      && s'.title == s.title && s'.detail == s.detail && s'.done == s.done && s'.limit == s.limit
  {
  }

  /** Success navigates home; failure reports the fault, stays on the page and
      keeps the draft. */
  lemma OutcomesOfUpdateAndDelete(s: State, fault: string)
    ensures Step(s, UpdateSucceeded).navigated == Some(HomeRoute)
    ensures Step(s, DeleteSucceeded).navigated == Some(HomeRoute)
    ensures Step(s, UpdateFailed(fault)) == s.(error := UpdateError + fault)
    ensures Step(s, DeleteFailed(fault)) == s.(error := DeleteError + fault)
  {
  }

  /** A failed load reports the fault and leaves the draft as it was. */
  lemma LoadFailureKeepsDraft(s: State, fault: string)
    ensures Step(s, TaskLoadFailed(fault)) == s.(error := LoadError + fault)
  {
  }

  /** Loading a task whose deadline is `p + ":00Z"` (non-empty `p`) and saving
      straight away sends the task's fields and its deadline back unchanged. */
  lemma LoadThenSaveRoundTrip(s: State, t: Task, p: string)
    requires p != "" && t.limit == Some(p + Deadline.Suffix)
    ensures var s' := Step(Step(s, TaskLoaded(t)), UpdateClicked);
      s'.sent == s.sent + [Update(Payload(t.title, t.detail, t.done, Deadline.Stamp(p + Deadline.Suffix)))]
  {
    Deadline.StripEncoded(p);
  }

  /** The scenario of a task with deadline `2024-05-01T09:00:00Z`: the editor
      shows `2024-05-01T09:00`, and clearing it sends an explicit null. */
  lemma ClearDeadlineSendsNull(t: Task)
    requires t.limit == Some("2024-05-01T09:00:00Z")
    ensures Step(Init(), TaskLoaded(t)).limit == "2024-05-01T09:00"
    ensures var s := Step(Step(Step(Init(), TaskLoaded(t)), LimitInput("")), UpdateClicked);
      s.sent == [Fetch, Update(Payload(t.title, t.detail, t.done, Deadline.Null))]
  {
    Deadline.LoadExample();
  }

  /** Every update payload the page ever sends carries either an explicit
      null deadline or a stamp ending in the suffix after non-empty text. */
  predicate WellFormedUpdates(s: State)
  {
    forall i :: 0 <= i < |s.sent| && s.sent[i].Update? ==>
      var l := s.sent[i].payload.limit;
      l.Null? || (|l.text| > |Deadline.Suffix| && Deadline.HasSuffix(l.text))
  }

  lemma {:induction false} RunKeepsWellFormedUpdates(s: State, events: seq<Event>)
    requires WellFormedUpdates(s)
    ensures WellFormedUpdates(Run(s, events))
    decreases |events|
  {
    if |events| > 0 {
      var s1 := Step(s, events[0]);
      if events[0].UpdateClicked? {
        var l := BuildPayload(s).limit;
        if l.Stamp? {
          Deadline.SuffixOfAppend(s.limit);
        }
        assert forall i :: 0 <= i < |s.sent| ==> s1.sent[i] == s.sent[i];
      }
      RunKeepsWellFormedUpdates(s1, events[1..]);
    }
  }
}
