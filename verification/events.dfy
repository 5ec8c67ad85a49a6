/**
  The controller driven by the browser: user events, the settling of a
  request, and the two timer callbacks, in any order the event loop may
  deliver them. Timers have no clock here: a scheduled callback may fire at
  any later point, once, and nothing cancels it.
 */
module Events {
  import opened Wrappers
  import opened Validation
  import opened StatusPanels
  import opened Controller

  datatype Event =
    | Pick(file: File)          // a drop, or a change of the file input
    | Remove                    // the remove-file button
    | Click                     // the submit button, up to the request's await
    | Settle(outcome: Outcome)  // the awaited request settles
    | ErrorTimerFires           // a 10 s auto-hide callback runs
    | ClearTimerFires           // a 1 s post-success callback runs

  /**
    The page before any event. The markup is not part of this model; the
    state taken is the one clearFile establishes, with empty labels.
   */
  const Init: Ui := Ui(None, true, true, false, "", Blank, StatusView(false, false, false, false), "", "", "", 0, 0, 0)

  /** A disabled button receives no clicks; callbacks run only when scheduled; a settle needs a request. */
  predicate CanHappen(s: Ui, e: Event)
  {
    match e
    case Click => !s.submitDisabled
    case Settle(_) => s.inFlight > 0
    case ErrorTimerFires => s.pendingHides > 0
    case ClearTimerFires => s.pendingClears > 0
    case _ => true
  }

  /** The 10 s callback of showError: hideAllStatus, whatever is shown by then. */
  function ErrorTimer(s: Ui): (r: Ui)
    requires s.pendingHides > 0
    ensures Hidden(r.status)
    ensures r.pendingHides == s.pendingHides - 1
    ensures SameFileArea(r, s) && SameTexts(r, s)
    ensures r.pendingClears == s.pendingClears && r.inFlight == s.inFlight
  {
    HideAllStatus(s).(pendingHides := s.pendingHides - 1)
  }

  /** The 1 s callback of showSuccess: clearFile, which also hides the success panel. */
  function ClearTimer(s: Ui): (r: Ui)
    requires s.pendingClears > 0
    ensures r.selected.None? && r.submitDisabled && r.dropZoneShown && !r.fileBlockShown
    ensures Hidden(r.status)
    ensures r.nameLabel == s.nameLabel && r.sizeLabel == s.sizeLabel
    ensures r.pendingClears == s.pendingClears - 1
    ensures SameTexts(r, s) && r.pendingHides == s.pendingHides && r.inFlight == s.inFlight
  {
    ClearFile(s).(pendingClears := s.pendingClears - 1)
  }

  /**
    The handler each event runs. An accepted pick sets the selection, a
    removal or the post-success callback drops it, nothing else changes it.
   */
  function Step(s: Ui, e: Event): (r: Ui)
    requires CanHappen(s, e)
    ensures e.Pick? && Accepts(e.file) ==> r.selected == Some(e.file) && !r.submitDisabled
    ensures e.Pick? && !Accepts(e.file) ==> r.selected == s.selected && r.submitDisabled == s.submitDisabled
    ensures e.Remove? || e.ClearTimerFires? ==> r.selected.None? && r.submitDisabled
    ensures e.Click? || e.Settle? || e.ErrorTimerFires? ==> r.selected == s.selected
    ensures e.Settle? ==> !r.submitDisabled
  {
    match e
    case Pick(f) => HandleFileSelect(s, f)
    case Remove => ClearFile(s)
    case Click => SubmitClick(s)
    case Settle(o) => SubmitSettle(s, o)
    case ErrorTimerFires => ErrorTimer(s)
    case ClearTimerFires => ClearTimer(s)
  }

  /** The state after `events`, or None when one of them cannot happen where it is delivered. */
  function Run(s: Ui, events: seq<Event>): Option<Ui>
    decreases |events|
  {
    if |events| == 0 then Some(s)
    else if !CanHappen(s, events[0]) then None
    else Run(Step(s, events[0]), events[1..])
  }

  /**
    What holds of every page the widget can reach: the status area shows
    nothing or exactly one panel; the file block is shown exactly when a file
    is selected and the drop zone exactly when it is not; a selected file is
    one the checks accept, and its labels describe it.
   */
  predicate Inv(s: Ui)
  {
    && WellFormed(s.status)
    && (s.selected.Some? <==> s.fileBlockShown)
    && s.dropZoneShown == !s.fileBlockShown
    && (s.selected.Some? ==>
          && Accepts(s.selected.value)
          && s.nameLabel == s.selected.value.name
          && s.sizeLabel == FormatFileSize(s.selected.value.size))
  }

  lemma StepKeepsInv(s: Ui, e: Event)
    requires Inv(s) && CanHappen(s, e)
    ensures Inv(Step(s, e))
  {
  }

  lemma {:induction false} RunKeepsInv(s: Ui, events: seq<Event>)
    requires Inv(s)
    ensures Run(s, events).Some? ==> Inv(Run(s, events).value)
    decreases |events|
  {
    if |events| > 0 && CanHappen(s, events[0]) {
      StepKeepsInv(s, events[0]);
      RunKeepsInv(Step(s, events[0]), events[1..]);
    }
  }

  /** Every reachable page keeps the invariant; in particular never two status panels at once. */
  lemma ReachableKeepsInv(events: seq<Event>)
    ensures Run(Init, events).Some? ==> Inv(Run(Init, events).value)
    ensures Run(Init, events).Some? ==> |Visible(Run(Init, events).value.status)| <= 1
  {
    RunKeepsInv(Init, events);
  }

  lemma RunFour(s: Ui, a: Event, b: Event, c: Event, d: Event)
    ensures Run(s, [a, b, c, d]) ==
      if !CanHappen(s, a) then None else
      var s1 := Step(s, a);
      if !CanHappen(s1, b) then None else
      var s2 := Step(s1, b);
      if !CanHappen(s2, c) then None else
      var s3 := Step(s2, c);
      if !CanHappen(s3, d) then None else
      Some(Step(s3, d))
  {
    assert [a, b, c, d][1..] == [b, c, d];
    assert [b, c, d][1..] == [c, d];
    assert [c, d][1..] == [d];
    assert [d][1..] == [];
    if CanHappen(s, a) {
      var s1 := Step(s, a);
      if CanHappen(s1, b) {
        var s2 := Step(s1, b);
        if CanHappen(s2, c) {
          var s3 := Step(s2, c);
          if CanHappen(s3, d) {
            assert Run(Step(s3, d), []) == Some(Step(s3, d));
          }
          assert Run(s3, [d]) == if CanHappen(s3, d) then Run(Step(s3, d), []) else None;
        }
        assert Run(s2, [c, d]) == if CanHappen(s2, c) then Run(Step(s2, c), [d]) else None;
      }
      assert Run(s1, [b, c, d]) == if CanHappen(s1, b) then Run(Step(s1, b), [c, d]) else None;
    }
  }

  /**
    The remove button stays usable while a request is out. Removing the file
    then disables submit, but the request's `finally` enables it again: the
    page ends with no file and an enabled button, and the next click reaches
    the "choose a file" branch of handleSubmit.
   */
  lemma RemoveDuringUpload(f: File, o: Outcome)
    requires Accepts(f)
    ensures Run(Init, [Pick(f), Click, Remove, Settle(o)]).Some?
    ensures var t := Run(Init, [Pick(f), Click, Remove, Settle(o)]).value;
      && t.selected.None? && !t.submitDisabled && t.inFlight == 0
      && CanHappen(t, Click)
      && Step(t, Click).errorText == NoFileMessage
      && ShowsOnly(Step(t, Click).status, Error)
  {
    RunFour(Init, Pick(f), Click, Remove, Settle(o));
  }

  /**
    An auto-hide scheduled by an earlier error is not cancelled by a later
    success: after a rejected pick, an accepted pick and a successful upload,
    that old timer hides the success panel while the file is still selected.
   */
  lemma StaleErrorTimerHidesSuccess(bad: File, good: File, body: Body)
    requires !Accepts(bad) && Accepts(good) && body.success
    ensures var t := Run(Init, [Pick(bad), Pick(good), Click, Settle(Parsed(body))]);
      && t.Some? && ShowsOnly(t.value.status, Success) && t.value.pendingHides == 1
      && CanHappen(t.value, ErrorTimerFires)
      && Hidden(Step(t.value, ErrorTimerFires).status)
      && Step(t.value, ErrorTimerFires).selected == Some(good)
  {
    RunFour(Init, Pick(bad), Pick(good), Click, Settle(Parsed(body)));
  }

  // ---------------------------------------------------------------- no interleaving

  /** The same page when each submission settles before anything else happens. */
  datatype Action =
    | Choose(file: File)
    | Discard
    | Submit(outcome: Outcome)
    | HideTimer
    | ClearTimerAction

  predicate Allowed(s: Ui, a: Action)
  {
    match a
    case Submit(_) => !s.submitDisabled
    case HideTimer => s.pendingHides > 0
    case ClearTimerAction => s.pendingClears > 0
    case _ => true
  }

  function Apply(s: Ui, a: Action): Ui
    requires Allowed(s, a)
  {
    match a
    case Choose(f) => HandleFileSelect(s, f)
    case Discard => ClearFile(s)
    case Submit(o) => HandleSubmit(s, o)
    case HideTimer => ErrorTimer(s)
    case ClearTimerAction => ClearTimer(s)
  }

  function RunActions(s: Ui, actions: seq<Action>): Option<Ui>
    decreases |actions|
  {
    if |actions| == 0 then Some(s)
    else if !Allowed(s, actions[0]) then None
    else RunActions(Apply(s, actions[0]), actions[1..])
  }

  /** Without interleaving, an enabled submit button always has a file behind it. */
  predicate SequentialInv(s: Ui)
  {
    Inv(s) && s.inFlight == 0 && (s.selected.None? ==> s.submitDisabled)
  }

  lemma ApplyKeepsSequentialInv(s: Ui, a: Action)
    requires SequentialInv(s) && Allowed(s, a)
    ensures SequentialInv(Apply(s, a))
  {
  }

  lemma {:induction false} RunActionsKeepsSequentialInv(s: Ui, actions: seq<Action>)
    requires SequentialInv(s)
    ensures RunActions(s, actions).Some? ==> SequentialInv(RunActions(s, actions).value)
    decreases |actions|
  {
    if |actions| > 0 && Allowed(s, actions[0]) {
      ApplyKeepsSequentialInv(s, actions[0]);
      RunActionsKeepsSequentialInv(Apply(s, actions[0]), actions[1..]);
    }
  }

  /**
    When nothing interleaves with a submission, the "choose a file" branch of
    handleSubmit is dead: every submit the page allows has a file selected,
    and it ends with that file still selected and the button enabled.
   */
  lemma SequentialSubmitHasFile(actions: seq<Action>, o: Outcome)
    requires RunActions(Init, actions).Some?
    requires Allowed(RunActions(Init, actions).value, Submit(o))
    ensures RunActions(Init, actions).value.selected.Some?
    ensures var t := Apply(RunActions(Init, actions).value, Submit(o));
      t.selected == RunActions(Init, actions).value.selected && !t.submitDisabled
  {
    RunActionsKeepsSequentialInv(Init, actions);
  }

  /** A submission without interleaving is the click followed at once by the settle. */
  lemma SubmitIsClickThenSettle(s: Ui, o: Outcome)
    requires s.selected.Some?
    ensures SubmitClick(s).inFlight > 0
    ensures HandleSubmit(s, o) == SubmitSettle(SubmitClick(s), o)
  {
  }
}
