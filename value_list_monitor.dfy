// ValueListTypeChangeMonitor: one "changed" flag and an optional change
// notifier. The class is proved against Step, and what a sequence of calls
// leaves behind is stated about Replay.
module ValueListMonitor {

  /** The monitor's state; notifications counts the calls of the notifier. */
  datatype MonitorState = MonitorState(changed: bool, hasNotifier: bool, notifications: nat)

  /** The calls that change the monitor. */
  datatype Call =
    | MarkFullyChanged(notify: bool)
    | ClearChanges
    | NotifyOfChange
    | SetChangeNotifier(present: bool)

  function Step(st: MonitorState, c: Call): MonitorState
  {
    match c
    case MarkFullyChanged(notify) =>
      if st.changed then st
      else st.(changed := true,
               notifications := st.notifications + (if notify && st.hasNotifier then 1 else 0))
    case ClearChanges => st.(changed := false)
    case NotifyOfChange =>
      st.(notifications := st.notifications + (if st.changed && st.hasNotifier then 1 else 0))
    case SetChangeNotifier(present) => st.(hasNotifier := present)
  }

  function Replay(st: MonitorState, calls: seq<Call>): MonitorState
    decreases |calls|
  {
    if calls == [] then st else Replay(Step(st, calls[0]), calls[1..])
  }

  /** The flag set by the last mark or clear among the calls, or the initial one. */
  function LastMarkOrClear(calls: seq<Call>, initial: bool): bool
    decreases |calls|
  {
    if calls == [] then initial
    else match calls[|calls| - 1]
      case MarkFullyChanged(_) => true
      case ClearChanges => false
      case _ => LastMarkOrClear(calls[..|calls| - 1], initial)
  }

  lemma {:induction false} ReplayAppend(st: MonitorState, calls: seq<Call>, c: Call)
    ensures Replay(st, calls + [c]) == Step(Replay(st, calls), c)
    decreases |calls|
  {
    if calls != [] {
      assert (calls + [c])[1..] == calls[1..] + [c];
      ReplayAppend(Step(st, calls[0]), calls[1..], c);
    }
  }

  /** isChanged answers what the last markFullyChanged or clearChanges set. */
  lemma {:induction false} ChangedIsLastMarkOrClear(st: MonitorState, calls: seq<Call>)
    ensures Replay(st, calls).changed == LastMarkOrClear(calls, st.changed)
    decreases |calls|
  {
    if calls != [] {
      var init := calls[..|calls| - 1];
      assert calls == init + [calls[|calls| - 1]];
      ReplayAppend(st, init, calls[|calls| - 1]);
      ChangedIsLastMarkOrClear(st, init);
    }
  }

  /**
   * markFullyChanged notifies exactly on the false-to-true transition, when
   * asked to and a notifier is set; notifyOfChange exactly when changed.
   */
  lemma NotificationRules(st: MonitorState, notify: bool)
    ensures Step(st, MarkFullyChanged(notify)).changed
    ensures Step(st, MarkFullyChanged(notify)).notifications > st.notifications
            <==> !st.changed && notify && st.hasNotifier
    ensures Step(st, NotifyOfChange).notifications > st.notifications <==> st.changed && st.hasNotifier
    ensures !Step(st, ClearChanges).changed
  {
  }

  /** Marking twice in a row notifies at most once. */
  lemma {:induction false} MarkTwiceNotifiesOnce(st: MonitorState, n1: bool, n2: bool)
    ensures Replay(st, [MarkFullyChanged(n1), MarkFullyChanged(n2)]).notifications <= st.notifications + 1
  {
    var s1 := Step(st, MarkFullyChanged(n1));
    assert [MarkFullyChanged(n1), MarkFullyChanged(n2)][1..] == [MarkFullyChanged(n2)];
    assert Replay(st, [MarkFullyChanged(n1), MarkFullyChanged(n2)]) == Replay(s1, [MarkFullyChanged(n2)]);
    assert Replay(s1, [MarkFullyChanged(n2)]) == Step(s1, MarkFullyChanged(n2));
  }

  class ValueListChangeMonitor {
    var changed: bool
    var hasNotifier: bool
    var notifications: nat

    function State(): MonitorState
      reads this
    {
      MonitorState(changed, hasNotifier, notifications)
    }

    constructor()
      ensures State() == MonitorState(false, false, 0)
    {
      changed := false;
      hasNotifier := false;
      notifications := 0;
    }

    method MarkFullyChanged(notify: bool)
      modifies this`changed, this`notifications
      ensures State() == Step(old(State()), Call.MarkFullyChanged(notify))
    {
      if !changed {
        changed := true;
        if notify && hasNotifier {
          notifications := notifications + 1;
        }
      }
    }

    method ClearChanges()
      modifies this`changed
      ensures State() == Step(old(State()), Call.ClearChanges)
    {
      changed := false;
    }

    method IsChanged() returns (r: bool)
      ensures r == changed
    {
      r := changed;
    }

    /** notifyOfChange; the debug warning it logs is not modelled. */
    method NotifyOfChange()
      modifies this`notifications
      ensures State() == Step(old(State()), Call.NotifyOfChange)
    {
      if changed && hasNotifier {
        notifications := notifications + 1;
      }
    }

    method SetChangeNotifier(present: bool)
      modifies this`hasNotifier
      ensures State() == Step(old(State()), Call.SetChangeNotifier(present))
    {
      hasNotifier := present;
    }
  }
}
