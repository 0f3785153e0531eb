// The server side of the foundset property, as values: the viewport bounds
// (FoundsetTypeViewport) and the change-flag bitset with the granular
// viewport operations it queues (FoundsetTypeChangeMonitor). The classes in
// FoundsetSync are proved against the functions here.
module FoundsetSpec {
  import opened Wrappers
  import opened JavaLang

  /**
   * The change flags. The source keeps them as bits of an int
   * (FoundsetTypeChangeMonitor.java:41-67); each is a distinct single bit,
   * so the int is the set of flags it holds and `|`, `& ~` and `== 0`
   * become union, difference and emptiness.
   */
  datatype Flag =
    | SendAll | SendViewportBounds | SendFoundsetSort | SendFoundsetSize | SendSelectedIndexes
    | SendMultiselect | SendColumnFormats | SendHadMoreRows | SendUserSetSelection | SendFoundsetId

  /** The bit each flag occupies in the source's int. */
  function Bit(f: Flag): nat
  {
    match f
    case SendAll => 0x1
    case SendViewportBounds => 0x2
    case SendFoundsetSort => 0x4
    case SendFoundsetSize => 0x8
    case SendSelectedIndexes => 0x10
    case SendMultiselect => 0x40
    case SendColumnFormats => 0x80
    case SendHadMoreRows => 0x100
    case SendUserSetSelection => 0x400
    case SendFoundsetId => 0x800
  }

  /** The viewport: the window [start, start + size) of foundset rows shown on the client. */
  datatype Bounds = Bounds(start: int, size: int)

  datatype OpKind = ChangeOp | InsertOp | DeleteOp

  /**
   * What the viewport data monitor is asked to send: a row range relative
   * to the viewport, or one changed cell of one row.
   */
  datatype ViewportChange =
    | Operation(first: int, last: int, oldSize: int, kind: OpKind)
    | CellChange(row: int, oldSize: int, dataprovider: string)

  /** A client request the server answered, and whether it succeeded. */
  datatype Handled = Handled(requestId: int, success: bool)

  /**
   * The change monitor's state. wholeViewport and changes stand for the
   * viewport data monitor (shouldSendWholeViewport and its queue);
   * notifications counts the calls of the change notifier, which is
   * present when hasNotifier holds; preferredResets counts the requests to
   * put the viewport back on its preferred bounds.
   */
  datatype Monitor = Monitor(
    flags: set<Flag>,
    wholeViewport: bool,
    changes: seq<ViewportChange>,
    handled: seq<Handled>,
    hasNotifier: bool,
    notifications: nat,
    lastHadMoreRecords: bool,
    preferredResets: nat)

  /** A monitor together with the bounds of the viewport it watches. */
  datatype Sync = Sync(monitor: Monitor, bounds: Bounds)

  // ---------------------------------------------------------------------
  // Viewport bounds (FoundsetTypeViewport.java)

  /**
   * Bounds that fit the foundset: none is null gives (0, 0); otherwise the
   * window lies inside the foundset and starts on a row (or at 0 when the
   * foundset is empty).
   */
  predicate ValidBounds(b: Bounds, foundsetSize: Option<nat>)
  {
    match foundsetSize
    case None => b == Bounds(0, 0)
    case Some(n) => 0 <= b.start && 0 <= b.size && b.start + b.size <= n && (b.start < n || b.start == 0)
  }

  /** correctViewportBoundsIfNeededInternal on the requested start and size. */
  function Correct(start: int, size: int, foundsetSize: Option<nat>): (r: Bounds)
    ensures ValidBounds(r, foundsetSize)
    ensures foundsetSize.None? ==> r == Bounds(0, 0)
  {
    match foundsetSize
    case None => Bounds(0, 0)
    case Some(n) =>
      var s := Max(0, Min(start, n - 1));
      Bounds(s, Max(0, Min(size, n - s)))
  }

  /** Correction changes exactly the bounds that do not fit the foundset. */
  lemma CorrectFixesExactlyInvalid(b: Bounds, foundsetSize: Option<nat>)
    ensures Correct(b.start, b.size, foundsetSize) == b <==> ValidBounds(b, foundsetSize)
  {
  }

  lemma CorrectIdempotent(start: int, size: int, foundsetSize: Option<nat>)
    ensures var r := Correct(start, size, foundsetSize); Correct(r.start, r.size, foundsetSize) == r
  {
    CorrectFixesExactlyInvalid(Correct(start, size, foundsetSize), foundsetSize);
  }

  // ---------------------------------------------------------------------
  // Change flags (FoundsetTypeChangeMonitor.java)

  predicate SendsAll(m: Monitor) { SendAll in m.flags }

  /** The guard of every granular update: neither everything nor the whole viewport is resent. */
  predicate Granular(m: Monitor) { !SendsAll(m) && !m.wholeViewport }

  /** notifyChange */
  function Notified(m: Monitor): Monitor
  {
    if m.hasNotifier then m.(notifications := m.notifications + 1) else m
  }

  function NotifiedIfChanged(m: Monitor, oldFlags: set<Flag>): Monitor
  {
    if oldFlags != m.flags then Notified(m) else m
  }

  function Queued(m: Monitor, ops: seq<ViewportChange>): Monitor
  {
    m.(changes := m.changes + ops)
  }

  function RequestIdHandled(m: Monitor, requestId: int, success: bool): Monitor
  {
    var m1 := m.(handled := m.handled + [Handled(requestId, success)]);
    if |m1.handled| == 1 then Notified(m1) else m1
  }

  /** The shape of selectionChanged, multiSelectChanged, foundsetSortChanged, columnFormatsUpdated and foundsetIDChanged. */
  function FlagRaised(m: Monitor, flag: set<Flag>): Monitor
  {
    if SendsAll(m) then m else NotifiedIfChanged(m.(flags := m.flags + flag), m.flags)
  }

  function SelectionFlags(userSetSelection: bool): set<Flag>
  {
    if userSetSelection then {SendSelectedIndexes, SendUserSetSelection} else {SendSelectedIndexes}
  }

  /**
   * checkHadMoreRows: hadMoreRows is None when the property has no
   * foundset, otherwise what the foundset reports.
   */
  function CheckHadMoreRows(m: Monitor, hadMoreRows: Option<bool>, doNotify: bool): Monitor
  {
    match hadMoreRows
    case None => m
    case Some(h) =>
      var m1 := m.(lastHadMoreRecords := h);
      if h != m.lastHadMoreRecords && !SendsAll(m1) then
        var m2 := m1.(flags := m1.flags + {SendHadMoreRows});
        if doNotify then NotifiedIfChanged(m2, m1.flags) else m2
      else m1
  }

  /** foundSetSizeChanged: raises the size flag without notifying. */
  function FoundSetSizeChanged(m: Monitor, hadMoreRows: Option<bool>): Monitor
  {
    var m1 := if SendsAll(m) then m else m.(flags := m.flags + {SendFoundsetSize});
    CheckHadMoreRows(m1, hadMoreRows, false)
  }

  function NewFoundsetSize(m: Monitor, hadMoreRows: Option<bool>): Monitor
  {
    NotifiedIfChanged(FoundSetSizeChanged(m, hadMoreRows), m.flags)
  }

  function ViewPortBoundsOnlyChanged(m: Monitor): Monitor
  {
    if Granular(m) then m.(flags := m.flags + {SendViewportBounds}) else m
  }

  /**
   * viewPortCompletelyChanged: the data monitor will send the whole
   * viewport; the first time this happens the bounds flag is dropped and
   * the change is announced.
   */
  function ViewPortCompletelyChanged(m: Monitor): Monitor
  {
    var m1 := m.(wholeViewport := true);
    if !SendsAll(m1) && !m.wholeViewport then Notified(m1.(flags := m1.flags - {SendViewportBounds})) else m1
  }

  function AllChanged(m: Monitor): Monitor
  {
    NotifiedIfChanged(m.(flags := {SendAll}, wholeViewport := true), m.flags)
  }

  function ShrinkClientViewport(m: Monitor, relativeFirst: int, relativeLast: int, oldSize: int): Monitor
  {
    if Granular(m) && relativeFirst <= relativeLast then Queued(m, [Operation(relativeFirst, relativeLast, oldSize, DeleteOp)])
    else m
  }

  predicate HasChanges(m: Monitor)
  {
    SendAll in m.flags || SendFoundsetSize in m.flags || SendFoundsetSort in m.flags
    || SendSelectedIndexes in m.flags || SendViewportBounds in m.flags || m.wholeViewport
    || SendColumnFormats in m.flags || |m.handled| > 0 || |m.changes| > 0
  }

  function ClearChanges(m: Monitor): Monitor
  {
    m.(flags := {}, wholeViewport := false, changes := [], handled := [])
  }

  /**
   * setChangeNotifier: the notifier is stored, then called when changes
   * are pending. A null notifier (present false) with changes pending is a
   * NullPointerException; the second component says whether it is thrown.
   */
  function SetChangeNotifier(m: Monitor, present: bool): (Monitor, bool)
  {
    var m1 := m.(hasNotifier := present);
    if !HasChanges(m1) then (m1, false)
    else if present then (Notified(m1), false)
    else (m1, true)
  }

  // ---------------------------------------------------------------------
  // Viewport moves and their effect on the monitor

  function SetBounds(s: Sync, foundsetSize: Option<nat>, start: int, size: int): Sync
  {
    var b := Correct(start, size, foundsetSize);
    Sync(if b != s.bounds then ViewPortCompletelyChanged(s.monitor) else s.monitor, b)
  }

  function SlideAndCorrect(s: Sync, foundsetSize: Option<nat>, delta: int): Sync
  {
    var b := Correct(s.bounds.start + delta, s.bounds.size, foundsetSize);
    Sync(if b != s.bounds then ViewPortBoundsOnlyChanged(s.monitor) else s.monitor, b)
  }

  predicate BelongsToInterval(x: int, startInclusive: int, endInclusive: int)
  {
    startInclusive <= x <= endInclusive
  }

  /** How far a delete of rows [first, last] moves a viewport starting at start. */
  function DeleteSlideBy(first: int, last: int, start: int): int
  {
    if first < start then first - Min(start, last + 1) else 0
  }

  /** The operations a delete overlapping the viewport queues, from the old and the slid bounds. */
  function DeleteOps(first: int, last: int, before: Bounds, slid: Bounds): seq<ViewportChange>
  {
    var endIdx := before.start + before.size - 1;
    var firstDeleted := Max(before.start, first);
    var lastDeleted := Min(endIdx, last);
    var insertedStart := before.size - (lastDeleted - firstDeleted + 1);
    var insertedEnd := slid.start + slid.size - 1 - slid.start;
    [Operation(firstDeleted - before.start, lastDeleted - before.start, before.size, DeleteOp)]
    + (if insertedStart <= insertedEnd then [Operation(insertedStart, insertedEnd, before.size, InsertOp)] else [])
  }

  predicate DeleteOverlaps(first: int, last: int, b: Bounds)
  {
    var endIdx := b.start + b.size - 1;
    BelongsToInterval(first, b.start, endIdx) || BelongsToInterval(last, b.start, endIdx)
    || BelongsToInterval(b.start, first, last)
  }

  /** A delete that reaches into the viewport: slide, then queue the DELETE and the INSERT of the rows that slid in. */
  function DeletedInViewport(s: Sync, foundsetSize: nat, first: int, last: int, slideBy: int): Sync
  {
    var slid := SlideAndCorrect(s, Some(foundsetSize), slideBy);
    Sync(Queued(slid.monitor, DeleteOps(first, last, s.bounds, slid.bounds)), slid.bounds)
  }

  /** The part of recordsDeleted after the size flag was raised. */
  function DeletedRows(s: Sync, foundsetSize: nat, first: int, last: int): Sync
  {
    var b := s.bounds;
    if Granular(s.monitor) then
      var slideBy := DeleteSlideBy(first, last, b.start);
      if DeleteOverlaps(first, last, b) then DeletedInViewport(s, foundsetSize, first, last, slideBy)
      else if slideBy != 0 then SlideAndCorrect(s, Some(foundsetSize), slideBy)
      else s
    else if b.size > foundsetSize then Sync(s.monitor, Correct(b.start, b.size, Some(foundsetSize)))
    else s
  }

  /**
   * recordsDeleted for rows [first, last] of a foundset that now has
   * foundsetSize rows; pkChunkSize is the foundset manager's setting.
   */
  function RecordsDeleted(s: Sync, foundsetSize: nat, hadMoreRows: bool, pkChunkSize: int, first: int, last: int): Sync
  {
    if first == pkChunkSize && first + pkChunkSize < last && s.bounds.start + s.bounds.size - 1 <= last then
      s.(monitor := s.monitor.(preferredResets := s.monitor.preferredResets + 1))
    else
      var m := s.monitor;
      var m1 := if last - first >= 0 then FoundSetSizeChanged(m, Some(hadMoreRows)) else m;
      var s2 := DeletedRows(Sync(m1, s.bounds), foundsetSize, first, last);
      s2.(monitor := NotifiedIfChanged(s2.monitor, m.flags))
  }

  /** The operations an insert starting inside the viewport queues. */
  function InsertOps(first: int, last: int, oldSize: int, b: Bounds): seq<ViewportChange>
  {
    var lastInsert := Min(last, b.start + b.size - 1);
    var slidOut := oldSize + (lastInsert - first + 1) - b.size;
    [Operation(first - b.start, lastInsert - b.start, oldSize, InsertOp)]
    + (if slidOut > 0 then [Operation(b.size, b.size + slidOut - 1, oldSize, DeleteOp)] else [])
  }

  function InsertedRows(s: Sync, foundsetSize: Option<nat>, first: int, last: int, oldSize: int): Sync
  {
    var b := s.bounds;
    if Granular(s.monitor) then
      if b.start <= first <= b.start + b.size - 1 then Sync(Queued(s.monitor, InsertOps(first, last, oldSize, b)), b)
      else if b.start > first then SlideAndCorrect(s, foundsetSize, last - first + 1)
      else s
    else s
  }

  /** recordsInserted for rows [first, last]; oldSize is the client's viewport size. */
  function RecordsInserted(s: Sync, foundsetSize: Option<nat>, hadMoreRows: bool, first: int, last: int, oldSize: int): Sync
  {
    var m := s.monitor;
    var m1 := if last - first >= 0 then FoundSetSizeChanged(m, Some(hadMoreRows)) else m;
    var s2 := InsertedRows(Sync(m1, s.bounds), foundsetSize, first, last, oldSize);
    s2.(monitor := NotifiedIfChanged(s2.monitor, m.flags))
  }

  function ExtendClientViewport(m: Monitor, b: Bounds, first: int, last: int, oldSize: int): Monitor
  {
    if Granular(m) then
      Queued(m, [Operation(first - b.start, Min(last, b.start + b.size - 1) - b.start, oldSize, InsertOp)])
    else m
  }

  /** One cell change per dataprovider, in order. */
  function CellChanges(row: int, size: int, dataproviders: seq<string>): (r: seq<ViewportChange>)
    ensures |r| == |dataproviders|
    ensures forall i :: 0 <= i < |r| ==> r[i] == CellChange(row, size, dataproviders[i])
  {
    seq(|dataproviders|, i requires 0 <= i < |dataproviders| => CellChange(row, size, dataproviders[i]))
  }

  /**
   * recordsUpdated for rows [first, last]; a null list of dataproviders
   * is the empty one, and quiet stands for a quiet record change in
   * progress in the data adapter list.
   */
  function RecordsUpdated(m: Monitor, b: Bounds, foundsetSize: int, first: int, last: int,
                          dataproviders: seq<string>, quiet: bool): Monitor
  {
    var firstIn := Max(b.start, first);
    var lastIn := Min(b.start + b.size - 1, last);
    if quiet then m
    else if first == 0 && last == foundsetSize - 1 then
      if |dataproviders| > 0 then
        if Granular(m) && firstIn <= lastIn then Queued(m, CellChanges(firstIn - b.start, b.size, dataproviders))
        else m
      else if b.size > 0 then ViewPortCompletelyChanged(m)
      else m
    else if Granular(m) && firstIn <= lastIn then
      if firstIn == lastIn && |dataproviders| > 0 then Queued(m, CellChanges(firstIn - b.start, b.size, dataproviders))
      else Queued(m, [Operation(firstIn - b.start, lastIn - b.start, b.size, ChangeOp)])
    else m
  }

  // ---------------------------------------------------------------------
  // Properties

  /**
   * setFoundset starts over at (0, 0), whatever the new foundset; the
   * notifier hears of it exactly when the bounds moved and the monitor was
   * not yet resending everything or the whole viewport.
   */
  lemma SetFoundsetStartsEmpty(s: Sync, foundsetSize: Option<nat>)
    ensures SetBounds(s, foundsetSize, 0, 0).bounds == Bounds(0, 0)
    ensures SetBounds(s, foundsetSize, 0, 0).monitor.notifications
            == s.monitor.notifications + (if s.bounds != Bounds(0, 0) && Granular(s.monitor) && s.monitor.hasNotifier then 1 else 0)
    ensures s.bounds != Bounds(0, 0) ==> SetBounds(s, foundsetSize, 0, 0).monitor.wholeViewport
  {
  }

  /** allChanged leaves SEND_ALL alone among the flags and announces it iff the flags were different. */
  lemma AllChangedSetsOnlySendAll(m: Monitor)
    ensures AllChanged(m).flags == {SendAll} && AllChanged(m).wholeViewport
    ensures AllChanged(m).notifications == m.notifications + (if m.hasNotifier && m.flags != {SendAll} then 1 else 0)
  {
  }

  /** Once everything is to be resent, the finer flag changes do nothing at all. */
  lemma SendAllAbsorbsFlags(m: Monitor, flag: set<Flag>, hadMoreRows: Option<bool>)
    requires SendsAll(m)
    ensures FlagRaised(m, flag) == m
    ensures FoundSetSizeChanged(m, hadMoreRows).flags == m.flags
    ensures ViewPortBoundsOnlyChanged(m) == m
  {
  }

  /**
   * A flag change raises the flag and notifies exactly when the flag was
   * not yet fully set (and a notifier is present).
   */
  lemma FlagRaisedNotifiesIffNew(m: Monitor, flag: set<Flag>)
    requires !SendsAll(m)
    ensures FlagRaised(m, flag).flags == m.flags + flag
    ensures FlagRaised(m, flag).notifications
            == m.notifications + (if m.hasNotifier && !(flag <= m.flags) then 1 else 0)
  {
  }

  /** Raising a flag twice notifies at most once. */
  lemma FlagRaisedTwice(m: Monitor, flag: set<Flag>)
    ensures FlagRaised(FlagRaised(m, flag), flag) == FlagRaised(m, flag)
  {
    if !SendsAll(m) {
      var m1 := FlagRaised(m, flag);
      assert m1.flags + flag == m1.flags;
    }
  }

  /** The handled request is appended; only the first pending one notifies. */
  lemma RequestIdHandledNotifiesFirst(m: Monitor, requestId: int, success: bool)
    ensures RequestIdHandled(m, requestId, success).handled == m.handled + [Handled(requestId, success)]
    ensures RequestIdHandled(m, requestId, success).notifications
            == m.notifications + (if m.hasNotifier && |m.handled| == 0 then 1 else 0)
  {
  }

  /** A delete before the viewport never moves it forward; it moves back by the deleted rows before start. */
  lemma DeleteSlideNonPositive(first: int, last: int, start: int)
    requires first <= last + 1
    ensures DeleteSlideBy(first, last, start) <= 0
    ensures first < start ==> DeleteSlideBy(first, last, start) == -(Min(start - 1, last) - first + 1)
  {
  }

  /**
   * Rows deleted wholly before the viewport: the viewport moves back by
   * their number, so it keeps showing the same rows, and no operation is
   * queued.
   */
  lemma DeleteBeforeViewportKeepsRows(s: Sync, foundsetSize: nat, hadMoreRows: bool, pkChunkSize: int, first: int, last: int)
    requires first <= last < s.bounds.start
    requires first != pkChunkSize
    requires Granular(FoundSetSizeChanged(s.monitor, Some(hadMoreRows)))
    ensures RecordsDeleted(s, foundsetSize, hadMoreRows, pkChunkSize, first, last).bounds
            == Correct(s.bounds.start - (last - first + 1), s.bounds.size, Some(foundsetSize))
    ensures RecordsDeleted(s, foundsetSize, hadMoreRows, pkChunkSize, first, last).monitor.changes == s.monitor.changes
  {
    var m1 := FoundSetSizeChanged(s.monitor, Some(hadMoreRows));
    assert m1.changes == s.monitor.changes;
    assert !DeleteOverlaps(first, last, s.bounds);
    assert DeleteSlideBy(first, last, s.bounds.start) == -(last - first + 1);
  }

  /** Rows inserted before the viewport push it forward by their number. */
  lemma InsertBeforeViewportSlides(s: Sync, foundsetSize: Option<nat>, hadMoreRows: bool, first: int, last: int, oldSize: int)
    requires first <= last && first < s.bounds.start
    requires Granular(FoundSetSizeChanged(s.monitor, Some(hadMoreRows)))
    ensures RecordsInserted(s, foundsetSize, hadMoreRows, first, last, oldSize).bounds
            == Correct(s.bounds.start + (last - first + 1), s.bounds.size, foundsetSize)
    ensures RecordsInserted(s, foundsetSize, hadMoreRows, first, last, oldSize).monitor.changes == s.monitor.changes
  {
    var m1 := FoundSetSizeChanged(s.monitor, Some(hadMoreRows));
    assert m1.changes == s.monitor.changes;
  }

  /**
   * An insert starting inside the viewport queues an INSERT of the rows
   * that land in it, as a range inside the viewport, and keeps the bounds.
   */
  lemma InsertInsideViewportQueues(s: Sync, foundsetSize: Option<nat>, hadMoreRows: bool, first: int, last: int, oldSize: int)
    requires first <= last && s.bounds.start <= first < s.bounds.start + s.bounds.size
    requires Granular(FoundSetSizeChanged(s.monitor, Some(hadMoreRows)))
    ensures var r := RecordsInserted(s, foundsetSize, hadMoreRows, first, last, oldSize);
            r.bounds == s.bounds && |r.monitor.changes| > |s.monitor.changes|
            && r.monitor.changes[|s.monitor.changes|].kind == InsertOp
            && 0 <= r.monitor.changes[|s.monitor.changes|].first
            <= r.monitor.changes[|s.monitor.changes|].last < s.bounds.size
  {
    var m1 := FoundSetSizeChanged(s.monitor, Some(hadMoreRows));
    assert m1.changes == s.monitor.changes;
    var ops := InsertOps(first, last, oldSize, s.bounds);
    assert InsertedRows(Sync(m1, s.bounds), foundsetSize, first, last, oldSize).monitor.changes == m1.changes + ops;
    assert (m1.changes + ops)[|m1.changes|] == ops[0];
  }

  /**
   * A delete that overlaps a non-empty viewport queues first a DELETE of
   * the deleted rows that were in it, as a range inside the old viewport.
   */
  lemma DeleteInsideViewportQueues(s: Sync, foundsetSize: nat, hadMoreRows: bool, pkChunkSize: int, first: int, last: int)
    requires first <= last && first != pkChunkSize && s.bounds.size > 0
    requires DeleteOverlaps(first, last, s.bounds)
    requires Granular(FoundSetSizeChanged(s.monitor, Some(hadMoreRows)))
    ensures var r := RecordsDeleted(s, foundsetSize, hadMoreRows, pkChunkSize, first, last);
            |r.monitor.changes| > |s.monitor.changes|
            && r.monitor.changes[|s.monitor.changes|].kind == DeleteOp
            && 0 <= r.monitor.changes[|s.monitor.changes|].first
            <= r.monitor.changes[|s.monitor.changes|].last < s.bounds.size
  {
    var m1 := FoundSetSizeChanged(s.monitor, Some(hadMoreRows));
    assert m1.changes == s.monitor.changes;
    var slid := SlideAndCorrect(Sync(m1, s.bounds), Some(foundsetSize), DeleteSlideBy(first, last, s.bounds.start));
    assert slid.monitor.changes == m1.changes;
    var ops := DeleteOps(first, last, s.bounds, slid.bounds);
    assert DeletedRows(Sync(m1, s.bounds), foundsetSize, first, last).monitor.changes == m1.changes + ops;
    assert (m1.changes + ops)[|m1.changes|] == ops[0];
  }

  /**
   * Setting the notifier changes nothing but the notifier and the count of
   * notifications. A notifier hears at once of pending changes; a null one
   * throws exactly when changes are pending.
   */
  lemma SetChangeNotifierCases(m: Monitor, present: bool)
    ensures var (r, thrown) := SetChangeNotifier(m, present);
            r.hasNotifier == present
            && r.(hasNotifier := m.hasNotifier, notifications := m.notifications) == m
            && (thrown <==> !present && HasChanges(m))
            && r.notifications == m.notifications + (if present && HasChanges(m) then 1 else 0)
  {
  }

  /** A queued change lies inside a viewport of the given size: its rows, relative to the viewport, are rows of it. */
  predicate InViewport(c: ViewportChange, size: int)
  {
    match c
    case Operation(first, last, _, _) => 0 <= first <= last < size
    case CellChange(row, _, _) => 0 <= row < size
  }

  /**
   * recordsUpdated only appends to the queue, and what it appends lies
   * inside the viewport and carries the viewport's size. Something is
   * queued exactly when no quiet change is in progress, the monitor is
   * granular, the updated rows meet the viewport, and it is not a
   * whole-foundset update without dataproviders.
   */
  lemma RecordsUpdatedQueuesInside(m: Monitor, b: Bounds, foundsetSize: int, first: int, last: int,
                                   dataproviders: seq<string>, quiet: bool)
    ensures var r := RecordsUpdated(m, b, foundsetSize, first, last, dataproviders, quiet);
            |r.changes| >= |m.changes| && r.changes[..|m.changes|] == m.changes
            && (forall i | |m.changes| <= i < |r.changes| :: InViewport(r.changes[i], b.size) && r.changes[i].oldSize == b.size)
            && (|r.changes| > |m.changes| <==>
                  !quiet && Granular(m) && Max(b.start, first) <= Min(b.start + b.size - 1, last)
                  && !(first == 0 && last == foundsetSize - 1 && |dataproviders| == 0))
  {
    var r := RecordsUpdated(m, b, foundsetSize, first, last, dataproviders, quiet);
    var firstIn, lastIn := Max(b.start, first), Min(b.start + b.size - 1, last);
    if !quiet && Granular(m) && firstIn <= lastIn {
      var whole := first == 0 && last == foundsetSize - 1;
      if |dataproviders| > 0 && (whole || firstIn == lastIn) {
        QueuedInside(m, CellChanges(firstIn - b.start, b.size, dataproviders), b.size);
      } else if !whole {
        QueuedInside(m, [Operation(firstIn - b.start, lastIn - b.start, b.size, ChangeOp)], b.size);
      }
    }
  }

  lemma QueuedInside(m: Monitor, ops: seq<ViewportChange>, size: int)
    requires forall i | 0 <= i < |ops| :: InViewport(ops[i], size) && ops[i].oldSize == size
    ensures var r := Queued(m, ops);
            |r.changes| == |m.changes| + |ops| && r.changes[..|m.changes|] == m.changes
            && forall i | |m.changes| <= i < |r.changes| :: InViewport(r.changes[i], size) && r.changes[i].oldSize == size
  {
    var r := Queued(m, ops);
    assert r.changes[..|m.changes|] == m.changes;
    assert forall i | |m.changes| <= i < |r.changes| :: r.changes[i] == ops[i - |m.changes|];
  }

  /** After clearChanges nothing is pending. */
  lemma ClearChangesClears(m: Monitor)
    ensures ClearChanges(m).flags == {} && ClearChanges(m).handled == []
    ensures !HasChanges(ClearChanges(m))
  {
  }

  /**
   * hasChanges does not look at SEND_MULTISELECT, SEND_HAD_MORE_ROWS,
   * SEND_USER_SET_SELECTION or SEND_FOUNDSET_ID: a monitor holding only
   * those has no changes.
   */
  lemma HasChangesIgnoresSomeFlags(m: Monitor)
    requires !m.wholeViewport && m.handled == [] && m.changes == []
    requires m.flags <= {SendMultiselect, SendHadMoreRows, SendUserSetSelection, SendFoundsetId}
    ensures !HasChanges(m)
  {
  }

  /** So a multi-select change on a clean monitor notifies, yet hasChanges stays false. */
  lemma MultiSelectNotifiesWithoutChanges(m: Monitor)
    requires ClearChanges(m) == m && m.hasNotifier
    ensures FlagRaised(m, {SendMultiselect}).notifications == m.notifications + 1
    ensures !HasChanges(FlagRaised(m, {SendMultiselect}))
  {
    var r := FlagRaised(m, {SendMultiselect});
    assert r.flags == {SendMultiselect};
    HasChangesIgnoresSomeFlags(r);
  }
}
