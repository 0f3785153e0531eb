// The custom JSON array property handler of the Angular client
// (custom_json_array_property/array.js) as a class: an array value together
// with the internal state the handler attaches to it. Every loop of the
// handler is a loop here, proved against the functions of ArraySyncSpec.
module ArraySync {
  import opened Wrappers
  import opened JavaLang
  import opened ArraySyncSpec

  /** The indexes that get a "dumb" per-element watch: every element that is not smart. */
  function DumbIndices(els: seq<Value>): set<nat>
  {
    set i: nat | i < |els| && !els[i].Smart?
  }

  /** The indexes below n whose smart element was replaced by another reference (same length). */
  function ReplacedSmartBelow(els: seq<Value>, previous: seq<Value>, n: nat): set<nat>
    requires |previous| == |els|
  {
    set j: nat | j < n && j < |els| && !StrictEq(els[j], previous[j]) && previous[j].Smart?
  }

  function ReplacedSmart(els: seq<Value>, previous: seq<Value>): set<nat>
    requires |previous| == |els|
  {
    ReplacedSmartBelow(els, previous, |els|)
  }

  lemma ReplacedSmartBelowNext(els: seq<Value>, previous: seq<Value>, n: nat)
    requires |previous| == |els| && n < |els|
    ensures ReplacedSmartBelow(els, previous, n + 1)
            == ReplacedSmartBelow(els, previous, n)
               + (if !StrictEq(els[n], previous[n]) && previous[n].Smart? then {n} else {})
  {
  }

  /** The marks after every index of `replaced` is marked as a changed reference. */
  function MarkAll(marks: map<nat, Mark>, replaced: set<nat>): (r: map<nat, Mark>)
    ensures r.Keys == marks.Keys + replaced
    ensures forall k | k in replaced :: r[k] == ReferenceChanged
    ensures forall k | k in marks && k !in replaced :: r[k] == marks[k]
  {
    map k | k in marks.Keys + replaced :: if k in replaced then ReferenceChanged else marks[k]
  }

  lemma MarkAllNext(marks: map<nat, Mark>, replaced: set<nat>, j: nat)
    ensures MarkAll(marks, replaced + {j}) == MarkAll(marks, replaced)[j := ReferenceChanged]
  {
  }

  class ArrayValue {
    var elements: seq<Value>
    /** Whether the array carries the handler's internal state ($sabloConverters.INTERNAL_IMPL). */
    var hasState: bool
    // The internal state ("vEr", "w", conversionInfo, changedIndexes, allChanged, the watches).
    var version: int
    var push: Option<bool>
    var conversionInfo: seq<Option<Conv>>
    var changedIndexes: map<nat, Mark>
    var allChanged: bool
    var dumbWatched: set<nat>
    var structureWatched: bool
    /** How many times the state's changeNotifier has been called. */
    var notifications: nat

    /** A plain array without internal state, as parsed from JSON or built by client code. */
    constructor (els: seq<Value>)
      ensures elements == els && !hasState
      ensures dumbWatched == {} && !structureWatched && notifications == 0
    {
      elements := els;
      hasState := false;
      version := 0;
      push := None;
      conversionInfo := [];
      changedIndexes := map[];
      allChanged := false;
      dumbWatched := {};
      structureWatched := false;
      notifications := 0;
    }

    function CurrentContent(): Content
      reads this
    {
      Content(elements, conversionInfo)
    }

    function State(): Option<SyncState>
      reads this
    {
      if hasState then Some(SyncState(version, conversionInfo, changedIndexes, allChanged, dumbWatched)) else None
    }

    predicate WatchesFor(scope: bool)
      reads this
    {
      && dumbWatched == (if scope && push.Some? then DumbIndices(elements) else {})
      && structureWatched == (scope && push.Some?)
    }

    /** initializeNewValue: takes the content version; creates a fresh internal state only when there is none. */
    method InitializeNewValue(contentVersion: int)
      modifies this
      ensures hasState && version == contentVersion
      ensures elements == old(elements) && notifications == old(notifications)
      ensures !old(hasState) ==>
                && conversionInfo == [] && changedIndexes == map[] && !allChanged
                && push.None? && dumbWatched == {} && !structureWatched
      ensures old(hasState) ==>
                && conversionInfo == old(conversionInfo) && changedIndexes == old(changedIndexes)
                && allChanged == old(allChanged) && push == old(push)
                && dumbWatched == old(dumbWatched) && structureWatched == old(structureWatched)
    {
      if !hasState {
        hasState := true;
        push := None;
        dumbWatched := {};
        structureWatched := false;
        conversionInfo := [];
        changedIndexes := map[];
        allChanged := false;
      }
      version := contentVersion;
    }

    /** removeAllWatches: drops every watch of an array that has internal state. */
    method RemoveAllWatches()
      modifies this`dumbWatched, this`structureWatched
      ensures old(hasState) ==> dumbWatched == {} && !structureWatched
      ensures !old(hasState) ==> dumbWatched == old(dumbWatched) && structureWatched == old(structureWatched)
    {
      if hasState {
        structureWatched := false;
        dumbWatched := {};
      }
    }

    /**
     * addBackWatches: with a component scope and a push policy, a watch on
     * every non-smart element plus one on the array structure; otherwise none.
     */
    method AddBackWatches(scope: bool)
      requires hasState
      modifies this`dumbWatched, this`structureWatched
      ensures WatchesFor(scope)
    {
      dumbWatched := {};
      structureWatched := false;
      if scope && push.Some? {
        var c := 0;
        while c < |elements|
          invariant 0 <= c <= |elements|
          invariant dumbWatched == set i: nat | i < c && !elements[i].Smart?
        {
          if !elements[c].Smart? {
            dumbWatched := dumbWatched + {c};
          }
          c := c + 1;
        }
        structureWatched := true;
      }
    }

    /** The listener of a dumb element watch: records the old value unless it is the same. */
    method DumbWatchFired(idx: nat, oldValue: Value)
      requires hasState
      modifies this`changedIndexes, this`notifications
      ensures StrictEq(oldValue, At(elements, idx, Undefined)) ==>
                changedIndexes == old(changedIndexes) && notifications == old(notifications)
      ensures !StrictEq(oldValue, At(elements, idx, Undefined)) ==>
                changedIndexes == old(changedIndexes)[idx := OldValue(oldValue)] && notifications == old(notifications) + 1
    {
      if !StrictEq(oldValue, At(elements, idx, Undefined)) {
        changedIndexes := changedIndexes[idx := OldValue(oldValue)];
        notifications := notifications + 1;
      }
    }

    /**
     * The listener of the structure watch ($watchCollection). None is the
     * first run (new === old). A length change marks everything changed; else
     * every replaced smart element is marked, with one notification.
     */
    method StructureWatchFired(previous: Option<seq<Value>>)
      requires hasState
      modifies this`changedIndexes, this`allChanged, this`notifications
      ensures previous.None? ==> changedIndexes == old(changedIndexes) && allChanged == old(allChanged)
                                 && notifications == old(notifications)
      ensures previous.Some? && |previous.value| != |elements| ==>
                allChanged && changedIndexes == old(changedIndexes) && notifications == old(notifications) + 1
      ensures previous.Some? && |previous.value| == |elements| ==>
                && allChanged == old(allChanged)
                && changedIndexes == MarkAll(old(changedIndexes), ReplacedSmart(elements, previous.value))
                && notifications == old(notifications) + (if ReplacedSmart(elements, previous.value) == {} then 0 else 1)
    {
      if previous.None? {
        return;
      }
      var prev := previous.value;
      if |prev| != |elements| {
        allChanged := true;
        notifications := notifications + 1;
      } else {
        var referencesChanged := MarkReplacedReferences(prev);
        if referencesChanged {
          notifications := notifications + 1;
        }
      }
    }

    /** The loop of the structure watch over an array of unchanged length. */
    method MarkReplacedReferences(prev: seq<Value>) returns (any: bool)
      requires |prev| == |elements|
      modifies this`changedIndexes
      ensures changedIndexes == MarkAll(old(changedIndexes), ReplacedSmart(elements, prev))
      ensures any <==> ReplacedSmart(elements, prev) != {}
    {
      any := false;
      var els := elements;
      var j := 0;
      assert ReplacedSmartBelow(els, prev, 0) == {};
      while j < |els|
        invariant 0 <= j <= |els|
        invariant changedIndexes == MarkAll(old(changedIndexes), ReplacedSmartBelow(els, prev, j))
        invariant any <==> ReplacedSmartBelow(els, prev, j) != {}
      {
        ghost var below := ReplacedSmartBelow(els, prev, j);
        ReplacedSmartBelowNext(els, prev, j);
        if !StrictEq(els[j], prev[j]) && prev[j].Smart? {
          assert ReplacedSmartBelow(els, prev, j + 1) == below + {j};
          MarkAllNext(old(changedIndexes), below, j);
          any := true;
          changedIndexes := changedIndexes[j := ReferenceChanged];
        } else {
          assert ReplacedSmartBelow(els, prev, j + 1) == below;
        }
        j := j + 1;
      }
      assert ReplacedSmart(elements, prev) == ReplacedSmartBelow(els, prev, j);
    }

    /** The notifier given to a smart child bound to idx: marks idx and notifies. */
    method ChildNotified(idx: nat)
      requires hasState
      modifies this`changedIndexes, this`notifications
      ensures changedIndexes == old(changedIndexes)[idx := ChildChanged]
      ensures notifications == old(notifications) + 1
    {
      changedIndexes := changedIndexes[idx := ChildChanged];
      notifications := notifications + 1;
    }

    // -------------------------------------------------------------------
    // Server to client

    /** The element loop of a full value, on a freshly initialised state. */
    method LoadFull(v: seq<Value>, types: Option<seq<Option<Conv>>>, prev: Option<seq<Value>>, col: Collaborators)
      requires conversionInfo == []
      modifies this`elements, this`conversionInfo
      ensures elements == FullElements(v, types, prev, col)
      ensures conversionInfo == FullInfo(types, |v|)
    {
      elements := v;
      var c := 0;
      while c < |v|
        invariant 0 <= c <= |v| && |elements| == |v|
        invariant forall j :: 0 <= j < |v| ==> elements[j] == if j < c then FullElement(v, types, prev, col, j) else v[j]
        invariant conversionInfo == FullInfo(types, c)
      {
        var elem := elements[c];
        var info := TypeAt(types, c);
        if info.Some? {
          conversionInfo := Put(conversionInfo, c, info, None);
          elem := col.fromServer(elem, info.value, PrevAt(prev, c));
          elements := elements[c := elem];
        }
        if elem.Smart? {
          elements := elements[c := elem.(boundTo := Some(c))];
        }
        c := c + 1;
      }
    }

    /** The loop that re-binds the change notifier of every smart element from index `from` on. */
    method RebindFrom(from: nat)
      modifies this`elements
      ensures elements == Rebind(old(elements), from)
    {
      var i := from;
      while i < |elements|
        invariant |elements| == |old(elements)|
        invariant from <= i
        invariant forall j :: 0 <= j < |elements| ==>
                    elements[j] == if from <= j < i then Bound(old(elements)[j], j) else old(elements)[j]
      {
        if elements[i].Smart? {
          elements := elements[i := elements[i].(boundTo := Some(i))];
        }
        i := i + 1;
      }
    }

    /** One iteration of the CHANGED loop: index i takes the op's value for it. */
    method ChangeAt(op: GranularOp, col: Collaborators, i: nat)
      requires i >= op.startIndex
      modifies this`elements, this`conversionInfo
      ensures CurrentContent() == ChangedStep(old(CurrentContent()), op, col, i)
    {
      var rel := i - op.startIndex;
      var info := TypeAt(op.types, rel);
      conversionInfo := Put(conversionInfo, i, info, None);
      var v: Value;
      if info.Some? {
        v := col.fromServer(At(op.data, rel, Undefined), info.value, At(elements, i, Undefined));
      } else {
        v := At(op.data, rel, Undefined);
      }
      // Stored at i, with its change notifier bound to i.
      elements := Put(elements, i, Bound(v, i), Undefined);
    }

    method ApplyChangedOp(op: GranularOp, col: Collaborators)
      modifies this`elements, this`conversionInfo
      ensures CurrentContent() == ApplyChanged(old(CurrentContent()), op, col)
    {
      var i := op.startIndex;
      while i <= op.endIndex
        invariant op.startIndex <= i <= Max(op.startIndex, op.endIndex + 1)
        invariant CurrentContent() == ChangedUpTo(old(CurrentContent()), op, col, i - op.startIndex)
      {
        ChangeAt(op, col, i);
        i := i + 1;
      }
    }

    method ApplyInsertOp(op: GranularOp, col: Collaborators)
      modifies this`elements, this`conversionInfo
      ensures CurrentContent() == ApplyInsert(old(CurrentContent()), op, col)
    {
      var s := op.startIndex;
      var n := |op.data|;
      var data := op.data;
      if op.types.Some? {
        data := col.fromServerBatch(op.data, op.types.value);
      }
      var i := n - 1;
      while i >= 0
        invariant -1 <= i < n
        invariant CurrentContent() == InsertUpTo(old(CurrentContent()), op, col, n - 1 - i)
      {
        var info := TypeAt(op.types, i);
        if |conversionInfo| > s {
          conversionInfo := SpliceInsert(conversionInfo, s, info);
        } else if info.Some? {
          conversionInfo := Put(conversionInfo, s, info, None);
        }
        assert At(data, i, Undefined) == InsertedData(op, col)[i];
        elements := SpliceInsert(elements, s, At(data, i, Undefined));
        i := i - 1;
      }
      RebindFrom(s);
    }

    method ApplyDeleteOp(op: GranularOp)
      modifies this`elements, this`conversionInfo
      ensures CurrentContent() == ApplyDelete(old(CurrentContent()), op)
    {
      var s := op.startIndex;
      var n := op.endIndex - s + 1;
      if |conversionInfo| > s {
        conversionInfo := SpliceDelete(conversionInfo, s, Min(n, |conversionInfo| - s));
      }
      elements := SpliceDelete(elements, s, n);
      RebindFrom(s);
    }

    /** The loop over the ops of a "g" list. */
    method ApplyGranular(ops: seq<GranularOp>, col: Collaborators)
      modifies this`elements, this`conversionInfo
      ensures CurrentContent() == ApplyOps(old(CurrentContent()), ops, col)
    {
      var k := 0;
      while k < |ops|
        invariant 0 <= k <= |ops|
        invariant CurrentContent() == ApplyOps(old(CurrentContent()), ops[..k], col)
      {
        var op := ops[k];
        assert ops[..k + 1][..k] == ops[..k];
        if op.opType == CHANGED {
          ApplyChangedOp(op, col);
        } else if op.opType == INSERT {
          ApplyInsertOp(op, col);
        } else if op.opType == DELETE {
          ApplyDeleteOp(op);
        }
        k := k + 1;
      }
      assert ops[..|ops|] == ops;
    }

    // -------------------------------------------------------------------
    // Client to server

    /** The element loop of the allChanged path. */
    method CollectAll(prior: Option<seq<Value>>, col: Collaborators) returns (vals: seq<Value>)
      ensures vals == FullValues(elements, conversionInfo, prior, col)
    {
      vals := [];
      var idx := 0;
      while idx < |elements|
        invariant 0 <= idx <= |elements| && |vals| == idx
        invariant forall k :: 0 <= k < idx ==>
                    vals[k] == SendOf(elements[k], At(conversionInfo, k, None), OldAt(prior, k), col)
      {
        var val := elements[idx];
        var wire: Value;
        if At(conversionInfo, idx, None).Some? {
          wire := col.toServer(val, At(conversionInfo, idx, None).value, OldAt(prior, idx));
        } else {
          wire := col.clientObject(val);
        }
        vals := vals + [wire];
        idx := idx + 1;
      }
    }

    /** The test the sparse path applies to one marked index. */
    method ChangedAt(idx: nat, prior: Option<seq<Value>>, col: Collaborators) returns (changed: bool)
      requires hasState && idx in changedIndexes && SparseDefined(elements, State().value, prior)
      ensures changed == IndexChanged(idx, elements, State().value, prior, col)
    {
      var newVal := At(elements, idx, Undefined);
      changed := !StrictEq(newVal, OldAt(prior, idx));
      if !changed {
        if idx in dumbWatched {
          var oldDumbVal := OldOfMark(changedIndexes[idx]);
          if !StrictEq(oldDumbVal, newVal) {
            if IsObjectType(newVal) {
              changed := col.isChanged(newVal, oldDumbVal, At(conversionInfo, idx, None));
            } else {
              changed := true;
            }
          }
        } else if Truthy(newVal) {
          changed := newVal.dirty;
        }
      }
    }

    /** What the sparse path sends for one marked index: nothing, or its wire value. */
    method UpdateAt(idx: nat, prior: Option<seq<Value>>, col: Collaborators) returns (u: seq<Update>)
      requires hasState && idx in changedIndexes && SparseDefined(elements, State().value, prior)
      ensures u == UpdateFor(idx, elements, State().value, prior, col)
    {
      var changed := ChangedAt(idx, prior, col);
      if changed {
        var info := At(conversionInfo, idx, None);
        var newVal := At(elements, idx, Undefined);
        var wire := if info.Some? then col.toServer(newVal, info.value, OldAt(prior, idx)) else col.clientObject(newVal);
        u := [Update(idx, wire)];
      } else {
        u := [];
      }
    }

    /** The for-in loop of the sparse path over changedIndexes, in ascending key order. */
    method CollectUpdates(prior: Option<seq<Value>>, col: Collaborators) returns (ups: seq<Update>)
      requires hasState && SparseDefined(elements, State().value, prior)
      ensures ups == SparseReport(elements, State().value, prior, col)
    {
      ghost var st := State().value;
      ghost var total := SparseUpdates(SortedKeys(changedIndexes.Keys), elements, st, prior, col);
      var remaining := changedIndexes.Keys;
      ups := [];
      while remaining != {}
        invariant remaining <= changedIndexes.Keys
        invariant ups + SparseUpdates(SortedKeys(remaining), elements, st, prior, col) == total
        decreases remaining
      {
        ghost var least := MinOf(remaining);
        var idx :| idx in remaining && forall x | x in remaining :: idx <= x;
        SparseUpdatesOfLeast(remaining, idx, elements, st, prior, col);
        ghost var rest := SparseUpdates(SortedKeys(remaining - {idx}), elements, st, prior, col);
        ghost var before := ups;
        assert before + (UpdateFor(idx, elements, st, prior, col) + rest) == total;
        var u := UpdateAt(idx, prior, col);
        ups := ups + u;
        assert ups == before + UpdateFor(idx, elements, st, prior, col);
        AppendAssociates(before, UpdateFor(idx, elements, st, prior, col), rest);
        remaining := remaining - {idx};
      }
    }
    /** The allChanged path: every element, the version sent and incremented, the marks cleared. */
    method SendAllChanged(prior: Option<seq<Value>>, col: Collaborators) returns (msg: ToServer)
      requires hasState && allChanged
      modifies this`version, this`allChanged, this`changedIndexes
      ensures msg == Outgoing(old(elements), old(State()), prior, col).0
      ensures State() == Outgoing(old(elements), old(State()), prior, col).1
    {
      ghost var st := State().value;
      var vals := CollectAll(prior, col);
      msg := FullSnapshot(version, vals);
      version := version + 1;
      allChanged := false;
      changedIndexes := map[];
      assert State() == Some(st.(changedIndexes := map[], allChanged := false, version := st.version + 1));
    }

    /** The sparse path: the updates of the marked indexes that really changed, the marks cleared. */
    method SendSparse(prior: Option<seq<Value>>, col: Collaborators) returns (msg: ToServer)
      requires hasState && !allChanged && changedIndexes != map[]
      requires SparseDefined(elements, State().value, prior)
      modifies this`changedIndexes
      ensures msg == Outgoing(old(elements), old(State()), prior, col).0
      ensures State() == Outgoing(old(elements), old(State()), prior, col).1
    {
      ghost var st := State().value;
      ghost var els := elements;
      var ups := CollectUpdates(prior, col);
      msg := Sparse(version, ups);
      SparsePathMessage(els, st, prior, col);
      changedIndexes := map[];
      assert State() == Some(st.(changedIndexes := map[], allChanged := false));
    }
  }

  /**
   * fromServerToClient. A full value becomes a new array with a fresh state;
   * a "g" batch (after an optional "in") is applied to the current array
   * only when the content versions match; "in" alone re-initialises; "n"
   * keeps the current array; anything else gives null. Watches are removed
   * first and added back to the result. The source throws a TypeError when
   * a "g"/"in" message meets a null array, or a "g" or "n" message an array
   * without internal state: those inputs are excluded.
   */
  method FromServerToClient(payload: Option<Payload>, current: ArrayValue?, scope: bool, col: Collaborators)
    returns (r: ArrayValue?)
    requires IsGranular(payload) || IsInitOnly(payload) ==> current != null
    requires IsGranular(payload) && !payload.value.initialize ==> current != null && current.hasState
    requires IsNoOp(payload) && current != null ==> current.hasState
    modifies current
    ensures IsFull(payload) ==>
              && r != null && fresh(r)
              && r.elements == FullElements(payload.value.value.value, payload.value.types,
                                            if current == null then None else Some(old(current.elements)), col)
              && r.conversionInfo == FullInfo(payload.value.types, |payload.value.value.value|)
              && r.hasState && r.version == payload.value.version && r.push == payload.value.push
              && r.changedIndexes == map[] && !r.allChanged && r.notifications == 0
              && r.WatchesFor(scope)
    ensures IsFull(payload) && current != null ==>
              && current.CurrentContent() == old(current.CurrentContent())
              && current.hasState == old(current.hasState) && current.version == old(current.version)
              && current.changedIndexes == old(current.changedIndexes) && current.allChanged == old(current.allChanged)
              && (old(current.hasState) ==> current.dumbWatched == {} && !current.structureWatched)
              && current.notifications == old(current.notifications)
    ensures IsGranular(payload) ==>
              var p := payload.value;
              var reset := p.initialize && !old(current.hasState);
              var v1 := if p.initialize then p.version else old(current.version);
              var c1 := Content(old(current.elements), if reset then [] else old(current.conversionInfo));
              && r == current
              && current.CurrentContent() == (if v1 == p.version then ApplyOps(c1, p.granular.value, col) else c1)
              && current.hasState && current.version == v1
              && current.changedIndexes == (if reset then map[] else old(current.changedIndexes))
              && current.allChanged == (if reset then false else old(current.allChanged))
              && current.push == (if reset then None else old(current.push))
              && current.WatchesFor(scope) && current.notifications == old(current.notifications)
    ensures IsInitOnly(payload) ==>
              var reset := !old(current.hasState);
              && r == current
              && current.CurrentContent() == Content(old(current.elements), if reset then [] else old(current.conversionInfo))
              && current.hasState && current.version == payload.value.version
              && current.changedIndexes == (if reset then map[] else old(current.changedIndexes))
              && current.allChanged == (if reset then false else old(current.allChanged))
              && current.push == (if reset then None else old(current.push))
              && current.WatchesFor(scope) && current.notifications == old(current.notifications)
    ensures IsNoOp(payload) ==> r == current
    ensures IsNoOp(payload) && current != null ==>
              && current.CurrentContent() == old(current.CurrentContent())
              && current.hasState && current.version == old(current.version) && current.push == old(current.push)
              && current.changedIndexes == old(current.changedIndexes) && current.allChanged == old(current.allChanged)
              && current.WatchesFor(scope) && current.notifications == old(current.notifications)
    ensures IsDiscard(payload) ==> r == null
    ensures IsDiscard(payload) && current != null ==>
              && current.CurrentContent() == old(current.CurrentContent())
              && current.hasState == old(current.hasState) && current.version == old(current.version)
              && current.changedIndexes == old(current.changedIndexes) && current.allChanged == old(current.allChanged)
              && (old(current.hasState) ==> current.dumbWatched == {} && !current.structureWatched)
              && current.notifications == old(current.notifications)
  {
    if current != null {
      current.RemoveAllWatches();
    }
    if IsFull(payload) {
      var p := payload.value;
      var prev := if current == null then None else Some(current.elements);
      r := new ArrayValue(p.value.value);
      r.InitializeNewValue(p.version);
      if p.push.Some? {
        r.push := p.push;
      }
      r.LoadFull(p.value.value, p.types, prev, col);
      r.AddBackWatches(scope);
    } else if IsGranular(payload) {
      var p := payload.value;
      if p.initialize {
        current.InitializeNewValue(p.version);
      }
      if current.version == p.version {
        current.ApplyGranular(p.granular.value, col);
      }
      r := current;
      r.AddBackWatches(scope);
    } else if IsInitOnly(payload) {
      current.InitializeNewValue(payload.value.version);
      r := current;
      r.AddBackWatches(scope);
    } else if IsNoOp(payload) {
      r := current;
      if r != null {
        r.AddBackWatches(scope);
      }
    } else {
      r := null;
    }
  }

  /**
   * fromClientToServer: what the client sends for the array, per the
   * function Outgoing, and the internal state it leaves behind.
   */
  method FromClientToServer(newData: ArrayValue?, prior: Option<seq<Value>>, col: Collaborators)
    returns (msg: ToServer)
    requires newData != null && newData.hasState ==> SparseDefined(newData.elements, newData.State().value, prior)
    modifies newData
    ensures newData == null ==> msg == AsIsNull
    ensures newData != null ==>
              && msg == Outgoing(old(newData.elements), old(newData.State()), prior, col).0
              && newData.State() == Outgoing(old(newData.elements), old(newData.State()), prior, col).1
              && newData.elements == old(newData.elements) && newData.push == old(newData.push)
              && newData.structureWatched == old(newData.structureWatched)
              && newData.notifications == old(newData.notifications)
  {
    if newData == null {
      return AsIsNull;
    }
    if !newData.hasState {
      return AsIs(newData.elements);
    }
    if newData.allChanged {
      msg := newData.SendAllChanged(prior, col);
    } else if newData.changedIndexes != map[] {
      msg := newData.SendSparse(prior, col);
    } else if col.equals(newData.elements, prior) {
      msg := NoOp;
    } else {
      newData.hasState := false;
      msg := AsIs(newData.elements);
    }
  }
}
