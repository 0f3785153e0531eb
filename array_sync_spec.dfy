// Values, messages and the pure meaning of the custom JSON array property
// handler of the Angular client (custom_json_array_property/array.js).
//
// The JavaScript array and its per-index conversion info are sparse JS
// arrays: reading past the end gives `undefined` and writing past the end
// grows the array with holes. `At`, `Put`, `SpliceInsert` and `SpliceDelete`
// give exactly those semantics to Dafny sequences.
module ArraySyncSpec {
  import opened Wrappers
  import opened JavaLang

  // Granular operation types (the third entry of a granular op's "op" triple).
  const CHANGED := 0
  const INSERT := 1
  const DELETE := 2

  /** An entry of the conversion info sent by the server for one element. */
  datatype Conv = Conv(name: string)

  /**
   * A JavaScript element value. `Obj` is a plain object or array compared by
   * reference; `Smart` is a value with its own internal state (it offers
   * setChangeNotifier/isChanged): `boundTo` is the index its change notifier
   * reports, `dirty` is what its own isChanged() answers.
   */
  datatype Value =
    | Undefined
    | Null
    | Num(n: int)
    | Str(s: string)
    | Bool(b: bool)
    | Obj(ref: nat)
    | Smart(ref: nat, boundTo: Option<nat>, dirty: bool)

  /** JavaScript truthiness. */
  predicate Truthy(v: Value)
  {
    match v
    case Undefined => false
    case Null => false
    case Num(n) => n != 0
    case Str(s) => s != ""
    case Bool(b) => b
    case Obj(_) => true
    case Smart(_, _, _) => true
  }

  /** `typeof v == "object"`. */
  predicate IsObjectType(v: Value)
  {
    v.Null? || v.Obj? || v.Smart?
  }

  /** `a === b`: primitives by value, objects by reference. */
  predicate StrictEq(a: Value, b: Value)
  {
    match (a, b)
    case (Smart(r1, _, _), Smart(r2, _, _)) => r1 == r2
    case (Smart(_, _, _), _) => false
    case (_, Smart(_, _, _)) => false
    case _ => a == b
  }

  /** What `elem[INTERNAL_IMPL].setChangeNotifier(getChangeNotifier(arr, i))` does to an element. */
  function Bound(v: Value, i: nat): (r: Value)
    ensures StrictEq(r, v) && r.Smart? == v.Smart?
    ensures r.Smart? ==> r.boundTo == Some(i) && r.dirty == v.dirty
    ensures !v.Smart? ==> r == v
  {
    if v.Smart? then v.(boundTo := Some(i)) else v
  }

  /**
   * The external collaborators of the handler: $sabloConverters'
   * conversions (per element, and for a whole inserted batch),
   * $sabloUtils.convertClientObject, $sabloUtils.isChanged and angular.equals.
   */
  datatype Collaborators = Collaborators(
    fromServer: (Value, Conv, Value) -> Value,
    fromServerBatch: (seq<Value>, seq<Option<Conv>>) -> seq<Value>,
    toServer: (Value, Conv, Value) -> Value,
    clientObject: Value -> Value,
    isChanged: (Value, Value, Option<Conv>) -> bool,
    equals: (seq<Value>, Option<seq<Value>>) -> bool)

  /** One entry of a "g" list: op = [startIndex, endIndex, opType], d = data, and the optional types. */
  datatype GranularOp = GranularOp(
    startIndex: nat, endIndex: int, opType: int, data: seq<Value>, types: Option<seq<Option<Conv>>>)

  /**
   * A server-to-client message. Absent keys are None/false; `value` is "v",
   * `granular` is "g", `initialize` is "in", `noOp` is "n", `version` is
   * "vEr" and `push` is "w" (false: shallow watch, true: deep watch).
   */
  datatype Payload = Payload(
    value: Option<seq<Value>>,
    types: Option<seq<Option<Conv>>>,
    granular: Option<seq<GranularOp>>,
    initialize: bool,
    noOp: bool,
    version: int,
    push: Option<bool>)

  // The branch of fromServerToClient a message takes, in the source's order.
  predicate IsFull(p: Option<Payload>) { p.Some? && p.value.value.Some? }
  predicate IsGranular(p: Option<Payload>) { p.Some? && p.value.value.None? && p.value.granular.Some? }
  predicate IsInitOnly(p: Option<Payload>)
  {
    p.Some? && p.value.value.None? && p.value.granular.None? && p.value.initialize
  }
  predicate IsNoOp(p: Option<Payload>) { !IsFull(p) && !IsGranular(p) && !IsInitOnly(p) && p.Some? && p.value.noOp }
  predicate IsDiscard(p: Option<Payload>) { !IsFull(p) && !IsGranular(p) && !IsInitOnly(p) && !IsNoOp(p) }

  /** The elements and the parallel (sparse) conversion info of an array value. */
  datatype Content = Content(elements: seq<Value>, conversionInfo: seq<Option<Conv>>)

  // ---------------------------------------------------------------------
  // JavaScript sparse-array semantics

  function At<T>(s: seq<T>, i: int, absent: T): T
  {
    if 0 <= i < |s| then s[i] else absent
  }

  /** `s[i] = v`: writing past the end grows the array, the gap holding `absent`. */
  function Put<T>(s: seq<T>, i: nat, v: T, absent: T): (r: seq<T>)
    ensures |r| == Max(|s|, i + 1)
  {
    if i < |s| then s[i := v] else s + seq(i - |s|, _ => absent) + [v]
  }

  /** `s.splice(i, 0, v)`: a start beyond the end inserts at the end. */
  function SpliceInsert<T>(s: seq<T>, i: nat, v: T): (r: seq<T>)
    ensures |r| == |s| + 1
  {
    var k := Min(i, |s|);
    s[..k] + [v] + s[k..]
  }

  /** `s.splice(i, count)`: removes up to count entries from i; a negative count removes none. */
  function SpliceDelete<T>(s: seq<T>, i: nat, count: int): (r: seq<T>)
    ensures |r| == if i >= |s| || count <= 0 then |s| else |s| - Min(count, |s| - i)
  {
    if i >= |s| || count <= 0 then s else s[..i] + s[i + Min(count, |s| - i)..]
  }

  lemma PutAt<T>(s: seq<T>, i: nat, v: T, absent: T, j: int)
    ensures At(Put(s, i, v, absent), j, absent) == if j == i then v else At(s, j, absent)
  {
  }

  lemma SpliceInsertAt<T>(s: seq<T>, i: nat, v: T, absent: T, j: int)
    requires i <= |s|
    ensures At(SpliceInsert(s, i, v), j, absent)
            == if j < i then At(s, j, absent) else if j == i then v else At(s, j - 1, absent)
  {
  }

  lemma SpliceDeleteAt<T>(s: seq<T>, i: nat, count: nat, absent: T, j: nat)
    ensures At(SpliceDelete(s, i, count), j, absent)
            == if j < i then At(s, j, absent) else At(s, j + count, absent)
  {
  }

  /** `types ? types[i] : undefined`. */
  function TypeAt(types: Option<seq<Option<Conv>>>, i: int): Option<Conv>
  {
    if types.Some? then At(types.value, i, None) else None
  }

  // ---------------------------------------------------------------------
  // A full value ("v")

  function PrevAt(prev: Option<seq<Value>>, i: int): Value
  {
    if prev.Some? then At(prev.value, i, Undefined) else Undefined
  }

  /** Element c of a full value: converted when it has conversion info, then bound to c when smart. */
  function FullElement(v: seq<Value>, types: Option<seq<Option<Conv>>>, prev: Option<seq<Value>>,
                       col: Collaborators, c: nat): Value
    requires c < |v|
  {
    var info := TypeAt(types, c);
    Bound(if info.Some? then col.fromServer(v[c], info.value, PrevAt(prev, c)) else v[c], c)
  }

  function FullElements(v: seq<Value>, types: Option<seq<Option<Conv>>>, prev: Option<seq<Value>>,
                        col: Collaborators): (r: seq<Value>)
    ensures |r| == |v|
  {
    seq(|v|, c requires 0 <= c < |v| => FullElement(v, types, prev, col, c))
  }

  /** The conversion info a fresh state holds after the first n elements of a full value. */
  function FullInfo(types: Option<seq<Option<Conv>>>, n: nat): seq<Option<Conv>>
  {
    if n == 0 then []
    else
      var info := TypeAt(types, n - 1);
      if info.Some? then Put(FullInfo(types, n - 1), n - 1, info, None) else FullInfo(types, n - 1)
  }

  /** A full value keeps exactly the conversion info the server sent for its elements. */
  lemma {:induction false} FullInfoAt(types: Option<seq<Option<Conv>>>, n: nat, j: int)
    ensures At(FullInfo(types, n), j, None) == if j < n then TypeAt(types, j) else None
    ensures |FullInfo(types, n)| <= n
  {
    if n > 0 {
      FullInfoAt(types, n - 1, j);
      var info := TypeAt(types, n - 1);
      if info.Some? {
        PutAt(FullInfo(types, n - 1), n - 1, info, None, j);
      }
    }
  }

  // ---------------------------------------------------------------------
  // CHANGED [s, e]: one assignment per index, in ascending order

  /** Number of loop iterations of a CHANGED op. */
  function ChangedCount(op: GranularOp): nat
  {
    Max(0, op.endIndex - op.startIndex + 1)
  }

  /** The value written at index i (converted with its new info, the prior element as previous value). */
  function ChangedValue(op: GranularOp, col: Collaborators, previous: Value, i: nat): Value
    requires i >= op.startIndex
  {
    var rel := i - op.startIndex;
    var info := TypeAt(op.types, rel);
    var raw := At(op.data, rel, Undefined);
    Bound(if info.Some? then col.fromServer(raw, info.value, previous) else raw, i)
  }

  function ChangedStep(c: Content, op: GranularOp, col: Collaborators, i: nat): Content
    requires i >= op.startIndex
  {
    Content(Put(c.elements, i, ChangedValue(op, col, At(c.elements, i, Undefined), i), Undefined),
            Put(c.conversionInfo, i, TypeAt(op.types, i - op.startIndex), None))
  }

  /** The content after the first k iterations of the CHANGED loop. */
  function ChangedUpTo(c0: Content, op: GranularOp, col: Collaborators, k: nat): Content
    requires k <= ChangedCount(op)
  {
    if k == 0 then c0 else ChangedStep(ChangedUpTo(c0, op, col, k - 1), op, col, op.startIndex + k - 1)
  }

  function ApplyChanged(c0: Content, op: GranularOp, col: Collaborators): Content
  {
    ChangedUpTo(c0, op, col, ChangedCount(op))
  }

  lemma {:induction false} ChangedUpToLength(c0: Content, op: GranularOp, col: Collaborators, k: nat)
    requires k <= ChangedCount(op)
    ensures |ChangedUpTo(c0, op, col, k).elements|
            == if k == 0 then |c0.elements| else Max(|c0.elements|, op.startIndex + k)
  {
    if k > 0 {
      ChangedUpToLength(c0, op, col, k - 1);
    }
  }

  lemma {:induction false} ChangedUpToElementAt(c0: Content, op: GranularOp, col: Collaborators, k: nat, j: int)
    requires k <= ChangedCount(op)
    ensures At(ChangedUpTo(c0, op, col, k).elements, j, Undefined)
            == (if op.startIndex <= j < op.startIndex + k
                then ChangedValue(op, col, At(c0.elements, j, Undefined), j)
                else At(c0.elements, j, Undefined))
  {
    if k > 0 {
      var i := op.startIndex + k - 1;
      var prev := ChangedUpTo(c0, op, col, k - 1);
      ChangedUpToElementAt(c0, op, col, k - 1, j);
      ChangedUpToElementAt(c0, op, col, k - 1, i);
      PutAt(prev.elements, i, ChangedValue(op, col, At(prev.elements, i, Undefined), i), Undefined, j);
    }
  }

  lemma {:induction false} ChangedUpToInfoAt(c0: Content, op: GranularOp, col: Collaborators, k: nat, j: int)
    requires k <= ChangedCount(op)
    ensures At(ChangedUpTo(c0, op, col, k).conversionInfo, j, None)
            == (if op.startIndex <= j < op.startIndex + k
                then TypeAt(op.types, j - op.startIndex)
                else At(c0.conversionInfo, j, None))
  {
    if k > 0 {
      var i := op.startIndex + k - 1;
      var prev := ChangedUpTo(c0, op, col, k - 1);
      ChangedUpToInfoAt(c0, op, col, k - 1, j);
      PutAt(prev.conversionInfo, i, TypeAt(op.types, i - op.startIndex), None, j);
    }
  }

  /**
   * CHANGED [s, e] sets every index s <= j <= e to d[j - s] (converted with
   * the op's info for it when there is one, the prior element as the previous
   * value) and records that info; every other index keeps its element and
   * its info. Writing past the end grows the array.
   */
  lemma ChangedAt(c0: Content, op: GranularOp, col: Collaborators, j: int)
    ensures var r := ApplyChanged(c0, op, col);
            && At(r.elements, j, Undefined)
               == (if op.startIndex <= j <= op.endIndex
                   then ChangedValue(op, col, At(c0.elements, j, Undefined), j)
                   else At(c0.elements, j, Undefined))
            && At(r.conversionInfo, j, None)
               == (if op.startIndex <= j <= op.endIndex
                   then TypeAt(op.types, j - op.startIndex)
                   else At(c0.conversionInfo, j, None))
    ensures |ApplyChanged(c0, op, col).elements|
            == if op.endIndex < op.startIndex then |c0.elements| else Max(|c0.elements|, op.endIndex + 1)
  {
    ChangedUpToLength(c0, op, col, ChangedCount(op));
    ChangedUpToElementAt(c0, op, col, ChangedCount(op), j);
    ChangedUpToInfoAt(c0, op, col, ChangedCount(op), j);
  }

  // ---------------------------------------------------------------------
  // INSERT at s: the data is spliced in one element at a time, last first

  /** The inserted data, converted as one batch when the op has conversion info. */
  function InsertedData(op: GranularOp, col: Collaborators): (r: seq<Value>)
    ensures |r| == |op.data|
  {
    var conv := if op.types.Some? then col.fromServerBatch(op.data, op.types.value) else op.data;
    seq(|op.data|, i requires 0 <= i < |op.data| => At(conv, i, Undefined))
  }

  /** One iteration (for data index i) of the INSERT loop. */
  function InsertStep(c: Content, op: GranularOp, col: Collaborators, i: nat): Content
    requires i < |op.data|
  {
    var s := op.startIndex;
    var info := TypeAt(op.types, i);
    var cis :=
      if |c.conversionInfo| > s then SpliceInsert(c.conversionInfo, s, info)
      else if info.Some? then Put(c.conversionInfo, s, info, None)
      else c.conversionInfo;
    Content(SpliceInsert(c.elements, s, InsertedData(op, col)[i]), cis)
  }

  /** The content after the first k iterations (data indexes n-1 down to n-k). */
  function InsertUpTo(c0: Content, op: GranularOp, col: Collaborators, k: nat): Content
    requires k <= |op.data|
  {
    if k == 0 then c0 else InsertStep(InsertUpTo(c0, op, col, k - 1), op, col, |op.data| - k)
  }

  /** Splicing x in front of the inserted block at s extends the block. */
  lemma SpliceInsertBefore<T>(pre: seq<T>, block: seq<T>, post: seq<T>, x: T)
    ensures SpliceInsert(pre + block + post, |pre|, x) == pre + ([x] + block) + post
  {
    var s := pre + block + post;
    assert s[..|pre|] == pre;
    assert s[|pre|..] == block + post;
  }

  lemma {:induction false} InsertUpToElements(c0: Content, op: GranularOp, col: Collaborators, k: nat)
    requires k <= |op.data|
    requires op.startIndex <= |c0.elements|
    ensures var d := InsertedData(op, col);
            InsertUpTo(c0, op, col, k).elements
            == c0.elements[..op.startIndex] + d[|d| - k..] + c0.elements[op.startIndex..]
  {
    var s := op.startIndex;
    var d := InsertedData(op, col);
    if k > 0 {
      InsertUpToElements(c0, op, col, k - 1);
      SpliceInsertBefore(c0.elements[..s], d[|d| - (k - 1)..], c0.elements[s..], d[|d| - k]);
      assert [d[|d| - k]] + d[|d| - (k - 1)..] == d[|d| - k..];
    }
  }

  /**
   * INSERT of n items at s <= length yields prior[..s] + d + prior[s..]: the
   * reverse-order splicing keeps the data in order and the length grows by n.
   */
  lemma InsertElements(c0: Content, op: GranularOp, col: Collaborators)
    requires op.startIndex <= |c0.elements|
    ensures InsertUpTo(c0, op, col, |op.data|).elements
            == c0.elements[..op.startIndex] + InsertedData(op, col) + c0.elements[op.startIndex..]
    ensures |InsertUpTo(c0, op, col, |op.data|).elements| == |c0.elements| + |op.data|
  {
    var d := InsertedData(op, col);
    InsertUpToElements(c0, op, col, |op.data|);
    assert d[|d| - |op.data|..] == d;
  }

  /** The conversion info expected after k insert iterations, read at j. */
  function InsertInfoAt(c0: Content, op: GranularOp, k: nat, j: int): Option<Conv>
  {
    var s := op.startIndex;
    if j < s then At(c0.conversionInfo, j, None)
    else if j < s + k then TypeAt(op.types, |op.data| - k + (j - s))
    else At(c0.conversionInfo, j - k, None)
  }

  /** One more insert iteration shifts the expected conversion info by one place, read at j. */
  lemma InsertInfoStep(c0: Content, op: GranularOp, col: Collaborators, k: nat, j: int)
    requires k < |op.data|
    requires forall j' :: At(InsertUpTo(c0, op, col, k).conversionInfo, j', None) == InsertInfoAt(c0, op, k, j')
    ensures At(InsertUpTo(c0, op, col, k + 1).conversionInfo, j, None) == InsertInfoAt(c0, op, k + 1, j)
  {
    var s := op.startIndex;
    var info := TypeAt(op.types, |op.data| - (k + 1));
    var cis := InsertUpTo(c0, op, col, k).conversionInfo;
    assert At(cis, j, None) == InsertInfoAt(c0, op, k, j);
    assert At(cis, j - 1, None) == InsertInfoAt(c0, op, k, j - 1);
    if |cis| > s {
      SpliceInsertAt(cis, s, info, None, j);
    } else {
      // Nothing at or after s is set yet.
      if info.Some? {
        PutAt(cis, s, info, None, j);
      }
    }
  }

  lemma {:induction false} InsertUpToInfo(c0: Content, op: GranularOp, col: Collaborators, k: nat)
    requires k <= |op.data|
    ensures forall j :: At(InsertUpTo(c0, op, col, k).conversionInfo, j, None) == InsertInfoAt(c0, op, k, j)
  {
    if k > 0 {
      InsertUpToInfo(c0, op, col, k - 1);
      forall j
        ensures At(InsertUpTo(c0, op, col, k).conversionInfo, j, None) == InsertInfoAt(c0, op, k, j)
      {
        InsertInfoStep(c0, op, col, k - 1, j);
      }
    }
  }

  /**
   * INSERT of n items at s shifts the conversion info the same way, whatever
   * the length of the sparse info array: entries before s stay, the op's
   * info for the new items follows, and the prior entries from s move up by n.
   */
  lemma InsertInfo(c0: Content, op: GranularOp, col: Collaborators, j: int)
    ensures var s := op.startIndex; var n := |op.data|;
            At(InsertUpTo(c0, op, col, n).conversionInfo, j, None)
            == if j < s then At(c0.conversionInfo, j, None)
               else if j < s + n then TypeAt(op.types, j - s)
               else At(c0.conversionInfo, j - n, None)
  {
    InsertUpToInfo(c0, op, col, |op.data|);
  }

  // ---------------------------------------------------------------------
  // Re-binding change notifiers after an INSERT or DELETE

  /** The array after the loop that re-binds every smart element from index `from` on. */
  function Rebind(els: seq<Value>, from: nat): (r: seq<Value>)
    ensures |r| == |els|
  {
    seq(|els|, j requires 0 <= j < |els| => if j >= from then Bound(els[j], j) else els[j])
  }

  /**
   * After re-binding, every smart element at index >= from reports its own
   * index; nothing else about any element changes.
   */
  lemma RebindBindsSmartElements(els: seq<Value>, from: nat, j: nat)
    requires j < |els|
    ensures StrictEq(Rebind(els, from)[j], els[j])
    ensures Rebind(els, from)[j].Smart? == els[j].Smart?
    ensures j >= from && els[j].Smart? ==> Rebind(els, from)[j].boundTo == Some(j)
    ensures j < from || !els[j].Smart? ==> Rebind(els, from)[j] == els[j]
  {
  }

  function ApplyInsert(c0: Content, op: GranularOp, col: Collaborators): Content
  {
    var spliced := InsertUpTo(c0, op, col, |op.data|);
    Content(Rebind(spliced.elements, op.startIndex), spliced.conversionInfo)
  }

  // ---------------------------------------------------------------------
  // DELETE [s, e]

  function DeleteCount(op: GranularOp): int
  {
    op.endIndex - op.startIndex + 1
  }

  /** The two splices of a DELETE, before the notifiers are re-bound. */
  function DeleteSplice(c0: Content, op: GranularOp): Content
  {
    var s := op.startIndex;
    var n := DeleteCount(op);
    var cis := c0.conversionInfo;
    Content(SpliceDelete(c0.elements, s, n),
            if |cis| > s then SpliceDelete(cis, s, Min(n, |cis| - s)) else cis)
  }

  function ApplyDelete(c0: Content, op: GranularOp): Content
  {
    var spliced := DeleteSplice(c0, op);
    Content(Rebind(spliced.elements, op.startIndex), spliced.conversionInfo)
  }

  /** DELETE [s, e] inside the array removes exactly the e-s+1 elements from s. */
  lemma DeleteRemoves(c0: Content, op: GranularOp)
    requires DeleteCount(op) >= 0
    requires op.startIndex + DeleteCount(op) <= |c0.elements|
    ensures var n := DeleteCount(op); var s := op.startIndex;
            DeleteSplice(c0, op).elements == c0.elements[..s] + c0.elements[s + n..]
  {
  }

  /** After a DELETE of n >= 0 entries from s, index j >= s holds what j + n held. */
  lemma DeleteShiftsElements(c0: Content, op: GranularOp, j: nat)
    requires DeleteCount(op) >= 0
    ensures At(DeleteSplice(c0, op).elements, j, Undefined)
            == if j < op.startIndex then At(c0.elements, j, Undefined) else At(c0.elements, j + DeleteCount(op), Undefined)
  {
    SpliceDeleteAt(c0.elements, op.startIndex, DeleteCount(op), Undefined, j);
  }

  /** The conversion info moves down by the same count, however short the sparse info array is. */
  lemma DeleteShiftsInfo(c0: Content, op: GranularOp, j: nat)
    requires DeleteCount(op) >= 0
    ensures At(DeleteSplice(c0, op).conversionInfo, j, None)
            == if j < op.startIndex then At(c0.conversionInfo, j, None) else At(c0.conversionInfo, j + DeleteCount(op), None)
  {
    var cis := c0.conversionInfo;
    var s := op.startIndex;
    if |cis| > s {
      SpliceDeleteAt(cis, s, Min(DeleteCount(op), |cis| - s), None, j);
    }
  }

  /** A DELETE whose range is empty or reversed removes nothing. */
  lemma DeleteEmptyRange(c0: Content, op: GranularOp)
    requires DeleteCount(op) <= 0
    ensures DeleteSplice(c0, op) == c0
  {
  }

  // ---------------------------------------------------------------------
  // A "g" batch

  function ApplyOp(c: Content, op: GranularOp, col: Collaborators): Content
  {
    if op.opType == CHANGED then ApplyChanged(c, op, col)
    else if op.opType == INSERT then ApplyInsert(c, op, col)
    else if op.opType == DELETE then ApplyDelete(c, op)
    else c
  }

  /** The ops applied in list order. */
  function ApplyOps(c: Content, ops: seq<GranularOp>, col: Collaborators): Content
  {
    if ops == [] then c else ApplyOp(ApplyOps(c, ops[..|ops| - 1], col), ops[|ops| - 1], col)
  }

  /** An op of an unknown type changes nothing. */
  lemma UnknownOpIsIgnored(c: Content, op: GranularOp, col: Collaborators)
    requires op.opType !in {CHANGED, INSERT, DELETE}
    ensures ApplyOp(c, op, col) == c
  {
  }

  // ---------------------------------------------------------------------
  // Client to server

  /** A changedIndexes entry: `true` (a smart child notified), `{old: v}` (a dumb watch fired) or `{old: true}` (a smart child was replaced). */
  datatype Mark = ChildChanged | OldValue(previous: Value) | ReferenceChanged

  /** `changedIndexes[idx].old`. */
  function OldOfMark(m: Mark): Value
  {
    match m
    case ChildChanged => Undefined
    case OldValue(v) => v
    case ReferenceChanged => Bool(true)
  }

  /** The part of the internal state that fromClientToServer reads and writes. */
  datatype SyncState = SyncState(
    version: int,
    conversionInfo: seq<Option<Conv>>,
    changedIndexes: map<nat, Mark>,
    allChanged: bool,
    dumbWatched: set<nat>)

  datatype Update = Update(index: nat, value: Value)

  /** A client-to-server message: {vEr, v}, {vEr, u}, {n: true}, the array itself, or null. */
  datatype ToServer =
    | FullSnapshot(version: int, values: seq<Value>)
    | Sparse(version: int, updates: seq<Update>)
    | NoOp
    | AsIs(elements: seq<Value>)
    | AsIsNull

  /** `oldClientData ? oldClientData[i] : undefined`. */
  function OldAt(prior: Option<seq<Value>>, i: int): Value
  {
    if prior.Some? then At(prior.value, i, Undefined) else Undefined
  }

  /** The wire form of one element: converted when it has conversion info, else convertClientObject. */
  function SendOf(v: Value, info: Option<Conv>, oldV: Value, col: Collaborators): Value
  {
    if info.Some? then col.toServer(v, info.value, oldV) else col.clientObject(v)
  }

  function FullValues(els: seq<Value>, cis: seq<Option<Conv>>, prior: Option<seq<Value>>, col: Collaborators): (r: seq<Value>)
    ensures |r| == |els|
  {
    seq(|els|, i requires 0 <= i < |els| => SendOf(els[i], At(cis, i, None), OldAt(prior, i), col))
  }

  /** Whether a marked index really changed, by the rules of the sparse path. */
  predicate IndexChanged(idx: nat, els: seq<Value>, st: SyncState, prior: Option<seq<Value>>, col: Collaborators)
  {
    var newVal := At(els, idx, Undefined);
    var oldVal := OldAt(prior, idx);
    if !StrictEq(newVal, oldVal) then true
    else if idx in st.dumbWatched then
      var oldDumb := if idx in st.changedIndexes then OldOfMark(st.changedIndexes[idx]) else Undefined;
      if StrictEq(oldDumb, newVal) then false
      else if IsObjectType(newVal) then col.isChanged(newVal, oldDumb, At(st.conversionInfo, idx, None))
      else true
    else Truthy(newVal) && newVal.Smart? && newVal.dirty
  }

  /**
   * The sparse path asks a smart value only when it is not dumb-watched and
   * the same truthy reference as before; a non-smart value there would make
   * the source throw a TypeError.
   */
  predicate SparseDefined(els: seq<Value>, st: SyncState, prior: Option<seq<Value>>)
  {
    forall idx :: idx in st.changedIndexes ==>
      var newVal := At(els, idx, Undefined);
      StrictEq(newVal, OldAt(prior, idx)) && idx !in st.dumbWatched && Truthy(newVal) ==> newVal.Smart?
  }

  function UpdateFor(idx: nat, els: seq<Value>, st: SyncState, prior: Option<seq<Value>>, col: Collaborators): seq<Update>
  {
    if IndexChanged(idx, els, st, prior, col)
    then [Update(idx, SendOf(At(els, idx, Undefined), At(st.conversionInfo, idx, None), OldAt(prior, idx), col))]
    else []
  }

  function SparseUpdates(keys: seq<nat>, els: seq<Value>, st: SyncState, prior: Option<seq<Value>>, col: Collaborators): seq<Update>
  {
    if keys == [] then [] else UpdateFor(keys[0], els, st, prior, col) + SparseUpdates(keys[1..], els, st, prior, col)
  }

  ghost function MinOf(s: set<nat>): (m: nat)
    requires s != {}
    ensures m in s && forall x | x in s :: m <= x
    decreases s
  {
    var y :| y in s;
    if s - {y} == {} then
      assert forall x | x in s :: x in s - {y} || x == y;
      y
    else
      var m := MinOf(s - {y});
      assert forall x | x in s :: x in s - {y} || x == y;
      if y < m then y else m
  }

  /** The keys of a JS object with integer keys, in for-in order (ascending). */
  ghost function SortedKeys(s: set<nat>): (r: seq<nat>)
    ensures forall k :: k in r <==> k in s
    ensures forall i, j :: 0 <= i < j < |r| ==> r[i] < r[j]
    decreases s
  {
    if s == {} then [] else [MinOf(s)] + SortedKeys(s - {MinOf(s)})
  }

  lemma AppendAssociates<T>(a: seq<T>, b: seq<T>, c: seq<T>)
    ensures (a + b) + c == a + (b + c)
  {
  }

  /** The least marked index comes first: the step of the for-in loop. */
  lemma SparseUpdatesOfLeast(s: set<nat>, idx: nat, els: seq<Value>, st: SyncState,
                             prior: Option<seq<Value>>, col: Collaborators)
    requires idx in s && forall x | x in s :: idx <= x
    ensures SparseUpdates(SortedKeys(s), els, st, prior, col)
            == UpdateFor(idx, els, st, prior, col) + SparseUpdates(SortedKeys(s - {idx}), els, st, prior, col)
  {
    assert MinOf(s) == idx;
  }

  /** Every update names a listed index that really changed, with its wire value. */
  predicate UpdatesSound(r: seq<Update>, keys: seq<nat>, els: seq<Value>, st: SyncState,
                         prior: Option<seq<Value>>, col: Collaborators)
  {
    forall i :: 0 <= i < |r| ==>
      && r[i].index in keys
      && IndexChanged(r[i].index, els, st, prior, col)
      && r[i].value == SendOf(At(els, r[i].index, Undefined), At(st.conversionInfo, r[i].index, None),
                              OldAt(prior, r[i].index), col)
  }

  predicate UpdatesAscending(r: seq<Update>)
  {
    forall i, j :: 0 <= i < j < |r| ==> r[i].index < r[j].index
  }

  /** Every listed index that really changed has an update. */
  predicate UpdatesComplete(r: seq<Update>, keys: seq<nat>, els: seq<Value>, st: SyncState,
                            prior: Option<seq<Value>>, col: Collaborators)
  {
    forall k :: k in keys && IndexChanged(k, els, st, prior, col) ==> exists i :: 0 <= i < |r| && r[i].index == k
  }

  lemma {:induction false} SparseUpdatesSound(keys: seq<nat>, els: seq<Value>, st: SyncState,
                                              prior: Option<seq<Value>>, col: Collaborators)
    ensures UpdatesSound(SparseUpdates(keys, els, st, prior, col), keys, els, st, prior, col)
  {
    if keys != [] {
      SparseUpdatesSound(keys[1..], els, st, prior, col);
      var head := UpdateFor(keys[0], els, st, prior, col);
      var rest := SparseUpdates(keys[1..], els, st, prior, col);
      var r := head + rest;
      assert SparseUpdates(keys, els, st, prior, col) == r;
      forall i | 0 <= i < |r|
        ensures r[i].index in keys && IndexChanged(r[i].index, els, st, prior, col)
        ensures r[i].value == SendOf(At(els, r[i].index, Undefined), At(st.conversionInfo, r[i].index, None),
                                     OldAt(prior, r[i].index), col)
      {
        if i < |head| {
          assert r[i] == head[0];
        } else {
          assert r[i] == rest[i - |head|];
          assert rest[i - |head|].index in keys[1..];
        }
      }
    }
  }

  lemma {:induction false} SparseUpdatesOrdered(keys: seq<nat>, els: seq<Value>, st: SyncState,
                                                prior: Option<seq<Value>>, col: Collaborators)
    requires forall i, j :: 0 <= i < j < |keys| ==> keys[i] < keys[j]
    ensures UpdatesAscending(SparseUpdates(keys, els, st, prior, col))
  {
    if keys != [] {
      SparseUpdatesOrdered(keys[1..], els, st, prior, col);
      SparseUpdatesSound(keys[1..], els, st, prior, col);
      var head := UpdateFor(keys[0], els, st, prior, col);
      var rest := SparseUpdates(keys[1..], els, st, prior, col);
      var r := head + rest;
      assert SparseUpdates(keys, els, st, prior, col) == r;
      forall i | 0 <= i < |rest|
        ensures rest[i].index > keys[0]
      {
        assert rest[i].index in keys[1..];
      }
      forall i, j | 0 <= i < j < |r|
        ensures r[i].index < r[j].index
      {
        if i < |head| {
          assert r[i] == head[0] && head[0].index == keys[0];
          assert r[j] == rest[j - |head|];
        } else {
          assert r[i] == rest[i - |head|] && r[j] == rest[j - |head|];
        }
      }
    }
  }

  lemma {:induction false} SparseUpdatesComplete(keys: seq<nat>, els: seq<Value>, st: SyncState,
                                                 prior: Option<seq<Value>>, col: Collaborators)
    ensures UpdatesComplete(SparseUpdates(keys, els, st, prior, col), keys, els, st, prior, col)
  {
    if keys != [] {
      SparseUpdatesComplete(keys[1..], els, st, prior, col);
      var head := UpdateFor(keys[0], els, st, prior, col);
      var rest := SparseUpdates(keys[1..], els, st, prior, col);
      var r := head + rest;
      assert SparseUpdates(keys, els, st, prior, col) == r;
      forall k | k in keys && IndexChanged(k, els, st, prior, col)
        ensures exists i :: 0 <= i < |r| && r[i].index == k
      {
        if k == keys[0] {
          assert r[0].index == k;
        } else {
          assert k in keys[1..];
          var i :| 0 <= i < |rest| && rest[i].index == k;
          assert r[|head| + i].index == k;
        }
      }
    }
  }

  /**
   * The sparse path reports exactly the marked indexes that really changed,
   * each once and in ascending order, with their wire values.
   */
  lemma SparseUpdatesReport(els: seq<Value>, st: SyncState, prior: Option<seq<Value>>, col: Collaborators)
    ensures var keys := SortedKeys(st.changedIndexes.Keys);
            var r := SparseUpdates(keys, els, st, prior, col);
            && (forall k :: k in keys <==> k in st.changedIndexes)
            && UpdatesAscending(r)
            && UpdatesSound(r, keys, els, st, prior, col)
            && UpdatesComplete(r, keys, els, st, prior, col)
  {
    var keys := SortedKeys(st.changedIndexes.Keys);
    SparseUpdatesSound(keys, els, st, prior, col);
    SparseUpdatesOrdered(keys, els, st, prior, col);
    SparseUpdatesComplete(keys, els, st, prior, col);
  }

  /** The updates of the sparse path: the marked indexes in for-in order, those that changed. */
  ghost function SparseReport(els: seq<Value>, st: SyncState, prior: Option<seq<Value>>, col: Collaborators): seq<Update>
  {
    SparseUpdates(SortedKeys(st.changedIndexes.Keys), els, st, prior, col)
  }

  /**
   * What fromClientToServer sends for an array with internal state `st`,
   * and the internal state it leaves (None: the state was deleted).
   */
  ghost function Outgoing(els: seq<Value>, st: Option<SyncState>, prior: Option<seq<Value>>, col: Collaborators)
    : (ToServer, Option<SyncState>)
  {
    match st
    case None => (AsIs(els), None)
    case Some(s) =>
      if s.allChanged || s.changedIndexes != map[] then
        var cleared := s.(changedIndexes := map[], allChanged := false);
        if s.allChanged
        then (FullSnapshot(s.version, FullValues(els, s.conversionInfo, prior, col)), Some(cleared.(version := s.version + 1)))
        else (Sparse(s.version, SparseReport(els, s, prior, col)), Some(cleared))
      else if col.equals(els, prior) then (NoOp, st)
      else (AsIs(els), None)
  }

  /**
   * With allChanged set, the client sends every element under the version it
   * had, raises its version by exactly one and clears all dirty state.
   */
  lemma AllChangedPath(els: seq<Value>, st: SyncState, prior: Option<seq<Value>>, col: Collaborators)
    requires st.allChanged
    ensures var (msg, after) := Outgoing(els, Some(st), prior, col);
            && msg.FullSnapshot? && msg.version == st.version
            && |msg.values| == |els|
            && (forall i :: 0 <= i < |els| ==>
                  msg.values[i] == SendOf(els[i], At(st.conversionInfo, i, None), OldAt(prior, i), col))
            && after.Some? && after.value.version == st.version + 1
            && after.value.changedIndexes == map[] && !after.value.allChanged
            && after.value.conversionInfo == st.conversionInfo && after.value.dumbWatched == st.dumbWatched
  {
  }

  /**
   * With only some indexes marked, the client sends the really changed ones
   * under the unchanged version, in ascending order, and clears all dirty state.
   */
  lemma SparsePath(els: seq<Value>, st: SyncState, prior: Option<seq<Value>>, col: Collaborators)
    requires !st.allChanged && st.changedIndexes != map[]
    ensures var (msg, after) := Outgoing(els, Some(st), prior, col);
            && msg.Sparse? && msg.version == st.version
            && UpdatesAscending(msg.updates)
            && (forall i :: 0 <= i < |msg.updates| ==>
                  msg.updates[i].index in st.changedIndexes && IndexChanged(msg.updates[i].index, els, st, prior, col))
            && (forall k :: k in st.changedIndexes && IndexChanged(k, els, st, prior, col) ==>
                  exists i :: 0 <= i < |msg.updates| && msg.updates[i].index == k)
            && after == Some(st.(changedIndexes := map[], allChanged := false))
  {
    SparseUpdatesReport(els, st, prior, col);
  }

  lemma SparsePathMessage(els: seq<Value>, st: SyncState, prior: Option<seq<Value>>, col: Collaborators)
    requires !st.allChanged && st.changedIndexes != map[]
    ensures Outgoing(els, Some(st), prior, col)
            == (Sparse(st.version, SparseReport(els, st, prior, col)), Some(st.(changedIndexes := map[], allChanged := false)))
  {
  }

  /**
   * Without marked changes the client sends {n: true} and keeps its state
   * when the array deep-equals the old one; otherwise it sends the array as
   * a new value and drops its internal state.
   */
  lemma UnchangedPath(els: seq<Value>, st: SyncState, prior: Option<seq<Value>>, col: Collaborators)
    requires !st.allChanged && st.changedIndexes == map[]
    ensures col.equals(els, prior) ==> Outgoing(els, Some(st), prior, col) == (NoOp, Some(st))
    ensures !col.equals(els, prior) ==> Outgoing(els, Some(st), prior, col) == (AsIs(els), None)
  {
  }

  /** A watched primitive is sent exactly when it differs from the value its watch recorded. */
  lemma WatchedPrimitiveRule(idx: nat, els: seq<Value>, st: SyncState, prior: Option<seq<Value>>, col: Collaborators)
    requires idx in st.dumbWatched && idx in st.changedIndexes
    requires StrictEq(At(els, idx, Undefined), OldAt(prior, idx)) && !IsObjectType(At(els, idx, Undefined))
    ensures IndexChanged(idx, els, st, prior, col)
            <==> !StrictEq(OldOfMark(st.changedIndexes[idx]), At(els, idx, Undefined))
  {
  }

  /** A watched object that differs from the recorded value is sent when $sabloUtils.isChanged says so. */
  lemma WatchedObjectRule(idx: nat, els: seq<Value>, st: SyncState, prior: Option<seq<Value>>, col: Collaborators)
    requires idx in st.dumbWatched && idx in st.changedIndexes
    requires StrictEq(At(els, idx, Undefined), OldAt(prior, idx)) && IsObjectType(At(els, idx, Undefined))
    requires !StrictEq(OldOfMark(st.changedIndexes[idx]), At(els, idx, Undefined))
    ensures IndexChanged(idx, els, st, prior, col)
            <==> col.isChanged(At(els, idx, Undefined), OldOfMark(st.changedIndexes[idx]), At(st.conversionInfo, idx, None))
  {
  }

  /** An unwatched element with the same reference is sent exactly when it is smart and reports a change. */
  lemma SmartElementRule(idx: nat, els: seq<Value>, st: SyncState, prior: Option<seq<Value>>, col: Collaborators)
    requires idx !in st.dumbWatched
    requires StrictEq(At(els, idx, Undefined), OldAt(prior, idx))
    ensures IndexChanged(idx, els, st, prior, col)
            <==> At(els, idx, Undefined).Smart? && At(els, idx, Undefined).dirty
  {
  }

  /** An element whose reference differs from the old array's is always sent. */
  lemma ReplacedElementRule(idx: nat, els: seq<Value>, st: SyncState, prior: Option<seq<Value>>, col: Collaborators)
    requires !StrictEq(At(els, idx, Undefined), OldAt(prior, idx))
    ensures IndexChanged(idx, els, st, prior, col)
  {
  }

  /**
   * Right after a full value from the server, an untouched array sends
   * {n: true} back when angular.equals finds it equal to itself.
   */
  lemma FreshFullValueSendsNoOp(v: seq<Value>, types: Option<seq<Option<Conv>>>, prev: Option<seq<Value>>,
                                version: int, watched: set<nat>, col: Collaborators)
    requires var els := FullElements(v, types, prev, col); col.equals(els, Some(els))
    ensures var els := FullElements(v, types, prev, col);
            var st := SyncState(version, FullInfo(types, |v|), map[], false, watched);
            Outgoing(els, Some(st), Some(els), col) == (NoOp, Some(st))
  {
  }
}
