// PageJSActionBuffer: the javascript actions a web page still has to run.
// Actions wait in a main buffer and ajax-update triggers in a second one;
// every ajax response or page render applies them, and an action that
// reports success leaves its buffer. A child page's ajax response may also
// run the actions queued on the root page, under a fresh batch id.
module PageJSActionBuffer {
  import opened Wrappers
  import opened JavaLang

  /** The DivDialogAction operations. */
  const OP_SHOW := 1
  const OP_CLOSE := 2
  const OP_DIALOG_ADDED_OR_REMOVED := 3
  const OP_TO_FRONT := 4
  const OP_TO_BACK := 5
  const OP_SET_BOUNDS := 6
  const OP_SAVE_BOUNDS := 7
  const OP_RESET_BOUNDS := 8
  const OP_REATTACH_BEHAVIORS_ON_CORRECT_PAGE := 101

  /**
   * A page action: javascript to run, an ajax-update trigger of a page
   * (javascript too), or an operation on a dialog.
   */
  datatype PageAction =
    | JSChange(js: string)
    | Trigger(page: int, js: string)
    | DivDialog(dialog: int, operation: int)
  {
    predicate IsScript() { JSChange? || Trigger? }
  }

  /** Where actions are applied: an ajax response (batch None when it is the action's own page) or a page's header. */
  datatype Target = Ajax(batch: Option<string>) | Header

  /**
   * What an action's apply returns. Javascript runs on an ajax response of
   * its own page and always on a header. A dialog operation runs on any
   * ajax response except re-attaching behaviours and adding or removing the
   * dialog, which need the dialog's own page; on a header it does not run.
   */
  predicate Applies(a: PageAction, t: Target)
  {
    match t
    case Header => a.IsScript()
    case Ajax(batch) =>
      if a.IsScript() then batch.None?
      else if a.operation == OP_REATTACH_BEHAVIORS_ON_CORRECT_PAGE || a.operation == OP_DIALOG_ADDED_OR_REMOVED then batch.None?
      else true
  }

  /** The javascript an applied action writes into the response. */
  function ScriptOf(a: PageAction, t: Target): seq<string>
  {
    if a.IsScript() && Applies(a, t) then [a.js] else []
  }

  /** The actions that stay in the buffer after applying it to t: those whose apply returned false, in order. */
  function Kept(acts: seq<PageAction>, t: Target): (r: seq<PageAction>)
    ensures |r| <= |acts|
    ensures forall i | 0 <= i < |r| :: !Applies(r[i], t)
  {
    if acts == [] then [] else (if Applies(acts[0], t) then [] else [acts[0]]) + Kept(acts[1..], t)
  }

  /** The javascript applying the actions to t writes, in order. */
  function Scripts(acts: seq<PageAction>, t: Target): seq<string>
  {
    if acts == [] then [] else ScriptOf(acts[0], t) + Scripts(acts[1..], t)
  }

  /** An action stays exactly when it is in the buffer and does not apply. */
  lemma {:induction false} KeptMembers(acts: seq<PageAction>, t: Target, a: PageAction)
    ensures a in Kept(acts, t) <==> a in acts && !Applies(a, t)
  {
    if acts != [] {
      KeptMembers(acts[1..], t, a);
      assert acts == [acts[0]] + acts[1..];
    }
  }

  /** A buffer where nothing applies is kept whole. */
  lemma {:induction false} KeptNothingApplies(acts: seq<PageAction>, t: Target)
    requires forall i | 0 <= i < |acts| :: !Applies(acts[i], t)
    ensures Kept(acts, t) == acts
  {
    if acts != [] {
      assert forall i | 0 <= i < |acts[1..]| :: acts[1..][i] == acts[i + 1];
      KeptNothingApplies(acts[1..], t);
    }
  }

  /** Applying again to the same target removes nothing more. */
  lemma KeptIdempotent(acts: seq<PageAction>, t: Target)
    ensures Kept(Kept(acts, t), t) == Kept(acts, t)
  {
    KeptNothingApplies(Kept(acts, t), t);
  }

  /** Every script action writes its javascript to a header and leaves the buffer; the dialog operations all stay. */
  lemma {:induction false} HeaderKeepsDialogs(acts: seq<PageAction>)
    ensures Kept(acts, Header) == [] <==> forall i | 0 <= i < |acts| :: acts[i].IsScript()
    ensures forall i | 0 <= i < |Kept(acts, Header)| :: Kept(acts, Header)[i].DivDialog?
  {
    if acts != [] {
      HeaderKeepsDialogs(acts[1..]);
      if forall i | 0 <= i < |acts[1..]| :: acts[1..][i].IsScript() {
        if acts[0].IsScript() {
          forall i | 0 <= i < |acts|
            ensures acts[i].IsScript()
          {
            if i > 0 {
              assert acts[i] == acts[1..][i - 1];
            }
          }
        }
      } else {
        var i :| 0 <= i < |acts[1..]| && !acts[1..][i].IsScript();
        assert acts[i + 1] == acts[1..][i];
      }
    }
  }

  // ---------------------------------------------------------------------
  // The iterator and index loops

  /** The iterator loop: applies every action and removes the ones that report success. */
  method ApplyEach(acts: seq<PageAction>, t: Target) returns (kept: seq<PageAction>, out: seq<string>)
    ensures kept == Kept(acts, t) && out == Scripts(acts, t)
  {
    kept, out := [], [];
    var i := 0;
    assert acts[0..] == acts;
    while i < |acts|
      invariant 0 <= i <= |acts|
      invariant kept + Kept(acts[i..], t) == Kept(acts, t)
      invariant out + Scripts(acts[i..], t) == Scripts(acts, t)
    {
      var a := acts[i];
      ApplyEachStep(acts, i, t, kept, out);
      if !Applies(a, t) {
        kept := kept + [a];
      }
      out := out + ScriptOf(a, t);
      i := i + 1;
    }
    assert acts[|acts|..] == [];
  }

  /** One step of the iterator: the action at i is kept or not, and its script written, before the rest. */
  lemma ApplyEachStep(acts: seq<PageAction>, i: nat, t: Target, kept: seq<PageAction>, out: seq<string>)
    requires i < |acts|
    requires kept + Kept(acts[i..], t) == Kept(acts, t)
    requires out + Scripts(acts[i..], t) == Scripts(acts, t)
    ensures !Applies(acts[i], t) ==> (kept + [acts[i]]) + Kept(acts[i + 1..], t) == Kept(acts, t)
    ensures Applies(acts[i], t) ==> kept + Kept(acts[i + 1..], t) == Kept(acts, t)
    ensures (out + ScriptOf(acts[i], t)) + Scripts(acts[i + 1..], t) == Scripts(acts, t)
  {
    assert acts[i..][1..] == acts[i + 1..];
    var keptRest, outRest := Kept(acts[i + 1..], t), Scripts(acts[i + 1..], t);
    assert kept + ([acts[i]] + keptRest) == (kept + [acts[i]]) + keptRest;
    assert [] + keptRest == keptRest;
    assert out + (ScriptOf(acts[i], t) + outRest) == (out + ScriptOf(acts[i], t)) + outRest;
  }

  /** The index loop over the root page's buffer: a successful action is removed in place, otherwise the index moves on. */
  method ApplyByIndex(acts: seq<PageAction>, t: Target) returns (kept: seq<PageAction>)
    ensures kept == Kept(acts, t)
  {
    kept := acts;
    var i := 0;
    while i < |kept|
      invariant 0 <= i <= |kept|
      invariant Kept(acts, t) == kept[..i] + Kept(kept[i..], t)
      decreases |kept| - i
    {
      KeptStep(kept, i, t);
      if Applies(kept[i], t) {
        kept := kept[..i] + kept[i + 1..];
      } else {
        i := i + 1;
      }
    }
    assert kept[..i] == kept;
  }

  /** One step of the index loop keeps the actions that stay unchanged. */
  lemma KeptStep(acts: seq<PageAction>, i: nat, t: Target)
    requires i < |acts|
    ensures Applies(acts[i], t) ==>
      var next := acts[..i] + acts[i + 1..];
      next[..i] + Kept(next[i..], t) == acts[..i] + Kept(acts[i..], t)
    ensures !Applies(acts[i], t) ==>
      acts[..i + 1] + Kept(acts[i + 1..], t) == acts[..i] + Kept(acts[i..], t)
  {
    assert acts[i..][1..] == acts[i + 1..];
    var next := acts[..i] + acts[i + 1..];
    assert next[..i] == acts[..i] && next[i..] == acts[i + 1..];
    assert acts[..i + 1] == acts[..i] + [acts[i]];
  }

  // ---------------------------------------------------------------------
  // Batch ids

  /** The batch id newBatchID returns for the counter value n. */
  function BatchId(n: int): string
  {
    "dd_ab_" + IntToString(n)
  }

  /** Different counter values give different batch ids. */
  lemma BatchIdsDistinct(n: int, m: int)
    requires n != m
    ensures BatchId(n) != BatchId(m)
  {
    assert BatchId(n)[6..] == IntToString(n);
    assert BatchId(m)[6..] == IntToString(m);
    ParseIntOfIntToString(n);
    ParseIntOfIntToString(m);
  }

  /** The static batch id counter shared by all buffers. */
  class BatchCounter {
    var next: int

    constructor()
      ensures next == 1
    {
      next := 1;
    }

    /** newBatchID: the id of the current value, which then moves on. */
    method NewBatchId() returns (id: string)
      modifies this
      ensures id == BatchId(old(next)) && next == old(next) + 1
    {
      id := BatchId(next);
      next := next + 1;
    }
  }

  // ---------------------------------------------------------------------
  // The buffer

  /** Each page has at most one ajax-update trigger among the actions. */
  predicate OneTriggerPerPage(ts: seq<PageAction>)
  {
    forall i, j | 0 <= i < j < |ts| && ts[i].Trigger? && ts[j].Trigger? :: ts[i].page != ts[j].page
  }

  predicate AllTriggers(ts: seq<PageAction>)
  {
    forall i | 0 <= i < |ts| :: ts[i].Trigger?
  }

  /** Applying keeps at most one trigger per page. */
  lemma {:induction false} KeptOneTriggerPerPage(ts: seq<PageAction>, t: Target)
    requires OneTriggerPerPage(ts)
    ensures OneTriggerPerPage(Kept(ts, t))
  {
    if ts != [] {
      var rest := ts[1..];
      assert OneTriggerPerPage(rest) by {
        forall i, j | 0 <= i < j < |rest| && rest[i].Trigger? && rest[j].Trigger?
          ensures rest[i].page != rest[j].page
        {
          assert rest[i] == ts[i + 1] && rest[j] == ts[j + 1];
        }
      }
      KeptOneTriggerPerPage(rest, t);
      var k := Kept(rest, t);
      if !Applies(ts[0], t) && ts[0].Trigger? {
        var r := [ts[0]] + k;
        forall i, j | 0 <= i < j < |r| && r[i].Trigger? && r[j].Trigger?
          ensures r[i].page != r[j].page
        {
          if i == 0 {
            assert r[j] == k[j - 1];
            KeptMembers(rest, t, r[j]);
            var m :| 0 <= m < |rest| && rest[m] == r[j];
            assert ts[m + 1] == rest[m];
          } else {
            assert r[i] == k[i - 1] && r[j] == k[j - 1];
          }
        }
      }
    }
  }

  class PageJSActionBuffer {
    /** The main buffer of page actions. */
    var buffer1: seq<PageAction>
    /** The ajax-update triggers. */
    var buffer2: seq<PageAction>

    ghost predicate Valid()
      reads this
    {
      AllTriggers(buffer2) && OneTriggerPerPage(buffer2)
    }

    constructor()
      ensures buffer1 == [] && buffer2 == [] && Valid()
    {
      buffer1, buffer2 := [], [];
    }

    /** addAction: the action goes to the end of the main buffer. */
    method AddAction(a: PageAction)
      modifies this`buffer1
      ensures buffer1 == old(buffer1) + [a]
    {
      buffer1 := buffer1 + [a];
    }

    /** hasAjaxUpdateTrigger: some trigger of the page is waiting. */
    method HasAjaxUpdateTrigger(page: int) returns (r: bool)
      ensures r <==> exists i | 0 <= i < |buffer2| :: buffer2[i].Trigger? && buffer2[i].page == page
    {
      r := false;
      for i := 0 to |buffer2|
        invariant forall m | 0 <= m < i :: !(buffer2[m].Trigger? && buffer2[m].page == page)
      {
        if buffer2[i].Trigger? && buffer2[i].page == page {
          return true;
        }
      }
    }

    /** triggerAjaxUpdate: queues a trigger for the page unless one is already waiting. */
    method TriggerAjaxUpdate(page: int, script: string)
      requires Valid()
      modifies this`buffer2
      ensures Valid()
      ensures (exists i | 0 <= i < |old(buffer2)| :: old(buffer2)[i].page == page) ==> buffer2 == old(buffer2)
      ensures (forall i | 0 <= i < |old(buffer2)| :: old(buffer2)[i].page != page) ==> buffer2 == old(buffer2) + [Trigger(page, script)]
    {
      var there := HasAjaxUpdateTrigger(page);
      if !there {
        buffer2 := buffer2 + [Trigger(page, script)];
      }
    }

    /**
     * apply(target, toBeAppliedAsWell): both buffers are applied to this
     * page's ajax response; then, when the other buffer has actions, they
     * run under a fresh batch id and the ones that succeed are removed.
     * The result is the javascript written to the response.
     */
    method ApplyAjax(other: PageJSActionBuffer?, counter: BatchCounter) returns (out: seq<string>)
      requires Valid()
      modifies this, other, counter
      ensures Valid()
      ensures out == Scripts(old(buffer1), Ajax(None)) + Scripts(old(buffer2), Ajax(None))
      ensures buffer2 == Kept(old(buffer2), Ajax(None))
      ensures other != this ==> buffer1 == Kept(old(buffer1), Ajax(None))
      ensures other != null && other != this ==> other.buffer2 == old(other.buffer2)
      ensures other != null ==>
        var waiting := if other == this then Kept(old(buffer1), Ajax(None)) else old(other.buffer1);
        if waiting == [] then other.buffer1 == [] && counter.next == old(counter.next)
        else other.buffer1 == Kept(waiting, Ajax(Some(BatchId(old(counter.next))))) && counter.next == old(counter.next) + 1
      ensures other == null ==> counter.next == old(counter.next)
    {
      var out1, out2;
      buffer1, out1 := ApplyEach(buffer1, Ajax(None));
      KeptOneTriggerPerPage(buffer2, Ajax(None));
      buffer2, out2 := ApplyEach(buffer2, Ajax(None));
      out := out1 + out2;
      if other != null && |other.buffer1| > 0 {
        var id := counter.NewBatchId();
        other.buffer1 := ApplyByIndex(other.buffer1, Ajax(Some(id)));
      }
    }

    /**
     * apply(headerResponse): both buffers are applied to the page's header;
     * the result tells whether nothing is left, which happens exactly when
     * the main buffer held no dialog operations.
     */
    method ApplyHeader() returns (done: bool, out: seq<string>)
      requires Valid()
      modifies this
      ensures Valid()
      ensures buffer1 == Kept(old(buffer1), Header) && buffer2 == []
      ensures out == Scripts(old(buffer1), Header) + Scripts(old(buffer2), Header)
      ensures done <==> forall i | 0 <= i < |old(buffer1)| :: old(buffer1)[i].IsScript()
    {
      var out1, out2;
      HeaderKeepsDialogs(buffer1);
      HeaderKeepsDialogs(buffer2);
      buffer1, out1 := ApplyEach(buffer1, Header);
      buffer2, out2 := ApplyEach(buffer2, Header);
      out := out1 + out2;
      done := |buffer1| == 0 && |buffer2| == 0;
    }

    method Clear()
      modifies this
      ensures buffer1 == [] && buffer2 == [] && Valid()
    {
      buffer1, buffer2 := [], [];
    }
  }
}
