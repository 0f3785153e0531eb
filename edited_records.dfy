// EditedRecords: the records being edited or deleted in a transaction, in
// the order they were registered. A record is registered at most once:
// adding an edit for a registered record does nothing, and registering a
// delete replaces whatever entry the record had.
module EditedRecords {
  import opened Wrappers

  datatype EditType = Edit | Delete

  /** One registration: the record and what is being done to it. */
  datatype Entry<R> = Entry(record: R, kind: EditType)

  /** The entries a stream filtered on the edit type keeps; no type keeps all. */
  predicate Matches<R>(e: Entry<R>, kind: Option<EditType>)
  {
    kind.None? || e.kind == kind.value
  }

  /** The records of the entries of the given type (all entries for no type), in order. */
  function RecordsOf<R>(es: seq<Entry<R>>, kind: Option<EditType>): (r: seq<R>)
    ensures |r| <= |es|
  {
    if es == [] then []
    else RecordsOf(es[..|es| - 1], kind) + (if Matches(es[|es| - 1], kind) then [es[|es| - 1].record] else [])
  }

  /** A record is among the records of a type exactly when some entry of that type holds it. */
  lemma {:induction false} RecordsOfMembers<R>(es: seq<Entry<R>>, kind: Option<EditType>, x: R)
    ensures x in RecordsOf(es, kind) <==> exists i | 0 <= i < |es| :: es[i].record == x && Matches(es[i], kind)
  {
    if es != [] {
      var init := es[..|es| - 1];
      RecordsOfMembers(init, kind, x);
      if exists i | 0 <= i < |es| :: es[i].record == x && Matches(es[i], kind) {
        var i :| 0 <= i < |es| && es[i].record == x && Matches(es[i], kind);
        if i < |es| - 1 {
          assert init[i] == es[i];
        }
      }
      if exists i | 0 <= i < |init| :: init[i].record == x && Matches(init[i], kind) {
        var i :| 0 <= i < |init| && init[i].record == x && Matches(init[i], kind);
        assert es[i] == init[i];
      }
    }
  }

  /** Without a type every entry's record is kept, in order. */
  lemma {:induction false} RecordsOfAll<R>(es: seq<Entry<R>>)
    ensures |RecordsOf(es, None)| == |es|
    ensures forall i | 0 <= i < |es| :: RecordsOf(es, None)[i] == es[i].record
  {
    if es != [] {
      RecordsOfAll(es[..|es| - 1]);
    }
  }

  /** The records of a type are exactly those of the entries of that type. */
  lemma RecordsOfIndexes<R>(es: seq<Entry<R>>, kind: Option<EditType>)
    ensures forall i | 0 <= i < |es| && Matches(es[i], kind) :: es[i].record in RecordsOf(es, kind)
    ensures forall j | 0 <= j < |RecordsOf(es, kind)| ::
      exists i | 0 <= i < |es| :: es[i].record == RecordsOf(es, kind)[j] && Matches(es[i], kind)
  {
    var rs := RecordsOf(es, kind);
    forall i | 0 <= i < |es| && Matches(es[i], kind)
      ensures es[i].record in rs
    {
      RecordsOfMembers(es, kind, es[i].record);
    }
    forall j | 0 <= j < |rs|
      ensures exists i | 0 <= i < |es| :: es[i].record == rs[j] && Matches(es[i], kind)
    {
      RecordsOfMembers(es, kind, rs[j]);
    }
  }

  /** Some registered record passes a filter exactly when some entry's record does. */
  lemma RecordsOfAnyMatch<R>(es: seq<Entry<R>>, filter: R -> bool)
    ensures (exists x | x in RecordsOf(es, None) :: filter(x)) <==> exists i | 0 <= i < |es| :: filter(es[i].record)
  {
    RecordsOfAll(es);
    var rs := RecordsOf(es, None);
    if exists i | 0 <= i < |es| :: filter(es[i].record) {
      var i :| 0 <= i < |es| && filter(es[i].record);
      assert rs[i] in rs;
    }
  }

  /** Each record holds at most one entry. */
  predicate Unique<R(==)>(es: seq<Entry<R>>)
  {
    forall i, j | 0 <= i < j < |es| :: es[i].record != es[j].record
  }

  /** Appending an entry keeps the records unique exactly when its record is new. */
  lemma UniqueAppend<R>(es: seq<Entry<R>>, e: Entry<R>)
    ensures Unique(es + [e]) <==> Unique(es) && e.record !in RecordsOf(es, None)
  {
    RecordsOfMembers(es, None, e.record);
    var s := es + [e];
    if Unique(es) && e.record !in RecordsOf(es, None) {
      forall i, j | 0 <= i < j < |s|
        ensures s[i].record != s[j].record
      {
        assert s[i] == es[i];
        if j < |es| {
          assert s[j] == es[j];
        }
      }
    }
    if Unique(s) {
      forall i, j | 0 <= i < j < |es|
        ensures es[i].record != es[j].record
      {
        assert s[i] == es[i] && s[j] == es[j];
      }
      forall i | 0 <= i < |es|
        ensures es[i].record != e.record
      {
        assert s[i] == es[i] && s[|es|] == e;
      }
    }
  }

  /** removeIf for a list of records: the entries whose record is not in the list, in order. */
  function Filtered<R(==)>(es: seq<Entry<R>>, rs: seq<R>): (r: seq<Entry<R>>)
    ensures |r| <= |es|
  {
    if es == [] then []
    else Filtered(es[..|es| - 1], rs) + (if es[|es| - 1].record in rs then [] else [es[|es| - 1]])
  }

  /** Filtering drops exactly the records of the list and keeps the others with their types. */
  lemma {:induction false} FilteredRecords<R>(es: seq<Entry<R>>, rs: seq<R>, kind: Option<EditType>, x: R)
    ensures x in RecordsOf(Filtered(es, rs), kind) <==> x !in rs && x in RecordsOf(es, kind)
  {
    if es != [] {
      var init := es[..|es| - 1];
      var e := es[|es| - 1];
      var f := Filtered(init, rs);
      FilteredRecords(init, rs, kind, x);
      assert RecordsOf(es, kind) == RecordsOf(init, kind) + (if Matches(e, kind) then [e.record] else []);
      if e.record !in rs {
        assert Filtered(es, rs) == f + [e];
        assert (f + [e])[..|f + [e]| - 1] == f;
      } else {
        assert Filtered(es, rs) == f;
      }
    }
  }

  /** Filtering keeps the records unique. */
  lemma {:induction false} FilteredUnique<R>(es: seq<Entry<R>>, rs: seq<R>)
    requires Unique(es)
    ensures Unique(Filtered(es, rs))
  {
    if es != [] {
      var init := es[..|es| - 1];
      var e := es[|es| - 1];
      assert es == init + [e];
      UniqueAppend(init, e);
      FilteredUnique(init, rs);
      FilteredRecords(init, rs, None, e.record);
      if e.record !in rs {
        UniqueAppend(Filtered(init, rs), e);
      }
    }
  }

  /** The edited and the deleted records together are as many as the entries. */
  lemma {:induction false} RecordsPartition<R>(es: seq<Entry<R>>)
    ensures |RecordsOf(es, Some(Edit))| + |RecordsOf(es, Some(Delete))| == |RecordsOf(es, None)| == |es|
  {
    if es != [] {
      RecordsPartition(es[..|es| - 1]);
    }
  }

  /** With unique records, no record is both edited and deleted. */
  lemma NeverEditedAndDeleted<R>(es: seq<Entry<R>>, x: R)
    requires Unique(es)
    ensures !(x in RecordsOf(es, Some(Edit)) && x in RecordsOf(es, Some(Delete)))
  {
    RecordsOfMembers(es, Some(Edit), x);
    RecordsOfMembers(es, Some(Delete), x);
  }

  /** A new entry shows up last among the records of its type, and nowhere among the other type's. */
  lemma AppendedEntry<R>(es: seq<Entry<R>>, e: Entry<R>)
    ensures RecordsOf(es + [e], Some(e.kind)) == RecordsOf(es, Some(e.kind)) + [e.record]
    ensures RecordsOf(es + [e], None) == RecordsOf(es, None) + [e.record]
    ensures forall k: EditType | k != e.kind :: RecordsOf(es + [e], Some(k)) == RecordsOf(es, Some(k))
  {
    assert (es + [e])[..|es + [e]| - 1] == es;
  }

  /** After addDeleted the record is deleted and not edited; the other records keep their registrations. */
  lemma AddDeletedEffect<R>(es: seq<Entry<R>>, r: R, x: R)
    ensures var after := Filtered(es, [r]) + [Entry(r, Delete)];
      r in RecordsOf(after, Some(Delete)) && r !in RecordsOf(after, Some(Edit)) &&
      (x != r ==> forall k: EditType :: x in RecordsOf(after, Some(k)) <==> x in RecordsOf(es, Some(k)))
  {
    var f := Filtered(es, [r]);
    AppendedEntry(f, Entry(r, Delete));
    FilteredRecords(es, [r], Some(Edit), r);
    FilteredRecords(es, [r], Some(Edit), x);
    FilteredRecords(es, [r], Some(Delete), x);
    assert r in [r];
  }

  class EditedRecords<R(==)> {
    var records: seq<Entry<R>>

    ghost predicate Valid()
      reads this
    {
      Unique(records)
    }

    constructor()
      ensures records == [] && Valid()
    {
      records := [];
    }

    /** contains(record, type): some entry of the type (any type for None) holds the record. */
    function Contains(r: R, kind: Option<EditType>): (b: bool)
      reads this
      ensures b <==> exists i | 0 <= i < |records| :: records[i].record == r && Matches(records[i], kind)
    {
      RecordsOfMembers(records, kind, r);
      r in RecordsOf(records, kind)
    }

    /** contains(filter): some registered record passes the filter. */
    function ContainsMatching(filter: R -> bool): (b: bool)
      reads this
      ensures b <==> exists i | 0 <= i < |records| :: filter(records[i].record)
    {
      RecordsOfAnyMatch(records, filter);
      exists x | x in RecordsOf(records, None) :: filter(x)
    }

    function Size(): (n: nat)
      reads this
      ensures n == |RecordsOf(records, Some(Edit))| + |RecordsOf(records, Some(Delete))|
    {
      RecordsPartition(records);
      |records|
    }

    /** getEdited, getDeleted and getAll: the records of the type in registration order. */
    function Get(kind: Option<EditType>): (rs: seq<R>)
      reads this
      ensures forall i | 0 <= i < |records| && Matches(records[i], kind) :: records[i].record in rs
      ensures forall j | 0 <= j < |rs| :: exists i | 0 <= i < |records| :: records[i].record == rs[j] && Matches(records[i], kind)
      ensures kind.None? ==> |rs| == |records| && forall i | 0 <= i < |records| :: rs[i] == records[i].record
    {
      RecordsOfAll(records);
      RecordsOfIndexes(records, kind);
      RecordsOf(records, kind)
    }

    /** addEdited: registers an edit unless the record is already registered in any way. */
    method AddEdited(r: R)
      requires Valid()
      modifies this
      ensures Valid()
      ensures old(Contains(r, None)) ==> records == old(records)
      ensures !old(Contains(r, None)) ==> records == old(records) + [Entry(r, Edit)]
    {
      if !Contains(r, None) {
        UniqueAppend(records, Entry(r, Edit));
        records := records + [Entry(r, Edit)];
      }
    }

    /** addDeleted: drops every entry of the record, then registers the delete. */
    method AddDeleted(r: R)
      requires Valid()
      modifies this
      ensures Valid()
      ensures records == Filtered(old(records), [r]) + [Entry(r, Delete)]
    {
      var removed := Remove(r);
      FilteredRecords(old(records), [r], None, r);
      assert r in [r];
      UniqueAppend(records, Entry(r, Delete));
      records := records + [Entry(r, Delete)];
    }

    /** remove: drops the record's entries and tells whether there were any. */
    method Remove(r: R) returns (removed: bool)
      requires Valid()
      modifies this
      ensures Valid()
      ensures records == Filtered(old(records), [r])
      ensures removed == old(Contains(r, None))
    {
      FilteredUnique(records, [r]);
      FilteredShorter(records, [r]);
      RecordsOfMembers(records, None, r);
      records, removed := RemoveEach(records, [r]);
    }

    /** removeAll: drops the entries of every record in the list. */
    method RemoveAll(rs: seq<R>)
      requires Valid()
      modifies this
      ensures Valid()
      ensures records == Filtered(old(records), rs)
    {
      FilteredUnique(records, rs);
      var removed;
      records, removed := RemoveEach(records, rs);
    }

    method Clear()
      modifies this
      ensures records == [] && Valid()
    {
      records := [];
    }
  }

  /** The removeIf loop: keeps the entries whose record is not in rs and tells whether any was dropped. */
  method RemoveEach<R(==)>(es: seq<Entry<R>>, rs: seq<R>) returns (kept: seq<Entry<R>>, removed: bool)
    ensures kept == Filtered(es, rs)
    ensures removed <==> |kept| < |es|
  {
    kept := [];
    removed := false;
    for i := 0 to |es|
      invariant kept == Filtered(es[..i], rs)
      invariant removed <==> |kept| < i
    {
      assert es[..i + 1][..i] == es[..i];
      if es[i].record in rs {
        removed := true;
      } else {
        kept := kept + [es[i]];
      }
    }
    assert es[..|es|] == es;
  }

  /** Something was dropped exactly when some record of the list was registered. */
  lemma {:induction false} FilteredShorter<R>(es: seq<Entry<R>>, rs: seq<R>)
    ensures |Filtered(es, rs)| < |es| <==> exists i | 0 <= i < |es| :: es[i].record in rs
  {
    if es != [] {
      var init := es[..|es| - 1];
      FilteredShorter(init, rs);
      if exists i | 0 <= i < |init| :: init[i].record in rs {
        var i :| 0 <= i < |init| && init[i].record in rs;
        assert es[i] == init[i];
      }
      if exists i | 0 <= i < |es| :: es[i].record in rs {
        var i :| 0 <= i < |es| && es[i].record in rs;
        if i < |es| - 1 {
          assert init[i] == es[i];
        }
      }
    }
  }
}
