/** Making an edited document say what a freshly generated one says, comments and layout kept. */
module Reconcile {
  import opened Wrappers

  type Data = int
  type Decor = string

  /**
   A node of a document: a value with what is written around it, a table, or
   an array of tables, which is only ever replaced whole.
   */
  datatype Item =
    | Value(data: Data, decor: Decor)
    | Table(decor: Decor, entries: seq<Entry>)
    | Tables(data: Data)

  datatype Entry = Entry(key: string, keyDecor: Decor, item: Item)

  /** Where a key is first found. */
  function IndexOf(entries: seq<Entry>, key: string): (at: Option<nat>)
    ensures at.Some? ==> at.value < |entries| && entries[at.value].key == key
    ensures at.Some? ==> forall i :: 0 <= i < at.value ==> entries[i].key != key
    ensures at.None? ==> forall i :: 0 <= i < |entries| ==> entries[i].key != key
  {
    if entries == [] then None
    else if entries[0].key == key then Some(0)
    else match IndexOf(entries[1..], key)
      case None => None
      case Some(i) => Some(i + 1)
  }

  /** The entries whose key the other table has, and those whose key it does not have, in order. */
  function Shared(entries: seq<Entry>, other: seq<Entry>): (shared: seq<Entry>)
    ensures forall e <- shared :: e in entries && IndexOf(other, e.key).Some?
  {
    if entries == [] then []
    else
      var last := entries[|entries| - 1];
      Shared(entries[..|entries| - 1], other) + if IndexOf(other, last.key).Some? then [last] else []
  }

  function Missing(entries: seq<Entry>, other: seq<Entry>): (missing: seq<Entry>)
    ensures forall e <- missing :: e in entries && IndexOf(other, e.key).None?
  {
    if entries == [] then []
    else
      var last := entries[|entries| - 1];
      Missing(entries[..|entries| - 1], other) + if IndexOf(other, last.key).None? then [last] else []
  }

  /** What is written around a key that is only given as text. */
  const FRESH_DECOR: Decor := ""

  function Fresh(entry: Entry): Entry { entry.(keyDecor := FRESH_DECOR) }

  /** Entries as they are when inserted by the text of their keys. */
  function Inserted(entries: seq<Entry>): seq<Entry> {
    seq(|entries|, i requires 0 <= i < |entries| => Fresh(entries[i]))
  }

  function ReconciledItem(current: Item, generated: Item): Item
    decreases generated
  {
    if current.Table? && generated.Table? then
      Table(current.decor, ReconciledTable(current.entries, generated.entries))
    else if current.Value? && generated.Value? then Value(generated.data, current.decor)
    else generated
  }

  function ReconciledEntry(entry: Entry, generated: seq<Entry>): Entry
    requires IndexOf(generated, entry.key).Some?
    decreases generated, 0
  {
    entry.(item := ReconciledItem(entry.item, generated[IndexOf(generated, entry.key).value].item))
  }

  function ReconciledEntries(shared: seq<Entry>, generated: seq<Entry>): (entries: seq<Entry>)
    requires forall e <- shared :: IndexOf(generated, e.key).Some?
    ensures |entries| == |shared| && forall i :: 0 <= i < |shared| ==> entries[i].key == shared[i].key
    decreases generated, 1
  {
    seq(|shared|, i requires 0 <= i < |shared| => ReconciledEntry(shared[i], generated))
  }

  /** The shared keys where they were, then the new ones. */
  function ReconciledTable(current: seq<Entry>, generated: seq<Entry>): seq<Entry>
    decreases generated, 2
  {
    ReconciledEntries(Shared(current, generated), generated) + Inserted(Missing(generated, current))
  }

  // ---------------------------------------------------------------------
  // In place
  // ---------------------------------------------------------------------

  predicate UniqueKeys(entries: seq<Entry>) {
    forall i, j :: 0 <= i < j < |entries| ==> entries[i].key != entries[j].key
  }

  /** No table of the document repeats a key. */
  predicate WellFormed(item: Item) {
    item.Table? ==> WellFormedTable(item.entries)
  }

  predicate WellFormedTable(entries: seq<Entry>) {
    UniqueKeys(entries) && forall i :: 0 <= i < |entries| ==> WellFormed(entries[i].item)
  }

  predicate Has(entries: seq<Entry>, key: string) { IndexOf(entries, key).Some? }

  function At(entries: seq<Entry>, key: string): Entry
    requires Has(entries, key)
  {
    entries[IndexOf(entries, key).value]
  }

  lemma FoundAt(entries: seq<Entry>, key: string, i: nat)
    requires i < |entries| && entries[i].key == key
    requires forall j :: 0 <= j < i ==> entries[j].key != key
    ensures IndexOf(entries, key) == Some(i)
  {}

  lemma {:induction false} FirstOfTwo(front: seq<Entry>, back: seq<Entry>, key: string)
    ensures IndexOf(front + back, key)
            == if Has(front, key) then IndexOf(front, key)
               else if Has(back, key) then Some(|front| + IndexOf(back, key).value)
               else None
    decreases |front|
  {
    if front == [] {
      assert front + back == back;
    } else {
      assert (front + back)[1..] == front[1..] + back;
      FirstOfTwo(front[1..], back, key);
    }
  }

  lemma AtOfTwo(front: seq<Entry>, back: seq<Entry>, key: string)
    ensures Has(front + back, key) <==> Has(front, key) || Has(back, key)
    ensures Has(front + back, key) ==>
              At(front + back, key) == if Has(front, key) then At(front, key) else At(back, key)
  {
    FirstOfTwo(front, back, key);
  }

  lemma LastOf(entries: seq<Entry>, key: string)
    requires entries != []
    ensures var front, last := entries[..|entries| - 1], entries[|entries| - 1];
            && (Has(entries, key) <==> Has(front, key) || last.key == key)
            && (Has(entries, key) ==> At(entries, key) == if Has(front, key) then At(front, key) else last)
  {
    var front, last := entries[..|entries| - 1], entries[|entries| - 1];
    FirstOfTwo(front, [last], key);
    assert front + [last] == entries;
  }

  lemma {:induction false} FirstShared(entries: seq<Entry>, other: seq<Entry>, key: string)
    requires Has(other, key)
    ensures Has(Shared(entries, other), key) <==> Has(entries, key)
    ensures Has(entries, key) ==> At(Shared(entries, other), key) == At(entries, key)
  {
    if entries != [] {
      var front, last := entries[..|entries| - 1], entries[|entries| - 1];
      FirstShared(front, other, key);
      LastOf(entries, key);
      FirstOfTwo(Shared(front, other), if Has(other, last.key) then [last] else [], key);
    }
  }

  lemma {:induction false} FirstMissing(entries: seq<Entry>, other: seq<Entry>, key: string)
    requires !Has(other, key)
    ensures Has(Missing(entries, other), key) <==> Has(entries, key)
    ensures Has(entries, key) ==> At(Missing(entries, other), key) == At(entries, key)
  {
    if entries != [] {
      var front, last := entries[..|entries| - 1], entries[|entries| - 1];
      FirstMissing(front, other, key);
      LastOf(entries, key);
      FirstOfTwo(Missing(front, other), if Has(other, last.key) then [] else [last], key);
    }
  }

  lemma {:induction false} SubsetsStayUnique(entries: seq<Entry>, other: seq<Entry>)
    requires UniqueKeys(entries)
    ensures UniqueKeys(Shared(entries, other)) && UniqueKeys(Missing(entries, other))
  {
    if entries != [] {
      var front, last := entries[..|entries| - 1], entries[|entries| - 1];
      SubsetsStayUnique(front, other);
      assert forall e <- front :: e.key != last.key;
    }
  }

  /** Remove the keys that were not generated. */
  method DropStale(current: seq<Entry>, generated: seq<Entry>) returns (live: seq<Entry>)
    ensures live == Shared(current, generated)
  {
    live := [];
    for i := 0 to |current|
      invariant live == Shared(current[..i], generated)
    {
      assert current[..i + 1][..i] == current[..i];
      if IndexOf(generated, current[i].key).Some? {
        live := live + [current[i]];
      }
    }
    assert current[..|current|] == current;
  }

  /** `reconcile_table` on tables that repeat no key. */
  method ReconcileTable(current: seq<Entry>, generated: seq<Entry>) returns (entries: seq<Entry>)
    requires WellFormedTable(current) && WellFormedTable(generated)
    ensures entries == ReconciledTable(current, generated)
    decreases generated, 1
  {
    entries := DropStale(current, generated);
    WalkStarts(current, generated);
    for i := 0 to |generated|
      invariant entries == Walked(current, generated, i)
    {
      var key := generated[i].key;
      Located(current, generated, i);
      var at := IndexOf(entries, key);
      if at.Some? {
        WalkReplaces(current, generated, i);
        var item := ReconcileItem(entries[at.value].item, generated[i].item);
        entries := entries[at.value := entries[at.value].(item := item)];
      } else {
        WalkAppends(current, generated, i);
        entries := entries + [Fresh(generated[i])];
      }
    }
    WalkEnds(current, generated);
  }

  /** The live entries with the first `i` generated keys reconciled. */
  function WalkedLive(current: seq<Entry>, generated: seq<Entry>, i: nat): (entries: seq<Entry>)
    requires i <= |generated|
    ensures var live := Shared(current, generated);
            |entries| == |live| && forall j :: 0 <= j < |live| ==> entries[j].key == live[j].key
  {
    var live := Shared(current, generated);
    seq(|live|, j requires 0 <= j < |live| =>
      if Has(generated[..i], live[j].key) then ReconciledEntry(live[j], generated) else live[j])
  }

  /** The table after `i` generated entries: the live part, then the keys appended so far. */
  function Walked(current: seq<Entry>, generated: seq<Entry>, i: nat): seq<Entry>
    requires i <= |generated|
  {
    WalkedLive(current, generated, i) + Inserted(Missing(generated[..i], current))
  }

  lemma WalkStarts(current: seq<Entry>, generated: seq<Entry>)
    ensures Walked(current, generated, 0) == Shared(current, generated)
  {
    assert generated[..0] == [];
    assert WalkedLive(current, generated, 0) == Shared(current, generated);
  }

  lemma WalkEnds(current: seq<Entry>, generated: seq<Entry>)
    ensures Walked(current, generated, |generated|) == ReconciledTable(current, generated)
  {
    assert generated[..|generated|] == generated;
    assert WalkedLive(current, generated, |generated|) == ReconciledEntries(Shared(current, generated), generated);
  }

  lemma SameKeysSamePlace(x: seq<Entry>, y: seq<Entry>, key: string)
    requires |x| == |y| && forall i :: 0 <= i < |x| ==> x[i].key == y[i].key
    ensures IndexOf(x, key) == IndexOf(y, key)
  {}

  /** Where the walk finds the key of its next generated entry: among the live ones, untouched, or nowhere. */
  lemma Located(current: seq<Entry>, generated: seq<Entry>, i: nat)
    requires UniqueKeys(current) && UniqueKeys(generated) && i < |generated|
    ensures var live := Shared(current, generated);
            var at := IndexOf(Walked(current, generated, i), generated[i].key);
            && IndexOf(generated, generated[i].key) == Some(i)
            && !Has(generated[..i], generated[i].key)
            && at == IndexOf(live, generated[i].key)
            && (at.Some? <==> Has(current, generated[i].key))
            && (at.Some? ==> Walked(current, generated, i)[at.value] == live[at.value])
  {
    var live := Shared(current, generated);
    var key := generated[i].key;
    var added := Missing(generated[..i], current);
    FirstShared(current, generated, key);
    assert forall e <- generated[..i] :: e.key != key;
    assert !Has(added, key);
    SameKeysSamePlace(Inserted(added), added, key);
    FirstOfTwo(WalkedLive(current, generated, i), Inserted(added), key);
    SameKeysSamePlace(WalkedLive(current, generated, i), live, key);
  }

  lemma UpdatesTheFront<T>(front: seq<T>, back: seq<T>, at: nat, x: T)
    requires at < |front|
    ensures (front + back)[at := x] == front[at := x] + back
  {}

  lemma LiveReplaces(current: seq<Entry>, generated: seq<Entry>, i: nat, at: nat)
    requires UniqueKeys(current) && UniqueKeys(generated) && i < |generated|
    requires Has(generated, generated[i].key) && IndexOf(Shared(current, generated), generated[i].key) == Some(at)
    ensures WalkedLive(current, generated, i + 1)
            == WalkedLive(current, generated, i)[at := ReconciledEntry(Shared(current, generated)[at], generated)]
  {
    var live := Shared(current, generated);
    var now, next := WalkedLive(current, generated, i), WalkedLive(current, generated, i + 1);
    SubsetsStayUnique(current, generated);
    forall j | 0 <= j < |live| ensures next[j] == if j == at then ReconciledEntry(live[at], generated) else now[j] {
      MetSoFar(generated, i, live[j].key);
    }
  }

  lemma MetSoFar(generated: seq<Entry>, i: nat, key: string)
    requires i < |generated|
    ensures Has(generated[..i + 1], key) <==> Has(generated[..i], key) || key == generated[i].key
  {
    FirstOfTwo(generated[..i], [generated[i]], key);
    assert generated[..i] + [generated[i]] == generated[..i + 1];
  }

  lemma WalkReplaces(current: seq<Entry>, generated: seq<Entry>, i: nat)
    requires UniqueKeys(current) && UniqueKeys(generated) && i < |generated| && Has(current, generated[i].key)
    ensures var walked := Walked(current, generated, i);
            var at := IndexOf(walked, generated[i].key);
            && at.Some?
            && Walked(current, generated, i + 1)
               == walked[at.value :=
                    walked[at.value].(item := ReconciledItem(walked[at.value].item, generated[i].item))]
  {
    Located(current, generated, i);
    var live := Shared(current, generated);
    var at := IndexOf(live, generated[i].key).value;
    LiveReplaces(current, generated, i, at);
    NothingAdded(current, generated, i);
    UpdatesTheFront(
      WalkedLive(current, generated, i), Inserted(Missing(generated[..i], current)), at,
      ReconciledEntry(live[at], generated));
    assert ReconciledEntry(live[at], generated)
        == live[at].(item := ReconciledItem(live[at].item, generated[i].item));
  }

  lemma NothingAdded(current: seq<Entry>, generated: seq<Entry>, i: nat)
    requires i < |generated| && Has(current, generated[i].key)
    ensures Missing(generated[..i + 1], current) == Missing(generated[..i], current)
  {
    assert generated[..i + 1][..i] == generated[..i];
  }

  lemma WalkAppends(current: seq<Entry>, generated: seq<Entry>, i: nat)
    requires UniqueKeys(current) && UniqueKeys(generated) && i < |generated| && !Has(current, generated[i].key)
    ensures Walked(current, generated, i + 1) == Walked(current, generated, i) + [Fresh(generated[i])]
  {
    var live := Shared(current, generated);
    assert generated[..i] + [generated[i]] == generated[..i + 1];
    assert generated[..i + 1][..i] == generated[..i];
    forall j | 0 <= j < |live|
      ensures WalkedLive(current, generated, i + 1)[j] == WalkedLive(current, generated, i)[j]
    {
      assert live[j] in current;
      FirstOfTwo(generated[..i], [generated[i]], live[j].key);
    }
    assert WalkedLive(current, generated, i + 1) == WalkedLive(current, generated, i);
    var added := Missing(generated[..i], current);
    assert Inserted(added + [generated[i]]) == Inserted(added) + [Fresh(generated[i])];
  }

  /** `reconcile_item`. */
  method ReconcileItem(current: Item, generated: Item) returns (item: Item)
    requires WellFormed(current) && WellFormed(generated)
    ensures item == ReconciledItem(current, generated)
    decreases generated
  {
    if current.Table? && generated.Table? {
      var entries := ReconcileTable(current.entries, generated.entries);
      return Table(current.decor, entries);
    }
    var decor := if current.Value? then Some(current.decor) else None;
    item := generated;
    if decor.Some? && item.Value? {
      item := Value(item.data, decor.value);
    }
  }

  // ---------------------------------------------------------------------
  // What a reconciled document says, and how it looks
  // ---------------------------------------------------------------------

  /** What a document says at a path of keys. */
  datatype Said = Plain(data: Data) | Section | Sections(data: Data)

  function SaidAt(item: Item, path: seq<string>): Option<Said>
    decreases |path|
  {
    if path == [] then
      match item {
        case Value(data, _) => Some(Plain(data))
        case Table(_, _) => Some(Section)
        case Tables(data) => Some(Sections(data))
      }
    else if item.Table? && Has(item.entries, path[0]) then SaidAt(At(item.entries, path[0]).item, path[1..])
    else None
  }

  /** What is written around the value or the table at a path. */
  function DecorAt(item: Item, path: seq<string>): Option<Decor>
    decreases |path|
  {
    if path == [] then (if item.Tables? then None else Some(item.decor))
    else if item.Table? && Has(item.entries, path[0]) then DecorAt(At(item.entries, path[0]).item, path[1..])
    else None
  }

  /** The kept part of a reconciled table has exactly the shared keys. */
  lemma AtKept(current: seq<Entry>, generated: seq<Entry>, key: string)
    ensures var kept := ReconciledEntries(Shared(current, generated), generated);
            && (Has(kept, key) <==> Has(current, key) && Has(generated, key))
            && (Has(kept, key) ==> At(kept, key) == ReconciledEntry(At(current, key), generated))
  {
    var shared := Shared(current, generated);
    SameKeysSamePlace(ReconciledEntries(shared, generated), shared, key);
    if Has(generated, key) {
      FirstShared(current, generated, key);
    } else {
      assert forall e <- shared :: e.key != key;
    }
  }

  /** The inserted part has exactly the new ones. */
  lemma AtInserted(current: seq<Entry>, generated: seq<Entry>, key: string)
    requires !Has(current, key)
    ensures var inserted := Inserted(Missing(generated, current));
            && (Has(inserted, key) <==> Has(generated, key))
            && (Has(inserted, key) ==> At(inserted, key) == Fresh(At(generated, key)))
  {
    var added := Missing(generated, current);
    SameKeysSamePlace(Inserted(added), added, key);
    FirstMissing(generated, current, key);
  }

  lemma AtReconciled(current: seq<Entry>, generated: seq<Entry>, key: string)
    ensures Has(ReconciledTable(current, generated), key) <==> Has(generated, key)
    ensures Has(generated, key) ==>
              At(ReconciledTable(current, generated), key)
              == if Has(current, key) then ReconciledEntry(At(current, key), generated) else Fresh(At(generated, key))
  {
    var kept := ReconciledEntries(Shared(current, generated), generated);
    var inserted := Inserted(Missing(generated, current));
    AtOfTwo(kept, inserted, key);
    AtKept(current, generated, key);
    if Has(current, key) {
      NotInserted(current, generated, key);
    } else {
      AtInserted(current, generated, key);
    }
  }

  lemma NotInserted(current: seq<Entry>, generated: seq<Entry>, key: string)
    requires Has(current, key)
    ensures !Has(Inserted(Missing(generated, current)), key)
  {
    var added := Missing(generated, current);
    SameKeysSamePlace(Inserted(added), added, key);
    assert forall e <- added :: e.key != key;
  }

  /** At every depth a reconciled document says exactly what the generated one does. */
  lemma {:induction false} SaysWhatWasGenerated(current: Item, generated: Item, path: seq<string>)
    ensures SaidAt(ReconciledItem(current, generated), path) == SaidAt(generated, path)
    decreases |path|
  {
    if path != [] && current.Table? && generated.Table? {
      var key := path[0];
      AtReconciled(current.entries, generated.entries, key);
      if Has(current.entries, key) && Has(generated.entries, key) {
        SaysWhatWasGenerated(At(current.entries, key).item, At(generated.entries, key).item, path[1..]);
      }
    }
  }

  predicate SameShape(x: Option<Said>, y: Option<Said>) {
    || (x.Some? && y.Some? && x.value.Plain? && y.value.Plain?)
    || (x.Some? && y.Some? && x.value.Section? && y.value.Section?)
  }

  /**
   What is written around a value or a table is kept wherever both documents
   have one of the same shape, and is as generated everywhere else.
   */
  lemma {:induction false} KeepsTheDecorExactly(current: Item, generated: Item, path: seq<string>)
    ensures DecorAt(ReconciledItem(current, generated), path)
            == if SameShape(SaidAt(current, path), SaidAt(generated, path)) then DecorAt(current, path)
               else DecorAt(generated, path)
    decreases |path|
  {
    if path != [] && current.Table? && generated.Table? {
      var key := path[0];
      AtReconciled(current.entries, generated.entries, key);
      if Has(current.entries, key) && Has(generated.entries, key) {
        KeepsTheDecorExactly(At(current.entries, key).item, At(generated.entries, key).item, path[1..]);
      }
    }
  }

  lemma EntryKept(current: seq<Entry>, generated: seq<Entry>, i: nat)
    requires i < |Shared(current, generated)|
    ensures |ReconciledTable(current, generated)| == |Shared(current, generated)| + |Missing(generated, current)|
    ensures ReconciledTable(current, generated)[i] == ReconciledEntry(Shared(current, generated)[i], generated)
  {
    assert ReconciledEntries(Shared(current, generated), generated)[i]
        == ReconciledEntry(Shared(current, generated)[i], generated);
  }

  /**
   Keys kept stay in the order they were in, with what is written around them,
   and the new ones come after, with nothing around them.
   */
  lemma KeysKeepTheirOrder(current: seq<Entry>, generated: seq<Entry>)
    ensures var table, shared := ReconciledTable(current, generated), Shared(current, generated);
            && |shared| <= |table|
            && (forall i :: 0 <= i < |shared| ==>
                  table[i].key == shared[i].key && table[i].keyDecor == shared[i].keyDecor)
            && table[|shared|..] == Inserted(Missing(generated, current))
  {
    var shared := Shared(current, generated);
    forall i | 0 <= i < |shared|
      ensures ReconciledTable(current, generated)[i].key == shared[i].key
      ensures ReconciledTable(current, generated)[i].keyDecor == shared[i].keyDecor
    {
      EntryKept(current, generated, i);
    }
  }

  lemma {:induction false} AllShared(entries: seq<Entry>, other: seq<Entry>)
    requires forall e <- entries :: Has(other, e.key)
    ensures Shared(entries, other) == entries && Missing(entries, other) == []
  {
    if entries != [] {
      var front, last := entries[..|entries| - 1], entries[|entries| - 1];
      AllShared(front, other);
      assert front + [last] == entries;
    }
  }

  /** A document reconciled against itself is left as it is. */
  lemma {:induction false} ReconciledWithItself(item: Item)
    requires WellFormed(item)
    ensures ReconciledItem(item, item) == item
    decreases item
  {
    if item.Table? {
      var entries := item.entries;
      forall i | 0 <= i < |entries|
        ensures Has(entries, entries[i].key) && ReconciledEntry(entries[i], entries) == entries[i]
      {
        FoundAt(entries, entries[i].key, i);
        ReconciledWithItself(entries[i].item);
      }
      FixedTable(entries, entries);
    }
  }

  /** A table whose entries are all generated and left as they are is left as it is. */
  lemma FixedTable(entries: seq<Entry>, generated: seq<Entry>)
    requires forall i :: 0 <= i < |entries| ==>
               Has(generated, entries[i].key) && ReconciledEntry(entries[i], generated) == entries[i]
    requires forall e <- generated :: Has(entries, e.key)
    ensures ReconciledTable(entries, generated) == entries
  {
    AllShared(entries, generated);
    AllShared(generated, entries);
    assert ReconciledEntries(entries, generated) == entries;
  }

  /** Reconciling a second time against the same document changes nothing. */
  lemma {:induction false} ReconcilingAgainIsIdle(current: Item, generated: Item)
    requires WellFormed(generated)
    ensures ReconciledItem(ReconciledItem(current, generated), generated) == ReconciledItem(current, generated)
    decreases generated
  {
    if current.Table? && generated.Table? {
      var once := ReconciledTable(current.entries, generated.entries);
      AgainAtEachKey(current.entries, generated.entries, once);
      forall e | e in generated.entries ensures Has(once, e.key) {
        AtReconciled(current.entries, generated.entries, e.key);
      }
      FixedTable(once, generated.entries);
    } else {
      ReconciledWithItself(generated);
    }
  }

  lemma {:induction false} AgainAtEachKey(current: seq<Entry>, generated: seq<Entry>, once: seq<Entry>)
    requires WellFormedTable(generated) && once == ReconciledTable(current, generated)
    ensures forall i :: 0 <= i < |once| ==>
              Has(generated, once[i].key) && ReconciledEntry(once[i], generated) == once[i]
    decreases generated, 0
  {
    var shared := Shared(current, generated);
    var missing := Missing(generated, current);
    forall i | 0 <= i < |once|
      ensures Has(generated, once[i].key) && ReconciledEntry(once[i], generated) == once[i]
    {
      if i < |shared| {
        EntryKept(current, generated, i);
        var at := IndexOf(generated, shared[i].key).value;
        ReconcilingAgainIsIdle(shared[i].item, generated[at].item);
      } else {
        var e := missing[i - |shared|];
        assert once[i] == Fresh(e) && e in missing && e in generated;
        var k :| 0 <= k < |generated| && generated[k] == e;
        assert IndexOf(generated, e.key) == Some(k);
        ReconciledWithItself(generated[k].item);
      }
    }
  }
}
