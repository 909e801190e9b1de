/**
 Merging compatibility catalogs: entries with a non-blank key replace earlier ones in
 place, entries without one are all kept, nil entries are dropped.
 */
module CatalogMerge {
  import opened Basics
  import opened GoStrings

  /** A catalog entry by what the merge looks at: its key ("" when absent or not a string) and the rest. */
  datatype Entry = Nil | Entry(key: string, body: string) {
    predicate Keyed() { Entry? && !Blank(key) }
  }

  // ------------------------------------------------------------ the algorithm

  datatype Table = Table(merged: seq<Entry>, index: map<string, nat>)

  function Put(t: Table, e: Entry): Table {
    if e.Nil? then t
    else if !e.Keyed() then t.(merged := t.merged + [e])
    else if e.key in t.index then
      (if t.index[e.key] < |t.merged| then t.(merged := t.merged[t.index[e.key] := e]) else t)
    else Table(t.merged + [e], t.index[e.key := |t.merged|])
  }

  function PutAll(t: Table, es: seq<Entry>): Table {
    if es == [] then t else Put(PutAll(t, es[..|es| - 1]), es[|es| - 1])
  }

  const EMPTY := Table([], map[])

  function Normal(es: seq<Entry>): seq<Entry> { PutAll(EMPTY, es).merged }

  function Merge(base: seq<Entry>, delta: seq<Entry>): seq<Entry> {
    if delta == [] then base else Normal(base + delta)
  }

  // mergeCompatCatalogEntries: an empty delta returns the base untouched, nil and repeated entries included.
  method MergeEntries(base: seq<Entry>, delta: seq<Entry>) returns (merged: seq<Entry>)
    ensures merged == Merge(base, delta)
  {
    if |delta| == 0 { return base; }
    merged := [];
    var indexByKey: map<string, nat> := map[];
    var all := base + delta;
    for i := 0 to |all|
      invariant Table(merged, indexByKey) == PutAll(EMPTY, all[..i])
      invariant forall k :: k in indexByKey ==> indexByKey[k] < |merged|
    {
      assert all[..i + 1][..i] == all[..i];
      var entry := all[i];
      if entry.Nil? { continue; }
      if TrimSpace(entry.key) == "" {
        merged := merged + [entry];
        continue;
      }
      if entry.key in indexByKey {
        merged := merged[indexByKey[entry.key] := entry];
        continue;
      }
      indexByKey := indexByKey[entry.key := |merged|];
      merged := merged + [entry];
    }
    assert all[..|all|] == all;
  }

  // ----------------------------------------------------- reference definition

  predicate HasKey(es: seq<Entry>, key: string) { exists e :: e in es && e.Keyed() && e.key == key }

  // The last entry with a key.
  function LastWith(es: seq<Entry>, key: string): Entry
    requires HasKey(es, key)
  {
    var e := es[|es| - 1];
    if e.Keyed() && e.key == key then e else
      assert es == es[..|es| - 1] + [e];
      LastWith(es[..|es| - 1], key)
  }

  // The first occurrence of every key and all unkeyed entries, in order.
  function Firsts(es: seq<Entry>): seq<Entry> {
    if es == [] then [] else
    var front, e := es[..|es| - 1], es[|es| - 1];
    Firsts(front) + if e.Nil? || (e.Keyed() && HasKey(front, e.key)) then [] else [e]
  }

  // f, or the last entry of es with the key of f.
  function Latest(es: seq<Entry>, f: Entry): Entry {
    if f.Keyed() && HasKey(es, f.key) then LastWith(es, f.key) else f
  }

  /** The merge by its meaning: first occurrences, each replaced by the last entry with its key. */
  function Reference(es: seq<Entry>): seq<Entry> {
    seq(|Firsts(es)|, i requires 0 <= i < |Firsts(es)| => Latest(es, Firsts(es)[i]))
  }

  ghost predicate UniqueKeys(es: seq<Entry>) {
    forall i, j :: 0 <= i < j < |es| && es[i].Keyed() && es[j].Keyed() ==> es[i].key != es[j].key
  }

  // The index knows exactly the positions of the keyed entries.
  ghost predicate Shape(t: Table) {
    && (forall i :: 0 <= i < |t.merged| ==> !t.merged[i].Nil?)
    && (forall i :: 0 <= i < |t.merged| && t.merged[i].Keyed() ==>
          t.merged[i].key in t.index && t.index[t.merged[i].key] == i)
    && (forall k :: k in t.index ==>
          t.index[k] < |t.merged| && t.merged[t.index[k]].Keyed() && t.merged[t.index[k]].key == k)
  }

  lemma PutShape(t: Table, e: Entry)
    requires Shape(t)
    ensures Shape(Put(t, e))
  {
  }

  lemma {:induction false} PutAllShape(es: seq<Entry>)
    ensures Shape(PutAll(EMPTY, es))
  {
    if es != [] {
      PutAllShape(es[..|es| - 1]);
      PutShape(PutAll(EMPTY, es[..|es| - 1]), es[|es| - 1]);
    }
  }

  lemma HasKeySnoc(front: seq<Entry>, e: Entry, key: string)
    ensures HasKey(front + [e], key) <==> HasKey(front, key) || (e.Keyed() && e.key == key)
    ensures HasKey(front + [e], key) ==>
              LastWith(front + [e], key) == if e.Keyed() && e.key == key then e else LastWith(front, key)
  {
    assert forall x :: x in front + [e] <==> x in front || x == e;
    assert (front + [e])[..|front|] == front;
  }

  lemma {:induction false} FirstsHaveKeys(es: seq<Entry>, i: nat)
    requires i < |Firsts(es)|
    ensures !Firsts(es)[i].Nil? && (Firsts(es)[i].Keyed() ==> HasKey(es, Firsts(es)[i].key))
  {
    var front, e := es[..|es| - 1], es[|es| - 1];
    assert es == front + [e];
    if i < |Firsts(front)| {
      FirstsHaveKeys(front, i);
      if Firsts(es)[i].Keyed() { HasKeySnoc(front, e, Firsts(es)[i].key); }
    } else if e.Keyed() {
      HasKeySnoc(front, e, e.key);
    }
  }

  lemma {:induction false} LastWithHasKey(es: seq<Entry>, key: string)
    requires HasKey(es, key)
    ensures LastWith(es, key).Keyed() && LastWith(es, key).key == key
  {
    var front, e := es[..|es| - 1], es[|es| - 1];
    assert es == front + [e];
    HasKeySnoc(front, e, key);
    if !(e.Keyed() && e.key == key) { LastWithHasKey(front, key); }
  }

  // How one more entry changes the reference, entry by entry.
  lemma ReferenceSnoc(front: seq<Entry>, e: Entry, i: nat)
    requires i < |Firsts(front)|
    ensures Firsts(front) <= Firsts(front + [e])
    ensures Reference(front + [e])[i] ==
            var r := Reference(front)[i];
            if e.Keyed() && r.Keyed() && r.key == e.key then e else r
  {
    assert (front + [e])[..|front|] == front;
    var f := Firsts(front)[i];
    FirstsHaveKeys(front, i);
    if f.Keyed() {
      HasKeySnoc(front, e, f.key);
      LastWithHasKey(front, f.key);
    }
  }

  lemma PutReference(t: Table, front: seq<Entry>, e: Entry)
    requires Shape(t) && t.merged == Reference(front) && forall k :: k in t.index <==> HasKey(front, k)
    ensures Put(t, e).merged == Reference(front + [e])
  {
    var es := front + [e];
    assert es[..|front|] == front;
    forall i | 0 <= i < |Firsts(front)| ensures Put(t, e).merged[i] == Reference(es)[i] { ReferenceSnoc(front, e, i); }
    if e.Keyed() { HasKeySnoc(front, e, e.key); }
    if !e.Nil? && !(e.Keyed() && HasKey(front, e.key)) {
      assert Firsts(es) == Firsts(front) + [e];
      assert Reference(es)[|Firsts(front)|] == e;
    }
  }

  lemma {:induction false} NormalIsReference(es: seq<Entry>)
    ensures Normal(es) == Reference(es)
    ensures forall k :: k in PutAll(EMPTY, es).index <==> HasKey(es, k)
  {
    if es != [] {
      var front, e := es[..|es| - 1], es[|es| - 1];
      assert es == front + [e];
      NormalIsReference(front);
      PutAllShape(front);
      PutReference(PutAll(EMPTY, front), front, e);
      forall k ensures k in PutAll(EMPTY, es).index <==> HasKey(es, k) { HasKeySnoc(front, e, k); }
    }
  }

  // -------------------------------------------------------------------- laws

  /** A non-empty delta: the merge is the reference, so keys are unique, stand where they first
      occurred and hold their last entry, and every entry without a key is kept. */
  lemma MergeMeaning(base: seq<Entry>, delta: seq<Entry>)
    requires delta != []
    ensures Merge(base, delta) == Reference(base + delta)
    ensures UniqueKeys(Merge(base, delta))
  {
    NormalIsReference(base + delta);
    PutAllShape(base + delta);
  }

  lemma {:induction false} PutAllConcat(t: Table, a: seq<Entry>, b: seq<Entry>)
    ensures PutAll(t, a + b) == PutAll(PutAll(t, a), b)
  {
    if b == [] {
      assert a + b == a;
    } else {
      assert (a + b)[..|a + b| - 1] == a + b[..|b| - 1];
      PutAllConcat(t, a, b[..|b| - 1]);
    }
  }

  // The table over the first n merged entries.
  function Upto(t: Table, n: nat): Table
    requires n <= |t.merged|
  {
    Table(t.merged[..n], map k | k in t.index && t.index[k] < n :: t.index[k])
  }

  lemma PutNext(t: Table, n: nat)
    requires Shape(t) && n < |t.merged|
    ensures Put(Upto(t, n), t.merged[n]) == Upto(t, n + 1)
  {
    assert t.merged[..n + 1] == t.merged[..n] + [t.merged[n]];
    var put, next := Put(Upto(t, n), t.merged[n]), Upto(t, n + 1);
    forall k ensures k in put.index <==> k in next.index {
      if k in t.index && t.index[k] == n { assert t.merged[n].key == k; }
    }
    assert put.index.Keys == next.index.Keys;
    assert put.index == next.index;
  }

  // Merging what a merge produced rebuilds the same table.
  lemma {:induction false} Rebuild(t: Table, n: nat)
    requires Shape(t) && n <= |t.merged|
    ensures PutAll(EMPTY, t.merged[..n]) == Upto(t, n)
  {
    if n > 0 {
      Rebuild(t, n - 1);
      PutNext(t, n - 1);
      assert t.merged[..n][..n - 1] == t.merged[..n - 1];
    }
  }

  lemma RebuildWhole(t: Table)
    requires Shape(t)
    ensures PutAll(EMPTY, t.merged) == t
  {
    Rebuild(t, |t.merged|);
    assert t.merged[..|t.merged|] == t.merged;
    assert Upto(t, |t.merged|).index == t.index;
  }

  lemma NormalAbsorbs(a: seq<Entry>, b: seq<Entry>)
    ensures Normal(Normal(a) + b) == Normal(a + b)
  {
    PutAllShape(a);
    RebuildWhole(PutAll(EMPTY, a));
    PutAllConcat(EMPTY, Normal(a), b);
    PutAllConcat(EMPTY, a, b);
  }

  /** Merging two deltas one after the other is merging their concatenation, empty ones included. */
  lemma MergeAssociates(base: seq<Entry>, d1: seq<Entry>, d2: seq<Entry>)
    ensures Merge(Merge(base, d1), d2) == Merge(base, d1 + d2)
  {
    if d1 == [] {
      assert d1 + d2 == d2;
    } else if d2 == [] {
      assert d1 + d2 == d1;
    } else {
      NormalAbsorbs(base + d1, d2);
      ConcatAssociates(base, d1, d2);
    }
  }

  // What the entries say about each key.
  function KeyMap(es: seq<Entry>): map<string, Entry> {
    if es == [] then map[] else
    var e := es[|es| - 1];
    if e.Keyed() then KeyMap(es[..|es| - 1])[e.key := e] else KeyMap(es[..|es| - 1])
  }

  lemma {:induction false} KeyMapConcat(a: seq<Entry>, b: seq<Entry>)
    ensures KeyMap(a + b) == KeyMap(a) + KeyMap(b)
  {
    if b == [] {
      assert a + b == a;
    } else {
      assert (a + b)[..|a + b| - 1] == a + b[..|b| - 1];
      KeyMapConcat(a, b[..|b| - 1]);
    }
  }

  ghost predicate InRange(t: Table) { forall k :: k in t.index ==> t.index[k] < |t.merged| }

  // The table's own view of its keys.
  function TableMap(t: Table): map<string, Entry>
    requires InRange(t)
  {
    map k | k in t.index :: t.merged[t.index[k]]
  }

  // Two tables that differ in the entry of one key.
  lemma OneKeyMoves(t: Table, u: Table, e: Entry)
    requires InRange(t) && InRange(u) && e.Entry? && u.index.Keys == t.index.Keys + {e.key}
    requires u.merged[u.index[e.key]] == e
    requires forall k :: k in t.index && k != e.key ==> u.merged[u.index[k]] == t.merged[t.index[k]]
    ensures TableMap(u) == TableMap(t)[e.key := e]
  {
    assert TableMap(u).Keys == TableMap(t)[e.key := e].Keys;
  }

  lemma NoKeyMoves(t: Table, e: Entry)
    requires InRange(t)
    ensures TableMap(t.(merged := t.merged + [e])) == TableMap(t)
  {
  }

  lemma PutTableMap(t: Table, e: Entry)
    requires Shape(t)
    ensures Shape(Put(t, e)) && TableMap(Put(t, e)) == if e.Keyed() then TableMap(t)[e.key := e] else TableMap(t)
  {
    PutShape(t, e);
    if e.Keyed() { OneKeyMoves(t, Put(t, e), e); } else if !e.Nil? { NoKeyMoves(t, e); }
  }

  lemma {:induction false} TableMapIsKeyMap(es: seq<Entry>)
    ensures Shape(PutAll(EMPTY, es)) && TableMap(PutAll(EMPTY, es)) == KeyMap(es)
  {
    if es != [] {
      var front, e := es[..|es| - 1], es[|es| - 1];
      TableMapIsKeyMap(front);
      PutTableMap(PutAll(EMPTY, front), e);
    }
  }

  lemma KeyMapOfTable(t: Table)
    requires Shape(t)
    ensures KeyMap(t.merged) == TableMap(t)
  {
    RebuildWhole(t);
    TableMapIsKeyMap(t.merged);
  }

  /** On keys the merge is right-biased map override. */
  lemma MergeOverrides(base: seq<Entry>, delta: seq<Entry>)
    ensures KeyMap(Merge(base, delta)) == KeyMap(base) + KeyMap(delta)
  {
    KeyMapConcat(base, delta);
    if delta != [] {
      TableMapIsKeyMap(base + delta);
      KeyMapOfTable(PutAll(EMPTY, base + delta));
    }
  }

  // ----------------------------------------------------------- whole catalogs

  datatype Catalog = Catalog(models: seq<Entry>, runtimeRules: seq<Entry>, gpuCapabilities: seq<Entry>,
                             curatedRecipes: seq<Entry>, integrations: seq<Entry>)

  // mergeCompatCatalog; each table has its own key field.
  function MergeCatalog(base: Catalog, delta: Catalog): Catalog {
    Catalog(Merge(base.models, delta.models), Merge(base.runtimeRules, delta.runtimeRules),
            Merge(base.gpuCapabilities, delta.gpuCapabilities), Merge(base.curatedRecipes, delta.curatedRecipes),
            Merge(base.integrations, delta.integrations))
  }

  function Append(a: Catalog, b: Catalog): Catalog {
    Catalog(a.models + b.models, a.runtimeRules + b.runtimeRules, a.gpuCapabilities + b.gpuCapabilities,
            a.curatedRecipes + b.curatedRecipes, a.integrations + b.integrations)
  }

  /** Syncing twice is syncing once with both deltas. */
  lemma CatalogMergeAssociates(base: Catalog, d1: Catalog, d2: Catalog)
    ensures MergeCatalog(MergeCatalog(base, d1), d2) == MergeCatalog(base, Append(d1, d2))
  {
    MergeAssociates(base.models, d1.models, d2.models);
    MergeAssociates(base.runtimeRules, d1.runtimeRules, d2.runtimeRules);
    MergeAssociates(base.gpuCapabilities, d1.gpuCapabilities, d2.gpuCapabilities);
    MergeAssociates(base.curatedRecipes, d1.curatedRecipes, d2.curatedRecipes);
    MergeAssociates(base.integrations, d1.integrations, d2.integrations);
  }
}
