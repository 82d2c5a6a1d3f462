/** The "fix and merge" report of a labelbase: its labels grouped by type and
    reference, by type, reference and label text, and by all five fields;
    the groups with more than one label are reported as duplicates, and the
    labels with an empty or an over-long text are listed. Labels are
    identified by their position in the list the query returns. */
module FixAndMerge {
  import opened Wrappers

  /** The fields of a label the report looks at. */
  datatype Record = Record(labelType: string, ref: string, text: Option<string>,
    origin: Option<string>, spendable: Option<bool>)

  /** The three grouping keys. */
  function TypeRefKey(r: Record): (string, string) {
    (r.labelType, r.ref)
  }

  function TypeRefLabelKey(r: Record): (string, string, Option<string>) {
    (r.labelType, r.ref, r.text)
  }

  /** All five fields: the record itself. */
  function IdenticalKey(r: Record): Record {
    r
  }

  /** The positions of the records with the key k, in increasing order. */
  function KeyPositions<K(==)>(recs: seq<Record>, key: Record -> K, k: K): (ps: seq<nat>)
    ensures forall i :: i in ps <==> 0 <= i < |recs| && key(recs[i]) == k
    ensures forall a :: 0 <= a < |ps| ==> ps[a] < |recs|
    ensures forall a, b :: 0 <= a < b < |ps| ==> ps[a] < ps[b]
  {
    if recs == [] then []
    else
      var n := |recs| - 1;
      var ps := KeyPositions(recs[..n], key, k);
      assert forall i :: 0 <= i < n ==> recs[..n][i] == recs[i];
      if key(recs[n]) == k then ps + [n] else ps
  }

  /** A key no record has has no positions. */
  lemma {:induction false} NoPositions<K>(recs: seq<Record>, key: Record -> K, k: K)
    requires forall i :: 0 <= i < |recs| ==> key(recs[i]) != k
    ensures KeyPositions(recs, key, k) == []
  {
    if recs != [] {
      var n := |recs| - 1;
      assert forall i :: 0 <= i < n ==> recs[..n][i] == recs[i];
      NoPositions(recs[..n], key, k);
    }
  }

  /** The groups of the records as the source's dictionary of lists holds
      them after the records so far: the positions of each key's records. */
  function GroupMap<K(==)>(recs: seq<Record>, key: Record -> K): (m: map<K, seq<nat>>)
    ensures forall k :: k in m ==> m[k] != []
  {
    if recs == [] then map[]
    else
      var m := GroupMap(recs[..|recs| - 1], key);
      var k := key(recs[|recs| - 1]);
      m[k := (if k in m then m[k] else []) + [|recs| - 1]]
  }

  ghost predicate NoRepeats<T>(xs: seq<T>) {
    forall i, j :: 0 <= i < j < |xs| ==> xs[i] != xs[j]
  }

  /** The keys in the order they were first inserted (a dictionary's order):
      each key of a record once. */
  function KeyOrder<K(==,!new)>(recs: seq<Record>, key: Record -> K): (order: seq<K>)
    ensures forall k :: k in order <==> exists i :: 0 <= i < |recs| && key(recs[i]) == k
    ensures NoRepeats(order)
  {
    if recs == [] then []
    else
      var n := |recs| - 1;
      var order := KeyOrder(recs[..n], key);
      var k := key(recs[n]);
      assert forall i :: 0 <= i < n ==> recs[..n][i] == recs[i];
      if k in order then order else order + [k]
  }

  /** One record more: its key's group gains its position, and the key is
      added to the order when it is new. */
  lemma GroupStep<K(!new)>(recs: seq<Record>, key: Record -> K, i: nat)
    requires i < |recs|
    ensures var m := GroupMap(recs[..i], key);
      var k := key(recs[i]);
      GroupMap(recs[..i + 1], key) == m[k := (if k in m then m[k] else []) + [i]]
      && KeyOrder(recs[..i + 1], key)
        == if k in m then KeyOrder(recs[..i], key) else KeyOrder(recs[..i], key) + [k]
  {
    assert recs[..i + 1][..i] == recs[..i];
    GroupMapKeys(recs[..i], key);
  }

  /** The keys of the map are those of the records, and each group holds the
      positions of its key's records. */
  lemma {:induction false} GroupMapKeys<K(!new)>(recs: seq<Record>, key: Record -> K)
    ensures var m := GroupMap(recs, key);
      (forall k :: k in m <==> k in KeyOrder(recs, key))
      && forall k :: k in m ==> m[k] == KeyPositions(recs, key, k)
  {
    if recs != [] {
      var n := |recs| - 1;
      var prefix := recs[..n];
      GroupMapKeys(prefix, key);
      var m0 := GroupMap(prefix, key);
      var m := GroupMap(recs, key);
      assert forall i :: 0 <= i < n ==> prefix[i] == recs[i];
      var k := key(recs[n]);
      if k !in m0 {
        assert k !in KeyOrder(prefix, key);
        NoPositions(prefix, key, k);
      }
    }
  }

  /** A group holds two or more positions exactly when two records share its key. */
  lemma GroupSize<K(!new)>(recs: seq<Record>, key: Record -> K, k: K)
    ensures var m := GroupMap(recs, key);
      (k in m && |m[k]| > 1) <==> exists i, j :: 0 <= i < j < |recs| && key(recs[i]) == k && key(recs[j]) == k
  {
    GroupMapKeys(recs, key);
    var m := GroupMap(recs, key);
    var ps := KeyPositions(recs, key, k);
    if k in m && |m[k]| > 1 {
      assert ps[0] in ps && ps[1] in ps;
    }
    if exists i, j :: 0 <= i < j < |recs| && key(recs[i]) == k && key(recs[j]) == k {
      var i, j :| 0 <= i < j < |recs| && key(recs[i]) == k && key(recs[j]) == k;
      assert i in ps && j in ps;
      assert k in KeyOrder(recs, key);
    }
  }

  /** The keys, in order, whose group has more than one record. */
  function Duplicated<K(==,!new)>(order: seq<K>, m: map<K, seq<nat>>): (ds: seq<K>)
    ensures forall k :: k in ds <==> k in order && k in m && |m[k]| > 1
  {
    if order == [] then []
    else
      var ds := Duplicated(order[..|order| - 1], m);
      var k := order[|order| - 1];
      assert forall x :: x in order <==> x in order[..|order| - 1] || x == k;
      if k in m && |m[k]| > 1 then ds + [k] else ds
  }

  /** A key is listed at most once when the order has no repeats. */
  lemma {:induction false} DuplicatedNoRepeats<K(!new)>(order: seq<K>, m: map<K, seq<nat>>)
    requires NoRepeats(order)
    ensures NoRepeats(Duplicated(order, m))
  {
    if order != [] {
      var init := order[..|order| - 1];
      assert NoRepeats(init);
      DuplicatedNoRepeats(init, m);
      assert order[|order| - 1] !in init;
    }
  }

  /** The report the view renders. */
  datatype Report = Report(
    duplicatesTypeRef: seq<(string, string)>,
    duplicatesTypeRefLabel: seq<(string, string, Option<string>)>,
    duplicatesAllIdentical: seq<Record>,
    emptyLabel: seq<nat>,
    tooLongLabel: seq<nat>,
    allIdenticalRecords: seq<nat>,
    fixSuggestions: nat)

  /** The label text is None or "". */
  predicate EmptyLabel(r: Record) {
    r.text.None? || r.text.value == ""
  }

  /** The label text is longer than 255 characters. */
  predicate TooLongLabel(r: Record) {
    !EmptyLabel(r) && |r.text.value| > 255
  }

  /** The positions of the records that satisfy p, in order. */
  function Positions(recs: seq<Record>, p: Record -> bool): (ps: seq<nat>)
    ensures forall i :: i in ps <==> 0 <= i < |recs| && p(recs[i])
  {
    if recs == [] then []
    else
      var n := |recs| - 1;
      var ps := Positions(recs[..n], p);
      assert forall i :: 0 <= i < n ==> recs[..n][i] == recs[i];
      if p(recs[n]) then ps + [n] else ps
  }

  /** `xs` appended to `acc` in order, leaving out what `acc` already holds. */
  function AppendNew(acc: seq<nat>, xs: seq<nat>): seq<nat> {
    if xs == [] then acc
    else
      var a := AppendNew(acc, xs[..|xs| - 1]);
      if xs[|xs| - 1] in a then a else a + [xs[|xs| - 1]]
  }

  /** The positions appended are those of `acc` and `xs`, and none twice. */
  lemma {:induction false} AppendNewContents(acc: seq<nat>, xs: seq<nat>)
    requires NoRepeats(acc)
    ensures var a := AppendNew(acc, xs);
      NoRepeats(a) && forall x :: x in a <==> x in acc || x in xs
  {
    if xs != [] {
      var init := xs[..|xs| - 1];
      AppendNewContents(acc, init);
      assert forall x :: x in xs <==> x in init || x == xs[|xs| - 1];
    }
  }

  /** The positions listed as identical records: those of the groups of the
      keys in turn, each once. */
  function IdenticalRecords(ks: seq<Record>, m: map<Record, seq<nat>>): seq<nat> {
    if ks == [] then []
    else
      var k := ks[|ks| - 1];
      AppendNew(IdenticalRecords(ks[..|ks| - 1], m), if k in m then m[k] else [])
  }

  /** A position is listed when a group of one of the keys holds it; none twice. */
  lemma {:induction false} IdenticalRecordsContents(ks: seq<Record>, m: map<Record, seq<nat>>)
    ensures var rs := IdenticalRecords(ks, m);
      NoRepeats(rs) && forall x :: x in rs <==> exists k :: k in ks && k in m && x in m[k]
  {
    if ks != [] {
      var init := ks[..|ks| - 1];
      var k := ks[|ks| - 1];
      IdenticalRecordsContents(init, m);
      AppendNewContents(IdenticalRecords(init, m), if k in m then m[k] else []);
      assert forall j :: j in ks <==> j in init || j == k;
    }
  }

  /** The duplicates of a grouping: the keys shared by two or more records,
      each listed once. */
  lemma DuplicatesExactly<K(!new)>(recs: seq<Record>, key: Record -> K)
    ensures var ds := Duplicated(KeyOrder(recs, key), GroupMap(recs, key));
      NoRepeats(ds)
      && forall k :: k in ds <==> exists i, j :: 0 <= i < j < |recs| && key(recs[i]) == k && key(recs[j]) == k
  {
    DuplicatedNoRepeats(KeyOrder(recs, key), GroupMap(recs, key));
    forall k
      ensures k in Duplicated(KeyOrder(recs, key), GroupMap(recs, key))
        <==> exists i, j :: 0 <= i < j < |recs| && key(recs[i]) == k && key(recs[j]) == k
    {
      GroupSize(recs, key, k);
    }
  }

  /** The records listed as identical are exactly those with an identical
      twin elsewhere in the list, each once. */
  lemma AllIdenticalExactly(recs: seq<Record>)
    ensures var m := GroupMap(recs, IdenticalKey);
      var rs := IdenticalRecords(Duplicated(KeyOrder(recs, IdenticalKey), m), m);
      NoRepeats(rs)
      && forall x :: x in rs <==> 0 <= x < |recs| && exists y :: 0 <= y < |recs| && y != x && recs[y] == recs[x]
  {
    var m := GroupMap(recs, IdenticalKey);
    var ds := Duplicated(KeyOrder(recs, IdenticalKey), m);
    IdenticalRecordsContents(ds, m);
    forall x: nat
      ensures x in IdenticalRecords(ds, m)
        <==> 0 <= x < |recs| && exists y :: 0 <= y < |recs| && y != x && recs[y] == recs[x]
    {
      InGroupOf(recs, ds, x);
      if x < |recs| {
        DuplicatedTwin(recs, x);
      }
    }
  }

  /** A position is in the group of one of the keys exactly when its record is
      one of them. */
  lemma InGroupOf(recs: seq<Record>, ds: seq<Record>, x: nat)
    requires forall k :: k in ds ==> k in GroupMap(recs, IdenticalKey)
    ensures var m := GroupMap(recs, IdenticalKey);
      (exists k :: k in ds && k in m && x in m[k]) <==> x < |recs| && recs[x] in ds
  {
    var m := GroupMap(recs, IdenticalKey);
    GroupMapKeys(recs, IdenticalKey);
    if exists k :: k in ds && k in m && x in m[k] {
      var k :| k in ds && k in m && x in m[k];
      assert x in KeyPositions(recs, IdenticalKey, k);
    }
    if x < |recs| && recs[x] in ds {
      var k := recs[x];
      assert x in KeyPositions(recs, IdenticalKey, k);
      assert x in m[k];
    }
  }

  /** A record's fields are a duplicated key exactly when it has a twin. */
  lemma DuplicatedTwin(recs: seq<Record>, x: nat)
    requires x < |recs|
    ensures recs[x] in Duplicated(KeyOrder(recs, IdenticalKey), GroupMap(recs, IdenticalKey))
      <==> exists y :: 0 <= y < |recs| && y != x && recs[y] == recs[x]
  {
    DuplicatesExactly(recs, IdenticalKey);
    TwinOf(recs, x);
  }

  /** A record has a twin exactly when two records share its fields. */
  lemma TwinOf(recs: seq<Record>, x: nat)
    requires x < |recs|
    ensures (exists i, j :: 0 <= i < j < |recs| && IdenticalKey(recs[i]) == recs[x] && IdenticalKey(recs[j]) == recs[x])
      <==> exists y :: 0 <= y < |recs| && y != x && recs[y] == recs[x]
  {
    if exists i, j :: 0 <= i < j < |recs| && IdenticalKey(recs[i]) == recs[x] && IdenticalKey(recs[j]) == recs[x] {
      var i, j :| 0 <= i < j < |recs| && IdenticalKey(recs[i]) == recs[x] && IdenticalKey(recs[j]) == recs[x];
      if x == i {
        assert j != x && recs[j] == recs[x];
      } else {
        assert i != x && recs[i] == recs[x];
      }
    }
    if exists y :: 0 <= y < |recs| && y != x && recs[y] == recs[x] {
      var y :| 0 <= y < |recs| && y != x && recs[y] == recs[x];
      if x < y {
        assert IdenticalKey(recs[x]) == recs[x] && IdenticalKey(recs[y]) == recs[x];
      } else {
        assert IdenticalKey(recs[y]) == recs[x] && IdenticalKey(recs[x]) == recs[x];
      }
    }
  }

  /** The record at position i joins the group of its key, which is created
      (and so takes its place in the order) when the key is new. */
  method AddToGroup<K(==,!new)>(records: seq<Record>, key: Record -> K, i: nat,
      groups: map<K, seq<nat>>, order: seq<K>)
    returns (groups': map<K, seq<nat>>, order': seq<K>)
    requires i < |records|
    requires groups == GroupMap(records[..i], key) && order == KeyOrder(records[..i], key)
    ensures groups' == GroupMap(records[..i + 1], key) && order' == KeyOrder(records[..i + 1], key)
  {
    GroupStep(records, key, i);
    var k := key(records[i]);
    if k in groups {
      groups' := groups[k := groups[k] + [i]];
      order' := order;
    } else {
      assert [] + [i] == [i];
      groups' := groups[k := [i]];
      order' := order + [k];
    }
  }

  /** One record more in the empty or the over-long list. */
  lemma PositionsStep(records: seq<Record>, p: Record -> bool, i: nat)
    requires i < |records|
    ensures Positions(records[..i + 1], p) == Positions(records[..i], p) + (if p(records[i]) then [i] else [])
  {
    assert records[..i + 1][..i] == records[..i];
  }

  /** The record at position i goes to the empty list when its text is None
      or "", else to the over-long list when its text is longer than 255. */
  method ClassifyLabel(records: seq<Record>, i: nat, empty: seq<nat>, tooLong: seq<nat>)
    returns (empty': seq<nat>, tooLong': seq<nat>)
    requires i < |records|
    requires empty == Positions(records[..i], EmptyLabel) && tooLong == Positions(records[..i], TooLongLabel)
    ensures empty' == Positions(records[..i + 1], EmptyLabel) && tooLong' == Positions(records[..i + 1], TooLongLabel)
  {
    PositionsStep(records, EmptyLabel, i);
    PositionsStep(records, TooLongLabel, i);
    var record := records[i];
    empty', tooLong' := empty, tooLong;
    if record.text.None? || record.text.value == "" {
      empty' := empty + [i];
    } else if |record.text.value| > 255 {
      tooLong' := tooLong + [i];
    }
  }

  /** The first loop over the records: the two label lists and the three groupings. */
  method GroupRecords(records: seq<Record>)
    returns (empty: seq<nat>, tooLong: seq<nat>,
      byTypeRef: map<(string, string), seq<nat>>, orderTypeRef: seq<(string, string)>,
      byTypeRefLabel: map<(string, string, Option<string>), seq<nat>>,
      orderTypeRefLabel: seq<(string, string, Option<string>)>,
      byIdentical: map<Record, seq<nat>>, orderIdentical: seq<Record>)
    ensures empty == Positions(records, EmptyLabel) && tooLong == Positions(records, TooLongLabel)
    ensures byTypeRef == GroupMap(records, TypeRefKey) && orderTypeRef == KeyOrder(records, TypeRefKey)
    ensures byTypeRefLabel == GroupMap(records, TypeRefLabelKey)
      && orderTypeRefLabel == KeyOrder(records, TypeRefLabelKey)
    ensures byIdentical == GroupMap(records, IdenticalKey) && orderIdentical == KeyOrder(records, IdenticalKey)
  {
    empty, tooLong := [], [];
    byTypeRef, orderTypeRef := map[], [];
    byTypeRefLabel, orderTypeRefLabel := map[], [];
    byIdentical, orderIdentical := map[], [];
    var i := 0;
    while i < |records|
      invariant 0 <= i <= |records|
      invariant empty == Positions(records[..i], EmptyLabel) && tooLong == Positions(records[..i], TooLongLabel)
      invariant byTypeRef == GroupMap(records[..i], TypeRefKey) && orderTypeRef == KeyOrder(records[..i], TypeRefKey)
      invariant byTypeRefLabel == GroupMap(records[..i], TypeRefLabelKey)
        && orderTypeRefLabel == KeyOrder(records[..i], TypeRefLabelKey)
      invariant byIdentical == GroupMap(records[..i], IdenticalKey)
        && orderIdentical == KeyOrder(records[..i], IdenticalKey)
    {
      empty, tooLong := ClassifyLabel(records, i, empty, tooLong);
      byTypeRef, orderTypeRef := AddToGroup(records, TypeRefKey, i, byTypeRef, orderTypeRef);
      byTypeRefLabel, orderTypeRefLabel := AddToGroup(records, TypeRefLabelKey, i, byTypeRefLabel, orderTypeRefLabel);
      byIdentical, orderIdentical := AddToGroup(records, IdenticalKey, i, byIdentical, orderIdentical);
      i := i + 1;
    }
    assert records[..i] == records;
  }

  /** The keys in order whose group has more than one record: the loops over
      a grouping's items. */
  method DuplicateKeys<K(==,!new)>(order: seq<K>, m: map<K, seq<nat>>) returns (ds: seq<K>)
    ensures ds == Duplicated(order, m)
  {
    ds := [];
    var i := 0;
    while i < |order|
      invariant 0 <= i <= |order|
      invariant ds == Duplicated(order[..i], m)
    {
      assert order[..i + 1][..i] == order[..i];
      var k := order[i];
      if k in m && |m[k]| > 1 {
        ds := ds + [k];
      }
      i := i + 1;
    }
    assert order[..i] == order;
  }

  /** The inner loop: each record of a group that is not yet listed is appended. */
  method AppendMissing(acc: seq<nat>, xs: seq<nat>) returns (a: seq<nat>)
    ensures a == AppendNew(acc, xs)
  {
    a := acc;
    var i := 0;
    while i < |xs|
      invariant 0 <= i <= |xs|
      invariant a == AppendNew(acc, xs[..i])
    {
      assert xs[..i + 1][..i] == xs[..i];
      if xs[i] !in a {
        a := a + [xs[i]];
      }
      i := i + 1;
    }
    assert xs[..i] == xs;
  }

  /** The loop over the five-field groups: the duplicated keys and the
      records of their groups. */
  method IdenticalGroups(order: seq<Record>, m: map<Record, seq<nat>>)
    returns (ds: seq<Record>, records: seq<nat>)
    ensures ds == Duplicated(order, m)
    ensures records == IdenticalRecords(ds, m)
  {
    ds, records := [], [];
    var i := 0;
    while i < |order|
      invariant 0 <= i <= |order|
      invariant ds == Duplicated(order[..i], m)
      invariant records == IdenticalRecords(ds, m)
    {
      assert order[..i + 1][..i] == order[..i];
      var k := order[i];
      if k in m && |m[k]| > 1 {
        records := AppendMissing(records, m[k]);
        assert (ds + [k])[..|ds|] == ds;
        ds := ds + [k];
      }
      i := i + 1;
    }
    assert order[..i] == order;
  }

  /** The view's report for the labels of a labelbase, in the order the query
      returns them: the duplicated keys of each grouping in the order they
      first appear, the empty and over-long labels, the records with an
      identical twin, and as many fix suggestions as empty labels. */
  method FixAndMergeReport(records: seq<Record>) returns (r: Report)
    ensures r.duplicatesTypeRef == Duplicated(KeyOrder(records, TypeRefKey), GroupMap(records, TypeRefKey))
    ensures r.duplicatesTypeRefLabel
      == Duplicated(KeyOrder(records, TypeRefLabelKey), GroupMap(records, TypeRefLabelKey))
    ensures r.duplicatesAllIdentical
      == Duplicated(KeyOrder(records, IdenticalKey), GroupMap(records, IdenticalKey))
    ensures r.allIdenticalRecords == IdenticalRecords(r.duplicatesAllIdentical, GroupMap(records, IdenticalKey))
    ensures r.emptyLabel == Positions(records, EmptyLabel)
    ensures r.tooLongLabel == Positions(records, TooLongLabel)
    ensures r.fixSuggestions == |r.emptyLabel|
  {
    var empty, tooLong, byTypeRef, orderTypeRef, byTypeRefLabel, orderTypeRefLabel, byIdentical, orderIdentical
      := GroupRecords(records);
    var dupTypeRef := DuplicateKeys(orderTypeRef, byTypeRef);
    var dupTypeRefLabel := DuplicateKeys(orderTypeRefLabel, byTypeRefLabel);
    var dupIdentical, identical := IdenticalGroups(orderIdentical, byIdentical);
    r := Report(dupTypeRef, dupTypeRefLabel, dupIdentical, empty, tooLong, identical, |empty|);
  }

  /** No label is both empty and over-long. */
  lemma EmptyNotTooLong(records: seq<Record>)
    ensures forall i :: i in Positions(records, EmptyLabel) ==> i !in Positions(records, TooLongLabel)
  {
  }
}
