/** One side of the order book on values: the list of resting orders, and the price levels that follow from it. */
module BookSpec {
  /** A resting order as its level sees it. */
  datatype Entry = Entry(key: int, lots: int)

  /** A price level: `first` is the place in the list of its earliest order. */
  datatype LevelInfo = LevelInfo(key: int, lots: int, count: nat, first: nat)

  predicate Sorted(es: seq<Entry>) {
    forall i, j :: 0 <= i < j < |es| ==> es[i].key <= es[j].key
  }

  predicate Increasing(keys: seq<int>) {
    forall i, j :: 0 <= i < j < |keys| ==> keys[i] < keys[j]
  }

  function SumAt(es: seq<Entry>, k: int): int {
    if es == [] then 0 else (if es[0].key == k then es[0].lots else 0) + SumAt(es[1..], k)
  }

  function CountAt(es: seq<Entry>, k: int): nat {
    if es == [] then 0 else (if es[0].key == k then 1 else 0) + CountAt(es[1..], k)
  }

  function Total(es: seq<Entry>): int {
    if es == [] then 0 else es[0].lots + Total(es[1..])
  }

  /** The place of the first entry with key k, or the length if there is none. */
  function FirstIndex(es: seq<Entry>, k: int): (f: nat)
    ensures f <= |es|
  {
    if es == [] || es[0].key == k then 0 else 1 + FirstIndex(es[1..], k)
  }

  /** Where price and then time priority put a new order with key k: behind every entry whose key is not greater. */
  function Upper(es: seq<Entry>, k: int): (p: nat)
    ensures p <= |es|
  {
    if es == [] || es[0].key > k then 0 else 1 + Upper(es[1..], k)
  }

  function Insert(es: seq<Entry>, e: Entry): seq<Entry> {
    Spliced(es, Upper(es, e.key), e)
  }

  function Removed<T>(s: seq<T>, i: nat): seq<T>
    requires i < |s|
  {
    s[..i] + s[i + 1..]
  }

  function Spliced<T>(s: seq<T>, p: nat, x: T): seq<T>
    requires p <= |s|
  {
    s[..p] + [x] + s[p..]
  }

  lemma SplicedParts<T>(s: seq<T>, p: nat, x: T)
    requires p <= |s|
    ensures var z := Spliced(s, p, x);
      && |z| == |s| + 1 && z[p] == x
      && (forall j :: 0 <= j < p ==> z[j] == s[j]) && (forall j :: p < j < |z| ==> z[j] == s[j - 1])
      && (forall y :: y in z ==> y in s || y == x) && (forall y :: y in s ==> y in z) && x in z
  {
    var z := Spliced(s, p, x);
    assert z[p] == x;
    forall y | y in s ensures y in z {
      var i :| 0 <= i < |s| && s[i] == y;
      assert z[if i < p then i else i + 1] == y;
    }
  }

  lemma RemovedParts<T>(s: seq<T>, p: nat)
    requires p < |s|
    ensures var z := Removed(s, p);
      && |z| == |s| - 1
      && (forall j :: 0 <= j < p ==> z[j] == s[j]) && (forall j :: p <= j < |z| ==> z[j] == s[j + 1])
      && (forall y :: y in z ==> y in s) && (forall y :: y in s ==> y in z || y == s[p])
  {
    var z := Removed(s, p);
    forall y | y in s ensures y in z || y == s[p] {
      var i :| 0 <= i < |s| && s[i] == y;
      if i != p { assert z[if i < p then i else i - 1] == y; }
    }
  }

  function DistinctKeys(es: seq<Entry>): seq<int> {
    if es == [] then []
    else if |es| > 1 && es[0].key == es[1].key then DistinctKeys(es[1..])
    else [es[0].key] + DistinctKeys(es[1..])
  }

  /** The levels of a list of orders. */
  function LevelsOf(es: seq<Entry>): seq<LevelInfo> {
    var keys := DistinctKeys(es);
    seq(|keys|, i requires 0 <= i < |keys| => InfoAt(es, keys[i]))
  }

  function InfoAt(es: seq<Entry>, k: int): LevelInfo {
    LevelInfo(k, SumAt(es, k), CountAt(es, k), FirstIndex(es, k))
  }

  function SumLevels(infos: seq<LevelInfo>): int {
    if infos == [] then 0 else infos[0].lots + SumLevels(infos[1..])
  }

  // ---------------------------------------------------------------- counting

  lemma {:induction false} Concat(a: seq<Entry>, b: seq<Entry>, k: int)
    ensures SumAt(a + b, k) == SumAt(a, k) + SumAt(b, k)
    ensures CountAt(a + b, k) == CountAt(a, k) + CountAt(b, k)
    ensures Total(a + b) == Total(a) + Total(b)
    decreases |a|
  {
    if a == [] {
      assert a + b == b;
    } else {
      assert (a + b)[1..] == a[1..] + b;
      Concat(a[1..], b, k);
    }
  }

  /** An entry put at place i, seen from either side. */
  lemma {:induction false} Splice(es: seq<Entry>, i: nat, e: Entry, k: int)
    requires i <= |es|
    ensures var z := Spliced(es, i, e);
      && SumAt(z, k) == SumAt(es, k) + (if e.key == k then e.lots else 0)
      && CountAt(z, k) == CountAt(es, k) + (if e.key == k then 1 else 0)
      && Total(z) == Total(es) + e.lots
  {
    Concat(es[..i], es[i..], k);
    assert es[..i] + es[i..] == es;
    Concat(es[..i] + [e], es[i..], k);
    Concat(es[..i], [e], k);
    assert SumAt([e], k) == (if e.key == k then e.lots else 0) + SumAt([], k);
    assert [e][1..] == [];
  }

  lemma {:induction false} Removal(es: seq<Entry>, i: nat, k: int)
    requires i < |es|
    ensures SumAt(es, k) == SumAt(Removed(es, i), k) + (if es[i].key == k then es[i].lots else 0)
    ensures CountAt(es, k) == CountAt(Removed(es, i), k) + (if es[i].key == k then 1 else 0)
    ensures Total(es) == Total(Removed(es, i)) + es[i].lots
  {
    var r := Removed(es, i);
    Splice(r, i, es[i], k);
    assert Spliced(r, i, es[i]) == es;
  }

  lemma {:induction false} Update(es: seq<Entry>, i: nat, lots: int, k: int)
    requires i < |es|
    ensures var z := es[i := Entry(es[i].key, lots)];
      && SumAt(z, k) == SumAt(es, k) + (if es[i].key == k then lots - es[i].lots else 0)
      && CountAt(z, k) == CountAt(es, k)
      && Total(z) == Total(es) + lots - es[i].lots
      && FirstIndex(z, k) == FirstIndex(es, k)
  {
    var z := es[i := Entry(es[i].key, lots)];
    Removal(es, i, k);
    Removal(z, i, k);
    assert Removed(z, i) == Removed(es, i);
    SameKeys(es, z, k);
  }

  lemma {:induction false} SameKeys(a: seq<Entry>, b: seq<Entry>, k: int)
    requires |a| == |b| && forall i :: 0 <= i < |a| ==> a[i].key == b[i].key
    ensures FirstIndex(a, k) == FirstIndex(b, k)
    decreases |a|
  {
    if a != [] {
      forall i | 0 <= i < |a[1..]| ensures a[1..][i].key == b[1..][i].key {}
      SameKeys(a[1..], b[1..], k);
    }
  }

  /** What a first index is. */
  lemma {:induction false} FirstIs(es: seq<Entry>, k: int, f: nat)
    requires f <= |es| && (forall j :: 0 <= j < f ==> es[j].key != k) && (f < |es| ==> es[f].key == k)
    ensures FirstIndex(es, k) == f
    decreases |es|
  {
    if es != [] && f > 0 {
      FirstIs(es[1..], k, f - 1);
    }
  }

  lemma {:induction false} FirstFound(es: seq<Entry>, k: int)
    ensures var f := FirstIndex(es, k);
      (forall j :: 0 <= j < f ==> es[j].key != k) && (f < |es| ==> es[f].key == k)
    ensures CountAt(es, k) > 0 <==> FirstIndex(es, k) < |es|
    decreases |es|
  {
    if es != [] {
      FirstFound(es[1..], k);
      if es[0].key != k {
        forall j | 0 <= j < FirstIndex(es, k) ensures es[j].key != k {
          if j > 0 { assert es[1..][j - 1].key != k; }
        }
      }
    }
  }

  lemma CountPositive(es: seq<Entry>, i: nat)
    requires i < |es|
    ensures CountAt(es, es[i].key) > 0
  {
    Removal(es, i, es[i].key);
  }

  // ---------------------------------------------------------------- inserting

  lemma {:induction false} UpperSplits(es: seq<Entry>, k: int)
    requires Sorted(es)
    ensures forall i :: 0 <= i < Upper(es, k) ==> es[i].key <= k
    ensures forall i :: Upper(es, k) <= i < |es| ==> es[i].key > k
    decreases |es|
  {
    if es != [] && es[0].key <= k {
      UpperSplits(es[1..], k);
      forall i | 0 <= i < Upper(es, k) ensures es[i].key <= k { if i > 0 { assert es[1..][i - 1].key <= k; } }
      forall i | Upper(es, k) <= i < |es| ensures es[i].key > k { assert es[1..][i - 1].key > k; }
    }
  }

  /** The place that splits the keys is the only one that does. */
  lemma {:induction false} UpperIs(es: seq<Entry>, k: int, p: nat)
    requires p <= |es| && (forall i :: 0 <= i < p ==> es[i].key <= k) && (p < |es| ==> es[p].key > k)
    ensures Upper(es, k) == p
    decreases |es|
  {
    if es != [] && p > 0 {
      UpperIs(es[1..], k, p - 1);
    }
  }

  lemma {:induction false} InsertKeepsSorted(es: seq<Entry>, e: Entry)
    requires Sorted(es)
    ensures Sorted(Insert(es, e))
  {
    UpperSplits(es, e.key);
  }

  /** Where the first order of each level is found after an insertion. */
  lemma {:induction false} FirstAfterInsert(es: seq<Entry>, e: Entry, k: int)
    requires Sorted(es)
    ensures var p, f := Upper(es, e.key), FirstIndex(es, k);
      FirstIndex(Insert(es, e), k) ==
        if CountAt(es, k) == 0 && k == e.key then p
        else if f < p then f
        else if CountAt(es, k) > 0 then f + 1
        else |es| + 1
  {
    var p, f, z := Upper(es, e.key), FirstIndex(es, k), Insert(es, e);
    UpperSplits(es, e.key);
    FirstFound(es, k);
    var g := if CountAt(es, k) == 0 && k == e.key then p else if f < p then f else f + 1;
    forall j | 0 <= j < g ensures z[j].key != k {
      if j < p { assert z[j] == es[j]; } else if j > p { assert z[j] == es[j - 1]; }
    }
    FirstIs(z, k, g);
  }

  /** And after a removal. */
  lemma {:induction false} FirstAfterRemoval(es: seq<Entry>, i: nat, k: int)
    requires Sorted(es) && i < |es| && CountAt(Removed(es, i), k) > 0
    ensures var f, z := FirstIndex(es, k), Removed(es, i);
      && f < |es| && FirstIndex(z, k) == (if f <= i then f else f - 1)
      && (f == i ==> i + 1 < |es| && es[i + 1].key == k)
  {
    var f, z := FirstIndex(es, k), Removed(es, i);
    Removal(es, i, k);
    FirstFound(es, k);
    FirstFound(z, k);
    var g := FirstIndex(z, k);
    assert z[g] == if g < i then es[g] else es[g + 1];
    if f == i {
      assert g >= i;
      assert es[i].key <= es[i + 1].key <= es[g + 1].key;
    }
    var h := if f <= i then f else f - 1;
    forall j | 0 <= j < h ensures z[j].key != k { assert z[j] == if j < i then es[j] else es[j + 1]; }
    FirstIs(z, k, h);
  }

  lemma RemovalKeepsSorted(es: seq<Entry>, i: nat)
    requires Sorted(es) && i < |es|
    ensures Sorted(Removed(es, i))
  {
    var z := Removed(es, i);
    forall a, b | 0 <= a < b < |z| ensures z[a].key <= z[b].key {
      assert z[a] == es[if a < i then a else a + 1] && z[b] == es[if b < i then b else b + 1];
    }
  }

  /** What an insertion does to the level of key k: its sums, and which order comes first. */
  lemma {:induction false} LevelAfterInsert<T>(es: seq<Entry>, e: Entry, os: seq<T>, o: T, k: int)
    requires Sorted(es) && |os| == |es|
    ensures var p, z := Upper(es, e.key), Insert(es, e);
      var os' := Spliced(os, p, o);
      && SumAt(z, k) == SumAt(es, k) + (if k == e.key then e.lots else 0)
      && CountAt(z, k) == CountAt(es, k) + (if k == e.key then 1 else 0)
      && (CountAt(z, k) > 0 ==> FirstIndex(z, k) < |z|)
      && (CountAt(es, k) > 0 ==> FirstIndex(es, k) < |es| && os'[FirstIndex(z, k)] == os[FirstIndex(es, k)])
      && (CountAt(es, k) == 0 && k == e.key ==> os'[FirstIndex(z, k)] == o)
  {
    Splice(es, Upper(es, e.key), e, k);
    FirstAfterInsert(es, e, k);
    FirstFound(es, k);
    FirstFound(Insert(es, e), k);
  }

  /** What a removal does to the level of key k. */
  lemma {:induction false} LevelAfterRemoval<T>(es: seq<Entry>, i: nat, os: seq<T>, k: int)
    requires Sorted(es) && i < |es| == |os|
    ensures var z, os' := Removed(es, i), Removed(os, i);
      && SumAt(z, k) == SumAt(es, k) - (if es[i].key == k then es[i].lots else 0)
      && CountAt(z, k) == CountAt(es, k) - (if es[i].key == k then 1 else 0)
      && (CountAt(z, k) > 0 ==>
           && FirstIndex(es, k) < |es| && FirstIndex(z, k) < |z|
           && (if FirstIndex(es, k) == i then FirstIndex(z, k) == i && i + 1 < |es| && es[i + 1].key == k
               else os'[FirstIndex(z, k)] == os[FirstIndex(es, k)]))
  {
    var z := Removed(es, i);
    Removal(es, i, k);
    if CountAt(z, k) > 0 {
      FirstAfterRemoval(es, i, k);
      FirstFound(z, k);
    }
  }

  // ---------------------------------------------------------------- levels

  lemma {:induction false} DistinctMembers(es: seq<Entry>, k: int)
    ensures k in DistinctKeys(es) <==> CountAt(es, k) > 0
    decreases |es|
  {
    if es != [] {
      DistinctMembers(es[1..], k);
      if |es| > 1 { CountPositive(es[1..], 0); }
    }
  }

  lemma {:induction false} DistinctIncreasing(es: seq<Entry>)
    requires Sorted(es)
    ensures Increasing(DistinctKeys(es))
    ensures forall i :: 0 <= i < |DistinctKeys(es)| ==> es != [] && es[0].key <= DistinctKeys(es)[i]
    decreases |es|
  {
    if es != [] {
      DistinctIncreasing(es[1..]);
    }
  }

  lemma {:induction false} DistinctKeysExact(es: seq<Entry>)
    requires Sorted(es)
    ensures Increasing(DistinctKeys(es))
    ensures forall k :: k in DistinctKeys(es) <==> CountAt(es, k) > 0
  {
    DistinctIncreasing(es);
    forall k ensures k in DistinctKeys(es) <==> CountAt(es, k) > 0 { DistinctMembers(es, k); }
  }

  /** An increasing list of keys is determined by which keys it holds. */
  lemma {:induction false} IncreasingUnique(a: seq<int>, b: seq<int>)
    requires Increasing(a) && Increasing(b) && forall k :: k in a <==> k in b
    ensures a == b
    decreases |a|
  {
    assert b != [] ==> b[0] in b;
    if a != [] {
      assert a[0] in a;
      var i :| 0 <= i < |b| && b[i] == a[0];
      var j :| 0 <= j < |a| && a[j] == b[0];
      assert a[0] == b[0];
      forall k ensures k in a[1..] <==> k in b[1..] {
        assert k in a <==> k == a[0] || k in a[1..];
        assert k in b <==> k == b[0] || k in b[1..];
      }
      IncreasingUnique(a[1..], b[1..]);
    }
  }

  /** The lots of all levels add up to the lots of all orders. */
  lemma {:induction false} LevelsAddUp(es: seq<Entry>)
    requires Sorted(es)
    ensures SumLevels(LevelsOf(es)) == Total(es)
  {
    DistinctKeysExact(es);
    forall i | 0 <= i < |es| ensures es[i].key in DistinctKeys(es) { CountPositive(es, i); }
    KeysAddUp(es, DistinctKeys(es));
    SumByKeys(es, DistinctKeys(es));
  }

  function SumOver(es: seq<Entry>, keys: seq<int>): int {
    if keys == [] then 0 else SumAt(es, keys[0]) + SumOver(es, keys[1..])
  }

  lemma {:induction false} SumByKeys(es: seq<Entry>, keys: seq<int>)
    ensures SumLevels(seq(|keys|, i requires 0 <= i < |keys| => InfoAt(es, keys[i]))) == SumOver(es, keys)
    decreases |keys|
  {
    if keys != [] {
      var infos := seq(|keys|, i requires 0 <= i < |keys| => InfoAt(es, keys[i]));
      var rest := keys[1..];
      assert infos[1..] == seq(|rest|, i requires 0 <= i < |rest| => InfoAt(es, rest[i]));
      SumByKeys(es, rest);
    }
  }

  lemma {:induction false} KeysAddUp(es: seq<Entry>, keys: seq<int>)
    requires Increasing(keys) && forall i :: 0 <= i < |es| ==> es[i].key in keys
    ensures SumOver(es, keys) == Total(es)
    decreases |es|
  {
    if es == [] {
      NothingToSum(keys);
    } else {
      KeysAddUp(es[1..], keys);
      OneMore(es, keys);
    }
  }

  lemma {:induction false} NothingToSum(keys: seq<int>)
    ensures SumOver([], keys) == 0
    decreases |keys|
  {
    if keys != [] { NothingToSum(keys[1..]); }
  }

  lemma {:induction false} OneMore(es: seq<Entry>, keys: seq<int>)
    requires es != [] && Increasing(keys)
    ensures SumOver(es, keys) == SumOver(es[1..], keys) + (if es[0].key in keys then es[0].lots else 0)
    decreases |keys|
  {
    if keys != [] {
      OneMore(es, keys[1..]);
      assert es[0].key in keys <==> es[0].key == keys[0] || es[0].key in keys[1..];
      assert keys[0] !in keys[1..];
    }
  }

  // ---------------------------------------------------------------- levels that agree with a list

  /** A level as it stands in the level set; `first` is its earliest order. */
  datatype LevelView<T> = LevelView(key: int, lots: int, count: int, first: T)

  ghost predicate Ordered<T>(vs: seq<LevelView<T>>) {
    forall i, j :: 0 <= i < j < |vs| ==> vs[i].key < vs[j].key
  }

  ghost predicate HasKey<T>(vs: seq<LevelView<T>>, k: int) {
    exists i :: 0 <= i < |vs| && vs[i].key == k
  }

  ghost predicate Distinct<T>(os: seq<T>) {
    forall i, j :: 0 <= i < j < |os| ==> os[i] != os[j]
  }

  /** A level's lots are those of its orders, its count their number, its first order the earliest. */
  ghost predicate Right<T>(v: LevelView<T>, os: seq<T>, es: seq<Entry>) {
    && |es| == |os| && FirstIndex(es, v.key) < |es| && v.first == os[FirstIndex(es, v.key)]
    && v.lots == SumAt(es, v.key) && v.count == CountAt(es, v.key)
  }

  /** The levels `vs` are the levels of the orders `os`, whose entries are `es`. */
  ghost predicate Agree<T>(vs: seq<LevelView<T>>, os: seq<T>, es: seq<Entry>) {
    && |es| == |os| && Sorted(es) && Distinct(os) && Ordered(vs)
    && (forall i :: 0 <= i < |es| ==> es[i].lots > 0)
    && (forall i {:trigger HasKey(vs, es[i].key)} :: 0 <= i < |es| ==> HasKey(vs, es[i].key))
    && (forall i {:trigger Right(vs[i], os, es)} :: 0 <= i < |vs| ==> Right(vs[i], os, es))
  }

  /** The level set after an order joins at place i, its level being `found` there or made. */
  function Joined<T>(vs: seq<LevelView<T>>, i: nat, found: bool, e: Entry, o: T): seq<LevelView<T>>
    requires i <= |vs| && (found ==> i < |vs|)
  {
    if found then vs[i := vs[i].(lots := vs[i].lots + e.lots, count := vs[i].count + 1)]
    else Spliced(vs, i, LevelView(e.key, e.lots, 1, o))
  }

  predicate FoundAt<T>(vs: seq<LevelView<T>>, i: nat, k: int) {
    i < |vs| && vs[i].key == k
  }

  /** Place i is where a level of key k stands or belongs. */
  ghost predicate At<T>(vs: seq<LevelView<T>>, i: nat, k: int) {
    && i <= |vs| && (forall j :: 0 <= j < i ==> vs[j].key < k) && (forall j :: i <= j < |vs| ==> vs[j].key >= k)
  }

  lemma {:induction false} JoinLevel<T>(v: LevelView<T>, os: seq<T>, es: seq<Entry>, e: Entry, o: T)
    requires Sorted(es) && Right(v, os, es)
    ensures var w := if v.key == e.key then v.(lots := v.lots + e.lots, count := v.count + 1) else v;
      Right(w, Spliced(os, Upper(es, e.key), o), Insert(es, e))
  {
    LevelAfterInsert(es, e, os, o, v.key);
    FirstFound(es, v.key);
  }

  lemma {:induction false} JoinFresh<T>(os: seq<T>, es: seq<Entry>, e: Entry, o: T)
    requires Sorted(es) && |os| == |es| && CountAt(es, e.key) == 0
    ensures Right(LevelView(e.key, e.lots, 1, o), Spliced(os, Upper(es, e.key), o), Insert(es, e))
  {
    LevelAfterInsert(es, e, os, o, e.key);
    NoneToSum(es, e.key);
  }

  lemma {:induction false} NoneToSum(es: seq<Entry>, k: int)
    requires CountAt(es, k) == 0
    ensures SumAt(es, k) == 0
    decreases |es|
  {
    if es != [] { NoneToSum(es[1..], k); }
  }

  /** A key without a level has no orders. */
  lemma {:induction false} NoLevelNoOrders(vs: seq<LevelView>, es: seq<Entry>, k: int)
    requires (forall i :: 0 <= i < |es| ==> HasKey(vs, es[i].key)) && !HasKey(vs, k)
    ensures CountAt(es, k) == 0
  {
    FirstFound(es, k);
  }

  lemma {:induction false} JoinedOrdered<T>(vs: seq<LevelView<T>>, i: nat, found: bool, e: Entry, o: T)
    requires Ordered(vs) && At(vs, i, e.key) && (found <==> FoundAt(vs, i, e.key))
    ensures var ws := Joined(vs, i, found, e, o); Ordered(ws) && i < |ws| && ws[i].key == e.key
  {
    if !found { SplicedParts(vs, i, LevelView(e.key, e.lots, 1, o)); }
  }

  lemma {:induction false} JoinedKeys<T>(vs: seq<LevelView<T>>, i: nat, found: bool, e: Entry, o: T, k: int)
    requires i <= |vs| && (found ==> FoundAt(vs, i, e.key)) && (HasKey(vs, k) || k == e.key)
    ensures HasKey(Joined(vs, i, found, e, o), k)
  {
    var ws, v := Joined(vs, i, found, e, o), LevelView(e.key, e.lots, 1, o);
    if !found { SplicedParts(vs, i, v); }
    if k == e.key {
      assert ws[i].key == k;
    } else {
      var j :| 0 <= j < |vs| && vs[j].key == k;
      assert ws[if found || j < i then j else j + 1].key == k;
    }
  }

  lemma {:induction false} JoinedRights<T>(
      vs: seq<LevelView<T>>, i: nat, found: bool, os: seq<T>, es: seq<Entry>, e: Entry, o: T)
    requires Agree(vs, os, es) && At(vs, i, e.key) && (found <==> FoundAt(vs, i, e.key))
    ensures var ws := Joined(vs, i, found, e, o);
      forall j :: 0 <= j < |ws| ==> Right(ws[j], Spliced(os, Upper(es, e.key), o), Insert(es, e))
  {
    var ws, v := Joined(vs, i, found, e, o), LevelView(e.key, e.lots, 1, o);
    forall j | 0 <= j < |vs|
      ensures var w :=
          if vs[j].key == e.key then vs[j].(lots := vs[j].lots + e.lots, count := vs[j].count + 1) else vs[j];
        Right(w, Spliced(os, Upper(es, e.key), o), Insert(es, e))
    {
      JoinLevel(vs[j], os, es, e, o);
    }
    if found {
    } else {
      SplicedParts(vs, i, v);
      NoLevelNoOrders(vs, es, e.key);
      JoinFresh(os, es, e, o);
      assert forall j :: 0 <= j < |vs| ==> vs[j].key != e.key;
    }
  }

  lemma {:induction false} SplicedStaysDistinct<T>(os: seq<T>, p: nat, o: T)
    requires Distinct(os) && p <= |os| && o !in os
    ensures Distinct(Spliced(os, p, o))
  {
    SplicedParts(os, p, o);
  }

  /** After an order joins its level and the list, the two agree again. */
  lemma {:induction false} JoinAgrees<T>(
      vs: seq<LevelView<T>>, i: nat, found: bool, os: seq<T>, es: seq<Entry>, e: Entry, o: T)
    requires Agree(vs, os, es) && e.lots > 0 && o !in os
    requires At(vs, i, e.key) && (found <==> FoundAt(vs, i, e.key))
    ensures Agree(Joined(vs, i, found, e, o), Spliced(os, Upper(es, e.key), o), Insert(es, e))
  {
    var p, z := Upper(es, e.key), Insert(es, e);
    InsertKeepsSorted(es, e);
    SplicedStaysDistinct(os, p, o);
    JoinedOrdered(vs, i, found, e, o);
    JoinedRights(vs, i, found, os, es, e, o);
    forall j | 0 <= j < |z| ensures HasKey(Joined(vs, i, found, e, o), z[j].key) && z[j].lots > 0 {
      SplicedParts(es, p, e);
      JoinedKeys(vs, i, found, e, o, z[j].key);
    }
  }

  /** Behind the level at i and before the first order of the next level is where price and time priority put it. */
  lemma {:induction false} NextFirstIsUpper<T>(
      vs: seq<LevelView<T>>, i: nat, found: bool, os: seq<T>, es: seq<Entry>, e: Entry, o: T, p: nat)
    requires Agree(vs, os, es) && At(vs, i, e.key) && (found <==> i < |vs| && vs[i].key == e.key)
    requires var ws := Joined(vs, i, found, e, o);
      p <= |os| && if i + 1 < |ws| then p < |os| && os[p] == ws[i + 1].first else p == |os|
    ensures p == Upper(es, e.key)
  {
    var ws, v := Joined(vs, i, found, e, o), LevelView(e.key, e.lots, 1, o);
    if !found { SplicedParts(vs, i, v); }
    var n := if found then i + 1 else i;
    if i + 1 < |ws| {
      assert ws[i + 1] == vs[n] && Right(vs[n], os, es);
      FirstFound(es, vs[n].key);
      assert p == FirstIndex(es, vs[n].key);
    }
    forall j | 0 <= j < p ensures es[j].key <= e.key {
      assert HasKey(vs, es[j].key);
      var m :| 0 <= m < |vs| && vs[m].key == es[j].key;
      if n < |vs| { assert es[j].key <= es[p].key == vs[n].key && es[j].key != vs[n].key; }
      assert m < n;
    }
    UpperIs(es, e.key, p);
  }

  /** The level set after the order at place q leaves the level at place i. */
  ghost function Parted<T>(vs: seq<LevelView<T>>, i: nat, os: seq<T>, q: nat, lots: int): seq<LevelView<T>>
    requires i < |vs| && q < |os|
  {
    var v := vs[i].(lots := vs[i].lots - lots, count := vs[i].count - 1);
    if v.count == 0 then Removed(vs, i)
    else if v.first == os[q] && q + 1 < |os| then vs[i := v.(first := os[q + 1])]
    else vs[i := v]
  }

  /** When an order leaves a level that keeps others, its follower in the list is of the same level. */
  lemma {:induction false} FollowerStays<T>(v: LevelView<T>, os: seq<T>, es: seq<Entry>, q: nat)
    requires Sorted(es) && Distinct(os) && Right(v, os, es) && q < |es| && v.key == es[q].key
    requires v.count != 1 && v.first == os[q]
    ensures q + 1 < |os| && es[q + 1].key == es[q].key
  {
    LevelAfterRemoval(es, q, os, v.key);
    assert FirstIndex(es, v.key) == q;
  }

  lemma {:induction false} PartLevel<T>(v: LevelView<T>, os: seq<T>, es: seq<Entry>, q: nat)
    requires Sorted(es) && Distinct(os) && Right(v, os, es) && q < |es|
    requires v.key == es[q].key ==> v.count != 1
    ensures v.key == es[q].key && v.first == os[q] ==> q + 1 < |os|
    ensures var w :=
        if v.key != es[q].key then v
        else LevelView(v.key, v.lots - es[q].lots, v.count - 1, if v.first == os[q] then os[q + 1] else v.first);
      Right(w, Removed(os, q), Removed(es, q))
  {
    var z := Removed(es, q);
    FirstFound(es, v.key);
    LevelAfterRemoval(es, q, os, v.key);
    assert CountAt(z, v.key) > 0;
    if FirstIndex(es, v.key) == q {
      assert v.first == os[q] && Removed(os, q)[q] == os[q + 1];
    } else {
      assert v.first != os[q];
    }
  }

  /** A level whose only order leaves has no lots left. */
  lemma {:induction false} LastLeavesNothing<T>(v: LevelView<T>, os: seq<T>, es: seq<Entry>, q: nat)
    requires Right(v, os, es) && q < |es| && v.key == es[q].key && v.count == 1
    ensures v.lots == es[q].lots && CountAt(Removed(es, q), v.key) == 0
  {
    Removal(es, q, v.key);
    NoneToSum(Removed(es, q), v.key);
  }

  lemma {:induction false} PartedParts<T>(vs: seq<LevelView<T>>, i: nat, os: seq<T>, q: nat, lots: int)
    requires Ordered(vs) && i < |vs| && q < |os|
    ensures Ordered(Parted(vs, i, os, q, lots))
    ensures forall k :: HasKey(vs, k) ==> HasKey(Parted(vs, i, os, q, lots), k) || (vs[i].count == 1 && k == vs[i].key)
  {
    var ws := Parted(vs, i, os, q, lots);
    if vs[i].count == 1 { RemovedParts(vs, i); }
    forall k | HasKey(vs, k) ensures HasKey(ws, k) || (vs[i].count == 1 && k == vs[i].key) {
      var j :| 0 <= j < |vs| && vs[j].key == k;
      if vs[i].count == 1 {
        if j != i { assert ws[if j < i then j else j - 1].key == k; }
      } else {
        assert ws[j].key == k;
      }
    }
  }

  lemma {:induction false} RemovedStaysDistinct<T>(os: seq<T>, q: nat)
    requires Distinct(os) && q < |os|
    ensures Distinct(Removed(os, q)) && os[q] !in Removed(os, q)
  {
    RemovedParts(os, q);
  }

  /** After an order leaves its level and the list, the two agree again. */
  lemma {:induction false} PartAgrees<T>(vs: seq<LevelView<T>>, i: nat, os: seq<T>, es: seq<Entry>, q: nat)
    requires Agree(vs, os, es) && i < |vs| && q < |es| && vs[i].key == es[q].key
    ensures Agree(Parted(vs, i, os, q, es[q].lots), Removed(os, q), Removed(es, q))
  {
    var ws, z, os' := Parted(vs, i, os, q, es[q].lots), Removed(es, q), Removed(os, q);
    RemovalKeepsSorted(es, q);
    RemovedParts(es, q);
    RemovedStaysDistinct(os, q);
    PartedParts(vs, i, os, q, es[q].lots);
    assert Right(vs[i], os, es);
    if vs[i].count == 1 {
      RemovedParts(vs, i);
      LastLeavesNothing(vs[i], os, es, q);
    }
    forall j | 0 <= j < |ws| ensures Right(ws[j], os', z) {
      var m := if vs[i].count == 1 && j >= i then j + 1 else j;
      PartLevel(vs[m], os, es, q);
    }
    forall j | 0 <= j < |z| ensures HasKey(ws, z[j].key) {
      assert HasKey(vs, z[j].key);
      if vs[i].count == 1 && z[j].key == vs[i].key { CountPositive(z, j); }
    }
  }

  /** The level set after the level at place i loses some lots but no order. */
  function Lowered<T>(vs: seq<LevelView<T>>, i: nat, lots: int): seq<LevelView<T>>
    requires i < |vs|
  {
    vs[i := vs[i].(lots := vs[i].lots - lots)]
  }

  /** After an order is reduced in its level and in the list, the two agree again. */
  lemma {:induction false} ReduceAgrees<T>(vs: seq<LevelView<T>>, i: nat, os: seq<T>, es: seq<Entry>, q: nat, lots: int)
    requires Agree(vs, os, es) && i < |vs| && q < |es| && vs[i].key == es[q].key && lots < es[q].lots
    ensures Agree(Lowered(vs, i, lots), os, es[q := Entry(es[q].key, es[q].lots - lots)])
  {
    var z, ws := es[q := Entry(es[q].key, es[q].lots - lots)], Lowered(vs, i, lots);
    forall j | 0 <= j < |ws| ensures Right(ws[j], os, z) {
      assert Right(vs[j], os, es);
      Update(es, q, es[q].lots - lots, vs[j].key);
    }
    forall j | 0 <= j < |z| ensures HasKey(ws, z[j].key) {
      assert HasKey(vs, es[j].key);
      var m :| 0 <= m < |vs| && vs[m].key == es[j].key;
      assert ws[m].key == z[j].key;
    }
  }

  /** The level set is a function of the order list: its keys, lots, counts and first orders are those of LevelsOf. */
  lemma {:induction false} LevelsFollowList<T>(vs: seq<LevelView<T>>, os: seq<T>, es: seq<Entry>)
    requires Agree(vs, os, es)
    ensures |vs| == |LevelsOf(es)|
    ensures forall i :: 0 <= i < |vs| ==>
      var info := LevelsOf(es)[i];
      info.first < |os| && vs[i] == LevelView(info.key, info.lots, info.count, os[info.first])
    ensures SumLevels(LevelsOf(es)) == Total(es)
  {
    var keys := seq(|vs|, i requires 0 <= i < |vs| => vs[i].key);
    DistinctKeysExact(es);
    forall k ensures k in keys <==> k in DistinctKeys(es) {
      FirstFound(es, k);
      if k in keys {
        var i :| 0 <= i < |keys| && keys[i] == k;
        assert Right(vs[i], os, es);
      }
      if k in DistinctKeys(es) {
        assert HasKey(vs, es[FirstIndex(es, k)].key);
        var i :| 0 <= i < |vs| && vs[i].key == k;
        assert keys[i] == k;
      }
    }
    IncreasingUnique(keys, DistinctKeys(es));
    forall i | 0 <= i < |vs| ensures Right(vs[i], os, es) {}
    LevelsAddUp(es);
  }

  // ---------------------------------------------------------------- whole sides

  /** A side on values. */
  datatype Book<T> = Book(levels: seq<LevelView<T>>, orders: seq<T>, entries: seq<Entry>)

  ghost predicate BookOk<T>(b: Book<T>) {
    match b
    case Book(levels, orders, entries) => Agree(levels, orders, entries)
  }

  /** Where a level of key k stands or belongs. */
  function PlaceOf<T>(vs: seq<LevelView<T>>, k: int): (i: nat)
    ensures i <= |vs|
  {
    if vs == [] || vs[0].key >= k then 0 else 1 + PlaceOf(vs[1..], k)
  }

  lemma {:induction false} PlaceIs<T>(vs: seq<LevelView<T>>, i: nat, k: int)
    requires At(vs, i, k)
    ensures PlaceOf(vs, k) == i
    decreases |vs|
  {
    if vs != [] && i > 0 {
      PlaceIs(vs[1..], i - 1, k);
    }
  }

  lemma {:induction false} PlaceFound<T>(vs: seq<LevelView<T>>, k: int)
    requires Ordered(vs)
    ensures At(vs, PlaceOf(vs, k), k)
    decreases |vs|
  {
    if vs != [] && vs[0].key < k {
      PlaceFound(vs[1..], k);
      var i := PlaceOf(vs, k);
      forall j | 0 <= j < i ensures vs[j].key < k { if j > 0 { assert vs[1..][j - 1].key < k; } }
      forall j | i <= j < |vs| ensures vs[j].key >= k { assert vs[1..][j - 1].key >= k; }
    }
  }

  function Inserted<T>(b: Book<T>, o: T, e: Entry): Book<T>
    requires |b.orders| == |b.entries|
  {
    var i := PlaceOf(b.levels, e.key);
    Book(Joined(b.levels, i, FoundAt(b.levels, i, e.key), e, o),
         Spliced(b.orders, Upper(b.entries, e.key), o), Insert(b.entries, e))
  }

  ghost function Withdrawn<T>(b: Book<T>, q: nat): Book<T>
    requires |b.orders| == |b.entries| && q < |b.entries| && PlaceOf(b.levels, b.entries[q].key) < |b.levels|
  {
    Book(Parted(b.levels, PlaceOf(b.levels, b.entries[q].key), b.orders, q, b.entries[q].lots),
         Removed(b.orders, q), Removed(b.entries, q))
  }

  function Reduced<T>(b: Book<T>, q: nat, lots: int): Book<T>
    requires |b.orders| == |b.entries| && q < |b.entries| && PlaceOf(b.levels, b.entries[q].key) < |b.levels|
  {
    Book(Lowered(b.levels, PlaceOf(b.levels, b.entries[q].key), lots),
         b.orders, b.entries[q := Entry(b.entries[q].key, b.entries[q].lots - lots)])
  }

  lemma {:induction false} InsertedKeeps<T>(b: Book<T>, o: T, e: Entry)
    requires BookOk(b) && e.lots > 0 && o !in b.orders
    ensures BookOk(Inserted(b, o, e))
    ensures Total(Inserted(b, o, e).entries) == Total(b.entries) + e.lots
  {
    var i := PlaceOf(b.levels, e.key);
    PlaceFound(b.levels, e.key);
    JoinAgrees(b.levels, i, FoundAt(b.levels, i, e.key), b.orders, b.entries, e, o);
    Splice(b.entries, Upper(b.entries, e.key), e, 0);
  }

  lemma {:induction false} LevelOfListed<T>(b: Book<T>, q: nat)
    requires BookOk(b) && q < |b.entries|
    ensures FoundAt(b.levels, PlaceOf(b.levels, b.entries[q].key), b.entries[q].key)
  {
    PlaceFound(b.levels, b.entries[q].key);
    assert HasKey(b.levels, b.entries[q].key);
  }

  /** The first level is that of the first order. */
  lemma {:induction false} FirstLevelIsFirst<T>(b: Book<T>)
    requires BookOk(b) && b.orders != []
    ensures b.levels != [] && b.levels[0].key == b.entries[0].key && b.levels[0].first == b.orders[0]
  {
    assert HasKey(b.levels, b.entries[0].key);
    assert Right(b.levels[0], b.orders, b.entries);
    FirstFound(b.entries, b.levels[0].key);
    assert b.entries[FirstIndex(b.entries, b.levels[0].key)].key >= b.entries[0].key;
  }

  lemma {:induction false} WithdrawnKeeps<T>(b: Book<T>, q: nat)
    requires BookOk(b) && q < |b.entries| && PlaceOf(b.levels, b.entries[q].key) < |b.levels|
    ensures BookOk(Withdrawn(b, q))
    ensures Total(Withdrawn(b, q).entries) == Total(b.entries) - b.entries[q].lots
  {
    LevelOfListed(b, q);
    PartAgrees(b.levels, PlaceOf(b.levels, b.entries[q].key), b.orders, b.entries, q);
    Removal(b.entries, q, 0);
  }

  lemma {:induction false} ReducedKeeps<T>(b: Book<T>, q: nat, lots: int)
    requires BookOk(b) && q < |b.entries| && PlaceOf(b.levels, b.entries[q].key) < |b.levels|
    requires lots < b.entries[q].lots
    ensures BookOk(Reduced(b, q, lots))
    ensures Total(Reduced(b, q, lots).entries) == Total(b.entries) - lots
  {
    LevelOfListed(b, q);
    ReduceAgrees(b.levels, PlaceOf(b.levels, b.entries[q].key), b.orders, b.entries, q, lots);
    Update(b.entries, q, b.entries[q].lots - lots, 0);
  }

  /** The book after a listed order loses some of its lots: it leaves when it loses them all. */
  ghost function AfterReducing<T>(b: Book<T>, q: nat, lots: int): Book<T>
    requires |b.orders| == |b.entries| && q < |b.entries| && PlaceOf(b.levels, b.entries[q].key) < |b.levels|
  {
    if lots < b.entries[q].lots then Reduced(b, q, lots) else Withdrawn(b, q)
  }

  function LevelLots<T>(vs: seq<LevelView<T>>): int {
    if vs == [] then 0 else vs[0].lots + LevelLots(vs[1..])
  }

  lemma {:induction false} SameLotsSameSum<T>(vs: seq<LevelView<T>>, infos: seq<LevelInfo>)
    requires |vs| == |infos| && forall i :: 0 <= i < |vs| ==> vs[i].lots == infos[i].lots
    ensures LevelLots(vs) == SumLevels(infos)
    decreases |vs|
  {
    if vs != [] { SameLotsSameSum(vs[1..], infos[1..]); }
  }

  /** The lots of all levels are the lots of all listed orders. */
  lemma {:induction false} LevelLotsTotal<T>(b: Book<T>)
    requires BookOk(b)
    ensures LevelLots(b.levels) == Total(b.entries)
  {
    LevelsFollowList(b.levels, b.orders, b.entries);
    SameLotsSameSum(b.levels, LevelsOf(b.entries));
  }

  /** A take or a revision lowers the side's total level lots by exactly the lots it takes off the order. */
  lemma {:induction false} LevelLotsConserved<T>(b: Book<T>, q: nat, lots: int)
    requires BookOk(b) && q < |b.entries| && 0 <= lots <= b.entries[q].lots
    requires PlaceOf(b.levels, b.entries[q].key) < |b.levels|
    ensures BookOk(AfterReducing(b, q, lots))
    ensures LevelLots(AfterReducing(b, q, lots).levels) == LevelLots(b.levels) - lots
  {
    LevelLotsTotal(b);
    if lots < b.entries[q].lots { ReducedKeeps(b, q, lots); } else { WithdrawnKeeps(b, q); }
    LevelLotsTotal(AfterReducing(b, q, lots));
  }

  /** The orders of a level are the `count` orders that start at its first. */
  lemma {:induction false} LevelIsContiguous(es: seq<Entry>, k: int, j: nat)
    requires Sorted(es) && j < |es|
    ensures es[j].key == k <==> FirstIndex(es, k) <= j < FirstIndex(es, k) + CountAt(es, k)
    decreases |es|
  {
    if j > 0 {
      LevelIsContiguous(es[1..], k, j - 1);
    }
    if es[0].key == k {
      FirstFound(es[1..], k);
      if CountAt(es[1..], k) > 0 {
        var f := FirstIndex(es[1..], k);
        assert es[0].key <= es[1].key <= es[1..][f].key;
        FirstIs(es[1..], k, 0);
      }
    } else {
      FirstFound(es, k);
    }
  }

  /** Inserting the first n orders of a list, in list order, into an empty side. */
  function Rebuilt<T>(os: seq<T>, es: seq<Entry>, n: nat): (b: Book<T>)
    requires n <= |os| == |es|
    ensures |b.orders| == |b.entries|
  {
    if n == 0 then Book([], [], []) else Inserted(Rebuilt(os, es, n - 1), os[n - 1], es[n - 1])
  }

  lemma {:induction false} RebuiltSoFar<T>(os: seq<T>, es: seq<Entry>, n: nat)
    requires n <= |os| == |es| && Sorted(es) && Distinct(os) && forall i :: 0 <= i < |es| ==> es[i].lots > 0
    ensures var b := Rebuilt(os, es, n); BookOk(b) && b.orders == os[..n] && b.entries == es[..n]
    decreases n
  {
    if n > 0 {
      RebuiltSoFar(os, es, n - 1);
      var b := Rebuilt(os, es, n - 1);
      assert os[n - 1] !in os[..n - 1];
      InsertedKeeps(b, os[n - 1], es[n - 1]);
      AppendsLast(os, es, n - 1);
    }
  }

  lemma {:induction false} AppendsLast<T>(os: seq<T>, es: seq<Entry>, n: nat)
    requires n < |os| == |es| && Sorted(es)
    ensures Upper(es[..n], es[n].key) == n
    ensures Spliced(os[..n], n, os[n]) == os[..n + 1] && Insert(es[..n], es[n]) == es[..n + 1]
  {
    UpperIs(es[..n], es[n].key, n);
  }

  lemma {:induction false} SameList<T>(vs: seq<LevelView<T>>, ws: seq<LevelView<T>>, os: seq<T>, es: seq<Entry>)
    requires Agree(vs, os, es) && Agree(ws, os, es)
    ensures vs == ws
  {
    LevelsFollowList(vs, os, es);
    LevelsFollowList(ws, os, es);
    forall i | 0 <= i < |vs| ensures vs[i] == ws[i] {
      assert LevelsOf(es)[i] == LevelsOf(es)[i];
    }
  }

  /** The side is a function of its order list: inserting the listed orders, in list order, into an empty side
      rebuilds the same list and the same key, lots, count and first order for every level. */
  lemma {:induction false} RebuildGivesSameSide<T>(b: Book<T>)
    requires BookOk(b)
    ensures Rebuilt(b.orders, b.entries, |b.orders|) == b
  {
    var n := |b.orders|;
    var r := Rebuilt(b.orders, b.entries, n);
    RebuiltSoFar(b.orders, b.entries, n);
    assert b.orders[..n] == b.orders && b.entries[..n] == b.entries;
    SameList(b.levels, r.levels, b.orders, b.entries);
  }
}
