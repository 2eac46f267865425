/** The frequency map the analyzer builds with `collections.Counter`: an insertion-ordered
    association list from category to count, its `most_common(1)` query, and the stable
    descending sort `sorted(items, key=count, reverse=True)`. */
module Counter {

  /** One `(category, count)` item of the frequency map. */
  datatype Entry = Entry(key: string, count: nat)

  /** The keys of an association list, in its order. */
  function Keys(t: seq<Entry>): seq<string> {
    seq(|t|, i requires 0 <= i < |t| => t[i].key)
  }

  /** No key appears twice: the list is a dictionary. */
  predicate DistinctKeys(t: seq<Entry>) {
    forall i, j :: 0 <= i < j < |t| ==> t[i].key != t[j].key
  }

  /** The position of key `k` in `t`. */
  function IndexOf(t: seq<Entry>, k: string): (i: nat)
    requires k in Keys(t)
    ensures i < |t| && t[i].key == k
    ensures forall j :: 0 <= j < i ==> t[j].key != k
  {
    assert Keys(t) == [t[0].key] + Keys(t[1..]);
    if t[0].key == k then 0 else 1 + IndexOf(t[1..], k)
  }

  /** One step of `Counter(iterable)`: `c[k] = c.get(k, 0) + 1`; an existing key keeps its
      place, a new key is appended. */
  function Bump(t: seq<Entry>, k: string): seq<Entry> {
    if k in Keys(t) then
      var i := IndexOf(t, k);
      t[i := Entry(k, t[i].count + 1)]
    else
      t + [Entry(k, 1)]
  }

  /** `Counter(items)`: the frequency map of `items`, built left to right. */
  function Tally(items: seq<string>): seq<Entry> {
    if items == [] then [] else Bump(Tally(items[..|items| - 1]), items[|items| - 1])
  }

  /** The items of `s` without repetitions, each at the place of its first occurrence. */
  function Distinct(s: seq<string>): seq<string> {
    if s == [] then []
    else
      var d := Distinct(s[..|s| - 1]);
      if s[|s| - 1] in d then d else d + [s[|s| - 1]]
  }

  /** The position of the first occurrence of `x` in `s`. */
  function FirstIndex(s: seq<string>, x: string): (i: nat)
    requires x in s
    ensures i < |s| && s[i] == x
    ensures forall j :: 0 <= j < i ==> s[j] != x
  {
    if s[0] == x then 0 else 1 + FirstIndex(s[1..], x)
  }

  /** The sum of the counts: `sum(counter.values())`. */
  function Total(t: seq<Entry>): nat {
    if t == [] then 0 else Total(t[..|t| - 1]) + t[|t| - 1].count
  }

  lemma {:induction false} TotalUpdate(t: seq<Entry>, i: nat, e: Entry)
    requires i < |t|
    ensures Total(t[i := e]) == Total(t) - t[i].count + e.count
  {
    var u := t[i := e];
    if i < |t| - 1 {
      assert u[..|u| - 1] == t[..|t| - 1][i := e];
      TotalUpdate(t[..|t| - 1], i, e);
    } else {
      assert u[..|u| - 1] == t[..|t| - 1];
    }
  }

  /** `Distinct` keeps exactly the items of `s`, each once. */
  lemma {:induction false} DistinctFacts(s: seq<string>)
    ensures forall x :: x in Distinct(s) <==> x in s
    ensures forall i, j :: 0 <= i < j < |Distinct(s)| ==> Distinct(s)[i] != Distinct(s)[j]
  {
    if s != [] {
      var p := s[..|s| - 1];
      DistinctFacts(p);
      assert s == p + [s[|s| - 1]];
    }
  }

  /** Appending an item does not move the first occurrence of an item already present. */
  lemma FirstIndexAppend(p: seq<string>, x: string, y: string)
    requires y in p
    ensures FirstIndex(p + [x], y) == FirstIndex(p, y)
  {
    var s := p + [x];
    var a, b := FirstIndex(s, y), FirstIndex(p, y);
    assert s[b] == y;
  }

  /** `Distinct` lists the items of `s` in the order in which they first occur. */
  lemma {:induction false} DistinctFirstSeen(s: seq<string>)
    ensures forall x :: x in Distinct(s) ==> x in s
    ensures forall i, j :: 0 <= i < j < |Distinct(s)| ==>
      FirstIndex(s, Distinct(s)[i]) < FirstIndex(s, Distinct(s)[j])
  {
    DistinctFacts(s);
    if s != [] {
      var p, x := s[..|s| - 1], s[|s| - 1];
      var d, dp := Distinct(s), Distinct(p);
      DistinctFirstSeen(p);
      DistinctFacts(p);
      assert s == p + [x];
      forall i, j | 0 <= i < j < |d|
        ensures FirstIndex(s, d[i]) < FirstIndex(s, d[j])
      {
        assert d[i] == dp[i] && d[i] in p;
        FirstIndexAppend(p, x, d[i]);
        if j < |dp| {
          assert d[j] == dp[j] && d[j] in p;
          FirstIndexAppend(p, x, d[j]);
        } else {
          assert d[j] == x && x !in p;
        }
      }
    }
  }

  /** The keys of `Counter(items)` are the distinct items in first-seen order. */
  lemma {:induction false} TallyKeys(items: seq<string>)
    ensures Keys(Tally(items)) == Distinct(items)
    ensures DistinctKeys(Tally(items))
  {
    DistinctFacts(items);
    if items != [] {
      var p, x := items[..|items| - 1], items[|items| - 1];
      var t := Tally(p);
      TallyKeys(p);
      var u := Tally(items);
      if x in Keys(t) {
        assert Keys(u) == Keys(t);
      } else {
        assert Keys(u) == Keys(t) + [x];
      }
      assert forall i :: 0 <= i < |u| ==> u[i].key == Distinct(items)[i];
    }
  }

  /** Each key of `Counter(items)` counts its occurrences in `items`. */
  lemma {:induction false} TallyCounts(items: seq<string>)
    ensures forall i :: 0 <= i < |Tally(items)| ==>
      Tally(items)[i].count == multiset(items)[Tally(items)[i].key]
  {
    if items != [] {
      var p, x := items[..|items| - 1], items[|items| - 1];
      var t := Tally(p);
      TallyCounts(p);
      TallyKeys(p);
      DistinctFacts(p);
      assert items == p + [x];
      assert multiset(items) == multiset(p) + multiset{x};
      var u := Tally(items);
      if x in Keys(t) {
        var i := IndexOf(t, x);
        forall j | 0 <= j < |u|
          ensures u[j].count == multiset(items)[u[j].key]
        {
          if j != i {
            assert u[j] == t[j];
          }
        }
      } else {
        assert x !in p;
        forall j | 0 <= j < |u|
          ensures u[j].count == multiset(items)[u[j].key]
        {
          if j < |t| {
            assert u[j] == t[j];
            assert Keys(t)[j] == u[j].key;
          }
        }
      }
    }
  }

  /** The counts of `Counter(items)` add up to the number of items. */
  lemma {:induction false} TallyTotal(items: seq<string>)
    ensures Total(Tally(items)) == |items|
  {
    if items != [] {
      var p, x := items[..|items| - 1], items[|items| - 1];
      var t := Tally(p);
      TallyTotal(p);
      var u := Tally(items);
      if x in Keys(t) {
        var i := IndexOf(t, x);
        TotalUpdate(t, i, Entry(x, t[i].count + 1));
      } else {
        assert u[..|u| - 1] == t;
      }
    }
  }

  /** The keys of `Counter(items)` keep the order in which the items first occur. */
  lemma TallyFirstSeen(items: seq<string>)
    ensures forall i :: 0 <= i < |Tally(items)| ==> Tally(items)[i].key in items
    ensures forall i, j :: 0 <= i < j < |Tally(items)| ==>
      FirstIndex(items, Tally(items)[i].key) < FirstIndex(items, Tally(items)[j].key)
  {
    TallyKeys(items);
    DistinctFirstSeen(items);
    var t := Tally(items);
    assert forall i :: 0 <= i < |t| ==> t[i].key == Distinct(items)[i];
  }

  /** `counter.most_common(1)`, which is `max(items, key=count)`: the position of the first
      entry whose count no other entry exceeds. */
  function MostCommonIndex(t: seq<Entry>): (k: nat)
    requires t != []
    ensures k < |t|
    ensures forall j :: 0 <= j < |t| ==> t[j].count <= t[k].count
    ensures forall j :: 0 <= j < k ==> t[j].count < t[k].count
  {
    if |t| == 1 then 0
    else
      var k := MostCommonIndex(t[..|t| - 1]);
      if t[|t| - 1].count > t[k].count then |t| - 1 else k
  }

  /** Non-increasing by count. */
  predicate ByCountDesc(t: seq<Entry>) {
    forall i, j :: 0 <= i < j < |t| ==> t[i].count >= t[j].count
  }

  /** The entries of `t` whose count is `c`, in their order in `t`. */
  function WithCount(t: seq<Entry>, c: nat): seq<Entry> {
    if t == [] then []
    else (if t[0].count == c then [t[0]] else []) + WithCount(t[1..], c)
  }

  /** Inserts `e` into a list sorted by descending count, before every entry whose count
      does not exceed its own. */
  function InsertByCount(e: Entry, t: seq<Entry>): (r: seq<Entry>)
    ensures r != [] && (r[0] == e || (t != [] && r[0] == t[0]))
  {
    if t == [] || t[0].count <= e.count then [e] + t else [t[0]] + InsertByCount(e, t[1..])
  }

  /** Insertion adds exactly the new entry. */
  lemma {:induction false} InsertByCountPerm(e: Entry, t: seq<Entry>)
    ensures multiset(InsertByCount(e, t)) == multiset(t) + multiset{e}
  {
    if t != [] && t[0].count > e.count {
      InsertByCountPerm(e, t[1..]);
      assert t == [t[0]] + t[1..];
    }
  }

  /** A list holding `e` and the entries of `u` has no count above a bound they all keep. */
  lemma BoundedBy(r: seq<Entry>, e: Entry, u: seq<Entry>, top: nat)
    requires multiset(r) == multiset(u) + multiset{e}
    requires e.count <= top && forall x :: x in u ==> x.count <= top
    ensures forall x :: x in r ==> x.count <= top
  {
    forall x | x in r
      ensures x.count <= top
    {
      assert x in multiset(r);
      if x != e {
        assert x in multiset(u);
      }
    }
  }

  /** Inserting into a sorted list keeps it sorted. */
  lemma {:induction false} InsertByCountSorted(e: Entry, t: seq<Entry>)
    requires ByCountDesc(t)
    ensures ByCountDesc(InsertByCount(e, t))
  {
    if t != [] && t[0].count > e.count {
      var rest := InsertByCount(e, t[1..]);
      InsertByCountSorted(e, t[1..]);
      InsertByCountPerm(e, t[1..]);
      forall x | x in t[1..]
        ensures x.count <= t[0].count
      {
        var j :| 0 <= j < |t[1..]| && t[1..][j] == x;
        assert t[j + 1] == x;
      }
      BoundedBy(rest, e, t[1..], t[0].count);
      forall i, j | 0 <= i < j < |[t[0]] + rest|
        ensures ([t[0]] + rest)[i].count >= ([t[0]] + rest)[j].count
      {
        if i == 0 {
          assert ([t[0]] + rest)[j] in rest;
        }
      }
    }
  }

  /** `sorted(items, key=count, reverse=True)`: Python's sort is stable, so entries with
      equal counts keep their relative order. */
  function SortByCount(t: seq<Entry>): (r: seq<Entry>)
    ensures ByCountDesc(r)
    ensures multiset(r) == multiset(t)
  {
    if t == [] then []
    else
      var s := SortByCount(t[1..]);
      InsertByCountSorted(t[0], s);
      InsertByCountPerm(t[0], s);
      assert t == [t[0]] + t[1..];
      InsertByCount(t[0], s)
  }

  /** Filtering a list with one more entry in front. */
  lemma WithCountCons(e: Entry, t: seq<Entry>, c: nat)
    ensures WithCount([e] + t, c) == (if e.count == c then [e] else []) + WithCount(t, c)
  {
    assert ([e] + t)[1..] == t;
  }

  /** Insertion puts `e` after only entries with a larger count, so among the entries of any
      one count it lands where it would at the front. */
  lemma {:induction false} InsertByCountStable(e: Entry, t: seq<Entry>, c: nat)
    ensures WithCount(InsertByCount(e, t), c) == WithCount([e] + t, c)
  {
    if t != [] && t[0].count > e.count {
      var rest := InsertByCount(e, t[1..]);
      assert InsertByCount(e, t) == [t[0]] + rest;
      assert [t[0]] + t[1..] == t;
      InsertByCountStable(e, t[1..], c);
      WithCountCons(t[0], rest, c);
      WithCountCons(e, t[1..], c);
      WithCountCons(t[0], t[1..], c);
      WithCountCons(e, t, c);
      if t[0].count == c {
        assert WithCount(InsertByCount(e, t), c) == [t[0]] + WithCount(t[1..], c);
      } else {
        assert WithCount(InsertByCount(e, t), c) == WithCount([e] + t[1..], c);
      }
    }
  }

  /** Stability of the sort: for every count, the entries with that count appear in the
      sorted list in exactly the order they have in the input. */
  lemma {:induction false} SortByCountStable(t: seq<Entry>, c: nat)
    ensures WithCount(SortByCount(t), c) == WithCount(t, c)
  {
    if t != [] {
      var s := SortByCount(t[1..]);
      SortByCountStable(t[1..], c);
      InsertByCountStable(t[0], s, c);
      WithCountCons(t[0], s, c);
      WithCountCons(t[0], t[1..], c);
      assert [t[0]] + t[1..] == t;
    }
  }

  lemma {:induction false} WithCountHead(t: seq<Entry>, m: nat)
    requires m < |t|
    requires forall j :: 0 <= j < m ==> t[j].count != t[m].count
    ensures WithCount(t, t[m].count) != [] && WithCount(t, t[m].count)[0] == t[m]
  {
    if m > 0 {
      WithCountHead(t[1..], m - 1);
    }
  }

  /** The first item of the sorted view is the entry `most_common(1)` reports. */
  lemma SortByCountHead(t: seq<Entry>)
    requires t != []
    ensures SortByCount(t) != [] && SortByCount(t)[0] == t[MostCommonIndex(t)]
  {
    var s, m := SortByCount(t), MostCommonIndex(t);
    var c := t[m].count;
    assert |s| == |t| by {
      assert |multiset(s)| == |multiset(t)|;
    }
    assert s[0].count <= c by {
      assert s[0] in multiset(t);
    }
    assert s[0].count >= c by {
      assert t[m] in multiset(s);
    }
    SortByCountStable(t, c);
    WithCountHead(t, m);
    WithCountHead(s, 0);
  }
}
