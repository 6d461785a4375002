/** The "least-chosen half" selection of `getData` in `src/db.ts`:
    the hub's active rows ordered by `count` ascending, then the row at
    offset `ABS(RANDOM()) % MAX(ROUND(n * 0.5), 1)`. SQLite leaves the order
    of rows with equal counts open, so every count-ascending permutation of
    the candidates is a possible ordering. */
module Selection {
  import opened Rows

  /** How many times row `x` occurs in `s`. */
  function Occurrences(s: seq<DataItem>, x: DataItem): nat {
    multiset(s)[x]
  }

  /** The rows matched by `WHERE hub_id = $hubId AND active = 1`, in table order. */
  function Eligible(datas: seq<DataItem>, hubId: string): (e: seq<DataItem>)
    ensures |e| <= |datas|
    ensures forall x :: x in e <==> x in datas && x.hub_id == hubId && x.active == 1
  {
    if datas == [] then []
    else
      var rest := Eligible(datas[1..], hubId);
      if datas[0].hub_id == hubId && datas[0].active == 1 then [datas[0]] + rest else rest
  }

  /** The candidates are the matching rows with their multiplicity, so
      `|Eligible(datas, hubId)|` is the `COUNT(*)` that sizes the window. */
  lemma {:induction false} EligibleOccurrences(datas: seq<DataItem>, hubId: string, x: DataItem)
    ensures Occurrences(Eligible(datas, hubId), x)
         == if x.hub_id == hubId && x.active == 1 then Occurrences(datas, x) else 0
  {
    if datas != [] {
      EligibleOccurrences(datas[1..], hubId, x);
      assert datas == [datas[0]] + datas[1..];
      assert multiset(datas) == multiset{datas[0]} + multiset(datas[1..]);
      var rest := Eligible(datas[1..], hubId);
      if datas[0].hub_id == hubId && datas[0].active == 1 {
        assert Eligible(datas, hubId) == [datas[0]] + rest;
        assert multiset([datas[0]] + rest) == multiset{datas[0]} + multiset(rest);
      } else {
        assert Eligible(datas, hubId) == rest;
      }
    }
  }

  /** SQLite's `ROUND(n * 0.5)`: `n * 0.5` is exact, and a half is rounded
      away from zero, so an odd `n` rounds up. */
  function HalfRounded(n: nat): nat {
    (n + 1) / 2
  }

  /** `MAX(ROUND(n * 0.5), 1)`: how many of the least-chosen rows may be
      picked. For a non-empty hub it is half the rows, rounded up. */
  function Window(n: nat): (k: nat)
    ensures k >= 1
    ensures n == 0 ==> k == 1
    ensures n >= 1 ==> k <= n && n <= 2 * k <= n + 1
  {
    var h := HalfRounded(n);
    if h > 1 then h else 1
  }

  /** The rows whose count is below `c`. */
  function Below(s: seq<DataItem>, c: int): (b: seq<DataItem>)
    ensures |b| <= |s|
    ensures forall x :: x in b <==> x in s && x.count < c
  {
    if s == [] then []
    else if s[0].count < c then [s[0]] + Below(s[1..], c)
    else Below(s[1..], c)
  }

  /** The rows whose count is at least `c`. */
  function AtLeast(s: seq<DataItem>, c: int): (b: seq<DataItem>)
    ensures forall x :: x in b <==> x in s && x.count >= c
  {
    if s == [] then []
    else if s[0].count >= c then [s[0]] + AtLeast(s[1..], c)
    else AtLeast(s[1..], c)
  }

  /** How many rows are chosen less often than `c`. */
  function CountBelow(s: seq<DataItem>, c: int): nat {
    |Below(s, c)|
  }

  predicate CountSorted(s: seq<DataItem>) {
    forall i, j :: 0 <= i < j < |s| ==> s[i].count <= s[j].count
  }

  /** `o` is one of the orders `ORDER BY count ASC` may produce for `e`. */
  predicate IsCountOrdering(o: seq<DataItem>, e: seq<DataItem>) {
    |o| == |e| && multiset(o) == multiset(e) && CountSorted(o)
  }

  /** `LIMIT 1 OFFSET r % window` on an ordering of the candidates. */
  function Pick(o: seq<DataItem>, r: nat): (p: DataItem)
    requires |o| >= 1
    ensures p in o
    ensures exists k :: 0 <= k < Window(|o|) && k < |o| && o[k] == p
  {
    o[r % Window(|o|)]
  }

  /** A row no more chosen than any row of a sorted sequence may go in front. */
  lemma ConsSorted(a: DataItem, s: seq<DataItem>)
    requires CountSorted(s)
    requires forall y :: y in s ==> a.count <= y.count
    ensures CountSorted([a] + s)
  {
    forall i, j | 0 <= i < j < |[a] + s| ensures ([a] + s)[i].count <= ([a] + s)[j].count {
      if i == 0 {
        assert ([a] + s)[j] in s;
      }
    }
  }

  function Insert(x: DataItem, o: seq<DataItem>): (r: seq<DataItem>)
    requires CountSorted(o)
    ensures |r| == |o| + 1
    ensures CountSorted(r) && multiset(r) == multiset(o) + multiset{x}
  {
    if o == [] || x.count <= o[0].count then
      ConsSorted(x, o);
      [x] + o
    else
      var rest := Insert(x, o[1..]);
      InsertBehindHead(x, o, rest);
      [o[0]] + rest
  }

  /** A row chosen more often than the head of a sorted sequence goes
      behind it. */
  lemma InsertBehindHead(x: DataItem, o: seq<DataItem>, rest: seq<DataItem>)
    requires CountSorted(o) && |o| >= 1 && o[0].count < x.count
    requires CountSorted(rest) && multiset(rest) == multiset(o[1..]) + multiset{x}
    ensures CountSorted([o[0]] + rest)
    ensures multiset([o[0]] + rest) == multiset(o) + multiset{x}
  {
    assert o == [o[0]] + o[1..];
    forall y | y in rest ensures o[0].count <= y.count {
      assert y in multiset(rest);
      assert y in multiset(o[1..]) || y == x;
    }
    ConsSorted(o[0], rest);
  }

  /** Insertion sort by count: it shows that a count-ascending ordering
      always exists. */
  function SortByCount(s: seq<DataItem>): (o: seq<DataItem>)
    ensures IsCountOrdering(o, s)
  {
    if s == [] then []
    else
      assert s == [s[0]] + s[1..];
      Insert(s[0], SortByCount(s[1..]))
  }

  lemma SortKeepsRows(s: seq<DataItem>, u: DataItem)
    ensures u in SortByCount(s) <==> u in s
  {
    assert u in SortByCount(s) <==> u in multiset(SortByCount(s));
  }

  lemma {:induction false} BelowAppend(a: seq<DataItem>, b: seq<DataItem>, c: int)
    ensures Below(a + b, c) == Below(a, c) + Below(b, c)
  {
    if a != [] {
      assert (a + b)[0] == a[0];
      assert (a + b)[1..] == a[1..] + b;
      BelowAppend(a[1..], b, c);
      if a[0].count < c {
        assert Below(a + b, c) == [a[0]] + (Below(a[1..], c) + Below(b, c));
      }
    } else {
      assert a + b == b;
    }
  }

  /** No row of `s` counts below `c`, so none is below it. */
  lemma {:induction false} BelowNone(s: seq<DataItem>, c: int)
    requires forall i :: 0 <= i < |s| ==> s[i].count >= c
    ensures Below(s, c) == []
  {
    if s != [] {
      BelowNone(s[1..], c);
    }
  }

  lemma {:induction false} BelowMultiset(s: seq<DataItem>, c: int)
    ensures forall x :: multiset(Below(s, c))[x] == if x.count < c then multiset(s)[x] else 0
  {
    if s != [] {
      BelowMultiset(s[1..], c);
      assert s == [s[0]] + s[1..];
    }
  }

  lemma {:induction false} SplitMultiset(s: seq<DataItem>, c: int)
    ensures multiset(Below(s, c)) + multiset(AtLeast(s, c)) == multiset(s)
  {
    if s != [] {
      SplitMultiset(s[1..], c);
      assert s == [s[0]] + s[1..];
    }
  }

  /** The number of rows below a count does not depend on the order of the rows. */
  lemma CountBelowPermutation(a: seq<DataItem>, b: seq<DataItem>, c: int)
    requires multiset(a) == multiset(b)
    ensures CountBelow(a, c) == CountBelow(b, c)
  {
    BelowMultiset(a, c);
    BelowMultiset(b, c);
    assert multiset(Below(a, c)) == multiset(Below(b, c));
    assert |multiset(Below(a, c))| == |Below(a, c)|;
    assert |multiset(Below(b, c))| == |Below(b, c)|;
  }

  /** In a count-ascending ordering every row ahead of position `p` at a lower
      count sits before `p`, so at most `p` rows count less than `o[p]`. */
  lemma SortedPrefixBelow(o: seq<DataItem>, p: nat)
    requires CountSorted(o) && p < |o|
    ensures CountBelow(o, o[p].count) <= p
  {
    var c := o[p].count;
    assert o == o[..p] + o[p..];
    BelowAppend(o[..p], o[p..], c);
    BelowNone(o[p..], c);
  }

  /** Whatever the tie order and whatever `r`, the row picked is one of the
      hub's active rows, and fewer rows than the window count less than it. */
  lemma PickIsAmongLeastChosen(e: seq<DataItem>, o: seq<DataItem>, r: nat)
    requires IsCountOrdering(o, e) && |e| >= 1
    ensures |o| == |e| && r % Window(|e|) < |o|
    ensures Pick(o, r) in e
    ensures CountBelow(e, Pick(o, r).count) < Window(|e|)
  {
    assert |multiset(o)| == |o| && |multiset(e)| == |e|;
    var k := r % Window(|e|);
    SortedPrefixBelow(o, k);
    CountBelowPermutation(o, e, o[k].count);
    assert o[k] in multiset(e);
  }

  function RemoveOne(s: seq<DataItem>, x: DataItem): (r: seq<DataItem>)
    requires x in s
    ensures multiset(r) + multiset{x} == multiset(s)
    ensures forall y :: y in r ==> y in s
  {
    if s[0] == x then
      assert s == [s[0]] + s[1..];
      s[1..]
    else
      assert s == [s[0]] + s[1..];
      [s[0]] + RemoveOne(s[1..], x)
  }

  lemma SortedConcat(a: seq<DataItem>, b: seq<DataItem>)
    requires CountSorted(a) && CountSorted(b)
    requires forall u, v :: u in a && v in b ==> u.count <= v.count
    ensures CountSorted(a + b)
  {
    forall i, j | 0 <= i < j < |a + b| ensures (a + b)[i].count <= (a + b)[j].count {
      if j >= |a| && i < |a| {
        assert (a + b)[i] in a && (a + b)[j] in b;
      }
    }
  }

  /** The ordering built for `EveryLeastChosenRowCanBePicked`: the rows
      below `x`'s count sorted, then `x`, then the other rows sorted. */
  function OrderingWith(e: seq<DataItem>, x: DataItem): seq<DataItem>
    requires x in e
  {
    SortByCount(Below(e, x.count)) + [x] + SortByCount(RemoveOne(AtLeast(e, x.count), x))
  }

  lemma OrderingWithSorted(e: seq<DataItem>, x: DataItem)
    requires x in e
    ensures CountSorted(OrderingWith(e, x))
  {
    var c := x.count;
    var lo := SortByCount(Below(e, c));
    var hi := SortByCount(RemoveOne(AtLeast(e, c), x));
    forall u | u in lo ensures u.count < c {
      SortKeepsRows(Below(e, c), u);
    }
    forall v | v in hi ensures v.count >= c {
      SortKeepsRows(RemoveOne(AtLeast(e, c), x), v);
    }
    SortedConcat(lo, [x]);
    SortedConcat(lo + [x], hi);
  }

  lemma OrderingWithMultiset(e: seq<DataItem>, x: DataItem)
    requires x in e
    ensures multiset(OrderingWith(e, x)) == multiset(e)
  {
    var c := x.count;
    var lo := SortByCount(Below(e, c));
    var rest := RemoveOne(AtLeast(e, c), x);
    var hi := SortByCount(rest);
    SplitMultiset(e, c);
    calc {
      multiset(OrderingWith(e, x));
      multiset(lo) + multiset{x} + multiset(hi);
      multiset(Below(e, c)) + multiset{x} + multiset(rest);
      multiset(Below(e, c)) + multiset(AtLeast(e, c));
      multiset(e);
    }
  }

  lemma OrderingWithIsOrdering(e: seq<DataItem>, x: DataItem)
    requires x in e
    ensures IsCountOrdering(OrderingWith(e, x), e)
    ensures |SortByCount(Below(e, x.count))| == CountBelow(e, x.count)
  {
    OrderingWithSorted(e, x);
    OrderingWithMultiset(e, x);
    assert |multiset(OrderingWith(e, x))| == |OrderingWith(e, x)| && |multiset(e)| == |e|;
  }

  /** Conversely, every active row that fewer than window-many rows beat on
      count is picked under some tie order, at offset `CountBelow`, which is
      below the window and so equal to `r % window` for `r` equal to it. */
  lemma EveryLeastChosenRowCanBePicked(e: seq<DataItem>, x: DataItem)
    requires x in e && CountBelow(e, x.count) < Window(|e|)
    ensures exists o :: IsCountOrdering(o, e) && CountBelow(e, x.count) < |o| && o[CountBelow(e, x.count)] == x
  {
    OrderingWithIsOrdering(e, x);
    var o := OrderingWith(e, x);
    assert o[CountBelow(e, x.count)] == x;
  }

  /** The worked example: with counts `[0, 0, 1, 1]` the window is two,
      both count-1 rows are beaten by two rows, so only a count-0 row can
      come out. */
  lemma CountsZeroZeroOneOne(e: seq<DataItem>, o: seq<DataItem>, r: nat)
    requires |e| == 4 && e[0].count == 0 && e[1].count == 0 && e[2].count == 1 && e[3].count == 1
    requires IsCountOrdering(o, e)
    ensures Pick(o, r).count == 0
  {
    PickIsAmongLeastChosen(e, o, r);
    assert Window(4) == 2;
    BelowNone(e[2..], 1);
    assert e[1..][1..] == e[2..];
    assert Below(e[1..], 1) == [e[1]] + Below(e[2..], 1);
    assert Below(e, 1) == [e[0]] + Below(e[1..], 1);
  }

  /** A hub with one active row always yields that row. */
  lemma SingleCandidate(e: seq<DataItem>, o: seq<DataItem>, r: nat)
    requires |e| == 1 && IsCountOrdering(o, e)
    ensures Pick(o, r) == e[0]
  {
    PickIsAmongLeastChosen(e, o, r);
  }

  /** With one or two active rows the window is a single row, and the pick
      has the smallest count among them. */
  lemma SmallHubPicksLeastChosen(e: seq<DataItem>, o: seq<DataItem>, r: nat)
    requires 1 <= |e| <= 2 && IsCountOrdering(o, e)
    ensures forall y :: y in e ==> Pick(o, r).count <= y.count
  {
    PickIsAmongLeastChosen(e, o, r);
    assert Below(e, Pick(o, r).count) == [];
  }

  /** Selecting only rewrites counts, so the candidates after an update are
      the candidates before it with the same update applied. */
  lemma {:induction false} EligibleSetCount(datas: seq<DataItem>, hubId: string, id: string, c: nat)
    ensures Eligible(SetCount(datas, id, c), hubId) == SetCount(Eligible(datas, hubId), id, c)
  {
    if datas != [] {
      EligibleSetCount(datas[1..], hubId, id, c);
      assert datas == [datas[0]] + datas[1..];
      SetCountCons(datas[0], datas[1..], id, c);
      if datas[0].hub_id == hubId && datas[0].active == 1 {
        SetCountCons(datas[0], Eligible(datas[1..], hubId), id, c);
      }
    }
  }

  /** A count update rewrites the first row and then the rest. */
  lemma SetCountCons(d: DataItem, rest: seq<DataItem>, id: string, c: nat)
    ensures SetCount([d] + rest, id, c) == [if d.id == id then d.(count := c) else d] + SetCount(rest, id, c)
  {
  }

  /** Candidates of a table with unique identifiers have unique identifiers. */
  lemma {:induction false} EligibleUnique(datas: seq<DataItem>, hubId: string)
    requires UniqueIds(datas)
    ensures UniqueIds(Eligible(datas, hubId))
  {
    if datas != [] {
      EligibleUnique(datas[1..], hubId);
      var rest := Eligible(datas[1..], hubId);
      forall y | y in rest ensures y.id != datas[0].id {
        var j :| 0 <= j < |datas[1..]| && datas[1..][j] == y;
        assert datas[j + 1] == y;
      }
    }
  }

  /** A deactivated identifier is never among the candidates. */
  lemma DeactivatedNeverEligible(datas: seq<DataItem>, hubId: string, id: string)
    requires NoActiveWithId(datas, id)
    ensures forall x :: x in Eligible(datas, hubId) ==> x.id != id
  {
  }

  /** Of two candidates with different counts the less chosen one is picked. */
  lemma PickOfTwo(e: seq<DataItem>, o: seq<DataItem>, r: nat, k: nat)
    requires |e| == 2 && k < 2 && e[k].count < e[1 - k].count
    requires IsCountOrdering(o, e)
    ensures Pick(o, r) == e[k]
  {
    SmallHubPicksLeastChosen(e, o, r);
    PickIsAmongLeastChosen(e, o, r);
    assert Pick(o, r) in e;
  }

  /** After candidate `k` of two equally chosen ones has its count raised
      by one, the other one is picked. */
  lemma AfterPickOther(e: seq<DataItem>, k: nat, o': seq<DataItem>, r': nat)
    requires |e| == 2 && k < 2 && e[0].id != e[1].id && e[0].count == e[1].count
    requires IsCountOrdering(o', SetCount(e, e[k].id, e[k].count + 1))
    ensures Pick(o', r') == e[1 - k]
  {
    var e' := SetCount(e, e[k].id, e[k].count + 1);
    assert e'[k].count == e[k].count + 1 && e'[1 - k] == e[1 - k];
    PickOfTwo(e', o', r', 1 - k);
  }

  /** Two equally chosen active rows of a hub whose identifiers are unique
      are served in turn: whichever of them is picked first (its count is
      then written as its old count plus one), the next pick is the other. */
  lemma TwoItemsAlternate(datas: seq<DataItem>, hubId: string, e: seq<DataItem>, k: nat,
                           o': seq<DataItem>, r': nat)
    requires UniqueIds(datas) && e == Eligible(datas, hubId)
    requires |e| == 2 && k < 2 && e[0].count == e[1].count
    requires IsCountOrdering(o', Eligible(SetCount(datas, e[k].id, e[k].count + 1), hubId))
    ensures |o'| == 2 && Pick(o', r') == e[1 - k]
  {
    EligibleUnique(datas, hubId);
    EligibleSetCount(datas, hubId, e[k].id, e[k].count + 1);
    UniquePairAlternates(e, Eligible(SetCount(datas, e[k].id, e[k].count + 1), hubId), k, o', r');
  }

  lemma UniquePairAlternates(e: seq<DataItem>, e': seq<DataItem>, k: nat, o': seq<DataItem>, r': nat)
    requires UniqueIds(e) && |e| == 2 && k < 2 && e[0].count == e[1].count
    requires e' == SetCount(e, e[k].id, e[k].count + 1)
    requires IsCountOrdering(o', e')
    ensures Pick(o', r') == e[1 - k]
  {
    assert e[0].id != e[1].id;
    AfterPickOther(e, k, o', r');
  }
}
