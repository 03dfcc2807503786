/** The Split-And-Merge search of the itemset miner.  The working list holds
    (count, transaction) entries in ascending `lexi_repr` order.  One round
    strips the leading item i from the leading run of entries that start
    with i (the split), merges what is left of those entries back into the
    rest of the list (the merge), and recurses on the stripped run when the
    summed count of the run reaches the minimum support. */
module Sam {
  import opened Lexi
  import opened Encoding

  // ---------------------------------------------------------------------
  // Measures and shapes of a working list

  /** The total number of items over all entries: the measure that every
      round of the search makes smaller. */
  function TailLength(data: seq<Entry>): nat {
    if data == [] then 0 else |data[0].items| + TailLength(data[1..])
  }

  /** The items that occur in some entry. */
  function ItemsIn(data: seq<Entry>): set<Item> {
    if data == [] then {} else (set x | x in data[0].items) + ItemsIn(data[1..])
  }

  /** The entries are strictly ascending in `lexi_repr` order, so no
      transaction is listed twice. */
  predicate Ascending(data: seq<Entry>, f: Frequencies) {
    forall i, j :: 0 <= i < j < |data| ==> TxLess(f, data[i].items, data[j].items)
  }

  /** Every entry still holds at least one item. */
  predicate NonEmptyTails(data: seq<Entry>) {
    forall k :: 0 <= k < |data| ==> data[k].items != []
  }

  lemma {:induction false} TotalSplit(a: seq<Entry>, k: nat)
    requires k <= |a|
    ensures Total(a) == Total(a[..k]) + Total(a[k..])
  {
    if k > 0 {
      TotalSplit(a[1..], k - 1);
      assert a[..k][1..] == a[1..][..k - 1];
      assert a[k..] == a[1..][k - 1..];
    } else {
      assert a[k..] == a;
    }
  }

  lemma {:induction false} TailLengthSplit(a: seq<Entry>, k: nat)
    requires k <= |a|
    ensures TailLength(a) == TailLength(a[..k]) + TailLength(a[k..])
  {
    if k > 0 {
      TailLengthSplit(a[1..], k - 1);
      assert a[..k][1..] == a[1..][..k - 1];
      assert a[k..] == a[1..][k - 1..];
    } else {
      assert a[k..] == a;
    }
  }

  lemma {:induction false} ItemsInSplit(a: seq<Entry>, k: nat)
    requires k <= |a|
    ensures ItemsIn(a) == ItemsIn(a[..k]) + ItemsIn(a[k..])
  {
    if k > 0 {
      ItemsInSplit(a[1..], k - 1);
      assert a[..k][1..] == a[1..][..k - 1];
      assert a[k..] == a[1..][k - 1..];
    } else {
      assert a[k..] == a;
    }
  }

  // ---------------------------------------------------------------------
  // The split

  /** How many leading entries start with item i. */
  function RunLength(a: seq<Entry>, i: Item): (k: nat)
    ensures k <= |a|
  {
    if a != [] && a[0].items != [] && a[0].items[0] == i then 1 + RunLength(a[1..], i) else 0
  }

  /** The entries of a run with their first item removed; entries left
      without items are dropped. */
  function Strip(run: seq<Entry>): seq<Entry> {
    if run == [] then []
    else
      (if |run[0].items| > 1 then [Entry(run[0].count, run[0].items[1..])] else []) + Strip(run[1..])
  }

  /** The inner loop of `sam` (the split step): while the front entry starts
      with i, add its count to s, remove i from it, and move it to b if items
      remain or drop it if none do.  Afterwards the leading run of entries
      starting with i has left a, s is the summed count of that run, and b
      holds the run's non-empty tails in their order. */
  method Split(a: seq<Entry>, i: Item) returns (s: nat, rest: seq<Entry>, b: seq<Entry>)
    ensures var k := RunLength(a, i);
      && rest == a[k..]
      && s == Total(a[..k])
      && b == Strip(a[..k])
  {
    rest := a;
    b := [];
    s := 0;
    ghost var done := 0;
    while |rest| > 0 && |rest[0].items| > 0 && rest[0].items[0] == i
      invariant done <= RunLength(a, i)
      invariant rest == a[done..]
      invariant RunLength(a, i) == done + RunLength(rest, i)
      invariant s == Total(a[..done])
      invariant b == Strip(a[..done])
      decreases |rest|
    {
      assert a[..done + 1] == a[..done] + [rest[0]];
      StripAppend(a[..done], rest[0]);
      TotalSplit(a[..done + 1], done);
      assert a[..done + 1][..done] == a[..done] && a[..done + 1][done..] == [rest[0]];
      s := s + rest[0].count;
      rest := [Entry(rest[0].count, rest[0].items[1..])] + rest[1..];
      if |rest[0].items| > 0 {
        b := b + [rest[0]];
        rest := rest[1..];
      } else {
        rest := rest[1..];
      }
      done := done + 1;
      assert rest == a[done..];
    }
  }

  lemma {:induction false} StripAppend(run: seq<Entry>, e: Entry)
    ensures Strip(run + [e]) == Strip(run) + (if |e.items| > 1 then [Entry(e.count, e.items[1..])] else [])
  {
    if run != [] {
      StripAppend(run[1..], e);
      assert (run + [e])[1..] == run[1..] + [e];
    }
  }

  /** The leading run: its entries all start with i. */
  lemma {:induction false} RunStartsWith(a: seq<Entry>, i: Item)
    ensures NonEmptyTails(a[..RunLength(a, i)])
    ensures forall k :: 0 <= k < RunLength(a, i) ==> a[k].items[0] == i
  {
    if RunLength(a, i) > 0 {
      RunStartsWith(a[1..], i);
      forall k | 0 <= k < RunLength(a, i) ensures a[k].items != [] && a[k].items[0] == i {
        if k > 0 {
          assert a[k] == a[1..][k - 1];
        }
      }
    }
  }

  /** Stripping a run removes exactly one item per entry: the stripped
      counts never exceed the run's total, the items shrink by the run's
      length, and no item is added. */
  lemma {:induction false} StripMeasures(run: seq<Entry>)
    requires NonEmptyTails(run)
    ensures Total(Strip(run)) <= Total(run)
    ensures TailLength(Strip(run)) + |run| == TailLength(run)
    ensures ItemsIn(Strip(run)) <= ItemsIn(run)
    ensures NonEmptyTails(Strip(run))
  {
    if run != [] {
      StripMeasures(run[1..]);
      var tail := run[0].items[1..];
      var head := if |run[0].items| > 1 then [Entry(run[0].count, tail)] else [];
      assert Strip(run) == head + Strip(run[1..]);
      TotalConcat(head, Strip(run[1..]));
      TailLengthConcat(head, Strip(run[1..]));
      ItemsInConcat(head, Strip(run[1..]));
      assert run[0].items == [run[0].items[0]] + tail;
    }
  }

  /** Every stripped entry is an entry of the run without its first item i. */
  lemma {:induction false} StripOrigins(run: seq<Entry>, i: Item)
    requires NonEmptyTails(run)
    requires forall k :: 0 <= k < |run| ==> run[k].items[0] == i
    ensures forall e :: e in Strip(run) ==> exists k :: 0 <= k < |run| && run[k].items == [i] + e.items
  {
    if run != [] {
      var rest := run[1..];
      StripOrigins(rest, i);
      assert run[0].items == [i] + run[0].items[1..];
      forall e | e in Strip(run) ensures exists k :: 0 <= k < |run| && run[k].items == [i] + e.items {
        if e in Strip(rest) {
          var k :| 0 <= k < |rest| && rest[k].items == [i] + e.items;
          assert run[k + 1] == rest[k];
        } else {
          assert run[0].items == [i] + e.items;
        }
      }
    }
  }

  /** Stripping the same first item from an ascending run keeps it ascending:
      entries that share their first item are ordered by what follows it. */
  lemma {:induction false} StripAscending(run: seq<Entry>, i: Item, f: Frequencies)
    requires NonEmptyTails(run) && Ascending(run, f)
    requires forall k :: 0 <= k < |run| ==> run[k].items[0] == i
    ensures Ascending(Strip(run), f)
  {
    if run != [] {
      var rest := run[1..];
      AscendingHead(f, run);
      StripAscending(rest, i, f);
      var tail := run[0].items[1..];
      if tail != [] {
        StripBelow(run, i, f);
        AscendingCons(f, Entry(run[0].count, tail), Strip(rest));
      }
    }
  }

  /** The stripped head of an ascending run is below the rest stripped. */
  lemma StripBelow(run: seq<Entry>, i: Item, f: Frequencies)
    requires run != [] && NonEmptyTails(run) && Below(f, run[0].items, run[1..])
    requires forall k :: 0 <= k < |run| ==> run[k].items[0] == i
    ensures Below(f, run[0].items[1..], Strip(run[1..]))
  {
    var rest := run[1..];
    var tail := run[0].items[1..];
    assert run[0].items == [i] + tail;
    StripOrigins(rest, i);
    forall k | 0 <= k < |Strip(rest)| ensures TxLess(f, tail, Strip(rest)[k].items) {
      var e := Strip(rest)[k];
      assert e in Strip(rest);
      var m :| 0 <= m < |rest| && rest[m].items == [i] + e.items;
      assert TxLess(f, run[0].items, rest[m].items);
      TxLessSameHead(f, i, tail, e.items);
    }
  }


  lemma {:induction false} TotalConcat(a: seq<Entry>, b: seq<Entry>)
    ensures Total(a + b) == Total(a) + Total(b)
  {
    if a != [] {
      TotalConcat(a[1..], b);
      assert (a + b)[0] == a[0] && (a + b)[1..] == a[1..] + b;
    } else {
      assert a + b == b;
    }
  }

  lemma {:induction false} TailLengthConcat(a: seq<Entry>, b: seq<Entry>)
    ensures TailLength(a + b) == TailLength(a) + TailLength(b)
  {
    if a != [] {
      TailLengthConcat(a[1..], b);
      assert (a + b)[0] == a[0] && (a + b)[1..] == a[1..] + b;
    } else {
      assert a + b == b;
    }
  }

  lemma {:induction false} ItemsInConcat(a: seq<Entry>, b: seq<Entry>)
    ensures ItemsIn(a + b) == ItemsIn(a) + ItemsIn(b)
  {
    if a != [] {
      ItemsInConcat(a[1..], b);
      assert (a + b)[0] == a[0] && (a + b)[1..] == a[1..] + b;
    } else {
      assert a + b == b;
    }
  }

  // ---------------------------------------------------------------------
  // The merge

  /** The merge of two working lists: the smaller front entry goes first,
      and two front entries with equal `lexi_repr` become one entry whose
      count is the sum. */
  function Merged(a: seq<Entry>, b: seq<Entry>, f: Frequencies): seq<Entry>
    decreases |a| + |b|
  {
    if a == [] then b
    else if b == [] then a
    else if TxLess(f, b[0].items, a[0].items) then [b[0]] + Merged(a, b[1..], f)
    else if TxLess(f, a[0].items, b[0].items) then [a[0]] + Merged(a[1..], b, f)
    else [Entry(b[0].count + a[0].count, b[0].items)] + Merged(a[1..], b[1..], f)
  }

  /** The merge emits b's front entry first when it is the smaller one. */
  lemma MergedTakeB(d: seq<Entry>, a: seq<Entry>, b: seq<Entry>, f: Frequencies)
    requires a != [] && b != [] && TxLess(f, b[0].items, a[0].items)
    ensures d + Merged(a, b, f) == (d + [b[0]]) + Merged(a, b[1..], f)
  {
  }

  /** The merge emits a's front entry first when it is the smaller one. */
  lemma MergedTakeA(d: seq<Entry>, a: seq<Entry>, b: seq<Entry>, f: Frequencies)
    requires a != [] && b != [] && !TxLess(f, b[0].items, a[0].items) && TxLess(f, a[0].items, b[0].items)
    ensures d + Merged(a, b, f) == (d + [a[0]]) + Merged(a[1..], b, f)
  {
  }

  /** Equal front entries leave the merge as one entry with the summed count. */
  lemma MergedCombine(d: seq<Entry>, a: seq<Entry>, b: seq<Entry>, f: Frequencies)
    requires a != [] && b != [] && !TxLess(f, b[0].items, a[0].items) && !TxLess(f, a[0].items, b[0].items)
    ensures d + Merged(a, b, f) == (d + [Entry(b[0].count + a[0].count, b[0].items)]) + Merged(a[1..], b[1..], f)
  {
  }

  /** Once one side is exhausted the merge is the other side unchanged. */
  lemma MergedDone(a: seq<Entry>, b: seq<Entry>, f: Frequencies)
    requires a == [] || b == []
    ensures Merged(a, b, f) == a + b
  {
    if a == [] {
      assert a + b == b;
    } else {
      assert a + b == a;
    }
  }

  /** The transactions listed in a working list, as a set. */
  function ItemLists(data: seq<Entry>): set<seq<Item>> {
    set k | 0 <= k < |data| :: data[k].items
  }

  lemma ItemListsCons(x: Entry, r: seq<Entry>)
    ensures ItemLists([x] + r) == {x.items} + ItemLists(r)
  {
    var d := [x] + r;
    forall t | t in ItemLists(r) ensures t in ItemLists(d) {
      var k :| 0 <= k < |r| && r[k].items == t;
      assert d[k + 1] == r[k];
    }
    forall t | t in ItemLists(d) ensures t in {x.items} + ItemLists(r) {
      var k :| 0 <= k < |d| && d[k].items == t;
      if k > 0 {
        assert d[k] == r[k - 1];
      }
    }
    assert d[0] == x;
  }

  /** t comes before every transaction of data. */
  predicate Below(f: Frequencies, t: seq<Item>, data: seq<Entry>) {
    forall k :: 0 <= k < |data| ==> TxLess(f, t, data[k].items)
  }

  lemma AscendingCons(f: Frequencies, x: Entry, r: seq<Entry>)
    requires Below(f, x.items, r) && Ascending(r, f)
    ensures Ascending([x] + r, f)
  {
    var d := [x] + r;
    forall i, j | 0 <= i < j < |d| ensures TxLess(f, d[i].items, d[j].items) {
      assert d[j] == r[j - 1];
      if i > 0 {
        assert d[i] == r[i - 1];
      }
    }
  }

  /** Every transaction of an ascending list comes after its first one. */
  lemma AscendingHead(f: Frequencies, d: seq<Entry>)
    requires d != [] && Ascending(d, f)
    ensures Below(f, d[0].items, d[1..]) && Ascending(d[1..], f)
  {
    forall k | 0 <= k < |d| - 1 ensures TxLess(f, d[0].items, d[1..][k].items) {
      assert d[1..][k] == d[k + 1];
    }
  }

  /** A transaction below every transaction of a list is below the list's
      set of transactions. */
  lemma BelowLists(f: Frequencies, t: seq<Item>, d: seq<Entry>, u: seq<Item>)
    requires Below(f, t, d) && u in ItemLists(d)
    ensures TxLess(f, t, u)
  {
  }

  /** The merge loses and invents no transaction: the transactions of the
      merged list are those of the two inputs. */
  lemma {:induction false} MergedItemLists(a: seq<Entry>, b: seq<Entry>, f: Frequencies)
    ensures ItemLists(Merged(a, b, f)) == ItemLists(a) + ItemLists(b)
    decreases |a| + |b|
  {
    if a != [] && b != [] {
      if TxLess(f, b[0].items, a[0].items) {
        var m := Merged(a, b[1..], f);
        assert Merged(a, b, f) == [b[0]] + m;
        MergedItemLists(a, b[1..], f);
        ItemListsCons(b[0], m);
        ItemListsCons(b[0], b[1..]);
        assert [b[0]] + b[1..] == b;
      } else if TxLess(f, a[0].items, b[0].items) {
        var m := Merged(a[1..], b, f);
        assert Merged(a, b, f) == [a[0]] + m;
        MergedItemLists(a[1..], b, f);
        ItemListsCons(a[0], m);
        ItemListsCons(a[0], a[1..]);
        assert [a[0]] + a[1..] == a;
      } else {
        TxLessTotal(f, a[0].items, b[0].items);
        var m := Merged(a[1..], b[1..], f);
        var x := Entry(b[0].count + a[0].count, b[0].items);
        assert Merged(a, b, f) == [x] + m;
        MergedItemLists(a[1..], b[1..], f);
        ItemListsCons(x, m);
        ItemListsCons(a[0], a[1..]);
        ItemListsCons(b[0], b[1..]);
        assert [a[0]] + a[1..] == a && [b[0]] + b[1..] == b;
      }
    }
  }


  /** Merging two ascending lists gives an ascending list, so the working
      list of `sam` stays sorted and duplicate-free round after round. */
  lemma {:induction false} MergedAscending(a: seq<Entry>, b: seq<Entry>, f: Frequencies)
    requires Ascending(a, f) && Ascending(b, f)
    ensures Ascending(Merged(a, b, f), f)
    decreases |a| + |b|
  {
    if a != [] && b != [] {
      AscendingHead(f, a);
      AscendingHead(f, b);
      if TxLess(f, b[0].items, a[0].items) {
        var r := Merged(a, b[1..], f);
        MergedAscending(a, b[1..], f);
        MergedItemLists(a, b[1..], f);
        forall k | 0 <= k < |r| ensures TxLess(f, b[0].items, r[k].items) {
          assert r[k].items in ItemLists(r);
          if r[k].items in ItemLists(a) {
            var j :| 0 <= j < |a| && a[j].items == r[k].items;
            if j > 0 {
              assert a[1..][j - 1] == a[j];
              TxLessTransitive(f, b[0].items, a[0].items, a[j].items);
            }
          } else {
            BelowLists(f, b[0].items, b[1..], r[k].items);
          }
        }
        AscendingCons(f, b[0], r);
      } else if TxLess(f, a[0].items, b[0].items) {
        var r := Merged(a[1..], b, f);
        MergedAscending(a[1..], b, f);
        MergedItemLists(a[1..], b, f);
        forall k | 0 <= k < |r| ensures TxLess(f, a[0].items, r[k].items) {
          assert r[k].items in ItemLists(r);
          if r[k].items in ItemLists(b) {
            var j :| 0 <= j < |b| && b[j].items == r[k].items;
            if j > 0 {
              assert b[1..][j - 1] == b[j];
              TxLessTransitive(f, a[0].items, b[0].items, b[j].items);
            }
          } else {
            BelowLists(f, a[0].items, a[1..], r[k].items);
          }
        }
        AscendingCons(f, a[0], r);
      } else {
        TxLessTotal(f, a[0].items, b[0].items);
        var r := Merged(a[1..], b[1..], f);
        MergedAscending(a[1..], b[1..], f);
        MergedItemLists(a[1..], b[1..], f);
        forall k | 0 <= k < |r| ensures TxLess(f, b[0].items, r[k].items) {
          assert r[k].items in ItemLists(r);
          if r[k].items in ItemLists(a[1..]) {
            BelowLists(f, a[0].items, a[1..], r[k].items);
          } else {
            BelowLists(f, b[0].items, b[1..], r[k].items);
          }
        }
        AscendingCons(f, Entry(b[0].count + a[0].count, b[0].items), r);
      }
    }
  }

  /** The merge conserves transactions: each transaction is counted in the
      merged list as often as in the two inputs together. */
  lemma {:induction false} MergedCountOf(a: seq<Entry>, b: seq<Entry>, f: Frequencies, t: seq<Item>)
    ensures CountOf(Merged(a, b, f), t) == CountOf(a, t) + CountOf(b, t)
    decreases |a| + |b|
  {
    if a != [] && b != [] {
      if TxLess(f, b[0].items, a[0].items) {
        MergedCountOf(a, b[1..], f, t);
      } else if TxLess(f, a[0].items, b[0].items) {
        MergedCountOf(a[1..], b, f, t);
      } else {
        TxLessTotal(f, a[0].items, b[0].items);
        MergedCountOf(a[1..], b[1..], f, t);
      }
    }
  }

  /** The merge conserves the total count and the items, keeps every entry
      non-empty, and never lengthens the transactions. */
  lemma {:induction false} MergedMeasures(a: seq<Entry>, b: seq<Entry>, f: Frequencies)
    ensures Total(Merged(a, b, f)) == Total(a) + Total(b)
    ensures TailLength(Merged(a, b, f)) <= TailLength(a) + TailLength(b)
    ensures ItemsIn(Merged(a, b, f)) == ItemsIn(a) + ItemsIn(b)
    ensures NonEmptyTails(a) && NonEmptyTails(b) ==> NonEmptyTails(Merged(a, b, f))
    decreases |a| + |b|
  {
    if a != [] && b != [] {
      if TxLess(f, b[0].items, a[0].items) {
        MergedMeasures(a, b[1..], f);
      } else if TxLess(f, a[0].items, b[0].items) {
        MergedMeasures(a[1..], b, f);
      } else {
        TxLessTotal(f, a[0].items, b[0].items);
        MergedMeasures(a[1..], b[1..], f);
      }
    }
  }

  /** The two draining loops of the merge: pop every entry of r, in order,
      and append it to d. */
  method Drain(d: seq<Entry>, r: seq<Entry>) returns (d': seq<Entry>)
    ensures d' == d + r
  {
    d' := d;
    var rest := r;
    while |rest| > 0
      invariant d' + rest == d + r
    {
      assert rest == [rest[0]] + rest[1..];
      d' := d' + [rest[0]];
      rest := rest[1..];
    }
  }

  /** The merge loops of `sam`: take the front entry of a or b, whichever is
      smaller in `lexi_repr` order, or both summed into one entry when they
      are equal; then append whatever remains of a, then of b. */
  method Merge(a: seq<Entry>, b: seq<Entry>, f: Frequencies) returns (d: seq<Entry>)
    ensures d == Merged(a, b, f)
  {
    // ra and rb are the deques a and b, consumed from the front
    var ra, rb := a, b;
    d := [];
    while |ra| > 0 && |rb| > 0
      invariant d + Merged(ra, rb, f) == Merged(a, b, f)
      decreases |ra| + |rb|
    {
      if TxLess(f, rb[0].items, ra[0].items) {
        MergedTakeB(d, ra, rb, f);
        d := d + [rb[0]];
        rb := rb[1..];
      } else if TxLess(f, ra[0].items, rb[0].items) {
        MergedTakeA(d, ra, rb, f);
        d := d + [ra[0]];
        ra := ra[1..];
      } else {
        // the two front entries have the same lexi_repr: add a's count to b's
        MergedCombine(d, ra, rb, f);
        d := d + [Entry(rb[0].count + ra[0].count, rb[0].items)];
        rb := rb[1..];
        ra := ra[1..];
      }
    }
    // one of the two is empty now: append what remains of a, then of b
    MergedDone(ra, rb, f);
    assert d + ra + rb == d + (ra + rb);
    d := Drain(d, ra);
    d := Drain(d, rb);
  }

  // ---------------------------------------------------------------------
  // The search

  /** No item occurs twice in t. */
  predicate NoDup(t: seq<Item>) {
    forall p, q :: 0 <= p < q < |t| ==> t[p] != t[q]
  }

  /** Every transaction of the working list is duplicate-free, as the
      transactions handed to the miner are. */
  predicate DistinctItems(data: seq<Entry>) {
    forall t :: t in ItemLists(data) ==> NoDup(t)
  }

  /** An item occurs in the list exactly when it occurs in one of its entries. */
  lemma {:induction false} ItemsInMember(data: seq<Entry>, x: Item)
    ensures x in ItemsIn(data) <==> exists k :: 0 <= k < |data| && x in data[k].items
  {
    if data != [] {
      ItemsInMember(data[1..], x);
      if x in ItemsIn(data[1..]) {
        var k :| 0 <= k < |data[1..]| && x in data[1..][k].items;
        assert data[k + 1] == data[1..][k];
      }
      if exists k :: 0 <= k < |data| && x in data[k].items {
        var k :| 0 <= k < |data| && x in data[k].items;
        if k > 0 {
          assert data[1..][k - 1] == data[k];
        }
      }
    }
  }

  lemma ItemListsSlice(a: seq<Entry>, k: nat)
    requires k <= |a|
    ensures ItemLists(a[..k]) <= ItemLists(a) && ItemLists(a[k..]) <= ItemLists(a)
  {
    forall t | t in ItemLists(a[..k]) ensures t in ItemLists(a) {
      var j :| 0 <= j < k && a[..k][j].items == t;
      assert a[j] == a[..k][j];
    }
    forall t | t in ItemLists(a[k..]) ensures t in ItemLists(a) {
      var j :| 0 <= j < |a| - k && a[k..][j].items == t;
      assert a[k + j] == a[k..][j];
    }
  }

  lemma AscendingSlice(a: seq<Entry>, k: nat, f: Frequencies)
    requires k <= |a| && Ascending(a, f)
    ensures Ascending(a[..k], f) && Ascending(a[k..], f)
  {
    forall p, q | 0 <= p < q < |a| - k ensures TxLess(f, a[k..][p].items, a[k..][q].items) {
      assert a[k..][p] == a[k + p] && a[k..][q] == a[k + q];
    }
  }

  /** The tail of a duplicate-free transaction is duplicate-free and does
      not hold its head. */
  lemma TailDistinct(i: Item, t: seq<Item>)
    requires NoDup([i] + t)
    ensures NoDup(t) && i !in t
  {
    var u := [i] + t;
    forall p, q | 0 <= p < q < |t| ensures t[p] != t[q] {
      assert t[p] == u[p + 1] && t[q] == u[q + 1];
    }
    forall p | 0 <= p < |t| ensures t[p] != i {
      assert t[p] == u[p + 1] && u[0] == i;
    }
  }

  /** Stripping i from a run of duplicate-free transactions that start with i
      leaves duplicate-free transactions none of which holds i. */
  lemma StripDistinct(run: seq<Entry>, i: Item)
    requires NonEmptyTails(run) && DistinctItems(run)
    requires forall k :: 0 <= k < |run| ==> run[k].items[0] == i
    ensures DistinctItems(Strip(run))
    ensures i !in ItemsIn(Strip(run))
  {
    var s := Strip(run);
    StripOrigins(run, i);
    forall e | e in s ensures NoDup(e.items) && i !in e.items {
      var k :| 0 <= k < |run| && run[k].items == [i] + e.items;
      assert run[k].items in ItemLists(run);
      TailDistinct(i, e.items);
    }
    forall t | t in ItemLists(s) ensures NoDup(t) {
      var j :| 0 <= j < |s| && s[j].items == t;
      assert s[j] in s;
    }
    forall j | 0 <= j < |s| ensures i !in s[j].items {
      assert s[j] in s;
    }
    ItemsInMember(s, i);
  }

  /** One round of the outer loop of `sam` on the working list a, whose front
      transaction starts with i: the split takes the leading run of a, and the
      merge of the rest with the stripped run becomes the next working list.
      The stripped run and the next list keep the shape of a, the next list is
      shorter in items (the loop ends) and so is the stripped run (the
      recursion ends), and i does not occur in the stripped run (the item set
      of the recursion never holds i twice). */
  lemma Round(a: seq<Entry>, i: Item, f: Frequencies)
    requires a != [] && a[0].items != [] && a[0].items[0] == i
    requires Ascending(a, f) && DistinctItems(a)
    ensures var k := RunLength(a, i);
      var c := Strip(a[..k]);
      var next := Merged(a[k..], c, f);
      && Total(c) <= Total(a[..k]) <= Total(a) && Total(next) <= Total(a)
      && TailLength(c) < TailLength(a) && TailLength(next) < TailLength(a)
      && i in ItemsIn(a)
      && ItemsIn(c) <= ItemsIn(a) && i !in ItemsIn(c) && ItemsIn(next) <= ItemsIn(a)
      && Ascending(c, f) && Ascending(next, f)
      && DistinctItems(c) && DistinctItems(next)
  {
    var k := RunLength(a, i);
    var run, rest := a[..k], a[k..];
    var c := Strip(run);
    assert a[0].items == [i] + a[0].items[1..];
    TotalSplit(a, k);
    TailLengthSplit(a, k);
    ItemsInSplit(a, k);
    RunStartsWith(a, i);
    StripMeasures(run);
    ItemListsSlice(a, k);
    AscendingSlice(a, k, f);
    StripAscending(run, i, f);
    StripDistinct(run, i);
    MergedMeasures(rest, c, f);
    MergedAscending(rest, c, f);
    MergedItemLists(rest, c, f);
  }

  /** The frequent-item-set prefix `fis` that `sam` shares with its
      recursive calls, adding an item before a call and removing it after. */
  class Prefix {
    var items: set<Item>

    constructor ()
      ensures items == {}
    {
      items := {};
    }

    method Add(x: Item)
      modifies this
      ensures items == old(items) + {x}
    {
      items := items + {x};
    }

    /** Python's `set.remove`: the item must be present. */
    method Remove(x: Item)
      requires x in items
      modifies this
      ensures items == old(items) - {x}
    {
      items := items - {x};
    }
  }

  /** `sam`: the Split-And-Merge search.  Each round takes the leading item i
      of the working list, splits off the run of transactions that start with
      i (summing their counts into s), merges the stripped run back, and when
      s reaches the minimum support reports the prefix extended by i with
      support s and searches the stripped run with that prefix.  The report
      lines are returned in `reported`, in the order they are produced; n is
      their number, the value `sam` returns.  Every reported item set extends
      the prefix by items of the data, its support is at least the minimum
      and at most the data's total count, and the prefix is given back as it
      was.  A list whose front entry has no items stops the search at once. */
  method Sam(samData: seq<Entry>, fis: Prefix, minSupport: int, f: Frequencies)
      returns (n: nat, reported: seq<(set<Item>, nat)>)
    requires Ascending(samData, f) && DistinctItems(samData)
    requires ItemsIn(samData) !! fis.items
    modifies fis
    ensures fis.items == old(fis.items)
    ensures n == |reported|
    ensures forall r :: r in reported ==>
      && old(fis.items) < r.0 && r.0 <= old(fis.items) + ItemsIn(samData)
      && minSupport <= r.1 <= Total(samData)
    ensures samData != [] && samData[0].items == [] ==> n == 0
    decreases TailLength(samData)
  {
    n := 0;
    reported := [];
    var a := samData;
    while |a| > 0 && |a[0].items| > 0
      invariant fis.items == old(fis.items)
      invariant Ascending(a, f) && DistinctItems(a)
      invariant Total(a) <= Total(samData) && TailLength(a) <= TailLength(samData)
      invariant ItemsIn(a) <= ItemsIn(samData)
      invariant n == |reported|
      invariant forall r :: r in reported ==>
        && old(fis.items) < r.0 && r.0 <= old(fis.items) + ItemsIn(samData)
        && minSupport <= r.1 <= Total(samData)
      invariant samData != [] && samData[0].items == [] ==> a == samData && n == 0
      decreases TailLength(a)
    {
      var i := a[0].items[0];
      Round(a, i, f);
      var s, rest, b := Split(a, i);
      var c := b;
      var d := Merge(rest, b, f);
      a := d;
      if s >= minSupport {
        fis.Add(i);
        reported := reported + [(fis.items, s)];
        var m, sub := Sam(c, fis, minSupport, f);
        reported := reported + sub;
        n := n + 1 + m;
        fis.Remove(i);
      }
    }
  }

  // ---------------------------------------------------------------------
  // Ties in frequency

  /** The transactions ('d', 'b') and ('b', 'd'), both of whose items occur
      twice. */
  function TieTransactions(): seq<seq<Item>> {
    [['d', 'b'], ['b', 'd']]
  }

  function TieFrequencies(): Frequencies {
    map['b' := 2, 'd' := 2]
  }

  /** The frequency table of the example is the one `get_frequencies` builds. */
  lemma TieOrderFrequencies()
    ensures Freq(TieFrequencies(), 'b') == Occurrences(TieTransactions(), 'b')
    ensures Freq(TieFrequencies(), 'd') == Occurrences(TieTransactions(), 'd')
  {
    var ts := TieTransactions();
    assert ts[..1] == [['d', 'b']] && ts[..1][..0] == [];
  }

  /** Sorting by frequency alone keeps both transactions as they are. */
  lemma TieOrderFrequencySorted()
    ensures GetSortedTransactions(TieTransactions(), TieFrequencies()) == TieTransactions()
  {
    var ts, f := TieTransactions(), TieFrequencies();
    assert ['d', 'b'][1..] == ['b'] && ['b', 'd'][1..] == ['d'] && ts[1..] == [['b', 'd']];
    assert SortByFrequency(['b'], f) == ['b'] && SortByFrequency(['d'], f) == ['d'];
    assert SortByFrequency(['d', 'b'], f) == ['d', 'b'];
    assert SortByFrequency(['b', 'd'], f) == ['b', 'd'];
  }

  /** The lexicographic sort puts ('b', 'd') before ('d', 'b'). */
  lemma TieOrderLexSorted()
    ensures GetASortedTransactions(TieTransactions(), TieFrequencies()) == [['b', 'd'], ['d', 'b']]
  {
    var ts, f := TieTransactions(), TieFrequencies();
    assert ['d', 'b'][1..] == ['b'] && ['b', 'd'][1..] == ['d'] && ts[1..] == [['b', 'd']];
    assert LexiRepr(['b', 'd'], f) == [(2, 'b'), (2, 'd')];
    assert LexiRepr(['d', 'b'], f) == [(2, 'd'), (2, 'b')];
    assert TxLess(f, ['b', 'd'], ['d', 'b']);
    assert GetASortedTransactions([['b', 'd']], f) == [['b', 'd']];
    assert InsertTx(['d', 'b'], [['b', 'd']], f) == [['b', 'd'], ['d', 'b']];
  }

  /** Grouped, the two stay two entries, and the run on 'b' holds only the
      first. */
  lemma TieOrderRun()
    ensures var data := [Entry(1, ['b', 'd']), Entry(1, ['d', 'b'])];
      && Transactions(data) == FirstOccurrences([['b', 'd'], ['d', 'b']])
      && CountOf(data, ['b', 'd']) == 1 && CountOf(data, ['d', 'b']) == 1
      && Total(data[..RunLength(data, 'b')]) == 1
  {
    var data := [Entry(1, ['b', 'd']), Entry(1, ['d', 'b'])];
    var ts := [['b', 'd'], ['d', 'b']];
    assert ts[..1] == [['b', 'd']] && ts[..1][..0] == [];
    assert data[1..] == [Entry(1, ['d', 'b'])];
    assert RunLength(data, 'b') == 1;
    assert data[..1] == [Entry(1, ['b', 'd'])];
  }

  /** Sorting by (frequency, item) encodes both transactions alike. */
  lemma TieOrderKeySorted()
    ensures GetKeySortedTransactions(TieTransactions(), TieFrequencies()) == [['b', 'd'], ['b', 'd']]
  {
    var ts, f := TieTransactions(), TieFrequencies();
    assert ['d', 'b'][1..] == ['b'] && ['b', 'd'][1..] == ['d'] && ts[1..] == [['b', 'd']];
    assert SortByKey(['b'], f) == ['b'] && SortByKey(['d'], f) == ['d'];
    assert SortByKey(['d', 'b'], f) == ['b', 'd'];
    assert SortByKey(['b', 'd'], f) == ['b', 'd'];
  }

  /** Two transactions over the same two equally frequent items, listed in
      opposite orders.  Sorting items by frequency alone keeps each
      transaction's own order, so the two encode as different transactions;
      the split on the leading item 'b' then finds only one of them and sums
      a support of 1, though 'b' occurs in both.  Sorting by (frequency,
      item) encodes both as the same transaction. */
  lemma TieOrderSplitsApart()
    ensures
      var ts := TieTransactions();
      var f := TieFrequencies();
      var sorted := GetSortedTransactions(ts, f);
      var asorted := GetASortedTransactions(sorted, f);
      var data := [Entry(1, ['b', 'd']), Entry(1, ['d', 'b'])];
      && Freq(f, 'b') == Occurrences(ts, 'b') && Freq(f, 'd') == Occurrences(ts, 'd')
      && sorted == ts
      && asorted == [['b', 'd'], ['d', 'b']]
      && Transactions(data) == FirstOccurrences(asorted)
      && CountOf(data, ['b', 'd']) == 1 && CountOf(data, ['d', 'b']) == 1
      && Total(data[..RunLength(data, 'b')]) == 1
      && GetKeySortedTransactions(ts, f) == [['b', 'd'], ['b', 'd']]
  {
    TieOrderFrequencies();
    TieOrderFrequencySorted();
    TieOrderLexSorted();
    TieOrderRun();
    TieOrderKeySorted();
  }
}
