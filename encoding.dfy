/** The transaction encoder of the itemset miner: item frequencies, the two
    sorts that bring transactions into SAM order, and the grouping of equal
    transactions into (count, transaction) entries. */
module Encoding {
  import opened Lexi

  /** One grouped transaction: how many input transactions it stands for,
      and its items. */
  datatype Entry = Entry(count: nat, items: seq<Item>)

  // ---------------------------------------------------------------------
  // Item frequencies

  /** How often x occurs in all of ts together; an item listed twice in one
      transaction is counted twice. */
  function Occurrences(ts: seq<seq<Item>>, x: Item): nat {
    if ts == [] then 0 else Occurrences(ts[..|ts| - 1], x) + multiset(ts[|ts| - 1])[x]
  }

  /** An item occurs at all exactly when some transaction lists it. */
  lemma {:induction false} OccurrencesPositive(ts: seq<seq<Item>>, x: Item)
    ensures Occurrences(ts, x) > 0 <==> exists k :: 0 <= k < |ts| && x in ts[k]
  {
    if ts != [] {
      var init := ts[..|ts| - 1];
      OccurrencesPositive(init, x);
      if exists k :: 0 <= k < |ts| && x in ts[k] {
        var k :| 0 <= k < |ts| && x in ts[k];
        if k < |ts| - 1 {
          assert init[k] == ts[k];
        }
      }
      if exists k :: 0 <= k < |init| && x in init[k] {
        var k :| 0 <= k < |init| && x in init[k];
        assert ts[k] == init[k];
      }
    }
  }

  /** `get_frequencies`: counts every occurrence of every item.  An item never
      seen is not a key and reads as 0. */
  method GetFrequencies(ts: seq<seq<Item>>) returns (f: Frequencies)
    ensures forall x :: Freq(f, x) == Occurrences(ts, x)
    ensures forall x :: x in f <==> Occurrences(ts, x) > 0
  {
    f := map[];
    for i := 0 to |ts|
      invariant forall x :: Freq(f, x) == Occurrences(ts[..i], x)
      invariant forall x :: x in f <==> Occurrences(ts[..i], x) > 0
    {
      assert ts[..i + 1][..i] == ts[..i];
      f := CountTransaction(f, ts[i]);
    }
    assert ts[..|ts|] == ts;
  }

  /** The inner loop of `get_frequencies`: adds one to the count of every
      item of t, occurrence by occurrence. */
  method CountTransaction(f: Frequencies, t: seq<Item>) returns (f': Frequencies)
    requires forall x :: x in f <==> Freq(f, x) > 0
    ensures forall x :: Freq(f', x) == Freq(f, x) + multiset(t)[x]
    ensures forall x :: x in f' <==> Freq(f', x) > 0
  {
    f' := f;
    for j := 0 to |t|
      invariant forall x :: Freq(f', x) == Freq(f, x) + multiset(t[..j])[x]
      invariant forall x :: x in f' <==> Freq(f', x) > 0
    {
      assert t[..j + 1] == t[..j] + [t[j]];
      f' := f'[t[j] := Freq(f', t[j]) + 1];
    }
    assert t[..|t|] == t;
  }

  // ---------------------------------------------------------------------
  // Sorting the items of one transaction

  /** The items of s whose frequency is n, in the order of s. */
  function WithFrequency(s: seq<Item>, f: Frequencies, n: nat): seq<Item> {
    if s == [] then []
    else (if Freq(f, s[0]) == n then [s[0]] else []) + WithFrequency(s[1..], f, n)
  }

  /** s lists its items by non-decreasing frequency. */
  predicate FrequencySorted(s: seq<Item>, f: Frequencies) {
    forall i, j :: 0 <= i < j < |s| ==> Freq(f, s[i]) <= Freq(f, s[j])
  }

  /** Python's stable insertion of x ahead of the first item that is at least
      as frequent. */
  function InsertByFrequency(x: Item, s: seq<Item>, f: Frequencies): seq<Item> {
    if s == [] || Freq(f, x) <= Freq(f, s[0]) then [x] + s
    else [s[0]] + InsertByFrequency(x, s[1..], f)
  }

  /** `sorted(transaction, key=lambda e: frequencies[e])`, a stable sort on the
      frequency alone, as the source writes it. */
  function SortByFrequency(t: seq<Item>, f: Frequencies): seq<Item> {
    if t == [] then [] else InsertByFrequency(t[0], SortByFrequency(t[1..], f), f)
  }

  lemma {:induction false} InsertByFrequencyPermutes(x: Item, s: seq<Item>, f: Frequencies)
    ensures multiset(InsertByFrequency(x, s, f)) == multiset{x} + multiset(s)
  {
    if s != [] && Freq(f, x) > Freq(f, s[0]) {
      InsertByFrequencyPermutes(x, s[1..], f);
      assert s == [s[0]] + s[1..];
    }
  }

  lemma {:induction false} InsertByFrequencySorted(x: Item, s: seq<Item>, f: Frequencies)
    requires FrequencySorted(s, f)
    ensures FrequencySorted(InsertByFrequency(x, s, f), f)
  {
    if s != [] && Freq(f, x) > Freq(f, s[0]) {
      var rest := InsertByFrequency(x, s[1..], f);
      InsertByFrequencySorted(x, s[1..], f);
      InsertByFrequencyPermutes(x, s[1..], f);
      forall k | 0 <= k < |rest| ensures Freq(f, s[0]) <= Freq(f, rest[k]) {
        assert rest[k] in multiset(rest);
        if rest[k] != x {
          assert rest[k] in multiset(s[1..]);
          var m :| 0 <= m < |s[1..]| && s[1..][m] == rest[k];
          assert s[m + 1] == rest[k];
        }
      }
      assert InsertByFrequency(x, s, f) == [s[0]] + rest;
    }
  }

  lemma {:induction false} InsertByFrequencyStable(x: Item, s: seq<Item>, f: Frequencies, n: nat)
    ensures WithFrequency(InsertByFrequency(x, s, f), f, n) ==
      (if Freq(f, x) == n then [x] + WithFrequency(s, f, n) else WithFrequency(s, f, n))
  {
    var r := InsertByFrequency(x, s, f);
    if s == [] || Freq(f, x) <= Freq(f, s[0]) {
      assert r[1..] == s;
    } else {
      var rest := InsertByFrequency(x, s[1..], f);
      InsertByFrequencyStable(x, s[1..], f, n);
      assert r[1..] == rest && r[0] == s[0];
    }
  }

  /** `get_sorted_transactions`, one transaction at a time: the result is a
      permutation of t, lists the items by non-decreasing frequency, and is
      stable: the items of any one frequency keep their order in t. */
  lemma {:induction false} SortByFrequencyCorrect(t: seq<Item>, f: Frequencies)
    ensures multiset(SortByFrequency(t, f)) == multiset(t)
    ensures FrequencySorted(SortByFrequency(t, f), f)
    ensures forall n :: WithFrequency(SortByFrequency(t, f), f, n) == WithFrequency(t, f, n)
  {
    SortByFrequencyPermutes(t, f);
    SortByFrequencySorted(t, f);
    forall n ensures WithFrequency(SortByFrequency(t, f), f, n) == WithFrequency(t, f, n) {
      SortByFrequencyStable(t, f, n);
    }
  }

  lemma {:induction false} SortByFrequencyPermutes(t: seq<Item>, f: Frequencies)
    ensures multiset(SortByFrequency(t, f)) == multiset(t)
  {
    if t != [] {
      SortByFrequencyPermutes(t[1..], f);
      InsertByFrequencyPermutes(t[0], SortByFrequency(t[1..], f), f);
      assert t == [t[0]] + t[1..];
    }
  }

  lemma {:induction false} SortByFrequencySorted(t: seq<Item>, f: Frequencies)
    ensures FrequencySorted(SortByFrequency(t, f), f)
  {
    if t != [] {
      SortByFrequencySorted(t[1..], f);
      InsertByFrequencySorted(t[0], SortByFrequency(t[1..], f), f);
    }
  }

  lemma {:induction false} SortByFrequencyStable(t: seq<Item>, f: Frequencies, n: nat)
    ensures WithFrequency(SortByFrequency(t, f), f, n) == WithFrequency(t, f, n)
  {
    if t != [] {
      SortByFrequencyStable(t[1..], f, n);
      InsertByFrequencyStable(t[0], SortByFrequency(t[1..], f), f, n);
    }
  }


  /** `get_sorted_transactions`: each transaction's items sorted by frequency
      with Python's stable sort, so items of equal frequency keep their order
      in the transaction. */
  function GetSortedTransactions(ts: seq<seq<Item>>, f: Frequencies): (r: seq<seq<Item>>)
    ensures |r| == |ts|
    ensures forall k :: 0 <= k < |ts| ==> r[k] == SortByFrequency(ts[k], f)
  {
    if ts == [] then []
    else
      var rest := GetSortedTransactions(ts[1..], f);
      var r := [SortByFrequency(ts[0], f)] + rest;
      assert forall k :: 1 <= k < |ts| ==> ts[k] == ts[1..][k - 1] && r[k] == rest[k - 1];
      r
  }

  /** `get_sorted_transactions` replaces each transaction by a permutation of
      itself that lists its items by non-decreasing frequency and keeps the
      items of each frequency in their order in the transaction. */
  lemma GetSortedTransactionsCorrect(ts: seq<seq<Item>>, f: Frequencies)
    ensures forall k :: 0 <= k < |ts| ==>
      multiset(GetSortedTransactions(ts, f)[k]) == multiset(ts[k]) && FrequencySorted(GetSortedTransactions(ts, f)[k], f)
    ensures forall k, n :: 0 <= k < |ts| ==>
      WithFrequency(GetSortedTransactions(ts, f)[k], f, n) == WithFrequency(ts[k], f, n)
  {
    var r := GetSortedTransactions(ts, f);
    forall k | 0 <= k < |ts|
      ensures multiset(r[k]) == multiset(ts[k]) && FrequencySorted(r[k], f)
      ensures forall n :: WithFrequency(r[k], f, n) == WithFrequency(ts[k], f, n)
    {
      SortByFrequencyCorrect(ts[k], f);
    }
  }

  // ---------------------------------------------------------------------
  // Sorting the items of one transaction by (frequency, item)

  /** s lists its items by non-decreasing key (frequency, item), the order in
      which `lexi_repr` and the SAM split compare items. */
  predicate KeySorted(s: seq<Item>, f: Frequencies) {
    forall i, j :: 0 <= i < j < |s| ==> !KeyLess(KeyOf(f, s[j]), KeyOf(f, s[i]))
  }

  /** Insertion of x ahead of the first item whose key is at least x's key. */
  function InsertByKey(x: Item, s: seq<Item>, f: Frequencies): seq<Item> {
    if s == [] || !KeyLess(KeyOf(f, s[0]), KeyOf(f, x)) then [x] + s
    else [s[0]] + InsertByKey(x, s[1..], f)
  }

  /** The items of t sorted by (frequency, item): the corrected form of the
      per-transaction sort, ordering items exactly as `lexi_repr` does. */
  function SortByKey(t: seq<Item>, f: Frequencies): seq<Item> {
    if t == [] then [] else InsertByKey(t[0], SortByKey(t[1..], f), f)
  }

  lemma {:induction false} InsertByKeyPermutes(x: Item, s: seq<Item>, f: Frequencies)
    ensures multiset(InsertByKey(x, s, f)) == multiset{x} + multiset(s)
  {
    if s != [] && KeyLess(KeyOf(f, s[0]), KeyOf(f, x)) {
      InsertByKeyPermutes(x, s[1..], f);
      assert s == [s[0]] + s[1..];
    }
  }

  lemma {:induction false} InsertByKeySorted(x: Item, s: seq<Item>, f: Frequencies)
    requires KeySorted(s, f)
    ensures KeySorted(InsertByKey(x, s, f), f)
  {
    if s != [] && KeyLess(KeyOf(f, s[0]), KeyOf(f, x)) {
      var rest := InsertByKey(x, s[1..], f);
      InsertByKeySorted(x, s[1..], f);
      InsertByKeyPermutes(x, s[1..], f);
      forall k | 0 <= k < |rest| ensures !KeyLess(KeyOf(f, rest[k]), KeyOf(f, s[0])) {
        assert rest[k] in multiset(rest);
        if rest[k] != x {
          assert rest[k] in multiset(s[1..]);
          var m :| 0 <= m < |s[1..]| && s[1..][m] == rest[k];
          assert s[m + 1] == rest[k];
        }
      }
      assert InsertByKey(x, s, f) == [s[0]] + rest;
    }
  }

  lemma MultisetTail(a: seq<Item>)
    requires a != []
    ensures multiset(a[1..]) == multiset(a) - multiset{a[0]}
  {
    assert a == [a[0]] + a[1..];
  }

  lemma KeySortedTail(a: seq<Item>, f: Frequencies)
    requires KeySorted(a, f) && a != []
    ensures KeySorted(a[1..], f)
  {
  }

  /** Two key-sorted lists with the same items start with the same item:
      the one with the least key. */
  lemma KeySortedSameHead(a: seq<Item>, b: seq<Item>, f: Frequencies)
    requires KeySorted(a, f) && KeySorted(b, f) && multiset(a) == multiset(b) && a != []
    ensures b != [] && a[0] == b[0]
  {
    assert a[0] in multiset(b);
    assert b[0] in multiset(a);
    var m :| 0 <= m < |b| && b[m] == a[0];
    var n :| 0 <= n < |a| && a[n] == b[0];
    assert !KeyLess(KeyOf(f, a[0]), KeyOf(f, b[0])) by {
      if m > 0 {
        assert !KeyLess(KeyOf(f, b[m]), KeyOf(f, b[0]));
      }
    }
    assert !KeyLess(KeyOf(f, b[0]), KeyOf(f, a[0])) by {
      if n > 0 {
        assert !KeyLess(KeyOf(f, a[n]), KeyOf(f, a[0]));
      }
    }
  }

  /** Two key-sorted lists with the same items are the same list: the key
      (frequency, item) orders items totally, so nothing is left to chance. */
  lemma {:induction false} KeySortedUnique(a: seq<Item>, b: seq<Item>, f: Frequencies)
    requires KeySorted(a, f) && KeySorted(b, f) && multiset(a) == multiset(b)
    ensures a == b
  {
    if a != [] {
      KeySortedSameHead(a, b, f);
      MultisetTail(a);
      MultisetTail(b);
      KeySortedTail(a, f);
      KeySortedTail(b, f);
      KeySortedUnique(a[1..], b[1..], f);
      assert a == [a[0]] + a[1..] && b == [b[0]] + b[1..];
    }
  }

  /** The corrected per-transaction sort yields a permutation of t in
      non-decreasing key order, and it depends only on which items t holds:
      transactions with the same items encode to the same list, whatever
      their input order. */
  lemma {:induction false} SortByKeyCorrect(t: seq<Item>, f: Frequencies)
    ensures multiset(SortByKey(t, f)) == multiset(t)
    ensures KeySorted(SortByKey(t, f), f)
  {
    if t != [] {
      SortByKeyCorrect(t[1..], f);
      InsertByKeyPermutes(t[0], SortByKey(t[1..], f), f);
      InsertByKeySorted(t[0], SortByKey(t[1..], f), f);
      assert t == [t[0]] + t[1..];
    }
  }

  lemma SortByKeyCanonical(s: seq<Item>, t: seq<Item>, f: Frequencies)
    requires multiset(s) == multiset(t)
    ensures SortByKey(s, f) == SortByKey(t, f)
  {
    SortByKeyCorrect(s, f);
    SortByKeyCorrect(t, f);
    KeySortedUnique(SortByKey(s, f), SortByKey(t, f), f);
  }

  /** Every transaction's items sorted by (frequency, item). */
  function GetKeySortedTransactions(ts: seq<seq<Item>>, f: Frequencies): (r: seq<seq<Item>>)
    ensures |r| == |ts|
    ensures forall k :: 0 <= k < |ts| ==>
      multiset(r[k]) == multiset(ts[k]) && KeySorted(r[k], f)
  {
    if ts == [] then []
    else
      SortByKeyCorrect(ts[0], f);
      var rest := GetKeySortedTransactions(ts[1..], f);
      assert forall k :: 1 <= k < |ts| ==> ts[k] == ts[1..][k - 1];
      [SortByKey(ts[0], f)] + rest
  }

  // ---------------------------------------------------------------------
  // Sorting the transactions

  /** s lists transactions in non-decreasing `lexi_repr` order. */
  predicate TxSorted(s: seq<seq<Item>>, f: Frequencies) {
    forall i, j :: 0 <= i < j < |s| ==> !TxLess(f, s[j], s[i])
  }

  /** Stable insertion of t ahead of the first transaction not smaller than t. */
  function InsertTx(t: seq<Item>, s: seq<seq<Item>>, f: Frequencies): seq<seq<Item>> {
    if s == [] || !TxLess(f, s[0], t) then [t] + s
    else [s[0]] + InsertTx(t, s[1..], f)
  }

  /** `get_asorted_transactions`: `sorted(transactions, key=lexi_repr)`. */
  function GetASortedTransactions(ts: seq<seq<Item>>, f: Frequencies): seq<seq<Item>> {
    if ts == [] then [] else InsertTx(ts[0], GetASortedTransactions(ts[1..], f), f)
  }

  lemma {:induction false} InsertTxPermutes(t: seq<Item>, s: seq<seq<Item>>, f: Frequencies)
    ensures multiset(InsertTx(t, s, f)) == multiset{t} + multiset(s)
  {
    if s != [] && TxLess(f, s[0], t) {
      InsertTxPermutes(t, s[1..], f);
      assert s == [s[0]] + s[1..];
    }
  }

  lemma {:induction false} InsertTxSorted(t: seq<Item>, s: seq<seq<Item>>, f: Frequencies)
    requires TxSorted(s, f)
    ensures TxSorted(InsertTx(t, s, f), f)
  {
    if s == [] || !TxLess(f, s[0], t) {
      forall k | 0 <= k < |s| ensures !TxLess(f, s[k], t) {
        // t is at most s[0], which is at most s[k]
        TxLessTotal(f, s[0], t);
        TxLessTotal(f, s[0], s[k]);
        TxLessTotal(f, t, s[k]);
        TxLessIrreflexive(f, t);
        if t != s[0] && s[0] != s[k] {
          TxLessTransitive(f, t, s[0], s[k]);
        }
      }
      assert InsertTx(t, s, f) == [t] + s;
    } else {
      var rest := InsertTx(t, s[1..], f);
      InsertTxSorted(t, s[1..], f);
      InsertTxPermutes(t, s[1..], f);
      forall k | 0 <= k < |rest| ensures !TxLess(f, rest[k], s[0]) {
        assert rest[k] in multiset(rest);
        if rest[k] == t {
          TxLessTotal(f, s[0], t);
        } else {
          assert rest[k] in multiset(s[1..]);
          var m :| 0 <= m < |s[1..]| && s[1..][m] == rest[k];
          assert s[m + 1] == rest[k];
        }
      }
      assert InsertTx(t, s, f) == [s[0]] + rest;
    }
  }

  /** `get_asorted_transactions` returns a permutation of its input in
      non-decreasing `lexi_repr` order. */
  lemma {:induction false} GetASortedTransactionsCorrect(ts: seq<seq<Item>>, f: Frequencies)
    ensures multiset(GetASortedTransactions(ts, f)) == multiset(ts)
    ensures TxSorted(GetASortedTransactions(ts, f), f)
  {
    if ts != [] {
      GetASortedTransactionsCorrect(ts[1..], f);
      InsertTxPermutes(ts[0], GetASortedTransactions(ts[1..], f), f);
      InsertTxSorted(ts[0], GetASortedTransactions(ts[1..], f), f);
      assert ts == [ts[0]] + ts[1..];
    }
  }

  // ---------------------------------------------------------------------
  // Grouping equal transactions

  /** The total number of transactions a list of entries stands for. */
  function Total(data: seq<Entry>): nat {
    if data == [] then 0 else data[0].count + Total(data[1..])
  }

  /** How many transactions equal to t a list of entries stands for. */
  function CountOf(data: seq<Entry>, t: seq<Item>): nat {
    if data == [] then 0
    else (if data[0].items == t then data[0].count else 0) + CountOf(data[1..], t)
  }

  /** The transactions of a list of entries, in order. */
  function Transactions(data: seq<Entry>): seq<seq<Item>> {
    seq(|data|, k requires 0 <= k < |data| => data[k].items)
  }

  /** The distinct elements of ts, each at the place of its first occurrence. */
  function FirstOccurrences(ts: seq<seq<Item>>): seq<seq<Item>> {
    if ts == [] then []
    else
      var seen := FirstOccurrences(ts[..|ts| - 1]);
      if ts[|ts| - 1] in seen then seen else seen + [ts[|ts| - 1]]
  }

  /** Each element of ts appears in FirstOccurrences(ts) exactly once, and
      nothing else does. */
  lemma {:induction false} FirstOccurrencesCorrect(ts: seq<seq<Item>>)
    ensures forall t :: t in FirstOccurrences(ts) <==> t in ts
    ensures forall i, j :: 0 <= i < j < |FirstOccurrences(ts)| ==>
      FirstOccurrences(ts)[i] != FirstOccurrences(ts)[j]
  {
    if ts != [] {
      var init := ts[..|ts| - 1];
      FirstOccurrencesCorrect(init);
      assert ts == init + [ts[|ts| - 1]];
    }
  }

  lemma {:induction false} TotalAppend(data: seq<Entry>, e: Entry)
    ensures Total(data + [e]) == Total(data) + e.count
  {
    if data != [] {
      TotalAppend(data[1..], e);
      assert (data + [e])[1..] == data[1..] + [e];
    }
  }

  lemma {:induction false} CountOfAppend(data: seq<Entry>, e: Entry, t: seq<Item>)
    ensures CountOf(data + [e], t) == CountOf(data, t) + (if e.items == t then e.count else 0)
  {
    if data != [] {
      CountOfAppend(data[1..], e, t);
      assert (data + [e])[1..] == data[1..] + [e];
    }
  }

  /** Replacing the entry at v changes the totals by the difference of counts. */
  lemma {:induction false} TotalUpdate(data: seq<Entry>, v: nat, e: Entry)
    requires v < |data|
    ensures Total(data[v := e]) == Total(data) - data[v].count + e.count
  {
    if v > 0 {
      TotalUpdate(data[1..], v - 1, e);
      assert data[v := e][1..] == data[1..][v - 1 := e];
    } else {
      assert data[v := e][1..] == data[1..];
    }
  }

  lemma {:induction false} CountOfUpdate(data: seq<Entry>, v: nat, e: Entry, t: seq<Item>)
    requires v < |data|
    ensures CountOf(data[v := e], t) == CountOf(data, t)
      - (if data[v].items == t then data[v].count else 0) + (if e.items == t then e.count else 0)
  {
    if v > 0 {
      CountOfUpdate(data[1..], v - 1, e, t);
      assert data[v := e][1..] == data[1..][v - 1 := e];
    } else {
      assert data[v := e][1..] == data[1..];
    }
  }

  /** What appending a new entry for key does to the grouped list. */
  lemma AppendEntry(samData: seq<Entry>, key: seq<Item>)
    ensures Total(samData + [Entry(1, key)]) == Total(samData) + 1
    ensures forall t :: (CountOf(samData + [Entry(1, key)], t) ==
      CountOf(samData, t) + (if t == key then 1 else 0))
    ensures Transactions(samData + [Entry(1, key)]) == Transactions(samData) + [key]
  {
    TotalAppend(samData, Entry(1, key));
    forall t ensures CountOf(samData + [Entry(1, key)], t) ==
      CountOf(samData, t) + (if t == key then 1 else 0)
    {
      CountOfAppend(samData, Entry(1, key), t);
    }
  }

  /** What counting one more copy of the transaction at v does to the grouped list. */
  lemma IncrementEntry(samData: seq<Entry>, v: nat)
    requires v < |samData|
    ensures var updated := samData[v := Entry(samData[v].count + 1, samData[v].items)];
      && Total(updated) == Total(samData) + 1
      && (forall t :: CountOf(updated, t) ==
            CountOf(samData, t) + (if t == samData[v].items then 1 else 0))
      && Transactions(updated) == Transactions(samData)
      && (forall e :: e in updated ==> e in samData || e == updated[v])
  {
    var updated := samData[v := Entry(samData[v].count + 1, samData[v].items)];
    TotalUpdate(samData, v, updated[v]);
    forall t ensures CountOf(updated, t) ==
      CountOf(samData, t) + (if t == samData[v].items then 1 else 0)
    {
      CountOfUpdate(samData, v, updated[v], t);
    }
    forall e | e in updated ensures e in samData || e == updated[v] {
      var k :| 0 <= k < |updated| && updated[k] == e;
      if k != v {
        assert e == samData[k];
      }
    }
  }

  /** The state of `get_sam_data` after reading the transactions `done`:
      the entries group `done`, and `visited` maps each transaction seen to the
      index of its entry. */
  ghost predicate Grouped(samData: seq<Entry>, visited: map<seq<Item>, nat>, done: seq<seq<Item>>) {
    && Transactions(samData) == FirstOccurrences(done)
    && (forall t :: CountOf(samData, t) == multiset(done)[t])
    && (forall e :: e in samData ==> e.count >= 1)
    && Total(samData) == |done|
    && (forall t :: t in visited <==> t in done)
    && (forall t :: t in visited ==> visited[t] < |samData| && samData[visited[t]].items == t)
  }

  /** A new entry (1, key) keeps the counts in step with the transactions
      read. */
  lemma AppendCounts(samData: seq<Entry>, done: seq<seq<Item>>, key: seq<Item>)
    requires forall t :: CountOf(samData, t) == multiset(done)[t]
    requires forall e :: e in samData ==> e.count >= 1
    requires Total(samData) == |done|
    ensures var appended := samData + [Entry(1, key)];
      && (forall t :: CountOf(appended, t) == multiset(done + [key])[t])
      && (forall e :: e in appended ==> e.count >= 1)
      && Total(appended) == |done + [key]|
  {
    AppendEntry(samData, key);
    assert multiset(done + [key]) == multiset(done) + multiset{key};
  }

  /** A new transaction goes at the end of the list of transactions, and
      `visited` records its index. */
  lemma AppendIndex(samData: seq<Entry>, visited: map<seq<Item>, nat>, done: seq<seq<Item>>, key: seq<Item>)
    requires Transactions(samData) == FirstOccurrences(done)
    requires forall t :: t in visited <==> t in done
    requires forall t :: t in visited ==> visited[t] < |samData| && samData[visited[t]].items == t
    requires key !in visited
    ensures var appended := samData + [Entry(1, key)];
      var visited' := visited[key := |samData|];
      && Transactions(appended) == FirstOccurrences(done + [key])
      && (forall t :: t in visited' <==> t in done + [key])
      && (forall t :: t in visited' ==> visited'[t] < |appended| && appended[visited'[t]].items == t)
  {
    var appended := samData + [Entry(1, key)];
    var done' := done + [key];
    AppendEntry(samData, key);
    FirstOccurrencesCorrect(done);
    assert done'[..|done'| - 1] == done && done'[|done'| - 1] == key;
    assert key !in FirstOccurrences(done);
    forall t | t in visited ensures appended[visited[t]] == samData[visited[t]] {
    }
  }

  /** Reading a transaction not seen before appends an entry for it. */
  lemma GroupedAppend(samData: seq<Entry>, visited: map<seq<Item>, nat>, done: seq<seq<Item>>, key: seq<Item>)
    requires Grouped(samData, visited, done) && key !in visited
    ensures Grouped(samData + [Entry(1, key)], visited[key := |samData|], done + [key])
  {
    AppendIndex(samData, visited, done, key);
    AppendCounts(samData, done, key);
  }

  /** Counting one more copy of key in its entry keeps the counts in step
      with the transactions read. */
  lemma IncrementCounts(samData: seq<Entry>, done: seq<seq<Item>>, v: nat, key: seq<Item>)
    requires v < |samData| && samData[v].items == key
    requires forall t :: CountOf(samData, t) == multiset(done)[t]
    requires forall e :: e in samData ==> e.count >= 1
    requires Total(samData) == |done|
    ensures var updated := samData[v := Entry(samData[v].count + 1, samData[v].items)];
      && (forall t :: CountOf(updated, t) == multiset(done + [key])[t])
      && (forall e :: e in updated ==> e.count >= 1)
      && Total(updated) == |done + [key]|
  {
    IncrementEntry(samData, v);
    assert multiset(done + [key]) == multiset(done) + multiset{key};
  }

  /** Counting a repeated transaction leaves the list of transactions and the
      index `visited` as they are. */
  lemma IncrementIndex(samData: seq<Entry>, visited: map<seq<Item>, nat>, done: seq<seq<Item>>, key: seq<Item>)
    requires Transactions(samData) == FirstOccurrences(done)
    requires forall t :: t in visited <==> t in done
    requires forall t :: t in visited ==> visited[t] < |samData| && samData[visited[t]].items == t
    requires key in visited
    ensures var v := visited[key];
      var updated := samData[v := Entry(samData[v].count + 1, samData[v].items)];
      && Transactions(updated) == FirstOccurrences(done + [key])
      && (forall t :: t in visited <==> t in done + [key])
      && (forall t :: t in visited ==> visited[t] < |updated| && updated[visited[t]].items == t)
  {
    var done' := done + [key];
    IncrementEntry(samData, visited[key]);
    FirstOccurrencesCorrect(done);
    assert done'[..|done'| - 1] == done && done'[|done'| - 1] == key;
    assert key in FirstOccurrences(done);
  }

  /** Reading a transaction seen before counts it in its entry. */
  lemma GroupedIncrement(samData: seq<Entry>, visited: map<seq<Item>, nat>, done: seq<seq<Item>>, key: seq<Item>)
    requires Grouped(samData, visited, done) && key in visited
    ensures var v := visited[key];
      Grouped(samData[v := Entry(samData[v].count + 1, samData[v].items)], visited, done + [key])
  {
    IncrementIndex(samData, visited, done, key);
    IncrementCounts(samData, done, visited[key], key);
  }

  /** One step of `get_sam_data`: a new transaction gets an entry (1, key)
      at the end and its index in `visited`; a repeated one adds 1 to its
      entry's count in place. */
  method GroupOne(samData: seq<Entry>, visited: map<seq<Item>, nat>, current: nat,
                  ghost done: seq<seq<Item>>, key: seq<Item>)
      returns (samData': seq<Entry>, visited': map<seq<Item>, nat>, current': nat)
    requires current == |samData| && Grouped(samData, visited, done)
    ensures current' == |samData'| && Grouped(samData', visited', done + [key])
  {
    if key !in visited {
      GroupedAppend(samData, visited, done, key);
      samData' := samData + [Entry(1, key)];
      visited' := visited[key := current];
      current' := current + 1;
    } else {
      GroupedIncrement(samData, visited, done, key);
      var v := visited[key];
      var (count, transaction) := (samData[v].count, samData[v].items);
      samData' := samData[v := Entry(count + 1, transaction)];
      visited' := visited;
      current' := current;
    }
  }

  /** `get_sam_data`: groups equal transactions into (count, transaction)
      entries.  The entries list the distinct transactions in order of first
      occurrence, each entry counts the copies of its transaction, every
      count is at least 1 and the counts add up to the number of inputs. */
  method GetSamData(ts: seq<seq<Item>>) returns (samData: seq<Entry>)
    ensures Transactions(samData) == FirstOccurrences(ts)
    ensures forall t :: CountOf(samData, t) == multiset(ts)[t]
    ensures forall e :: e in samData ==> e.count >= 1
    ensures Total(samData) == |ts|
  {
    samData := [];
    var visited: map<seq<Item>, nat> := map[];
    var current := 0;
    for i := 0 to |ts|
      invariant current == |samData|
      invariant Grouped(samData, visited, ts[..i])
    {
      assert ts[..i + 1] == ts[..i] + [ts[i]];
      samData, visited, current := GroupOne(samData, visited, current, ts[..i], ts[i]);
    }
    assert ts[..|ts|] == ts;
  }

  // ---------------------------------------------------------------------
  // The whole encoding

  /** Grouping a sorted list gives a strictly ascending list of entries:
      equal transactions sit side by side, so each survives once. */
  lemma {:induction false} FirstOccurrencesAscending(ts: seq<seq<Item>>, f: Frequencies)
    requires TxSorted(ts, f)
    ensures forall i, j :: 0 <= i < j < |FirstOccurrences(ts)| ==>
      TxLess(f, FirstOccurrences(ts)[i], FirstOccurrences(ts)[j])
  {
    if ts != [] {
      var init := ts[..|ts| - 1];
      var last := ts[|ts| - 1];
      assert TxSorted(init, f);
      FirstOccurrencesAscending(init, f);
      FirstOccurrencesCorrect(init);
      var seen := FirstOccurrences(init);
      if last !in seen {
        forall i | 0 <= i < |seen| ensures TxLess(f, seen[i], last) {
          assert seen[i] in init;
          var m :| 0 <= m < |init| && init[m] == seen[i];
          assert !TxLess(f, last, init[m]);
          TxLessTotal(f, seen[i], last);
        }
      }
    }
  }

  /** `transform`: the frequency table and the SAM input built from the
      transactions.  Every entry's items are sorted by frequency, ties in
      input order; the entries are strictly ascending in `lexi_repr` order (so
      no transaction is listed twice), and each entry counts the input
      transactions whose frequency-sorted items are exactly its items. */
  method Transform(ts: seq<seq<Item>>) returns (samData: seq<Entry>, f: Frequencies)
    ensures forall x :: Freq(f, x) == Occurrences(ts, x)
    ensures Total(samData) == |ts|
    ensures forall i, j :: 0 <= i < j < |samData| ==> TxLess(f, samData[i].items, samData[j].items)
    ensures forall e :: e in samData ==> e.count >= 1 && FrequencySorted(e.items, f)
    ensures forall t :: CountOf(samData, t) == multiset(GetSortedTransactions(ts, f))[t]
  {
    f := GetFrequencies(ts);
    var sorted := GetSortedTransactions(ts, f);
    GetSortedTransactionsCorrect(ts, f);
    var asorted := GetASortedTransactions(sorted, f);
    GetASortedTransactionsCorrect(sorted, f);
    samData := GetSamData(asorted);
    FirstOccurrencesAscending(asorted, f);
    FirstOccurrencesCorrect(asorted);
    assert |asorted| == |sorted| by {
      assert |multiset(asorted)| == |multiset(sorted)|;
    }
    forall i, j | 0 <= i < j < |samData| ensures TxLess(f, samData[i].items, samData[j].items) {
      assert samData[i].items == Transactions(samData)[i];
      assert samData[j].items == Transactions(samData)[j];
    }
    forall e | e in samData ensures FrequencySorted(e.items, f) {
      var k :| 0 <= k < |samData| && samData[k] == e;
      assert e.items == Transactions(samData)[k];
      assert e.items in asorted;
      assert e.items in multiset(sorted);
      var m :| 0 <= m < |sorted| && sorted[m] == e.items;
    }
  }

  /** `transform` with the corrected item sort: the frequency table and the
      SAM input built from the transactions.  Every entry's items are sorted
      by (frequency, item), the entries are strictly ascending in `lexi_repr`
      order (so no transaction is listed twice), and each entry counts the
      input transactions that hold exactly its items, whatever their order. */
  method TransformCorrected(ts: seq<seq<Item>>) returns (samData: seq<Entry>, f: Frequencies)
    ensures forall x :: Freq(f, x) == Occurrences(ts, x)
    ensures Total(samData) == |ts|
    ensures forall i, j :: 0 <= i < j < |samData| ==> TxLess(f, samData[i].items, samData[j].items)
    ensures forall e :: e in samData ==> e.count >= 1 && KeySorted(e.items, f)
    ensures forall t :: CountOf(samData, t) == multiset(GetKeySortedTransactions(ts, f))[t]
  {
    f := GetFrequencies(ts);
    var sorted := GetKeySortedTransactions(ts, f);
    var asorted := GetASortedTransactions(sorted, f);
    GetASortedTransactionsCorrect(sorted, f);
    samData := GetSamData(asorted);
    FirstOccurrencesAscending(asorted, f);
    FirstOccurrencesCorrect(asorted);
    assert |asorted| == |sorted| by {
      assert |multiset(asorted)| == |multiset(sorted)|;
    }
    forall i, j | 0 <= i < j < |samData| ensures TxLess(f, samData[i].items, samData[j].items) {
      assert samData[i].items == Transactions(samData)[i];
      assert samData[j].items == Transactions(samData)[j];
    }
    forall e | e in samData ensures KeySorted(e.items, f) {
      var k :| 0 <= k < |samData| && samData[k] == e;
      assert e.items == Transactions(samData)[k];
      assert e.items in asorted;
      assert e.items in multiset(sorted);
      var m :| 0 <= m < |sorted| && sorted[m] == e.items;
    }
  }
}
