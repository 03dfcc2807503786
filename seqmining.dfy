/** Frequent sequence mining by prefix projection (PrefixSpan).  A pattern
    q is contained in a sequence when q's elements occur in it in order,
    not necessarily adjacent; the support of q is the number of sequences
    of the database that contain it.  The search extends a prefix by every
    element frequent in the current projected database, and projects the
    database on that element: each sequence is cut after the first
    occurrence of the element. */
module SeqMining {

  /** An element of a sequence.  The fixtures use one-letter elements. */
  type Element = char

  /** A database of sequences. */
  type Db = seq<seq<Element>>

  datatype Option<T> = None | Some(value: T)

  // ---------------------------------------------------------------------
  // Containment and support

  /** q occurs in e in order: either q's first element is matched by e's
      first element and the rest of q occurs in the rest of e, or e's first
      element is skipped. */
  predicate IsSubseq(q: seq<Element>, e: seq<Element>) {
    if q == [] then true
    else if e == [] then false
    else (q[0] == e[0] && IsSubseq(q[1..], e[1..])) || IsSubseq(q, e[1..])
  }

  /** The number of sequences of db that contain q. */
  function Supp(db: Db, q: seq<Element>): nat {
    if db == [] then 0
    else Supp(db[..|db| - 1], q) + (if IsSubseq(q, db[|db| - 1]) then 1 else 0)
  }

  /** The number of sequences of db in which x occurs: each sequence counts
      once, however often x occurs in it. */
  function Support(db: Db, x: Element): nat {
    if db == [] then 0
    else Support(db[..|db| - 1], x) + (if x in db[|db| - 1] then 1 else 0)
  }

  /** The part of e after the first occurrence of x; empty when x does not
      occur. */
  function Suffix(e: seq<Element>, x: Element): seq<Element> {
    if e == [] then []
    else if e[0] == x then e[1..]
    else Suffix(e[1..], x)
  }

  /** db projected on x: the non-empty suffixes after x, in order. */
  function Projected(db: Db, x: Element): Db {
    if db == [] then []
    else
      var s := Suffix(db[|db| - 1], x);
      Projected(db[..|db| - 1], x) + (if s != [] then [s] else [])
  }

  /** The total number of elements: what every projection makes smaller. */
  function TotalLen(db: Db): nat {
    if db == [] then 0 else TotalLen(db[..|db| - 1]) + |db[|db| - 1]|
  }

  // ---------------------------------------------------------------------
  // Facts about containment

  lemma {:induction false} SubseqDropHead(q: seq<Element>, e: seq<Element>)
    requires q != [] && IsSubseq(q, e)
    ensures IsSubseq(q[1..], e)
    decreases |e|
  {
    if e != [] && q[1..] != [] {
      if q[0] == e[0] && IsSubseq(q[1..], e[1..]) {
        SubseqDropHead(q[1..], e[1..]);
      } else {
        SubseqDropHead(q, e[1..]);
      }
    }
  }

  /** Matching q's first element at its first occurrence loses nothing:
      [x] + q occurs in e exactly when x occurs in e and q occurs after
      x's first occurrence. */
  lemma {:induction false} SubseqCons(x: Element, q: seq<Element>, e: seq<Element>)
    ensures IsSubseq([x] + q, e) <==> x in e && IsSubseq(q, Suffix(e, x))
    decreases |e|
  {
    var xq := [x] + q;
    assert xq[0] == x && xq[1..] == q;
    if e != [] {
      SubseqCons(x, q, e[1..]);
      if e[0] == x {
        if IsSubseq(xq, e[1..]) {
          SubseqDropHead(xq, e[1..]);
        }
      } else {
        assert x in e <==> x in e[1..];
      }
    }
  }

  /** x occurs in e exactly when the one-element pattern [x] does. */
  lemma SubseqSingleton(x: Element, e: seq<Element>)
    ensures IsSubseq([x], e) <==> x in e
  {
    SubseqCons(x, [], e);
  }

  /** The support of a one-element pattern is the element's support. */
  lemma {:induction false} SuppSingleton(db: Db, x: Element)
    ensures Supp(db, [x]) == Support(db, x)
  {
    if db != [] {
      SuppSingleton(db[..|db| - 1], x);
      SubseqSingleton(x, db[|db| - 1]);
    }
  }

  /** A pattern is no more frequent than its first element. */
  lemma {:induction false} SuppAtMostHead(db: Db, x: Element, q: seq<Element>)
    ensures Supp(db, [x] + q) <= Support(db, x)
  {
    if db != [] {
      SuppAtMostHead(db[..|db| - 1], x, q);
      SubseqCons(x, q, db[|db| - 1]);
    }
  }

  /** The projection theorem: for a non-empty q, the support of [x] + q in
      db is the support of q in db projected on x. */
  lemma {:induction false} SuppProjected(db: Db, x: Element, q: seq<Element>)
    requires q != []
    ensures Supp(db, [x] + q) == Supp(Projected(db, x), q)
  {
    if db != [] {
      var init, e := db[..|db| - 1], db[|db| - 1];
      SuppProjected(init, x, q);
      SubseqCons(x, q, e);
      var s := Suffix(e, x);
      if s != [] {
        var p := Projected(init, x) + [s];
        assert p[..|p| - 1] == Projected(init, x) && p[|p| - 1] == s;
      } else {
        assert Projected(db, x) == Projected(init, x);
      }
      if x !in e {
        SuffixAbsent(e, x);
      }
      assert Supp(db, [x] + q) == Supp(init, [x] + q) + (if IsSubseq([x] + q, e) then 1 else 0);
    }
  }

  lemma {:induction false} SuffixAbsent(e: seq<Element>, x: Element)
    requires x !in e
    ensures Suffix(e, x) == []
  {
    if e != [] {
      SuffixAbsent(e[1..], x);
    }
  }

  /** The suffix after an element that occurs is strictly shorter. */
  lemma {:induction false} SuffixShorter(e: seq<Element>, x: Element)
    ensures |Suffix(e, x)| <= |e|
    ensures x in e ==> |Suffix(e, x)| < |e|
  {
    if e != [] && e[0] != x {
      SuffixShorter(e[1..], x);
      assert x in e ==> x in e[1..];
    }
  }

  /** Projecting never adds elements, and removes at least one when x occurs
      somewhere: the recursion of the search ends. */
  lemma {:induction false} ProjectedShorter(db: Db, x: Element)
    ensures TotalLen(Projected(db, x)) <= TotalLen(db)
    ensures Support(db, x) > 0 ==> TotalLen(Projected(db, x)) < TotalLen(db)
  {
    if db != [] {
      var init, e := db[..|db| - 1], db[|db| - 1];
      ProjectedShorter(init, x);
      SuffixShorter(e, x);
      var s := Suffix(e, x);
      if s != [] {
        var p := Projected(init, x) + [s];
        assert p[..|p| - 1] == Projected(init, x) && p[|p| - 1] == s;
      } else {
        assert Projected(db, x) == Projected(init, x);
      }
      assert TotalLen(db) == TotalLen(init) + |e|;
      assert Support(db, x) == Support(init, x) + (if x in e then 1 else 0);
    }
  }

  /** Each sequence counts at most once: a support never exceeds the number
      of sequences. */
  lemma {:induction false} SupportAtMostSize(db: Db, x: Element)
    ensures Support(db, x) <= |db|
  {
    if db != [] {
      SupportAtMostSize(db[..|db| - 1], x);
    }
  }

  /** Every sequence of the projection is the non-empty, strictly shorter
      suffix after x of a sequence of db that contains x, and the projection
      has no more sequences than db. */
  lemma {:induction false} ProjectedOrigins(db: Db, x: Element)
    ensures |Projected(db, x)| <= |db|
    ensures forall s :: s in Projected(db, x) ==>
      s != [] && exists k :: 0 <= k < |db| && x in db[k] && s == Suffix(db[k], x) && |s| < |db[k]|
  {
    if db != [] {
      var init, e := db[..|db| - 1], db[|db| - 1];
      ProjectedOrigins(init, x);
      SuffixShorter(e, x);
      var t := Suffix(e, x);
      if x !in e {
        SuffixAbsent(e, x);
      }
      forall s | s in Projected(db, x)
        ensures s != [] && exists k :: 0 <= k < |db| && x in db[k] && s == Suffix(db[k], x) && |s| < |db[k]|
      {
        if s in Projected(init, x) {
          var k :| 0 <= k < |init| && x in init[k] && s == Suffix(init[k], x) && |s| < |init[k]|;
          assert db[k] == init[k];
        } else {
          assert s == t && t != [];
          assert db[|db| - 1] == e;
        }
      }
    }
  }

  // ---------------------------------------------------------------------
  // Locally frequent elements

  /** x occurs in at least one sequence of db and in at least minSupport of
      them. */
  ghost predicate Frequent(db: Db, x: Element, minSupport: int) {
    Support(db, x) >= 1 && Support(db, x) >= minSupport
  }

  /** The counting table after the sequences db and, of the current
      sequence, the elements in visited: items holds exactly the elements
      counted so far, listed once each in order of first appearance. */
  ghost predicate Tally(items: map<Element, nat>, order: seq<Element>, db: Db, visited: set<Element>) {
    (forall y :: y in items <==> y in order) &&
    (forall k, l :: 0 <= k < l < |order| ==> order[k] != order[l]) &&
    (forall y :: y in items ==> items[y] >= 1) &&
    (forall y :: y in items ==> items[y] == Support(db, y) + (if y in visited then 1 else 0)) &&
    (forall y :: y !in items ==> Support(db, y) == 0 && y !in visited)
  }

  /** Closing a sequence: what was counted as visited becomes part of the
      support over one more sequence. */
  lemma TallyNext(items: map<Element, nat>, order: seq<Element>, prior: Db, entry: seq<Element>, visited: set<Element>)
    requires forall y :: y in visited <==> y in entry
    requires Tally(items, order, prior, visited)
    ensures Tally(items, order, prior + [entry], {})
  {
    var db := prior + [entry];
    assert db[..|db| - 1] == prior && db[|db| - 1] == entry;
  }

  /** Counts each distinct element of entry once more. */
  method CountSequence(items: map<Element, nat>, order: seq<Element>, ghost prior: Db, entry: seq<Element>)
    returns (items': map<Element, nat>, order': seq<Element>)
    requires Tally(items, order, prior, {})
    ensures Tally(items', order', prior + [entry], {})
  {
    items', order' := items, order;
    var visited: set<Element> := {};
    var j := 0;
    while j < |entry|
      invariant 0 <= j <= |entry|
      invariant forall y :: y in visited <==> y in entry[..j]
      invariant Tally(items', order', prior, visited)
    {
      var element := entry[j];
      if element !in visited {
        if element in items' {
          items' := items'[element := items'[element] + 1];
        } else {
          items' := items'[element := 1];
          order' := order' + [element];
        }
        visited := visited + {element};
      }
      assert entry[..j + 1] == entry[..j] + [element];
      j := j + 1;
    }
    assert entry[..j] == entry;
    TallyNext(items', order', prior, entry, visited);
  }

  /** The elements of sdb that occur in at least minSupport sequences, each
      with its support, each listed once. */
  method LocalFreqItems(sdb: Db, minSupport: int) returns (freq: seq<(Element, nat)>)
    ensures forall k :: 0 <= k < |freq| ==>
      Frequent(sdb, freq[k].0, minSupport) && freq[k].1 == Support(sdb, freq[k].0)
    ensures forall k :: 0 <= k < |freq| ==> freq[k].1 <= |sdb|
    ensures forall x :: Frequent(sdb, x, minSupport) ==> exists k :: 0 <= k < |freq| && freq[k].0 == x
    ensures forall k, l :: 0 <= k < l < |freq| ==> freq[k].0 != freq[l].0
  {
    var items: map<Element, nat> := map[];
    var order: seq<Element> := [];
    var i := 0;
    while i < |sdb|
      invariant 0 <= i <= |sdb|
      invariant Tally(items, order, sdb[..i], {})
    {
      assert sdb[..i + 1] == sdb[..i] + [sdb[i]];
      items, order := CountSequence(items, order, sdb[..i], sdb[i]);
      i := i + 1;
    }
    assert sdb[..i] == sdb;
    freq := SelectFrequent(items, order, sdb, minSupport);
    forall k | 0 <= k < |freq|
      ensures freq[k].1 <= |sdb|
    {
      SupportAtMostSize(sdb, freq[k].0);
    }
  }

  /** The counted elements whose count reaches minSupport, in the order of
      the table. */
  method SelectFrequent(items: map<Element, nat>, order: seq<Element>, ghost sdb: Db, minSupport: int)
    returns (freq: seq<(Element, nat)>)
    requires Tally(items, order, sdb, {})
    ensures forall k :: 0 <= k < |freq| ==>
      Frequent(sdb, freq[k].0, minSupport) && freq[k].1 == Support(sdb, freq[k].0)
    ensures forall x :: Frequent(sdb, x, minSupport) ==> exists k :: 0 <= k < |freq| && freq[k].0 == x
    ensures forall k, l :: 0 <= k < l < |freq| ==> freq[k].0 != freq[l].0
  {
    freq := [];
    var j := 0;
    while j < |order|
      invariant 0 <= j <= |order|
      invariant forall k :: 0 <= k < |freq| ==>
        freq[k].0 in order[..j] && Frequent(sdb, freq[k].0, minSupport) && freq[k].1 == Support(sdb, freq[k].0)
      invariant forall k, l :: 0 <= k < l < |freq| ==> freq[k].0 != freq[l].0
      invariant forall l :: 0 <= l < j && Frequent(sdb, order[l], minSupport) ==>
        exists k :: 0 <= k < |freq| && freq[k].0 == order[l]
    {
      var item := order[j];
      assert item in items;
      var support := items[item];
      assert support == Support(sdb, item) && support >= 1;
      ghost var before := freq;
      if support >= minSupport {
        freq := freq + [(item, support)];
        assert freq[|freq| - 1].0 == item;
      }
      assert forall k :: 0 <= k < |before| ==> freq[k] == before[k];
      assert order[..j + 1] == order[..j] + [item];
      j := j + 1;
    }
    forall x | Frequent(sdb, x, minSupport)
      ensures exists k :: 0 <= k < |freq| && freq[k].0 == x
    {
      var l :| 0 <= l < |order| && order[l] == x;
    }
  }

  // ---------------------------------------------------------------------
  // Projection

  /** sdb projected on the last element of prefix; an empty prefix leaves
      sdb as it is. */
  method Project(sdb: Db, prefix: seq<Element>) returns (newSdb: Db)
    ensures prefix == [] ==> newSdb == sdb
    ensures prefix != [] ==> newSdb == Projected(sdb, prefix[|prefix| - 1])
  {
    newSdb := [];
    if prefix == [] {
      return sdb;
    }
    var x := prefix[|prefix| - 1];
    var i := 0;
    while i < |sdb|
      invariant 0 <= i <= |sdb|
      invariant newSdb == Projected(sdb[..i], x)
    {
      var entry := sdb[i];
      var j := 0;
      var projection: Option<seq<Element>> := None;
      while j < |entry|
        invariant 0 <= j <= |entry|
        invariant projection.None? ==> Suffix(entry, x) == Suffix(entry[j..], x)
        invariant projection.Some? ==> projection.value == Suffix(entry, x)
      {
        if entry[j] == x {
          projection := Some(entry[j + 1..]);
          break;
        }
        assert entry[j..][1..] == entry[j + 1..];
        j := j + 1;
      }
      assert sdb[..i + 1][..i] == sdb[..i];
      if projection.Some? && projection.value != [] {
        newSdb := newSdb + [projection.value];
      }
      i := i + 1;
    }
    assert sdb[..i] == sdb;
  }

  // ---------------------------------------------------------------------
  // The search

  /** A found pair e extends prefix by a non-empty pattern whose support in
      sdb is e's count and reaches minSupport. */
  ghost predicate Extension(e: (seq<Element>, nat), sdb: Db, prefix: seq<Element>, minSupport: int) {
    |e.0| > |prefix| && e.0[..|prefix|] == prefix &&
    e.1 == Supp(sdb, e.0[|prefix|..]) && e.1 >= 1 && e.1 >= minSupport
  }

  /** Every frequent pattern of sdb that starts with x has been found, after
      prefix, with its support. */
  ghost predicate Covered(r: set<(seq<Element>, nat)>, sdb: Db, prefix: seq<Element>, x: Element, minSupport: int) {
    forall q :: q != [] && q[0] == x && Supp(sdb, q) >= 1 && Supp(sdb, q) >= minSupport ==>
      (prefix + q, Supp(sdb, q)) in r
  }

  /** What the search below prefix + [x] finds, on the database projected on
      x, extends prefix on the original database. */
  lemma ExtensionLifts(e: (seq<Element>, nat), sdb: Db, prefix: seq<Element>, x: Element, minSupport: int)
    requires Extension(e, Projected(sdb, x), prefix + [x], minSupport)
    ensures Extension(e, sdb, prefix, minSupport)
  {
    var n := |prefix|;
    var q := e.0[n + 1..];
    assert e.0[..n] == (prefix + [x])[..n] == prefix;
    assert e.0[n..] == [x] + q;
    SuppProjected(sdb, x, q);
  }

  /** The pair found for prefix + [x] itself extends prefix. */
  lemma ExtensionHead(sdb: Db, prefix: seq<Element>, x: Element, minSupport: int)
    requires Frequent(sdb, x, minSupport)
    ensures Extension((prefix + [x], Support(sdb, x)), sdb, prefix, minSupport)
  {
    assert (prefix + [x])[..|prefix|] == prefix;
    assert (prefix + [x])[|prefix|..] == [x];
    SuppSingleton(sdb, x);
  }

  /** The search below prefix + [x] covers every frequent pattern that
      starts with x. */
  lemma CoveredAfter(r: set<(seq<Element>, nat)>, sdb: Db, prefix: seq<Element>, x: Element, minSupport: int)
    requires (prefix + [x], Support(sdb, x)) in r
    requires forall q :: q != [] && Supp(Projected(sdb, x), q) >= 1 && Supp(Projected(sdb, x), q) >= minSupport ==>
      ((prefix + [x]) + q, Supp(Projected(sdb, x), q)) in r
    ensures Covered(r, sdb, prefix, x, minSupport)
  {
    forall q | q != [] && q[0] == x && Supp(sdb, q) >= 1 && Supp(sdb, q) >= minSupport
      ensures (prefix + q, Supp(sdb, q)) in r
    {
      var rest := q[1..];
      assert q == [x] + rest;
      if rest == [] {
        assert q == [x];
        SuppSingleton(sdb, x);
      } else {
        SuppProjected(sdb, x, rest);
        assert (prefix + [x]) + rest == prefix + q;
        assert ((prefix + [x]) + rest, Supp(Projected(sdb, x), rest)) in r;
      }
    }
  }

  /** A frequent pattern's first element is frequent. */
  lemma HeadFrequent(sdb: Db, q: seq<Element>, minSupport: int)
    requires q != [] && Supp(sdb, q) >= 1 && Supp(sdb, q) >= minSupport
    ensures Frequent(sdb, q[0], minSupport)
  {
    assert q == [q[0]] + q[1..];
    SuppAtMostHead(sdb, q[0], q[1..]);
  }

  /** Adds prefix with its support (unless prefix is empty) and every
      frequent extension of prefix to freqSeqs: each non-empty pattern q
      frequent in sdb, which is the database projected on prefix, is found
      as prefix + q with q's support, and nothing else is added. */
  method FreqSeq(sdb: Db, prefix: seq<Element>, prefixSupport: nat, minSupport: int,
                 freqSeqs: set<(seq<Element>, nat)>)
    returns (r: set<(seq<Element>, nat)>)
    ensures freqSeqs <= r
    ensures prefix != [] ==> (prefix, prefixSupport) in r
    ensures forall e :: e in r && e !in freqSeqs ==>
      (prefix != [] && e == (prefix, prefixSupport)) || Extension(e, sdb, prefix, minSupport)
    ensures forall q :: q != [] && Supp(sdb, q) >= 1 && Supp(sdb, q) >= minSupport ==>
      (prefix + q, Supp(sdb, q)) in r
    decreases TotalLen(sdb)
  {
    r := freqSeqs;
    if prefix != [] {
      r := r + {(prefix, prefixSupport)};
    }
    ghost var base := r;
    var locallyFrequents := LocalFreqItems(sdb, minSupport);
    if locallyFrequents == [] {
      forall q | q != [] && Supp(sdb, q) >= 1 && Supp(sdb, q) >= minSupport
        ensures false
      {
        HeadFrequent(sdb, q, minSupport);
      }
      return;
    }
    var k := 0;
    while k < |locallyFrequents|
      invariant 0 <= k <= |locallyFrequents|
      invariant base <= r
      invariant forall e :: e in r && e !in base ==> Extension(e, sdb, prefix, minSupport)
      invariant forall l :: 0 <= l < k ==> Covered(r, sdb, prefix, locallyFrequents[l].0, minSupport)
    {
      var (item, support) := locallyFrequents[k];
      var newPrefix := prefix + [item];
      var newSdb := Project(sdb, newPrefix);
      ProjectedShorter(sdb, item);
      ghost var before := r;
      r := FreqSeq(newSdb, newPrefix, support, minSupport, r);
      forall e | e in r && e !in base
        ensures Extension(e, sdb, prefix, minSupport)
      {
        if e !in before {
          if e == (newPrefix, support) {
            ExtensionHead(sdb, prefix, item, minSupport);
          } else {
            ExtensionLifts(e, sdb, prefix, item, minSupport);
          }
        }
      }
      CoveredAfter(r, sdb, prefix, item, minSupport);
      k := k + 1;
    }
    forall q | q != [] && Supp(sdb, q) >= 1 && Supp(sdb, q) >= minSupport
      ensures (prefix + q, Supp(sdb, q)) in r
    {
      HeadFrequent(sdb, q, minSupport);
      var l :| 0 <= l < |locallyFrequents| && locallyFrequents[l].0 == q[0];
    }
  }

  /** All frequent sequences of the database with their supports: exactly
      the non-empty patterns contained in at least one and in at least
      minSupport of the sequences. */
  method FreqSeqEnum(sequences: Db, minSupport: int) returns (freqSeqs: set<(seq<Element>, nat)>)
    ensures forall e :: e in freqSeqs <==>
      e.0 != [] && e.1 == Supp(sequences, e.0) && e.1 >= 1 && e.1 >= minSupport
  {
    freqSeqs := FreqSeq(sequences, [], 0, minSupport, {});
    forall e: (seq<Element>, nat) | e.0 != [] && e.1 == Supp(sequences, e.0) && e.1 >= 1 && e.1 >= minSupport
      ensures e in freqSeqs
    {
      assert [] + e.0 == e.0;
    }
    forall e | e in freqSeqs
      ensures e.0 != [] && e.1 == Supp(sequences, e.0)
    {
      assert e.0[0..] == e.0;
    }
  }
}
