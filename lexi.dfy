/** Items, the frequency table, and the order in which the SAM miner compares
    items and transactions.  An item is keyed by the pair (frequency, item) and
    a transaction by the list of its items' keys (its "lexi representation");
    keys and key lists are compared the way Python compares tuples and lists. */
module Lexi {

  /** An item of a transaction.  The fixtures use one-letter items. */
  type Item = char

  /** Frequency table: how many times each item was counted. */
  type Frequencies = map<Item, nat>

  /** The key an item is ordered by: (frequency, item). */
  type Key = (nat, Item)

  /** Lookup with the default of a `defaultdict(int)`: 0 for an item never counted. */
  function Freq(f: Frequencies, x: Item): nat {
    if x in f then f[x] else 0
  }

  /** Python's `<` on two (frequency, item) tuples. */
  predicate KeyLess(p: Key, q: Key) {
    p.0 < q.0 || (p.0 == q.0 && p.1 < q.1)
  }

  /** The key of item x under the frequency table f. */
  function KeyOf(f: Frequencies, x: Item): Key {
    (Freq(f, x), x)
  }

  /** `lexi_repr`: the list of (frequency, item) pairs of a transaction. */
  function LexiRepr(t: seq<Item>, f: Frequencies): seq<Key> {
    if t == [] then [] else [KeyOf(f, t[0])] + LexiRepr(t[1..], f)
  }

  /** Python's `<` on two lists of keys: the first differing position
      decides, and a proper prefix is smaller. */
  predicate LexLess(u: seq<Key>, v: seq<Key>) {
    if u == [] then v != []
    else if v == [] then false
    else KeyLess(u[0], v[0]) || (u[0] == v[0] && LexLess(u[1..], v[1..]))
  }

  /** Transaction s comes before transaction t: `lexi_repr(s) < lexi_repr(t)`. */
  predicate TxLess(f: Frequencies, s: seq<Item>, t: seq<Item>) {
    LexLess(LexiRepr(s, f), LexiRepr(t, f))
  }

  /** The lexi representation has one entry per item. */
  lemma {:induction false} LexiReprLength(t: seq<Item>, f: Frequencies)
    ensures |LexiRepr(t, f)| == |t|
  {
    if t != [] {
      LexiReprLength(t[1..], f);
    }
  }

  /** The lexi representation has one entry per item, and entry k is the
      key (frequency, item) of the k-th item. */
  lemma {:induction false} LexiReprAt(t: seq<Item>, f: Frequencies, k: nat)
    requires k < |t|
    ensures |LexiRepr(t, f)| == |t|
    ensures LexiRepr(t, f)[k] == (Freq(f, t[k]), t[k])
  {
    if k > 0 {
      LexiReprAt(t[1..], f, k - 1);
    } else if |t| > 1 {
      LexiReprAt(t[1..], f, 0);
    }
  }

  /** The lexi representation loses nothing: two transactions have the same
      representation exactly when they are the same list of items.  So the
      SAM merge, which combines entries of equal representation, combines
      only equal transactions. */
  lemma {:induction false} LexiReprInjective(s: seq<Item>, t: seq<Item>, f: Frequencies)
    ensures LexiRepr(s, f) == LexiRepr(t, f) <==> s == t
  {
    if s != [] && t != [] {
      LexiReprInjective(s[1..], t[1..], f);
      if LexiRepr(s, f) == LexiRepr(t, f) {
        assert LexiRepr(s, f)[0] == LexiRepr(t, f)[0];
        assert LexiRepr(s, f)[1..] == LexiRepr(s[1..], f);
        assert LexiRepr(t, f)[1..] == LexiRepr(t[1..], f);
        assert s == [s[0]] + s[1..] && t == [t[0]] + t[1..];
      }
    }
  }

  /** No key list is smaller than itself. */
  lemma {:induction false} LexLessIrreflexive(u: seq<Key>)
    ensures !LexLess(u, u)
  {
    if u != [] {
      LexLessIrreflexive(u[1..]);
    }
  }

  /** The list order is transitive. */
  lemma {:induction false} LexLessTransitive(u: seq<Key>, v: seq<Key>, w: seq<Key>)
    requires LexLess(u, v) && LexLess(v, w)
    ensures LexLess(u, w)
  {
    if u != [] && v != [] && w != [] && u[0] == v[0] && v[0] == w[0] {
      LexLessTransitive(u[1..], v[1..], w[1..]);
    }
  }

  /** Any two different key lists are ordered one way or the other, so
      Python's three-way test `>`, `<`, else `==` in the merge is exhaustive. */
  lemma {:induction false} LexLessTotal(u: seq<Key>, v: seq<Key>)
    ensures u == v || LexLess(u, v) || LexLess(v, u)
  {
    if u != [] && v != [] && u[0] == v[0] {
      LexLessTotal(u[1..], v[1..]);
      if u[1..] == v[1..] {
        assert u == [u[0]] + u[1..] && v == [v[0]] + v[1..];
      }
    }
  }

  /** The transaction order is a strict total order on lists of items. */
  lemma TxLessTotal(f: Frequencies, s: seq<Item>, t: seq<Item>)
    ensures s == t || TxLess(f, s, t) || TxLess(f, t, s)
    ensures !(TxLess(f, s, t) && TxLess(f, t, s))
  {
    LexLessTotal(LexiRepr(s, f), LexiRepr(t, f));
    LexiReprInjective(s, t, f);
    if TxLess(f, s, t) && TxLess(f, t, s) {
      LexLessTransitive(LexiRepr(s, f), LexiRepr(t, f), LexiRepr(s, f));
      LexLessIrreflexive(LexiRepr(s, f));
    }
  }

  lemma TxLessTransitive(f: Frequencies, s: seq<Item>, t: seq<Item>, u: seq<Item>)
    requires TxLess(f, s, t) && TxLess(f, t, u)
    ensures TxLess(f, s, u)
  {
    LexLessTransitive(LexiRepr(s, f), LexiRepr(t, f), LexiRepr(u, f));
  }

  lemma TxLessIrreflexive(f: Frequencies, s: seq<Item>)
    ensures !TxLess(f, s, s)
  {
    LexLessIrreflexive(LexiRepr(s, f));
  }

  /** Transactions that start with the same item are ordered by what follows it. */
  lemma TxLessSameHead(f: Frequencies, x: Item, s: seq<Item>, t: seq<Item>)
    ensures TxLess(f, [x] + s, [x] + t) <==> TxLess(f, s, t)
  {
    assert ([x] + s)[1..] == s && ([x] + t)[1..] == t;
  }
}
