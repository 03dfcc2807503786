/** Association rules from frequent item sets.  For every frequent item set
    of at least two items, the miner starts from each split {item} => rest
    and grows the antecedent one item at a time, emitting a rule whenever
    its confidence (support of the whole set over support of the
    antecedent) reaches the threshold, and growing only such rules.  Pairs
    already tried are remembered in `visited`, so no split is tried twice. */
module AssocRules {
  import opened Lexi

  /** An item set: `frozenset` in the source. */
  type Itemset = set<Item>

  /** A rule left => right with its support and confidence. */
  datatype Rule = Rule(left: Itemset, right: Itemset, support: nat, confidence: real)

  /** The two exceptions a lookup can raise: the antecedent is not a known
      item set (`KeyError`), or its support is zero (`ZeroDivisionError`). */
  datatype Error = KeyError(key: Itemset) | ZeroDivisionError(key: Itemset)

  datatype Result<T> = Success(value: T) | Failure(error: Error)

  /** The accumulators shared by every call: the pairs tried and the rules
      emitted so far. */
  datatype State = State(visited: set<(Itemset, Itemset)>, rules: seq<Rule>)

  function Pair(r: Rule): (Itemset, Itemset) {
    (r.left, r.right)
  }

  /** The error names a key that really is missing, or really has support 0. */
  predicate Raised(e: Error, isets: map<Itemset, nat>) {
    match e
    case KeyError(k) => k !in isets
    case ZeroDivisionError(k) => k in isets && isets[k] == 0
  }

  /** Every non-empty subset of a listed item set is listed with a positive
      support, as it is for the output of a frequent-item-set miner. */
  predicate SubsetClosed(isets: map<Itemset, nat>) {
    forall k, s :: k in isets && s in SubsetsOf(k) ==> s in isets && isets[s] > 0
  }

  function SubsetsOf(k: Itemset): set<Itemset> {
    set s: Itemset | s <= k && s != {}
  }

  /** Every non-empty proper subset of key is listed with a positive support:
      the antecedents a search inside key can look up. */
  ghost predicate ProperSubsetsListed(key: Itemset, isets: map<Itemset, nat>) {
    forall s :: s != {} && s < key ==> s in isets && isets[s] > 0
  }

  /** Every set the top level searches (listed, with support at least
      minSupport and at least two items) has its non-empty proper subsets
      listed with positive supports. */
  ghost predicate LookupsListed(isets: map<Itemset, nat>, minSupport: int) {
    forall key :: key in isets && isets[key] >= minSupport && |key| >= 2 ==> ProperSubsetsListed(key, isets)
  }

  /** Every tried pair's antecedent was looked up and found with a positive
      support. */
  predicate LookedUp(visited: set<(Itemset, Itemset)>, isets: map<Itemset, nat>) {
    forall p :: p in visited ==> p.0 in isets && isets[p.0] > 0
  }

  /** A rule reached from the pair (left, right): some items of right have
      moved to the antecedent and the rest form a non-empty consequent; the
      rule carries the support it was started with, and its confidence is
      that support over the antecedent's support and reaches the threshold. */
  predicate Grown(r: Rule, left: Itemset, right: Itemset, ruleSupport: nat,
                  isets: map<Itemset, nat>, minConfidence: real)
  {
    && left <= r.left && r.right <= right && r.left - left == right - r.right
    && r.right != {}
    && r.support == ruleSupport
    && r.left in isets && isets[r.left] > 0
    && r.confidence == r.support as real / isets[r.left] as real
    && r.confidence >= minConfidence
  }

  /** s extends the accumulators (visited, rules): visited only grows, the
      old rules stay in front, and every new rule is grown from (left, right),
      was not tried before, is now recorded as tried, and differs in its pair
      from every other new rule. */
  predicate Extends(s: State, visited: set<(Itemset, Itemset)>, rules: seq<Rule>,
                    left: Itemset, right: Itemset, ruleSupport: nat,
                    isets: map<Itemset, nat>, minConfidence: real)
  {
    && visited <= s.visited
    && |rules| <= |s.rules| && s.rules[..|rules|] == rules
    && (forall k :: |rules| <= k < |s.rules| ==>
          Grown(s.rules[k], left, right, ruleSupport, isets, minConfidence)
          && Pair(s.rules[k]) in s.visited && Pair(s.rules[k]) !in visited)
    && (forall j, k :: |rules| <= j < k < |s.rules| ==> Pair(s.rules[j]) != Pair(s.rules[k]))
  }

  /** A rule grown from (left + {x}, right - {x}) for an x of right is grown
      from (left, right). */
  lemma GrownStep(r: Rule, left: Itemset, right: Itemset, x: Item, ruleSupport: nat,
                  isets: map<Itemset, nat>, minConfidence: real)
    requires left !! right && x in right
    requires Grown(r, left + {x}, right - {x}, ruleSupport, isets, minConfidence)
    ensures Grown(r, left, right, ruleSupport, isets, minConfidence)
  {
    assert r.left - left == (r.left - (left + {x})) + {x};
  }

  /** A grown rule splits the same item set as the pair it was grown from,
      and its sides stay disjoint when the pair's were. */
  lemma GrownSplit(r: Rule, left: Itemset, right: Itemset, ruleSupport: nat,
                   isets: map<Itemset, nat>, minConfidence: real)
    requires Grown(r, left, right, ruleSupport, isets, minConfidence)
    ensures r.left + r.right == left + right
    ensures left !! right ==> r.left !! r.right
  {
    assert r.left == left + (right - r.right);
  }

  /** Extending twice is extending: the first extension comes from
      (left, right), the second from (left + {x}, right - {x}). */
  lemma ExtendsStep(s1: State, s2: State, visited: set<(Itemset, Itemset)>, rules: seq<Rule>,
                    left: Itemset, right: Itemset, x: Item, ruleSupport: nat,
                    isets: map<Itemset, nat>, minConfidence: real)
    requires left !! right && x in right
    requires Extends(s1, visited, rules, left, right, ruleSupport, isets, minConfidence)
    requires Extends(s2, s1.visited, s1.rules, left + {x}, right - {x}, ruleSupport, isets, minConfidence)
    ensures Extends(s2, visited, rules, left, right, ruleSupport, isets, minConfidence)
  {
    forall k | |rules| <= k < |s2.rules|
      ensures Grown(s2.rules[k], left, right, ruleSupport, isets, minConfidence)
      ensures Pair(s2.rules[k]) in s2.visited && Pair(s2.rules[k]) !in visited
    {
      if k < |s1.rules| {
        assert s2.rules[k] == s2.rules[..|s1.rules|][k] == s1.rules[k];
      } else {
        GrownStep(s2.rules[k], left, right, x, ruleSupport, isets, minConfidence);
      }
    }
    forall j, k | |rules| <= j < k < |s2.rules| ensures Pair(s2.rules[j]) != Pair(s2.rules[k]) {
      if k < |s1.rules| {
        assert s2.rules[k] == s2.rules[..|s1.rules|][k] == s1.rules[k];
        assert s2.rules[j] == s2.rules[..|s1.rules|][j] == s1.rules[j];
      } else if j < |s1.rules| {
        assert s2.rules[j] == s2.rules[..|s1.rules|][j] == s1.rules[j];
      }
    }
    assert s2.rules[..|rules|] == s2.rules[..|s1.rules|][..|rules|];
  }

  /** The (antecedent, consequent) pairs of a list of rules. */
  function Pairs(rules: seq<Rule>): set<(Itemset, Itemset)> {
    set k | 0 <= k < |rules| :: Pair(rules[k])
  }

  lemma PairsPrefix(rules: seq<Rule>, more: seq<Rule>)
    requires |rules| <= |more| && more[..|rules|] == rules
    ensures Pairs(rules) <= Pairs(more)
  {
    forall p | p in Pairs(rules) ensures p in Pairs(more) {
      var k :| 0 <= k < |rules| && Pair(rules[k]) == p;
      assert more[k] == more[..|rules|][k];
    }
  }

  /** The pair p is finished: if it is a confident split of its item set, its
      rule has been emitted and every pair with one more item moved from the
      consequent to the antecedent (leaving the consequent non-empty) has
      been tried. */
  predicate Finished(p: (Itemset, Itemset), visited: set<(Itemset, Itemset)>, rules: seq<Rule>,
                     isets: map<Itemset, nat>, minConfidence: real)
  {
    p.0 != {} && p.1 != {} && Confident(isets, p.0 + p.1, p.0, minConfidence) ==>
      && p in Pairs(rules)
      && forall x :: x in p.1 && |p.1| > 1 ==> (p.0 + {x}, p.1 - {x}) in visited
  }

  /** Every tried pair is finished. */
  predicate AllFinished(visited: set<(Itemset, Itemset)>, rules: seq<Rule>,
                        isets: map<Itemset, nat>, minConfidence: real)
  {
    forall p :: p in visited ==> Finished(p, visited, rules, isets, minConfidence)
  }

  /** Every tried pair is finished, except pairs with antecedents smaller
      than n: the callers further up the recursion, still at work. */
  predicate Settled(visited: set<(Itemset, Itemset)>, rules: seq<Rule>, n: nat,
                    isets: map<Itemset, nat>, minConfidence: real)
  {
    forall p :: p in visited ==> Finished(p, visited, rules, isets, minConfidence) || |p.0| < n
  }

  /** Inside the call for (left, right): every tried pair is finished,
      except the callers' pairs and (left, right) itself. */
  predicate InProgress(vis: set<(Itemset, Itemset)>, acc: seq<Rule>, visited: set<(Itemset, Itemset)>,
                       left: Itemset, right: Itemset, isets: map<Itemset, nat>, minConfidence: real)
  {
    forall p :: p in vis ==>
      Finished(p, vis, acc, isets, minConfidence) || (p in visited && |p.0| < |left|) || p == (left, right)
  }

  /** A finished pair stays finished as the accumulators grow. */
  lemma FinishedGrows(p: (Itemset, Itemset), visited: set<(Itemset, Itemset)>, rules: seq<Rule>,
                      visited': set<(Itemset, Itemset)>, rules': seq<Rule>,
                      isets: map<Itemset, nat>, minConfidence: real)
    requires visited <= visited' && |rules| <= |rules'| && rules'[..|rules|] == rules
    requires Finished(p, visited, rules, isets, minConfidence)
    ensures Finished(p, visited', rules', isets, minConfidence)
  {
    PairsPrefix(rules, rules');
  }

  /** Before a recursive call on an antecedent one item larger, the pairs
      not yet finished all have smaller antecedents. */
  lemma InProgressSettled(vis: set<(Itemset, Itemset)>, acc: seq<Rule>, visited: set<(Itemset, Itemset)>,
                          left: Itemset, right: Itemset, item: Item, isets: map<Itemset, nat>, minConfidence: real)
    requires left !! right && item in right
    requires InProgress(vis, acc, visited, left, right, isets, minConfidence)
    ensures Settled(vis, acc, |left + {item}|, isets, minConfidence)
  {
    assert |left + {item}| == |left| + 1;
  }

  /** One recursive call of the loop keeps the loop's invariants. */
  lemma StepKeeps(left: Itemset, right: Itemset, item: Item, ruleSupport: nat,
                  isets: map<Itemset, nat>, minConfidence: real,
                  visited: set<(Itemset, Itemset)>, rules: seq<Rule>,
                  vis: set<(Itemset, Itemset)>, acc: seq<Rule>, s: State, stacked: bool)
    requires left !! right && item in right
    requires (left, right) in vis && (left, right) in Pairs(acc)
    requires Extends(State(vis, acc), visited, rules, left, right, ruleSupport, isets, minConfidence)
    requires Extends(s, vis, acc, left + {item}, right - {item}, ruleSupport, isets, minConfidence)
    requires stacked ==> InProgress(vis, acc, visited, left, right, isets, minConfidence)
    requires stacked ==> forall p :: p in s.visited ==>
      Finished(p, s.visited, s.rules, isets, minConfidence) || (p in vis && |p.0| < |left + {item}|)
    ensures Extends(s, visited, rules, left, right, ruleSupport, isets, minConfidence)
    ensures (left, right) in s.visited && (left, right) in Pairs(s.rules)
    ensures |acc| <= |s.rules| && s.rules[..|acc|] == acc
    ensures stacked ==> InProgress(s.visited, s.rules, visited, left, right, isets, minConfidence)
  {
    ExtendsStep(State(vis, acc), s, visited, rules, left, right, item, ruleSupport, isets, minConfidence);
    PairsPrefix(acc, s.rules);
    if stacked {
      assert |left + {item}| == |left| + 1;
      forall p | p in s.visited
        ensures Finished(p, s.visited, s.rules, isets, minConfidence) || (p in visited && |p.0| < |left|) || p == (left, right)
      {
        if !Finished(p, s.visited, s.rules, isets, minConfidence) && p in vis && Finished(p, vis, acc, isets, minConfidence) {
          FinishedGrows(p, vis, acc, s.visited, s.rules, isets, minConfidence);
        }
      }
    }
  }

  /** `_mine_assoc_rules`: try the rule left => right.  A pair already tried,
      or one with an empty consequent, changes nothing.  Otherwise the pair
      is recorded as tried, the antecedent's support is looked up, and if the
      confidence reaches the threshold the rule is emitted and every way of
      moving one item of the consequent to the antecedent is tried in turn
      (in the iteration order of the set, which is left open).  The lookup
      fails when the antecedent is not listed or has support 0; with a
      subset-closed table of positive supports it never fails.  Called with
      the support of left + right and with every tried pair finished except
      the callers' (whose antecedents are smaller), it leaves every tried
      pair finished except those same callers' pairs. */
  method MineRulesFrom(left: Itemset, right: Itemset, ruleSupport: nat,
                       isets: map<Itemset, nat>, minConfidence: real,
                       visited: set<(Itemset, Itemset)>, rules: seq<Rule>)
      returns (r: Result<State>)
    requires left !! right
    ensures r.Success? ==>
      Extends(r.value, visited, rules, left, right, ruleSupport, isets, minConfidence)
    ensures r.Success? && |r.value.rules| > |rules| ==>
      left in isets && isets[left] > 0 &&
      r.value.rules[|rules|] == Rule(left, right, ruleSupport, ruleSupport as real / isets[left] as real)
    ensures (left, right) in visited || right == {} ==> r == Success(State(visited, rules))
    ensures (left, right) !in visited && right != {} && left !in isets ==> r == Failure(KeyError(left))
    ensures (left, right) !in visited && right != {} && left in isets && isets[left] == 0 ==>
      r == Failure(ZeroDivisionError(left))
    ensures r.Failure? ==> Raised(r.error, isets) && left <= r.error.key && r.error.key < left + right
    ensures left != {} && ProperSubsetsListed(left + right, isets) ==> r.Success?
    ensures r.Success? && LookedUp(visited, isets) ==> LookedUp(r.value.visited, isets)
    ensures (left, right) !in visited && right != {} && left in isets && isets[left] > 0 ==>
      var confidence := ruleSupport as real / isets[left] as real;
      if confidence >= minConfidence then
        r.Success? ==> (
          && |r.value.rules| > |rules| && r.value.rules[|rules|] == Rule(left, right, ruleSupport, confidence)
          && forall x :: x in right && |right| > 1 ==> (left + {x}, right - {x}) in r.value.visited)
      else
        r == Success(State(visited + {(left, right)}, rules))
    ensures r.Success? && right != {} ==> (left, right) in r.value.visited
    ensures (r.Success? && left + right in isets && ruleSupport == isets[left + right]
             && Settled(visited, rules, |left|, isets, minConfidence)) ==>
      forall p :: p in r.value.visited ==>
        Finished(p, r.value.visited, r.value.rules, isets, minConfidence) || (p in visited && |p.0| < |left|)
    decreases |right|, 1
  {
    if (left, right) in visited || |right| < 1 {
      return Success(State(visited, rules));
    }
    var vis := visited + {(left, right)};
    if left !in isets {
      return Failure(KeyError(left));
    }
    var supportA := isets[left];
    if supportA == 0 {
      return Failure(ZeroDivisionError(left));
    }
    var confidence := ruleSupport as real / supportA as real;
    if confidence < minConfidence {
      return Success(State(vis, rules));
    }
    var acc := rules + [Rule(left, right, ruleSupport, confidence)];
    assert acc[..|rules|] == rules;
    assert Pair(acc[|rules|]) == (left, right);
    ghost var stacked := left + right in isets && ruleSupport == isets[left + right]
      && Settled(visited, rules, |left|, isets, minConfidence);
    var moved := MoveEach(left, right, ruleSupport, isets, minConfidence, visited, rules, vis, acc, stacked);
    if moved.Failure? {
      return moved;
    }
    assert moved.value.rules[|rules|] == moved.value.rules[..|acc|][|rules|];
    return moved;
  }

  /** The loop of `_mine_assoc_rules` after its rule is emitted: for item in
      right, try the pair with that item moved to the antecedent, from the
      accumulators (vis, acc) on. */
  method MoveEach(left: Itemset, right: Itemset, ruleSupport: nat,
                  isets: map<Itemset, nat>, minConfidence: real,
                  ghost visited: set<(Itemset, Itemset)>, ghost rules: seq<Rule>,
                  vis: set<(Itemset, Itemset)>, acc: seq<Rule>, ghost stacked: bool)
      returns (r: Result<State>)
    requires left !! right
    requires (left, right) in vis && (left, right) in Pairs(acc)
    requires Extends(State(vis, acc), visited, rules, left, right, ruleSupport, isets, minConfidence)
    requires stacked ==> (left + right in isets && ruleSupport == isets[left + right]
                          && InProgress(vis, acc, visited, left, right, isets, minConfidence))
    ensures r.Success? ==>
      && Extends(r.value, visited, rules, left, right, ruleSupport, isets, minConfidence)
      && |acc| <= |r.value.rules| && r.value.rules[..|acc|] == acc
      && (left, right) in r.value.visited && (left, right) in Pairs(r.value.rules)
      && (stacked ==> InProgress(r.value.visited, r.value.rules, visited, left, right, isets, minConfidence))
      && forall x :: x in right && |right| > 1 ==> (left + {x}, right - {x}) in r.value.visited
    ensures r.Failure? ==> Raised(r.error, isets) && left <= r.error.key && r.error.key < left + right
    ensures left != {} && ProperSubsetsListed(left + right, isets) ==> r.Success?
    ensures r.Success? && LookedUp(vis, isets) ==> LookedUp(r.value.visited, isets)
    decreases |right|, 0
  {
    var vis, acc := vis, acc;
    ghost var start := acc;
    ghost var found := LookedUp(vis, isets);
    // for item in right: the order of the set's iteration is left open
    var todo := right;
    while todo != {}
      invariant todo <= right
      invariant (left, right) in vis && (left, right) in Pairs(acc)
      invariant |start| <= |acc| && acc[..|start|] == start
      invariant Extends(State(vis, acc), visited, rules, left, right, ruleSupport, isets, minConfidence)
      invariant stacked ==> InProgress(vis, acc, visited, left, right, isets, minConfidence)
      invariant forall x :: x in right - todo && |right| > 1 ==> (left + {x}, right - {x}) in vis
      invariant found ==> LookedUp(vis, isets)
      decreases |todo|
    {
      var item :| item in todo;
      todo := todo - {item};
      assert (left + {item}) + (right - {item}) == left + right;
      if stacked {
        InProgressSettled(vis, acc, visited, left, right, item, isets, minConfidence);
      }
      var sub := MineRulesFrom(left + {item}, right - {item}, ruleSupport, isets, minConfidence, vis, acc);
      if sub.Failure? {
        return sub;
      }
      StepKeeps(left, right, item, ruleSupport, isets, minConfidence, visited, rules, vis, acc, sub.value, stacked);
      assert sub.value.rules[..|start|] == sub.value.rules[..|acc|][..|start|];
      vis, acc := sub.value.visited, sub.value.rules;
    }
    return Success(State(vis, acc));
  }

  /** A rule the top level may emit: its two sides are disjoint and
      non-empty and together form a listed item set of at least two items
      whose support reaches the minimum; the rule carries that support, and
      its confidence is that support over the antecedent's and reaches the
      threshold. */
  predicate ValidRule(r: Rule, isets: map<Itemset, nat>, minSupport: int, minConfidence: real) {
    var key := r.left + r.right;
    && key in isets && isets[key] >= minSupport && |key| >= 2
    && r.left != {} && r.right != {} && r.left !! r.right
    && r.support == isets[key]
    && r.left in isets && isets[r.left] > 0
    && r.confidence == r.support as real / isets[r.left] as real
    && r.confidence >= minConfidence
  }

  /** The rule left => key - left reaches the confidence threshold. */
  predicate Confident(isets: map<Itemset, nat>, key: Itemset, left: Itemset, minConfidence: real) {
    key in isets && left in isets && isets[left] > 0
    && isets[key] as real / isets[left] as real >= minConfidence
  }

  /** The rule's antecedent holds an item x whose singleton rule
      {x} => rest of the set is itself confident: the only rules the search
      reaches, since it starts from singletons and never grows a rule whose
      confidence is below the threshold. */
  predicate StartsConfident(r: Rule, isets: map<Itemset, nat>, minConfidence: real) {
    exists x :: x in r.left && Confident(isets, r.left + r.right, {x}, minConfidence)
  }

  /** What the top level keeps of every rule emitted so far. */
  predicate Emitted(rules: seq<Rule>, visited: set<(Itemset, Itemset)>,
                    isets: map<Itemset, nat>, minSupport: int, minConfidence: real)
  {
    && (forall k :: 0 <= k < |rules| ==>
          ValidRule(rules[k], isets, minSupport, minConfidence) && Pair(rules[k]) in visited)
    && (forall j, k :: 0 <= j < k < |rules| ==> Pair(rules[j]) != Pair(rules[k]))
  }

  /** A largest item set of a non-empty collection exists: the first key of
      `sorted(isets, key=len, reverse=True)`. */
  lemma {:induction false} LargestExists(keys: set<Itemset>)
    requires keys != {}
    ensures exists k :: k in keys && forall j :: j in keys ==> |j| <= |k|
    decreases |keys|
  {
    var x :| x in keys;
    if keys - {x} != {} {
      LargestExists(keys - {x});
      var k :| k in keys - {x} && forall j :: j in keys - {x} ==> |j| <= |k|;
      if |x| > |k| {
        assert forall j :: j in keys ==> |j| <= |x|;
      } else {
        assert forall j :: j in keys ==> |j| <= |k|;
      }
    } else {
      assert keys == {x};
    }
  }

  /** The rules a search started from {item} => key - {item} adds keep what
      the top level promises of its rules. */
  lemma StartEmits(st: State, s: State, item: Item, key: Itemset,
                   isets: map<Itemset, nat>, minSupport: int, minConfidence: real)
    requires item in key && |key| >= 2 && key in isets && isets[key] >= minSupport
    requires Emitted(st.rules, st.visited, isets, minSupport, minConfidence)
    requires forall k :: 0 <= k < |st.rules| ==> StartsConfident(st.rules[k], isets, minConfidence)
    requires Extends(s, st.visited, st.rules, {item}, key - {item}, isets[key], isets, minConfidence)
    requires |s.rules| > |st.rules| ==> Confident(isets, key, {item}, minConfidence)
    ensures Emitted(s.rules, s.visited, isets, minSupport, minConfidence)
    ensures forall k :: 0 <= k < |s.rules| ==> StartsConfident(s.rules[k], isets, minConfidence)
  {
    forall k | 0 <= k < |s.rules|
      ensures ValidRule(s.rules[k], isets, minSupport, minConfidence)
      ensures StartsConfident(s.rules[k], isets, minConfidence)
      ensures Pair(s.rules[k]) in s.visited
    {
      if k < |st.rules| {
        assert s.rules[k] == s.rules[..|st.rules|][k];
      } else {
        var r := s.rules[k];
        GrownSplit(r, {item}, key - {item}, isets[key], isets, minConfidence);
        assert {item} + (key - {item}) == key;
        assert item in r.left && Confident(isets, r.left + r.right, {item}, minConfidence);
      }
    }
    forall j, k | 0 <= j < k < |s.rules| ensures Pair(s.rules[j]) != Pair(s.rules[k]) {
      if k < |st.rules| {
        assert s.rules[k] == s.rules[..|st.rules|][k] && s.rules[j] == s.rules[..|st.rules|][j];
      } else if j < |st.rules| {
        assert s.rules[j] == s.rules[..|st.rules|][j];
      }
    }
  }

  /** Every listed item set among keys whose support reaches the minimum and
      which has at least two items has had each of its starting splits
      {x} => rest tried. */
  predicate Started(visited: set<(Itemset, Itemset)>, keys: set<Itemset>,
                    isets: map<Itemset, nat>, minSupport: int)
  {
    forall k, x :: k in keys && k in isets && isets[k] >= minSupport && |k| >= 2 && x in k ==>
      ({x}, k - {x}) in visited
  }

  lemma StartedGrows(visited: set<(Itemset, Itemset)>, visited': set<(Itemset, Itemset)>, keys: set<Itemset>,
                     isets: map<Itemset, nat>, minSupport: int)
    requires visited <= visited' && Started(visited, keys, isets, minSupport)
    ensures Started(visited', keys, isets, minSupport)
  {
  }

  /** Once the starting splits of key are tried (or key is not searched),
      key joins the started sets. */
  lemma StartedAdd(visited: set<(Itemset, Itemset)>, keys: set<Itemset>, key: Itemset,
                   isets: map<Itemset, nat>, minSupport: int)
    requires Started(visited, keys, isets, minSupport)
    requires key in isets && isets[key] >= minSupport && |key| >= 2 ==>
      forall x :: x in key ==> ({x}, key - {x}) in visited
    ensures Started(visited, keys + {key}, isets, minSupport)
  {
  }

  /** After a search started from {item} => key - {item} with every tried
      pair finished, every tried pair is still finished: the only pairs the
      search may leave unfinished have empty antecedents, which are finished
      trivially. */
  lemma StartFinished(st: State, s: State, item: Item, isets: map<Itemset, nat>, minConfidence: real)
    requires forall p :: p in s.visited ==>
      Finished(p, s.visited, s.rules, isets, minConfidence) || (p in st.visited && |p.0| < |{item}|)
    ensures AllFinished(s.visited, s.rules, isets, minConfidence)
  {
    forall p | p in s.visited ensures Finished(p, s.visited, s.rules, isets, minConfidence) {
      if |p.0| < |{item}| {
        assert p.0 == {};
      }
    }
  }

  /** With every tried pair finished, the starting split {x} => key - {x} of
      every started set is emitted when it is confident. */
  lemma StartsEmitted(visited: set<(Itemset, Itemset)>, rules: seq<Rule>,
                      isets: map<Itemset, nat>, minSupport: int, minConfidence: real)
    requires AllFinished(visited, rules, isets, minConfidence)
    requires Started(visited, isets.Keys, isets, minSupport)
    ensures forall key, x ::
      (key in isets && isets[key] >= minSupport && |key| >= 2 && x in key
       && Confident(isets, key, {x}, minConfidence)) ==>
      ({x}, key - {x}) in Pairs(rules)
  {
    forall key, x | key in isets && isets[key] >= minSupport && |key| >= 2 && x in key
      && Confident(isets, key, {x}, minConfidence)
      ensures ({x}, key - {x}) in Pairs(rules)
    {
      var p := ({x}, key - {x});
      assert p in visited;
      assert p.0 + p.1 == key;
      assert |key - {x}| == |key| - 1;
      assert Finished(p, visited, rules, isets, minConfidence);
    }
  }

  /** Once every starting split of every searched set has been tried and
      every tried pair's antecedent was found, the singletons of every
      searched set are listed with positive supports: when one is not, the
      search has raised. */
  lemma StartsListed(visited: set<(Itemset, Itemset)>, isets: map<Itemset, nat>, minSupport: int)
    requires LookedUp(visited, isets)
    requires Started(visited, isets.Keys, isets, minSupport)
    ensures forall key, x ::
      key in isets && isets[key] >= minSupport && |key| >= 2 && x in key ==> {x} in isets && isets[{x}] > 0
  {
    forall key, x | key in isets && isets[key] >= minSupport && |key| >= 2 && x in key
      ensures {x} in isets && isets[{x}] > 0
    {
      assert ({x}, key - {x}) in visited;
    }
  }

  /** With every tried pair finished, the emitted rules are closed under the
      search's step: moving one item of an emitted rule's consequent to its
      antecedent, leaving the consequent non-empty, gives an emitted rule
      whenever that rule is confident. */
  lemma GrowthClosed(visited: set<(Itemset, Itemset)>, rules: seq<Rule>,
                     isets: map<Itemset, nat>, minSupport: int, minConfidence: real)
    requires AllFinished(visited, rules, isets, minConfidence)
    requires Emitted(rules, visited, isets, minSupport, minConfidence)
    ensures forall k, x :: (0 <= k < |rules| && x in rules[k].right && |rules[k].right| > 1
                            && Confident(isets, rules[k].left + rules[k].right, rules[k].left + {x}, minConfidence)) ==>
      (rules[k].left + {x}, rules[k].right - {x}) in Pairs(rules)
  {
    forall k, x | 0 <= k < |rules| && x in rules[k].right && |rules[k].right| > 1
      && Confident(isets, rules[k].left + rules[k].right, rules[k].left + {x}, minConfidence)
      ensures (rules[k].left + {x}, rules[k].right - {x}) in Pairs(rules)
    {
      var r := rules[k];
      assert ValidRule(r, isets, minSupport, minConfidence) && Pair(r) in visited;
      var q := (r.left + {x}, r.right - {x});
      assert q in visited ==> Finished(q, visited, rules, isets, minConfidence);
      GrowthStep(r, x, visited, rules, isets, minSupport, minConfidence);
    }
  }

  /** One step of `GrowthClosed`, for the emitted rule r and the item x. */
  lemma GrowthStep(r: Rule, x: Item, visited: set<(Itemset, Itemset)>, rules: seq<Rule>,
                   isets: map<Itemset, nat>, minSupport: int, minConfidence: real)
    requires ValidRule(r, isets, minSupport, minConfidence)
    requires Finished(Pair(r), visited, rules, isets, minConfidence)
    requires (r.left + {x}, r.right - {x}) in visited ==>
      Finished((r.left + {x}, r.right - {x}), visited, rules, isets, minConfidence)
    requires x in r.right && |r.right| > 1
    requires Confident(isets, r.left + r.right, r.left + {x}, minConfidence)
    ensures (r.left + {x}, r.right - {x}) in Pairs(rules)
  {
    var q := (r.left + {x}, r.right - {x});
    assert q in visited;
    assert q.0 != {} && q.1 != {} && Confident(isets, q.0 + q.1, q.0, minConfidence) by {
      assert q.0 + q.1 == r.left + r.right;
      assert |r.right - {x}| == |r.right| - 1;
    }
  }

  /** The inner loop of `mine_assoc_rules` for one item set key: for item in
      key, search the rules that start from {item} => key - {item}.  It
      keeps what the top level promises of the rules and tried pairs, and
      tries every starting split of key. */
  method SearchKey(key: Itemset, isets: map<Itemset, nat>, minSupport: int, minConfidence: real, st: State)
      returns (r: Result<State>)
    requires key in isets && isets[key] >= minSupport && |key| >= 2
    requires Emitted(st.rules, st.visited, isets, minSupport, minConfidence)
    requires forall k :: 0 <= k < |st.rules| ==> StartsConfident(st.rules[k], isets, minConfidence)
    requires AllFinished(st.visited, st.rules, isets, minConfidence)
    ensures r.Success? ==>
      && Emitted(r.value.rules, r.value.visited, isets, minSupport, minConfidence)
      && (forall k :: 0 <= k < |r.value.rules| ==> StartsConfident(r.value.rules[k], isets, minConfidence))
      && AllFinished(r.value.visited, r.value.rules, isets, minConfidence)
      && st.visited <= r.value.visited
      && forall x :: x in key ==> ({x}, key - {x}) in r.value.visited
    ensures r.Failure? ==> Raised(r.error, isets) && r.error.key != {} && r.error.key < key
    ensures ProperSubsetsListed(key, isets) ==> r.Success?
    ensures r.Success? && LookedUp(st.visited, isets) ==> LookedUp(r.value.visited, isets)
  {
    var st := st;
    ghost var visited := st.visited;
    ghost var found := LookedUp(st.visited, isets);
    var support := isets[key];
    var todo := key;
    while todo != {}
      invariant todo <= key
      invariant Emitted(st.rules, st.visited, isets, minSupport, minConfidence)
      invariant forall k :: 0 <= k < |st.rules| ==> StartsConfident(st.rules[k], isets, minConfidence)
      invariant AllFinished(st.visited, st.rules, isets, minConfidence)
      invariant visited <= st.visited
      invariant forall x :: x in key - todo ==> ({x}, key - {x}) in st.visited
      invariant found ==> LookedUp(st.visited, isets)
      decreases |todo|
    {
      var item :| item in todo;
      todo := todo - {item};
      assert {item} + (key - {item}) == key;
      assert |key - {item}| == |key| - 1;
      assert Settled(st.visited, st.rules, |{item}|, isets, minConfidence);
      var sub := MineRulesFrom({item}, key - {item}, support, isets, minConfidence, st.visited, st.rules);
      if sub.Failure? {
        return Failure(sub.error);
      }
      StartEmits(st, sub.value, item, key, isets, minSupport, minConfidence);
      StartFinished(st, sub.value, item, isets, minConfidence);
      st := sub.value;
    }
    return Success(st);
  }

  /** `mine_assoc_rules`: for every listed item set, largest first, whose
      support reaches the minimum and which has at least two items, search
      the rules that start from {item} => rest for each of its items.  Every
      rule emitted is valid and starts from a confident singleton rule, and
      no (antecedent, consequent) pair is emitted twice.  Every confident
      starting split is emitted, and so is every confident rule one step of
      the search away from an emitted one.  A lookup fails only on a missing
      key or a zero support, and never on a subset-closed table of positive
      supports. */
  method MineAssocRules(isets: map<Itemset, nat>, minSupport: int, minConfidence: real)
      returns (r: Result<seq<Rule>>)
    ensures r.Success? ==> forall k :: 0 <= k < |r.value| ==>
      ValidRule(r.value[k], isets, minSupport, minConfidence)
      && StartsConfident(r.value[k], isets, minConfidence)
    ensures r.Success? ==> forall j, k :: 0 <= j < k < |r.value| ==> Pair(r.value[j]) != Pair(r.value[k])
    ensures r.Success? ==> forall key, x ::
      (key in isets && isets[key] >= minSupport && |key| >= 2 && x in key
       && Confident(isets, key, {x}, minConfidence)) ==>
      ({x}, key - {x}) in Pairs(r.value)
    ensures r.Success? ==> forall k, x ::
      (0 <= k < |r.value| && x in r.value[k].right && |r.value[k].right| > 1
       && Confident(isets, r.value[k].left + r.value[k].right, r.value[k].left + {x}, minConfidence)) ==>
      (r.value[k].left + {x}, r.value[k].right - {x}) in Pairs(r.value)
    ensures r.Success? ==> forall key, x ::
      key in isets && isets[key] >= minSupport && |key| >= 2 && x in key ==> {x} in isets && isets[{x}] > 0
    ensures r.Failure? ==> Raised(r.error, isets) && exists key ::
      key in isets && isets[key] >= minSupport && |key| >= 2 && r.error.key != {} && r.error.key < key
    ensures LookupsListed(isets, minSupport) ==> r.Success?
  {
    var st := State({}, []);
    var remaining := isets.Keys;
    while remaining != {}
      invariant remaining <= isets.Keys
      invariant Emitted(st.rules, st.visited, isets, minSupport, minConfidence)
      invariant forall k :: 0 <= k < |st.rules| ==> StartsConfident(st.rules[k], isets, minConfidence)
      invariant AllFinished(st.visited, st.rules, isets, minConfidence)
      invariant Started(st.visited, isets.Keys - remaining, isets, minSupport)
      invariant LookedUp(st.visited, isets)
      decreases |remaining|
    {
      LargestExists(remaining);
      var key :| key in remaining && forall j :: j in remaining ==> |j| <= |key|;
      ghost var before := isets.Keys - remaining;
      remaining := remaining - {key};
      assert isets.Keys - remaining == before + {key};
      var support := isets[key];
      if support < minSupport || |key| < 2 {
        StartedAdd(st.visited, before, key, isets, minSupport);
        continue;
      }
      var searched := SearchKey(key, isets, minSupport, minConfidence, st);
      if searched.Failure? {
        return Failure(searched.error);
      }
      StartedGrows(st.visited, searched.value.visited, before, isets, minSupport);
      st := searched.value;
      StartedAdd(st.visited, before, key, isets, minSupport);
    }
    StartsEmitted(st.visited, st.rules, isets, minSupport, minConfidence);
    StartsListed(st.visited, isets, minSupport);
    GrowthClosed(st.visited, st.rules, isets, minSupport, minConfidence);
    return Success(st.rules);
  }

  /** A path of the search inside key: it starts from the singleton
      {items[0]}, each step i moves the item items[i] of key into the
      antecedent, and every antecedent on the way leaves a non-empty
      consequent and is confident. */
  predicate GrowthPath(path: seq<Itemset>, items: seq<Item>, key: Itemset,
                       isets: map<Itemset, nat>, minConfidence: real) {
    && |path| >= 1 && |items| == |path|
    && items[0] in key && path[0] == {items[0]}
    && (forall i :: 0 <= i < |path| ==> path[i] < key && Confident(isets, key, path[i], minConfidence))
    && (forall i :: 1 <= i < |items| ==> items[i] in key - path[i - 1] && path[i] == path[i - 1] + {items[i]})
  }

  /** The rules are closed under the search's step: moving one item of an
      emitted rule's consequent to its antecedent, leaving the consequent
      non-empty, gives an emitted rule whenever that rule is confident. */
  predicate StepClosed(rules: seq<Rule>, isets: map<Itemset, nat>, minConfidence: real) {
    forall k, x ::
      (0 <= k < |rules| && x in rules[k].right && |rules[k].right| > 1
       && Confident(isets, rules[k].left + rules[k].right, rules[k].left + {x}, minConfidence)) ==>
      (rules[k].left + {x}, rules[k].right - {x}) in Pairs(rules)
  }

  /** One step of a growth path inside key stays among step-closed rules. */
  lemma PathStep(rules: seq<Rule>, key: Itemset, l: Itemset, y: Item,
                 isets: map<Itemset, nat>, minConfidence: real)
    requires StepClosed(rules, isets, minConfidence)
    requires (l, key - l) in Pairs(rules) && y in key - l
    requires l + {y} < key && Confident(isets, key, l + {y}, minConfidence)
    ensures (l + {y}, key - (l + {y})) in Pairs(rules)
  {
    var k :| 0 <= k < |rules| && Pair(rules[k]) == (l, key - l);
    var z :| z in key && z !in l + {y};
    assert |rules[k].right| > 1 by {
      assert z in rules[k].right - {y};
      assert |rules[k].right - {y}| == |rules[k].right| - 1;
    }
    assert rules[k].left + rules[k].right == key;
    assert (key - l) - {y} == key - (l + {y});
  }

  /** Rules that contain every confident starting split of key and are
      closed under the search's step, as `MineAssocRules` promises, contain
      the rule at the end of every confident growth path: the search emits
      everything reachable from a confident start through confident steps. */
  lemma {:induction false} PathEmitted(rules: seq<Rule>, key: Itemset, path: seq<Itemset>, items: seq<Item>,
                                       isets: map<Itemset, nat>, minConfidence: real)
    requires GrowthPath(path, items, key, isets, minConfidence)
    requires forall x :: x in key && Confident(isets, key, {x}, minConfidence) ==> ({x}, key - {x}) in Pairs(rules)
    requires StepClosed(rules, isets, minConfidence)
    ensures (path[|path| - 1], key - path[|path| - 1]) in Pairs(rules)
    decreases |path|
  {
    if |path| == 1 {
      assert Confident(isets, key, {items[0]}, minConfidence);
    } else {
      var n := |path| - 1;
      PathInit(path, items, key, isets, minConfidence);
      PathEmitted(rules, key, path[..n], items[..n], isets, minConfidence);
      PathStep(rules, key, path[n - 1], items[n], isets, minConfidence);
    }
  }

  /** Dropping the last step of a growth path of two or more sets leaves a
      growth path that ends one step earlier. */
  lemma PathInit(path: seq<Itemset>, items: seq<Item>, key: Itemset, isets: map<Itemset, nat>, minConfidence: real)
    requires GrowthPath(path, items, key, isets, minConfidence) && |path| >= 2
    ensures GrowthPath(path[..|path| - 1], items[..|path| - 1], key, isets, minConfidence)
    ensures path[..|path| - 1][|path| - 2] == path[|path| - 2]
    ensures items[|path| - 1] in key - path[|path| - 2]
    ensures path[|path| - 1] == path[|path| - 2] + {items[|path| - 1]}
    ensures path[|path| - 1] < key && Confident(isets, key, path[|path| - 1], minConfidence)
  {
    var n := |path| - 1;
    assert forall i :: 0 <= i < n ==> path[..n][i] == path[i] && items[..n][i] == items[i];
  }
}
