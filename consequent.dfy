/** Association rules grown from the consequent side.  The search starts
    from each split rest => {item} of a frequent item set and moves one item
    at a time from the antecedent to the consequent, growing only rules
    whose confidence reaches the threshold.  A smaller antecedent has at
    least the support of a larger one, so moving items into the consequent
    can only lower the confidence, and stopping at a rule below the
    threshold loses nothing: this search emits every confident rule of
    every frequent item set.  It is the corrected form of the search in
    `AssocRules`, which grows the antecedent and stops where it should not. */
module ConsequentGrowth {
  import opened Lexi
  import opened AssocRules

  /** A rule reached from the pair (left, right) by moving items of left to
      the consequent; its antecedent stays non-empty, and it carries the
      support it was started with and a confidence reaching the threshold. */
  predicate GrownBack(r: Rule, left: Itemset, right: Itemset, ruleSupport: nat,
                      isets: map<Itemset, nat>, minConfidence: real)
  {
    && r.left <= left && right <= r.right && r.right - right == left - r.left
    && r.left != {}
    && r.support == ruleSupport
    && r.left in isets && isets[r.left] > 0
    && r.confidence == r.support as real / isets[r.left] as real
    && r.confidence >= minConfidence
  }

  /** s extends the accumulators (visited, rules) with rules grown back from
      (left, right), each new in its pair and recorded as tried. */
  predicate ExtendsBack(s: State, visited: set<(Itemset, Itemset)>, rules: seq<Rule>,
                        left: Itemset, right: Itemset, ruleSupport: nat,
                        isets: map<Itemset, nat>, minConfidence: real)
  {
    && visited <= s.visited
    && |rules| <= |s.rules| && s.rules[..|rules|] == rules
    && (forall k :: |rules| <= k < |s.rules| ==>
          GrownBack(s.rules[k], left, right, ruleSupport, isets, minConfidence)
          && Pair(s.rules[k]) in s.visited && Pair(s.rules[k]) !in visited)
    && (forall j, k :: |rules| <= j < k < |s.rules| ==> Pair(s.rules[j]) != Pair(s.rules[k]))
  }

  /** The pair p is finished: if it is a confident split, its rule has been
      emitted and every pair one item further along (with a non-empty
      antecedent) has been tried. */
  predicate Done(p: (Itemset, Itemset), visited: set<(Itemset, Itemset)>, rules: seq<Rule>,
                 isets: map<Itemset, nat>, minConfidence: real)
  {
    p.0 != {} && p.1 != {} && Confident(isets, p.0 + p.1, p.0, minConfidence) ==>
      && p in Pairs(rules)
      && forall y :: y in p.0 && |p.0| > 1 ==> (p.0 - {y}, p.1 + {y}) in visited
  }

  /** Every tried pair is finished, except pairs with antecedents larger than
      n: the callers further up the recursion, still at work. */
  predicate Stacked(visited: set<(Itemset, Itemset)>, rules: seq<Rule>, n: nat,
                    isets: map<Itemset, nat>, minConfidence: real)
  {
    forall p :: p in visited ==> Done(p, visited, rules, isets, minConfidence) || |p.0| > n
  }

  /** Every non-empty subset of left, left included, is listed with a
      positive support: the antecedents the corrected search looks up from
      the pair (left, right). */
  ghost predicate SubsetsListed(left: Itemset, isets: map<Itemset, nat>) {
    forall s :: s != {} && s <= left ==> s in isets && isets[s] > 0
  }

  /** Supports of a real frequent-item-set table: every non-empty subset of a
      listed set is listed, with a positive support at least that of the set. */
  predicate SupportTable(isets: map<Itemset, nat>) {
    && SubsetClosed(isets)
    && forall k, s :: k in isets && s in SubsetsOf(k) ==> isets[k] <= isets[s]
  }

  /** A finished pair stays finished as the accumulators grow. */
  lemma DoneGrows(p: (Itemset, Itemset), visited: set<(Itemset, Itemset)>, rules: seq<Rule>,
                  visited': set<(Itemset, Itemset)>, rules': seq<Rule>,
                  isets: map<Itemset, nat>, minConfidence: real)
    requires visited <= visited' && |rules| <= |rules'| && rules'[..|rules|] == rules
    requires Done(p, visited, rules, isets, minConfidence)
    ensures Done(p, visited', rules', isets, minConfidence)
  {
    PairsPrefix(rules, rules');
  }

  lemma GrownBackStep(r: Rule, left: Itemset, right: Itemset, x: Item, ruleSupport: nat,
                      isets: map<Itemset, nat>, minConfidence: real)
    requires left !! right && x in left
    requires GrownBack(r, left - {x}, right + {x}, ruleSupport, isets, minConfidence)
    ensures GrownBack(r, left, right, ruleSupport, isets, minConfidence)
  {
    assert r.right - right == (r.right - (right + {x})) + {x};
  }

  lemma ExtendsBackStep(s1: State, s2: State, visited: set<(Itemset, Itemset)>, rules: seq<Rule>,
                        left: Itemset, right: Itemset, x: Item, ruleSupport: nat,
                        isets: map<Itemset, nat>, minConfidence: real)
    requires left !! right && x in left
    requires ExtendsBack(s1, visited, rules, left, right, ruleSupport, isets, minConfidence)
    requires ExtendsBack(s2, s1.visited, s1.rules, left - {x}, right + {x}, ruleSupport, isets, minConfidence)
    ensures ExtendsBack(s2, visited, rules, left, right, ruleSupport, isets, minConfidence)
  {
    forall k | |rules| <= k < |s2.rules|
      ensures GrownBack(s2.rules[k], left, right, ruleSupport, isets, minConfidence)
      ensures Pair(s2.rules[k]) in s2.visited && Pair(s2.rules[k]) !in visited
    {
      if k < |s1.rules| {
        assert s2.rules[k] == s2.rules[..|s1.rules|][k] == s1.rules[k];
      } else {
        GrownBackStep(s2.rules[k], left, right, x, ruleSupport, isets, minConfidence);
      }
    }
    forall j, k | |rules| <= j < k < |s2.rules| ensures Pair(s2.rules[j]) != Pair(s2.rules[k]) {
      if k < |s1.rules| {
        assert s2.rules[k] == s2.rules[..|s1.rules|][k] == s1.rules[k];
        assert s2.rules[j] == s2.rules[..|s1.rules|][j] == s1.rules[j];
      } else if j < |s1.rules| {
        assert s2.rules[j] == s2.rules[..|s1.rules|][j] == s1.rules[j];
      }
    }
    assert s2.rules[..|rules|] == s2.rules[..|s1.rules|][..|rules|];
  }

  /** Inside the call for (left, right): every tried pair is finished,
      except the callers' pairs and (left, right) itself. */
  predicate Pending(vis: set<(Itemset, Itemset)>, acc: seq<Rule>, visited: set<(Itemset, Itemset)>,
                    left: Itemset, right: Itemset, isets: map<Itemset, nat>, minConfidence: real)
  {
    forall p :: p in vis ==>
      Done(p, vis, acc, isets, minConfidence) || (p in visited && |p.0| > |left|) || p == (left, right)
  }

  /** Before a recursive call on an antecedent one item smaller, the pairs
      not yet finished all have larger antecedents. */
  lemma PendingStacked(vis: set<(Itemset, Itemset)>, acc: seq<Rule>, visited: set<(Itemset, Itemset)>,
                       left: Itemset, right: Itemset, item: Item, isets: map<Itemset, nat>, minConfidence: real)
    requires item in left
    requires Pending(vis, acc, visited, left, right, isets, minConfidence)
    ensures Stacked(vis, acc, |left - {item}|, isets, minConfidence)
  {
    assert |left - {item}| == |left| - 1;
  }

  /** One recursive call of the loop keeps the loop's invariants. */
  lemma StepBackKeeps(left: Itemset, right: Itemset, item: Item, ruleSupport: nat,
                      isets: map<Itemset, nat>, minConfidence: real,
                      visited: set<(Itemset, Itemset)>, rules: seq<Rule>,
                      vis: set<(Itemset, Itemset)>, acc: seq<Rule>, s: State, stacked: bool)
    requires left !! right && item in left
    requires (left, right) in vis && (left, right) in Pairs(acc)
    requires ExtendsBack(State(vis, acc), visited, rules, left, right, ruleSupport, isets, minConfidence)
    requires ExtendsBack(s, vis, acc, left - {item}, right + {item}, ruleSupport, isets, minConfidence)
    requires stacked ==> Pending(vis, acc, visited, left, right, isets, minConfidence)
    requires stacked ==> forall p :: p in s.visited ==>
      Done(p, s.visited, s.rules, isets, minConfidence) || (p in vis && |p.0| > |left - {item}|)
    ensures ExtendsBack(s, visited, rules, left, right, ruleSupport, isets, minConfidence)
    ensures (left, right) in s.visited && (left, right) in Pairs(s.rules)
    ensures stacked ==> Pending(s.visited, s.rules, visited, left, right, isets, minConfidence)
  {
    ExtendsBackStep(State(vis, acc), s, visited, rules, left, right, item, ruleSupport, isets, minConfidence);
    PairsPrefix(acc, s.rules);
    if stacked {
      assert |left - {item}| == |left| - 1;
      forall p | p in s.visited
        ensures Done(p, s.visited, s.rules, isets, minConfidence) || (p in visited && |p.0| > |left|) || p == (left, right)
      {
        if !Done(p, s.visited, s.rules, isets, minConfidence) && p in vis && Done(p, vis, acc, isets, minConfidence) {
          DoneGrows(p, vis, acc, s.visited, s.rules, isets, minConfidence);
        }
      }
    }
  }

  /** Try the rule left => right and, if it is confident, every rule with one
      item of left moved to the consequent.  With the tried pairs finished
      except those of the callers, every pair tried by now is finished
      except those same callers' pairs. */
  method MineRulesBack(left: Itemset, right: Itemset, ruleSupport: nat,
                       isets: map<Itemset, nat>, minConfidence: real,
                       visited: set<(Itemset, Itemset)>, rules: seq<Rule>)
      returns (r: Result<State>)
    requires left !! right && left + right in isets && ruleSupport == isets[left + right]
    ensures r.Success? ==>
      ExtendsBack(r.value, visited, rules, left, right, ruleSupport, isets, minConfidence)
    ensures r.Success? && left != {} ==> (left, right) in r.value.visited
    ensures (left, right) !in visited && left != {} && left !in isets ==> r == Failure(KeyError(left))
    ensures (left, right) !in visited && left != {} && left in isets && isets[left] == 0 ==>
      r == Failure(ZeroDivisionError(left))
    ensures r.Failure? ==> Raised(r.error, isets) && r.error.key != {} && r.error.key <= left
    ensures SubsetsListed(left, isets) ==> r.Success?
    ensures r.Success? && Stacked(visited, rules, |left|, isets, minConfidence) ==>
      forall p :: p in r.value.visited ==>
        Done(p, r.value.visited, r.value.rules, isets, minConfidence) || (p in visited && |p.0| > |left|)
    decreases |left|, 1
  {
    if (left, right) in visited || |left| < 1 {
      return Success(State(visited, rules));
    }
    var vis := visited + {(left, right)};
    if left !in isets {
      return Failure(KeyError(left));
    }
    var supportA := isets[left];
    if supportA == 0 {
      return Failure(ZeroDivisionError(left));
    }
    var confidence := ruleSupport as real / supportA as real;
    if confidence < minConfidence {
      return Success(State(vis, rules));
    }
    var acc := rules + [Rule(left, right, ruleSupport, confidence)];
    assert acc[..|rules|] == rules;
    assert Pair(acc[|rules|]) == (left, right);
    ghost var stacked := Stacked(visited, rules, |left|, isets, minConfidence);
    var moved := MoveEachBack(left, right, ruleSupport, isets, minConfidence, visited, rules, vis, acc, stacked);
    if moved.Failure? {
      return moved;
    }
    vis, acc := moved.value.visited, moved.value.rules;
    assert Done((left, right), vis, acc, isets, minConfidence);
    return Success(State(vis, acc));
  }

  /** The loop of `MineRulesBack` after its rule is emitted: try the pair
      with each item of left moved to the consequent, from the accumulators
      (vis, acc) on. */
  method MoveEachBack(left: Itemset, right: Itemset, ruleSupport: nat,
                      isets: map<Itemset, nat>, minConfidence: real,
                      ghost visited: set<(Itemset, Itemset)>, ghost rules: seq<Rule>,
                      vis: set<(Itemset, Itemset)>, acc: seq<Rule>, ghost stacked: bool)
      returns (r: Result<State>)
    requires left !! right && left + right in isets && ruleSupport == isets[left + right]
    requires (left, right) in vis && (left, right) in Pairs(acc)
    requires ExtendsBack(State(vis, acc), visited, rules, left, right, ruleSupport, isets, minConfidence)
    requires stacked ==> Pending(vis, acc, visited, left, right, isets, minConfidence)
    ensures r.Success? ==>
      && ExtendsBack(r.value, visited, rules, left, right, ruleSupport, isets, minConfidence)
      && (left, right) in r.value.visited && (left, right) in Pairs(r.value.rules)
      && (stacked ==> Pending(r.value.visited, r.value.rules, visited, left, right, isets, minConfidence))
      && forall y :: y in left && |left| > 1 ==> (left - {y}, right + {y}) in r.value.visited
    ensures r.Failure? ==> Raised(r.error, isets) && r.error.key != {} && r.error.key < left
    ensures SubsetsListed(left, isets) ==> r.Success?
    decreases |left|, 0
  {
    var vis, acc := vis, acc;
    var todo := left;
    while todo != {}
      invariant todo <= left
      invariant (left, right) in vis && (left, right) in Pairs(acc)
      invariant ExtendsBack(State(vis, acc), visited, rules, left, right, ruleSupport, isets, minConfidence)
      invariant stacked ==> Pending(vis, acc, visited, left, right, isets, minConfidence)
      invariant forall y :: y in left - todo && |left| > 1 ==> (left - {y}, right + {y}) in vis
      decreases |todo|
    {
      var item :| item in todo;
      todo := todo - {item};
      assert (left - {item}) + (right + {item}) == left + right;
      if stacked {
        PendingStacked(vis, acc, visited, left, right, item, isets, minConfidence);
      }
      var sub := MineRulesBack(left - {item}, right + {item}, ruleSupport, isets, minConfidence, vis, acc);
      if sub.Failure? {
        return sub;
      }
      StepBackKeeps(left, right, item, ruleSupport, isets, minConfidence, visited, rules, vis, acc, sub.value, stacked);
      vis, acc := sub.value.visited, sub.value.rules;
    }
    return Success(State(vis, acc));
  }

  /** A smaller positive divisor gives a larger quotient. */
  lemma ConfidenceRises(a: nat, b: nat, c: nat)
    requires 0 < c <= b
    ensures a as real / b as real <= a as real / c as real
  {
  }

  /** In a table of real supports, a larger subset of a listed set is
      listed, with a positive support no larger than a smaller one's; so
      its rule for the same set is at least as confident. */
  lemma ConfidentGrows(isets: map<Itemset, nat>, key: Itemset, l: Itemset, l': Itemset, minConfidence: real)
    requires SupportTable(isets) && key in isets
    requires l in SubsetsOf(key) && l' in SubsetsOf(key) && l <= l'
    requires Confident(isets, key, l, minConfidence)
    ensures Confident(isets, key, l', minConfidence)
  {
    assert l in SubsetsOf(l');
    ConfidenceRises(isets[key], isets[l], isets[l']);
  }

  /** One step back along the search: l + {y} is a proper subset of key
      whenever key - l holds another item besides y. */
  lemma StepBack(key: Itemset, l: Itemset, y: Item, z: Item)
    requires l in SubsetsOf(key) && y in key - l && z in key - l && z != y
    ensures l + {y} in SubsetsOf(key) && l + {y} != key
    ensures |key - (l + {y})| < |key - l|
    ensures (l + {y}) - {y} == l && (key - (l + {y})) + {y} == key - l
    ensures |l + {y}| > 1 && (l + {y}) + (key - (l + {y})) == key
  {
    assert z !in l + {y};
    assert key - (l + {y}) == (key - l) - {y};
    var x :| x in l;
    assert x != y && {x, y} <= l + {y};
  }

  /** A finished confident pair has its successor for y tried. */
  lemma DoneSuccessor(p: (Itemset, Itemset), visited: set<(Itemset, Itemset)>, rules: seq<Rule>, y: Item,
                      isets: map<Itemset, nat>, minConfidence: real)
    requires p in visited && AllDone(visited, rules, isets, minConfidence)
    requires p.0 != {} && p.1 != {} && Confident(isets, p.0 + p.1, p.0, minConfidence)
    requires y in p.0 && |p.0| > 1
    ensures (p.0 - {y}, p.1 + {y}) in visited
  {
    assert Done(p, visited, rules, isets, minConfidence);
  }

  /** A finished confident pair has its rule emitted. */
  lemma DoneEmitted(p: (Itemset, Itemset), visited: set<(Itemset, Itemset)>, rules: seq<Rule>,
                    isets: map<Itemset, nat>, minConfidence: real)
    requires p in visited && AllDone(visited, rules, isets, minConfidence)
    requires p.0 != {} && p.1 != {} && Confident(isets, p.0 + p.1, p.0, minConfidence)
    ensures p in Pairs(rules)
  {
    assert Done(p, visited, rules, isets, minConfidence);
  }

  /** Every confident split L => key - L of a listed item set is reached
      from the starting splits key - {y} => {y}, once every tried pair is
      finished: the pair with one more item in the antecedent is confident
      too, hence tried by induction, hence finished, and L => key - L is one
      of its successors. */
  lemma {:induction false} Reached(visited: set<(Itemset, Itemset)>, rules: seq<Rule>, key: Itemset,
                                   l: Itemset, isets: map<Itemset, nat>, minConfidence: real)
    requires SupportTable(isets) && key in isets
    requires l in SubsetsOf(key) && l != key && Confident(isets, key, l, minConfidence)
    requires AllDone(visited, rules, isets, minConfidence)
    requires forall y :: y in key ==> (key - {y}, {y}) in visited
    ensures (l, key - l) in visited
    decreases |key - l|
  {
    var y, single, z := SplitMissing(key, l);
    if single {
      assert y in key;
    } else {
      var l' := l + {y};
      StepBack(key, l, y, z);
      ConfidentGrows(isets, key, l, l', minConfidence);
      Reached(visited, rules, key, l', isets, minConfidence);
      DoneSuccessor((l', key - l'), visited, rules, y, isets, minConfidence);
    }
  }

  /** An item y that key has and l lacks; either it is the only one, or a
      second such item z exists. */
  lemma SplitMissing(key: Itemset, l: Itemset) returns (y: Item, single: bool, z: Item)
    requires l in SubsetsOf(key) && l != key
    ensures y in key - l
    ensures single ==> l == key - {y} && key - l == {y}
    ensures !single ==> z in key - l && z != y
  {
    var r := key - l;
    assert l <= key;
    if r == {} {
      forall x | x in key ensures x in l {
        assert x !in r;
      }
      assert false;
    }
    y :| y in r;
    single := r == {y};
    z := y;
    if !single {
      z :| z in r && z != y;
    }
  }


  /** The rules a search started from key - {item} => {item} adds are valid,
      and every pair tried is finished. */
  lemma StartBackEmits(st: State, s: State, item: Item, key: Itemset,
                       isets: map<Itemset, nat>, minSupport: int, minConfidence: real)
    requires item in key && |key| >= 2 && key in isets && isets[key] >= minSupport
    requires Emitted(st.rules, st.visited, isets, minSupport, minConfidence)
    requires ExtendsBack(s, st.visited, st.rules, key - {item}, {item}, isets[key], isets, minConfidence)
    ensures Emitted(s.rules, s.visited, isets, minSupport, minConfidence)
  {
    forall k | 0 <= k < |s.rules|
      ensures ValidRule(s.rules[k], isets, minSupport, minConfidence) && Pair(s.rules[k]) in s.visited
    {
      if k < |st.rules| {
        assert s.rules[k] == s.rules[..|st.rules|][k];
      } else {
        var r := s.rules[k];
        assert r.left == (key - {item}) - (r.right - {item});
        assert r.left + r.right == key;
      }
    }
    forall j, k | 0 <= j < k < |s.rules| ensures Pair(s.rules[j]) != Pair(s.rules[k]) {
      if k < |st.rules| {
        assert s.rules[k] == s.rules[..|st.rules|][k] && s.rules[j] == s.rules[..|st.rules|][j];
      } else if j < |st.rules| {
        assert s.rules[j] == s.rules[..|st.rules|][j];
      }
    }
  }

  /** Every tried pair is finished. */
  predicate AllDone(visited: set<(Itemset, Itemset)>, rules: seq<Rule>,
                    isets: map<Itemset, nat>, minConfidence: real)
  {
    forall p :: p in visited ==> Done(p, visited, rules, isets, minConfidence)
  }

  /** The loop `for item in key` of the corrected top level: search from
      every split key - {item} => {item}.  Afterwards every starting split
      of key has been tried, and every tried pair is finished. */
  method SearchBack(key: Itemset, isets: map<Itemset, nat>, minSupport: int, minConfidence: real, st: State)
      returns (r: Result<State>)
    requires key in isets && isets[key] >= minSupport && |key| >= 2
    requires Emitted(st.rules, st.visited, isets, minSupport, minConfidence)
    requires AllDone(st.visited, st.rules, isets, minConfidence)
    ensures r.Success? ==>
      && Emitted(r.value.rules, r.value.visited, isets, minSupport, minConfidence)
      && AllDone(r.value.visited, r.value.rules, isets, minConfidence)
      && st.visited <= r.value.visited
      && forall y :: y in key ==> (key - {y}, {y}) in r.value.visited
    ensures r.Failure? ==> Raised(r.error, isets) && r.error.key != {} && r.error.key < key
    ensures ProperSubsetsListed(key, isets) ==> r.Success?
  {
    var cur := st;
    var todo := key;
    while todo != {}
      invariant todo <= key
      invariant Emitted(cur.rules, cur.visited, isets, minSupport, minConfidence)
      invariant AllDone(cur.visited, cur.rules, isets, minConfidence)
      invariant st.visited <= cur.visited
      invariant forall y :: y in key - todo ==> (key - {y}, {y}) in cur.visited
      decreases |todo|
    {
      var item :| item in todo;
      todo := todo - {item};
      assert (key - {item}) + {item} == key;
      assert key - {item} != {} by {
        var z :| z in key && z != item;
      }
      var sub := MineRulesBack(key - {item}, {item}, isets[key], isets, minConfidence, cur.visited, cur.rules);
      if sub.Failure? {
        return sub;
      }
      StartBackEmits(cur, sub.value, item, key, isets, minSupport, minConfidence);
      forall p | p in cur.visited ensures Done(p, sub.value.visited, sub.value.rules, isets, minConfidence) {
        DoneGrows(p, cur.visited, cur.rules, sub.value.visited, sub.value.rules, isets, minConfidence);
      }
      cur := sub.value;
    }
    return Success(cur);
  }

  /** Once every starting split of every frequent set has been tried and
      every tried pair is finished, every confident split has been emitted. */
  lemma AllReached(st: State, isets: map<Itemset, nat>, minSupport: int, minConfidence: real)
    requires SupportTable(isets) && AllDone(st.visited, st.rules, isets, minConfidence)
    requires forall key, y ::
      (key in isets && isets[key] >= minSupport && |key| >= 2 && y in key) ==>
      (key - {y}, {y}) in st.visited
    ensures forall key, l ::
      (key in isets && isets[key] >= minSupport && |key| >= 2
       && l in SubsetsOf(key) && l != key && Confident(isets, key, l, minConfidence)) ==>
      (l, key - l) in Pairs(st.rules)
  {
    forall key, l | key in isets && isets[key] >= minSupport && |key| >= 2
      && l in SubsetsOf(key) && l != key && Confident(isets, key, l, minConfidence)
      ensures (l, key - l) in Pairs(st.rules)
    {
      ReachedEmitted(st.visited, st.rules, key, l, isets, minConfidence);
    }
  }

  /** One confident split of one started set: reached, hence emitted. */
  lemma ReachedEmitted(visited: set<(Itemset, Itemset)>, rules: seq<Rule>, key: Itemset,
                       l: Itemset, isets: map<Itemset, nat>, minConfidence: real)
    requires SupportTable(isets) && key in isets
    requires l in SubsetsOf(key) && l != key && Confident(isets, key, l, minConfidence)
    requires AllDone(visited, rules, isets, minConfidence)
    requires forall y :: y in key ==> (key - {y}, {y}) in visited
    ensures (l, key - l) in Pairs(rules)
  {
    Reached(visited, rules, key, l, isets, minConfidence);
    var y, _, _ := SplitMissing(key, l);
    var p := (l, key - l);
    assert p.0 + p.1 == key && y in p.1;
    DoneEmitted(p, visited, rules, isets, minConfidence);
  }


  /** The corrected `mine_assoc_rules`: as in the source, every listed item
      set, largest first, with enough support and at least two items is
      searched, but from the splits rest => {item}, growing the consequent.
      Every rule emitted is valid and no pair is emitted twice; and on a
      table of real supports the search succeeds and emits every confident
      split of every frequent item set. */
  method MineAssocRulesBack(isets: map<Itemset, nat>, minSupport: int, minConfidence: real)
      returns (r: Result<seq<Rule>>)
    ensures r.Success? ==> forall k :: 0 <= k < |r.value| ==> ValidRule(r.value[k], isets, minSupport, minConfidence)
    ensures r.Success? ==> forall j, k :: 0 <= j < k < |r.value| ==> Pair(r.value[j]) != Pair(r.value[k])
    ensures r.Failure? ==> Raised(r.error, isets) && exists key ::
      key in isets && isets[key] >= minSupport && |key| >= 2 && r.error.key != {} && r.error.key < key
    ensures LookupsListed(isets, minSupport) ==> r.Success?
    ensures r.Success? && SupportTable(isets) ==>
      forall key, l ::
        (key in isets && isets[key] >= minSupport && |key| >= 2
         && l in SubsetsOf(key) && l != key && Confident(isets, key, l, minConfidence)) ==>
        (l, key - l) in Pairs(r.value)
  {
    var st := State({}, []);
    var remaining := isets.Keys;
    while remaining != {}
      invariant remaining <= isets.Keys
      invariant Emitted(st.rules, st.visited, isets, minSupport, minConfidence)
      invariant AllDone(st.visited, st.rules, isets, minConfidence)
      invariant forall key, y ::
        (key in isets && key !in remaining && isets[key] >= minSupport && |key| >= 2 && y in key) ==>
        (key - {y}, {y}) in st.visited
      decreases |remaining|
    {
      LargestExists(remaining);
      var key :| key in remaining && forall j :: j in remaining ==> |j| <= |key|;
      remaining := remaining - {key};
      if isets[key] < minSupport || |key| < 2 {
        continue;
      }
      var sub := SearchBack(key, isets, minSupport, minConfidence, st);
      if sub.Failure? {
        return Failure(sub.error);
      }
      st := sub.value;
    }
    if SupportTable(isets) {
      AllReached(st, isets, minSupport, minConfidence);
    }
    return Success(st.rules);
  }

  // ---------------------------------------------------------------------
  // A rule the antecedent-growing search misses

  /** The supports of eight transactions {a}, eight {b}, eight {c} and two
      {a, b, c}. */
  function MissedExample(): map<Itemset, nat> {
    map[{'a'} := 10, {'b'} := 10, {'c'} := 10,
        {'a', 'b'} := 2, {'a', 'c'} := 2, {'b', 'c'} := 2, {'a', 'b', 'c'} := 2]
  }

  lemma {:induction false} SubsetsOfABC(s: Itemset)
    requires s <= {'a', 'b', 'c'} && s != {}
    ensures s in MissedExample()
    ensures |s| == 1 ==> MissedExample()[s] == 10
    ensures |s| > 1 ==> MissedExample()[s] == 2
  {
    var a, b, c := 'a' in s, 'b' in s, 'c' in s;
    if a && b && c {
      assert s == {'a', 'b', 'c'};
    } else if a && b {
      assert s == {'a', 'b'};
    } else if a && c {
      assert s == {'a', 'c'};
    } else if b && c {
      assert s == {'b', 'c'};
    } else if a {
      assert s == {'a'};
    } else if b {
      assert s == {'b'};
    } else {
      assert s == {'c'};
    }
  }

  /** The example is a table of real supports, and the rule {a, b} => {c}
      of the set {a, b, c} is valid at minimum support 2 and confidence 0.5
      (its confidence is 1).  Yet none of its singleton starting rules
      {a} => {b, c} and {b} => {a, c} reaches confidence 0.5 (both have 0.2),
      so `AssocRules.MineAssocRules`, every rule of which starts from a
      confident singleton rule, never emits it, while
      `MineAssocRulesBack` emits every such rule. */
  lemma AntecedentGrowthMisses()
    ensures SupportTable(MissedExample())
    ensures ValidRule(Rule({'a', 'b'}, {'c'}, 2, 1.0), MissedExample(), 2, 0.5)
    ensures Confident(MissedExample(), {'a', 'b', 'c'}, {'a', 'b'}, 0.5)
    ensures !StartsConfident(Rule({'a', 'b'}, {'c'}, 2, 1.0), MissedExample(), 0.5)
  {
    var isets := MissedExample();
    forall k, s | k in isets && s in SubsetsOf(k) ensures s in isets && isets[s] > 0 && isets[k] <= isets[s] {
      assert k <= {'a', 'b', 'c'};
      SubsetsOfABC(k);
      SubsetsOfABC(s);
      assert |s| <= |k| by {
        assert k == s + (k - s);
      }
    }
    assert {'a', 'b'} + {'c'} == {'a', 'b', 'c'};
    forall x | x in {'a', 'b'} ensures !Confident(isets, {'a', 'b', 'c'}, {x}, 0.5) {
      assert {x} in isets && isets[{x}] == 10;
    }
  }

  /** The frequent item sets, at minimum support 5, of 1000 transactions
      {a, b}, 1000 transactions {a, c} and five transactions {a, b, c}. */
  function ComplexRulesExample(): map<Itemset, nat> {
    map[{'a'} := 2005, {'b'} := 1005, {'c'} := 1005,
        {'a', 'b'} := 1005, {'a', 'c'} := 1005, {'b', 'c'} := 5, {'a', 'b', 'c'} := 5]
  }

  /** On that table, at minimum support 5 and minimum confidence 0.9, the
      rule {b, c} => {a} with support 5 and confidence 1.0 is valid, yet none
      of its antecedent's singleton rules is confident, so the
      antecedent-growing search never emits it. */
  lemma ComplexRuleMissed()
    ensures ValidRule(Rule({'b', 'c'}, {'a'}, 5, 1.0), ComplexRulesExample(), 5, 0.9)
    ensures !StartsConfident(Rule({'b', 'c'}, {'a'}, 5, 1.0), ComplexRulesExample(), 0.9)
  {
    var isets := ComplexRulesExample();
    assert {'b', 'c'} + {'a'} == {'a', 'b', 'c'};
    assert |{'a', 'b', 'c'}| == 3;
    forall x | x in {'b', 'c'} ensures !Confident(isets, {'a', 'b', 'c'}, {x}, 0.9) {
      assert {x} in isets && isets[{x}] == 1005;
    }
  }
}
