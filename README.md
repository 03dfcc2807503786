# pymining core, modelled in Dafny

This project models the three mining algorithms of the `pymining` library:

- **Transaction encoding and Split-And-Merge (SAM)**, from `pymining/itemmining.py`.
  - Modules `Lexi`, `Encoding` and `Sam`.
  - Item frequencies are counted (`get_frequencies`).
  - Each transaction's items are ordered by frequency (`get_sorted_transactions`).
  - Transactions are ordered lexicographically by their `(frequency, item)` pairs (`lexi_repr`, `get_asorted_transactions`).
  - Equal transactions are grouped into `(count, transaction)` entries (`get_sam_data`, `transform`). `Encoding.Transform` follows the code; `Encoding.TransformCorrected` uses the corrected item sort described under Findings.
  - `sam` runs the search. Each round splits off the run of entries that start with the leading item, sums their counts, merges the stripped run back, and recurses on it. The shared prefix set `fis` is a `class Prefix` that the search changes and restores.
- **Association rules**, from `pymining/assocrules.py`.
  - Module `AssocRules`: the memoised recursive search that grows the antecedent one item at a time. The `visited` set and the `rules` list it mutates are threaded through the recursion as a `State` value.
  - A failed lookup is an error outcome: `KeyError` for a missing antecedent, `ZeroDivisionError` for a zero support.
  - Module `ConsequentGrowth` holds the corrected search described under Findings.
- **Sequential patterns by prefix projection (PrefixSpan)**, from `pymining/seqmining.py`.
  - Module `SeqMining`: the counting of locally frequent elements, the projection, and the recursive search.
  - Its output is proved to be exactly the set of non-empty patterns that are frequent, each with its support.

About `sam`:
- The source marks this revision's output as still wrong (`pymining/itemmining.py:69-72`). So the model proves the structural properties the code has:
  - count conservation in the split and in the merge;
  - sortedness of the working list;
  - the support threshold;
  - bounds on what is reported;
  - the prefix is restored;
  - termination.
- It does not prove that `sam` reports every frequent item set.
- An empty transaction sorts before every other one. A working list whose front entry is empty stops the search at once (`Sam.Sam`'s last `ensures`), so any empty input transaction silences `sam` entirely.

Where the design description and the code disagree, the model follows the code:
- `get_frequencies` counts occurrences, not transactions. The two agree on duplicate-free transactions, which is what `Sam.Sam` requires of its input.
- `mine_assoc_rules` starts only from `{item} => rest` and grows only the antecedent. The design describes growth in both directions.
- `get_sorted_transactions` breaks frequency ties by input order, not by item order. See Findings.

## Model

| member | source | states |
|---|---|---|
| Lexi.LexiReprLength | pymining/itemmining.py:66-67 | `lexi_repr(t, f)` has one entry per item of `t`, the empty transaction included |
| Lexi.LexiReprAt | pymining/itemmining.py:66-67 | `lexi_repr(t, f)` has the length of `t`, and its k-th pair is `(f[t[k]], t[k])`, with 0 for an unknown item |
| Lexi.LexiReprInjective | pymining/itemmining.py:66-67 | two transactions have the same `lexi_repr` exactly when they are equal |
| Lexi.LexLessIrreflexive | pymining/itemmining.py:100-105 | no key list is below itself under Python's list comparison |
| Lexi.LexLessTransitive | pymining/itemmining.py:100-105 | list comparison of `lexi_repr`s is transitive |
| Lexi.LexLessTotal | pymining/itemmining.py:100-105 | of two different key lists, one is below the other |
| Lexi.TxLessTotal | pymining/itemmining.py:98-105 | of two different transactions exactly one is below the other, so the merge's three branches are exclusive and exhaustive |
| Lexi.TxLessTransitive | pymining/itemmining.py:34-35 | the transaction order is transitive |
| Lexi.TxLessIrreflexive | pymining/itemmining.py:34-35 | no transaction is below itself |
| Lexi.TxLessSameHead | pymining/itemmining.py:98-105 | stripping a common leading item keeps the order between two transactions |
| Encoding.OccurrencesPositive | pymining/itemmining.py:20-25 | an item has a positive count exactly when some transaction contains it |
| Encoding.GetFrequencies | pymining/itemmining.py:20-25 | every item's frequency is its number of occurrences; the table's keys are exactly the items seen, and an unseen item reads 0 |
| Encoding.CountTransaction | pymining/itemmining.py:22-24 | one pass over a transaction adds to each item's count its number of occurrences there; an item is a key exactly when its count is positive |
| Encoding.InsertByFrequencyPermutes | pymining/itemmining.py:28-31 | inserting into the frequency-sorted list adds exactly that item |
| Encoding.InsertByFrequencySorted | pymining/itemmining.py:28-31 | insertion keeps the list sorted by frequency |
| Encoding.InsertByFrequencyStable | pymining/itemmining.py:28-31 | insertion puts the item after every item of equal frequency |
| Encoding.SortByFrequencyCorrect | pymining/itemmining.py:28-31 | `sorted(t, key=frequency)` is a permutation of `t`, is non-decreasing in frequency, and keeps items of equal frequency in input order |
| Encoding.SortByFrequencyPermutes | pymining/itemmining.py:28-31 | `sorted(t, key=frequency)` holds exactly the items of `t` |
| Encoding.SortByFrequencySorted | pymining/itemmining.py:28-31 | `sorted(t, key=frequency)` is non-decreasing in frequency |
| Encoding.SortByFrequencyStable | pymining/itemmining.py:28-31 | `sorted(t, key=frequency)` keeps the items of each frequency in their order in `t` |
| Encoding.GetSortedTransactions | pymining/itemmining.py:28-31 | keeps the number of transactions, and the k-th result is `sorted(ts[k], key=frequency)` |
| Encoding.GetSortedTransactionsCorrect | pymining/itemmining.py:28-31 | each transaction becomes a permutation of itself, non-decreasing in frequency, with the items of each frequency in their input order |
| Encoding.InsertByKeyPermutes | pymining/itemmining.py:28-31 | (corrected sort) insertion adds exactly that item |
| Encoding.InsertByKeySorted | pymining/itemmining.py:28-31 | (corrected sort) insertion keeps the list sorted by `(frequency, item)` |
| Encoding.KeySortedUnique | pymining/itemmining.py:28-31 | (corrected sort) two lists sorted by `(frequency, item)` with the same items are equal |
| Encoding.SortByKeyCorrect | pymining/itemmining.py:28-31 | (corrected sort) the result is a permutation sorted by `(frequency, item)` |
| Encoding.SortByKeyCanonical | pymining/itemmining.py:28-31 | (corrected sort) two transactions with the same items encode identically |
| Encoding.GetKeySortedTransactions | pymining/itemmining.py:28-31 | (corrected sort) keeps the number of transactions; each becomes a permutation of itself sorted by `(frequency, item)` |
| Encoding.InsertTxPermutes | pymining/itemmining.py:34-35 | inserting a transaction adds exactly that transaction |
| Encoding.InsertTxSorted | pymining/itemmining.py:34-35 | insertion keeps the transactions ordered by `lexi_repr` |
| Encoding.GetASortedTransactionsCorrect | pymining/itemmining.py:34-35 | the result is a permutation of the input and is non-decreasing in `lexi_repr` |
| Encoding.FirstOccurrencesCorrect | pymining/itemmining.py:38-54 | the distinct transactions in first-occurrence order contain every transaction exactly once |
| Encoding.TotalAppend | pymining/itemmining.py:45 | appending an entry adds its count to the total |
| Encoding.CountOfAppend | pymining/itemmining.py:45 | appending an entry adds its count to that transaction's count only |
| Encoding.TotalUpdate | pymining/itemmining.py:51-52 | replacing an entry changes the total by the difference of the counts |
| Encoding.CountOfUpdate | pymining/itemmining.py:51-52 | replacing an entry changes only the counts of the two transactions involved |
| Encoding.AppendCounts | pymining/itemmining.py:44-47 | a new `(1, t)` entry makes every transaction's count its multiplicity in the transactions seen, keeps every count at least 1, and the total their number |
| Encoding.AppendIndex | pymining/itemmining.py:44-47 | after a new entry, the entries list the distinct transactions seen in first-occurrence order, and `visited` maps exactly those transactions to their entry's position |
| Encoding.IncrementCounts | pymining/itemmining.py:48-52 | adding 1 to a repeated transaction's entry makes every count its multiplicity, keeps every count at least 1, and the total the number of transactions seen |
| Encoding.IncrementIndex | pymining/itemmining.py:48-52 | an increment keeps the entries in first-occurrence order and `visited` pointing at each seen transaction's entry |
| Encoding.AppendEntry | pymining/itemmining.py:44-47 | a new transaction becomes a `(1, t)` entry at the end: the total and t's count grow by 1 |
| Encoding.IncrementEntry | pymining/itemmining.py:48-52 | a repeated transaction adds 1 to its entry in place; no other count or transaction changes |
| Encoding.GroupedAppend | pymining/itemmining.py:44-47 | the `visited` index stays correct after a new entry |
| Encoding.GroupedIncrement | pymining/itemmining.py:48-52 | the `visited` index stays correct after an increment |
| Encoding.GroupOne | pymining/itemmining.py:43-53 | one step of the grouping loop: `current` stays the number of entries, and entries and index stay correct for the transactions seen so far plus the new one |
| Encoding.GetSamData | pymining/itemmining.py:38-54 | the entries list each distinct transaction once, in first-occurrence order; each count is its multiplicity, so every count is at least 1 and the counts sum to the number of transactions |
| Encoding.FirstOccurrencesAscending | pymining/itemmining.py:38-54 | grouping sorted transactions gives strictly ascending entries |
| Encoding.Transform | pymining/itemmining.py:57-63 | frequencies count occurrences; the entries are strictly ascending in `lexi_repr`; each entry's items are sorted by frequency, ties in input order; each count is the number of input transactions whose frequency-sorted items are exactly that entry's, and the counts sum to the number of transactions |
| Encoding.TransformCorrected | pymining/itemmining.py:57-63 | (corrected sort) as `Transform`, but each entry is sorted by `(frequency, item)` and counts the input transactions holding exactly its items in any order |
| Sam.TotalSplit | pymining/itemmining.py:84-91 | the total count is the sum over the run and the rest |
| Sam.TailLengthSplit | pymining/itemmining.py:84-91 | the total tail length is the sum over the run and the rest |
| Sam.ItemsInSplit | pymining/itemmining.py:84-91 | the items of a list are those of the run and those of the rest |
| Sam.Split | pymining/itemmining.py:84-91 | the entries of the leading run on `i` leave `a`; `s` is the sum of their counts; their non-empty tails go to `b` in order, and empty tails are dropped |
| Sam.StripAppend | pymining/itemmining.py:87-91 | a stripped entry goes to `b` only when its tail is non-empty |
| Sam.RunStartsWith | pymining/itemmining.py:85 | every entry of the run is non-empty and starts with `i` |
| Sam.StripMeasures | pymining/itemmining.py:84-91 | stripping keeps or lowers the count, shortens the total tail by one item per entry, and adds no items |
| Sam.StripOrigins | pymining/itemmining.py:87-89 | every stripped tail is the tail of an entry of the run |
| Sam.StripBelow | pymining/itemmining.py:84-91 | in a run that starts with `i`, a head below the later entries stays below them once `i` is stripped from all |
| Sam.StripAscending | pymining/itemmining.py:84-91 | stripping the common item keeps the run's entries ascending |
| Sam.StripDistinct | pymining/itemmining.py:84-91 | stripped tails have no repeated items and no longer contain `i` |
| Sam.TotalConcat | pymining/itemmining.py:112-115 | draining appends counts |
| Sam.TailLengthConcat | pymining/itemmining.py:112-115 | draining appends tail lengths |
| Sam.ItemsInConcat | pymining/itemmining.py:112-115 | draining appends items |
| Sam.MergedTakeB | pymining/itemmining.py:100-102 | when `a`'s head is above `b`'s, `b`'s head moves to `d` |
| Sam.MergedTakeA | pymining/itemmining.py:103-105 | when `a`'s head is below `b`'s, `a`'s head moves to `d` |
| Sam.MergedCombine | pymining/itemmining.py:106-110 | equal heads leave as one entry with summed counts |
| Sam.MergedDone | pymining/itemmining.py:112-115 | once either side is empty, the rest of `a` and then of `b` is appended |
| Sam.ItemListsCons | pymining/itemmining.py:97-117 | the transactions of a list are its head's and its tail's |
| Sam.AscendingCons | pymining/itemmining.py:97-117 | a head below every later transaction keeps a list ascending |
| Sam.AscendingHead | pymining/itemmining.py:97-117 | the head of an ascending list is below the rest, and the rest is ascending |
| Sam.BelowLists | pymining/itemmining.py:97-117 | a head below a list is below each of its transactions |
| Sam.MergedItemLists | pymining/itemmining.py:97-117 | the merge holds exactly the transactions of `a` and of `b` |
| Sam.MergedAscending | pymining/itemmining.py:97-117 | merging two ascending lists gives an ascending list |
| Sam.MergedCountOf | pymining/itemmining.py:97-117 | each transaction's count in `d` is its count in `a` plus its count in `b` |
| Sam.MergedMeasures | pymining/itemmining.py:97-117 | the total count of `d` is that of `a` plus `b`; tail length does not grow; the items are those of `a` and `b`; non-empty tails stay non-empty |
| Sam.Drain | pymining/itemmining.py:112-115 | popping a queue empty onto `d` appends it in order |
| Sam.Merge | pymining/itemmining.py:97-117 | the merge loop and the two drains build exactly the merged list |
| Sam.ItemsInMember | pymining/itemmining.py:79-91 | an item occurs in a list exactly when some entry contains it |
| Sam.ItemListsSlice | pymining/itemmining.py:84-91 | the run and the rest hold only transactions of the list |
| Sam.AscendingSlice | pymining/itemmining.py:84-91 | the run and the rest of an ascending list are ascending |
| Sam.Round | pymining/itemmining.py:79-117 | one round keeps the working list ascending and duplicate-free; it does not raise the total count; it strictly shortens the total tail length of both the new working list and the recursion's list; the recursion's list no longer contains `i` |
| Sam.Prefix.constructor | pymining/itemmining.py:130 | the prefix starts empty |
| Sam.Prefix.Add | pymining/itemmining.py:119 | the prefix gains `i` |
| Sam.Prefix.Remove | pymining/itemmining.py:122 | the prefix loses `i` again; removing an absent item is excluded, as the set would raise |
| Sam.Sam | pymining/itemmining.py:73-125 | `fis` is restored; the result counts the reported sets; each reported set strictly extends the prefix by items of the data, with support at least `min_support` and at most the total count; an empty front entry stops the search with 0; the total tail length strictly decreases, so the search ends |
| Sam.TieOrderFrequencies | pymining/itemmining.py:20-25 | in the tie example, `b` and `d` both have frequency 2 |
| Sam.TieOrderFrequencySorted | pymining/itemmining.py:28-31 | the frequency sort leaves `('d','b')` and `('b','d')` as they are |
| Sam.TieOrderLexSorted | pymining/itemmining.py:34-35 | the `lexi_repr` sort puts `('b','d')` before `('d','b')` |
| Sam.TieOrderRun | pymining/itemmining.py:38-54 | grouping gives two entries of count 1, and the run on `b` sums 1 |
| Sam.TieOrderKeySorted | pymining/itemmining.py:28-31 | the `(frequency, item)` sort encodes both transactions as `('b','d')` |
| Sam.TieOrderSplitsApart | pymining/itemmining.py:28-31 | ties in frequency keep input order, so `('d','b')` and `('b','d')` encode differently and the split on `b` sums 1, not 2; the corrected sort encodes both alike |
| AssocRules.GrownStep | pymining/assocrules.py:30-34 | a rule grown from `(left ∪ {x}, right − {x})` is grown from `(left, right)` |
| AssocRules.GrownSplit | pymining/assocrules.py:30-34 | growth keeps the union of the two sides and their disjointness |
| AssocRules.ExtendsStep | pymining/assocrules.py:30-34 | the recursive calls of one loop compose into one valid extension of the accumulators |
| AssocRules.PairsPrefix | pymining/assocrules.py:28 | rules appended at the end keep earlier pairs |
| AssocRules.FinishedGrows | pymining/assocrules.py:23-28 | a finished pair (emitted if confident, its successors tried) stays finished as `visited` and `rules` grow |
| AssocRules.InProgressSettled | pymining/assocrules.py:30-34 | before the recursive call on `left ∪ {item}`, every tried pair not yet finished belongs to a caller with a smaller antecedent |
| AssocRules.StepKeeps | pymining/assocrules.py:30-34 | one recursive call of the loop keeps the extension valid, keeps `(left, right)` tried and emitted, and leaves only the callers' pairs and `(left, right)` unfinished |
| AssocRules.MoveEach | pymining/assocrules.py:30-34 | the loop tries `(left ∪ {x}, right − {x})` for every `x` of `right` when `right` has more than one item, emits only valid fresh rules, keeps earlier rules, and fails only on a missing or zero-support set between `left` and `left ∪ right` |
| AssocRules.MineRulesFrom | pymining/assocrules.py:18-34 | a visited pair or an empty consequent changes nothing; otherwise the pair is marked visited; a confident pair emits `(left, right, support, support / isets[left])` first; an unconfident pair is not grown; every new rule is confident, non-empty on the right, was not visited before, and keeps the sides' union; a confident pair has every successor `(left ∪ {x}, right − {x})` tried; called with every tried pair finished except the callers', it leaves every tried pair finished except those; an untried pair with a non-empty consequent whose antecedent is missing raises `KeyError(left)`, and one whose antecedent has support 0 raises `ZeroDivisionError(left)`; any failure names a missing or zero-support set between `left` and `left ∪ right`, `left ∪ right` excluded; no failure occurs when every non-empty proper subset of `left ∪ right` is listed with positive support; every tried antecedent was found with positive support |
| AssocRules.LargestExists | pymining/assocrules.py:4 | a largest remaining item set exists to process next |
| AssocRules.StartEmits | pymining/assocrules.py:9-13 | the start split `{item} => key − {item}` emits only valid, distinct rules that start from a confident singleton |
| AssocRules.StartFinished | pymining/assocrules.py:9-13 | after a search from a singleton start, every tried pair is finished, since only empty antecedents could be left out |
| AssocRules.StartsEmitted | pymining/assocrules.py:9-13 | once every start split is tried and every tried pair finished, every confident start `{x} => key − {x}` of a frequent set is emitted |
| AssocRules.StartsListed | pymining/assocrules.py:9-26 | once every start split of every searched set is tried and every tried antecedent was found, every singleton of a searched set is listed with positive support |
| AssocRules.GrowthClosed | pymining/assocrules.py:27-34 | once every tried pair is finished, moving one consequent item of an emitted rule to its antecedent gives an emitted rule whenever that rule is confident |
| AssocRules.SearchKey | pymining/assocrules.py:9-13 | the loop over one frequent set's items keeps the rules valid and distinct and every tried pair finished, and tries every start split `{x} => key − {x}`; a failure names a missing or zero-support non-empty proper subset of `key`, and none occurs when all of them are listed with positive support |
| AssocRules.MineAssocRules | pymining/assocrules.py:1-15 | every rule splits a listed set of at least two items with support at least `min_support` into disjoint non-empty sides; it carries that support and a confidence at least `min_confidence`; its antecedent holds an item whose singleton rule is confident; no pair is emitted twice; a failure names a missing or zero-support non-empty proper subset of a searched set (listed, support at least `min_support`, at least two items); no failure occurs when every such subset is listed with positive support; on success every singleton of a searched set is listed with positive support, so a missing or zero-support singleton raises; every confident start `{x} => key − {x}` of a frequent set of at least two items is emitted, and the rules are closed under confident antecedent growth |
| AssocRules.PathStep | pymining/assocrules.py:30-34 | in step-closed rules, an emitted split `l => key − l` grows by a confident item `y` into an emitted split |
| AssocRules.PathEmitted | pymining/assocrules.py:1-34 | the rules contain the end of every confident growth path inside a set: everything reachable from a confident singleton start through confident one-item steps is emitted |
| ConsequentGrowth.DoneGrows | pymining/assocrules.py:23 | (corrected search) a finished pair stays finished as the accumulators grow |
| ConsequentGrowth.GrownBackStep | pymining/assocrules.py:30-34 | (corrected search) a rule grown from `(left − {x}, right ∪ {x})` is grown from `(left, right)` |
| ConsequentGrowth.ExtendsBackStep | pymining/assocrules.py:30-34 | (corrected search) recursive calls compose into one valid extension |
| ConsequentGrowth.PendingStacked | pymining/assocrules.py:30-34 | (corrected search) while `(left, right)` is at work, every tried pair with a smaller antecedent than `left` minus an item is finished |
| ConsequentGrowth.StepBackKeeps | pymining/assocrules.py:30-34 | (corrected search) one recursive call keeps the extension valid, keeps `(left, right)` visited and emitted, and leaves only pairs higher up the recursion unfinished |
| ConsequentGrowth.MoveEachBack | pymining/assocrules.py:30-34 | (corrected search) the loop over the antecedent's items tries `(left − {y}, right ∪ {y})` for every `y` when `left` has more than one item, emits only valid fresh rules, and fails only on a missing or zero-support non-empty proper subset of `left` |
| ConsequentGrowth.MineRulesBack | pymining/assocrules.py:18-34 | (corrected search) moving items from antecedent to consequent emits only confident, fresh, union-preserving rules; it marks its pair visited and leaves every visited pair finished; an untried pair whose antecedent is missing or has support 0 raises `KeyError` or `ZeroDivisionError` on it; any failure names a missing or zero-support non-empty subset of `left`, and none occurs when all of them are listed with positive support |
| ConsequentGrowth.ConfidenceRises | pymining/assocrules.py:26 | (corrected search) dividing by a smaller support gives a higher confidence |
| ConsequentGrowth.ConfidentGrows | pymining/assocrules.py:26-27 | (corrected search) with supports that fall on supersets, a larger antecedent of the same set is at least as confident |
| ConsequentGrowth.StepBack | pymining/assocrules.py:30-34 | (corrected search) moving one consequent item back keeps a proper split and shortens the distance to it |
| ConsequentGrowth.DoneSuccessor | pymining/assocrules.py:30-34 | (corrected search) a finished confident pair has had each of its successors tried |
| ConsequentGrowth.DoneEmitted | pymining/assocrules.py:28 | (corrected search) a finished confident pair has been emitted |
| ConsequentGrowth.Reached | pymining/assocrules.py:18-34 | (corrected search) every confident split of a set is reached from the splits with a one-item consequent |
| ConsequentGrowth.ReachedEmitted | pymining/assocrules.py:18-34 | (corrected search) a confident split of a set whose one-item-consequent splits were all tried has been emitted |
| ConsequentGrowth.StartBackEmits | pymining/assocrules.py:9-13 | (corrected search) the start split `key − {item} => {item}` emits only valid, distinct rules |
| ConsequentGrowth.SearchBack | pymining/assocrules.py:9-13 | (corrected search) after one frequent set, all its one-item-consequent splits are tried and every tried pair is finished; failures as for `SearchKey` |
| ConsequentGrowth.AllReached | pymining/assocrules.py:1-15 | (corrected search) when every start split is tried, every confident split of every frequent set is emitted |
| ConsequentGrowth.MineAssocRulesBack | pymining/assocrules.py:1-15 | (corrected search) valid, distinct rules, failures as for `MineAssocRules`, and complete: on a support table every confident split of every frequent set of at least two items is emitted |
| ConsequentGrowth.SubsetsOfABC | pymining/assocrules.py:25 | every non-empty subset of `{a, b, c}` is listed in the example table with its support |
| ConsequentGrowth.AntecedentGrowthMisses | pymining/assocrules.py:27-34 | on a real support table, `{a, b} => {c}` is valid with confidence 1, yet no singleton start rule of it is confident, so the antecedent-growing search never emits it |
| ConsequentGrowth.ComplexRuleMissed | tests/assocrules_tests.py:47-59 | on the library's own complex-rules fixture, `({b, c}, {a}, 5, 1.0)` is valid at support 5 and confidence 0.9, yet no singleton start of it is confident, so the search as written cannot emit the rule the test expects |
| SeqMining.SubseqDropHead | pymining/seqmining.py:49-57 | a pattern's tail occurs wherever the pattern does |
| SeqMining.SubseqCons | pymining/seqmining.py:49-57 | `[x] + q` occurs in a sequence exactly when `x` does and `q` occurs after `x`'s first occurrence |
| SeqMining.SubseqSingleton | pymining/seqmining.py:33-36 | the pattern `[x]` occurs exactly when `x` does |
| SeqMining.SuppSingleton | pymining/seqmining.py:31-36 | the support of `[x]` is the number of sequences containing `x` |
| SeqMining.SuppAtMostHead | pymining/seqmining.py:19-25 | a pattern is no more frequent than its first element |
| SeqMining.SuppProjected | pymining/seqmining.py:22-25 | the support of `[x] + q` is the support of `q` in the database projected on `x` |
| SeqMining.SuffixAbsent | pymining/seqmining.py:53-58 | a sequence without `x` projects to nothing |
| SeqMining.SuffixShorter | pymining/seqmining.py:53-56 | the suffix after `x` is strictly shorter when `x` occurs |
| SeqMining.ProjectedShorter | pymining/seqmining.py:22-25 | projecting on a locally frequent element strictly lowers the total length, so the recursion ends |
| SeqMining.SupportAtMostSize | pymining/seqmining.py:29-36 | each sequence counts once, so a count never exceeds the number of sequences |
| SeqMining.ProjectedOrigins | pymining/seqmining.py:45-60 | every projected sequence is the non-empty, strictly shorter suffix after the first `x` of a sequence that contains `x`; the projection has no more sequences |
| SeqMining.TallyNext | pymining/seqmining.py:31-36 | the elements visited in a sequence add 1 each to their counts |
| SeqMining.CountSequence | pymining/seqmining.py:32-36 | one sequence adds 1 to the count of each of its distinct elements |
| SeqMining.SelectFrequent | pymining/seqmining.py:38-42 | exactly the counted elements reaching `min_support` are kept, with their counts, once each |
| SeqMining.LocalFreqItems | pymining/seqmining.py:28-42 | returns exactly the elements occurring in at least one and at least `min_support` sequences, each with its support, which is at most the number of sequences, each once |
| SeqMining.Project | pymining/seqmining.py:45-60 | an empty prefix returns `sdb`; otherwise each sequence becomes its suffix after the first occurrence of the prefix's last element, in order, dropping empty suffixes |
| SeqMining.ExtensionLifts | pymining/seqmining.py:22-25 | what the search finds below `prefix + [x]` on the projection is a frequent extension of `prefix` |
| SeqMining.ExtensionHead | pymining/seqmining.py:17-25 | `(prefix + [x], support)` is a frequent extension of `prefix` |
| SeqMining.CoveredAfter | pymining/seqmining.py:22-25 | the search below `prefix + [x]` finds every frequent pattern that starts with `x` |
| SeqMining.HeadFrequent | pymining/seqmining.py:19-21 | a frequent pattern starts with a locally frequent element, so an empty frequent list ends the search without loss |
| SeqMining.FreqSeq | pymining/seqmining.py:16-25 | adds the non-empty prefix with its support; every other addition is `prefix + q` with `q`'s support in the projected database, at least `min_support`; every such frequent `q` is added |
| SeqMining.FreqSeqEnum | pymining/seqmining.py:4-13 | the result is exactly the non-empty patterns contained in at least one and at least `min_support` sequences, each with its support; the empty start prefix is never added |

## Left out

- Printing: the `print` of each found item set in `sam` is modelled as the returned list `reported`. The `test_sam` driver and the commented-out debug prints are not modelled.
- `relim` is an unfinished stub that loops without changing anything. RElim, FP-Growth and their input builders are not part of this model.
- `pymining/perftesting.py` and `setup.py` are not part of this model: a timing harness with random data, and packaging.
- Sam.Sam: proves the structural properties above, not that every frequent item set is reported with its true support. The source marks this revision's output as wrong, and the tie-order finding shows one cause.
- Sam.Sam: requires duplicate-free transactions, as the library's transaction type promises. With a repeated item, an inner call can remove that item from `fis` first, and the outer `fis.remove` then raises `KeyError`.
- `get_sam_data` keys its dictionary on `str(transaction)`; the model compares transactions as sequences, which is the same equality for one-letter items.
- Deques are modelled as sequences: `popleft`, `append` and in-place entry replacement become slicing and concatenation.
- Items and elements are characters, the type of the library's own fixtures.
- Confidence is an exact `real` quotient, not a floating-point value. Rounding at the threshold is not modelled.
- Iteration order over Python sets and dictionaries is left open: `MineAssocRules` picks any largest remaining set and any of its items, and `FreqSeq` takes the frequent elements in first-appearance order.
- AssocRules.MineAssocRules: the keys are taken in an order of non-increasing size, any such order; Python's `sorted` fixes one. Only the set of emitted pairs and their properties are stated, not the list order.
- The `min_support` argument of `_mine_assoc_rules` and the `prefix` argument of `_local_freq_items` are unused by the source and are omitted.
- The `freq_seqs` set and the `rules`/`visited` accumulators that the source mutates in place are threaded through the recursion as values. Aliasing of these objects is therefore not modelled.
- The rule counts the library's association-rule tests expect (23 rules at `tests/assocrules_tests.py:12`, 8 at confidence 0.75 at line 32) are not derived: the item-set table they mine is produced by `relim` (`tests/assocrules_tests.py:9-10`), which is not part of this model. The complex-rules test (lines 47-59) is modelled by `ConsequentGrowth.ComplexRuleMissed`.
- The default arguments `min_support=2, min_confidence=0.5` of `mine_assoc_rules` (`pymining/assocrules.py:1`) are not modelled as defaults: `MineAssocRules` takes both as parameters, and its contracts hold for every value.

## Findings

| source | as written | input that shows it | evidently intended | confidence | as-written member | corrected member |
|---|---|---|---|---|---|---|
| pymining/itemmining.py:28-31 | items are sorted by frequency alone, so ties keep each transaction's input order, while `lexi_repr` and `sam` compare `(frequency, item)` pairs | transactions `('d','b')` and `('b','d')`, both items of frequency 2, `min_support` 2: the two encode differently, the split on `b` finds one of them, sums 1, and `{b}` is not reported | sort by `(frequency, item)`, so equal transactions encode identically | not executed | Sam.TieOrderSplitsApart | Encoding.TransformCorrected |
| pymining/assocrules.py:27-34 | the search starts from `{item} => rest`, grows only the antecedent, and stops at the first split below `min_confidence` | 8×`{a}`, 8×`{b}`, 8×`{c}`, 2×`{a,b,c}`, `min_support` 2, `min_confidence` 0.5: `{a,b} => {c}` has confidence 1.0, but `{a} => {b,c}` and `{b} => {a,c}` have 0.2, so it is never emitted | every split of a frequent set that reaches the confidence threshold is emitted, as the library's own tests expect (`tests/assocrules_tests.py:47-59` expects `({b,c}, {a}, 5, 1.0)`, which `ConsequentGrowth.ComplexRuleMissed` shows unreachable); growing the consequent from `rest => {item}` reaches all of them, because confidence only falls as the antecedent shrinks | not executed | ConsequentGrowth.AntecedentGrowthMisses | ConsequentGrowth.MineAssocRulesBack |
