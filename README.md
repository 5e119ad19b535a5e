# Knowledge-graph permutation engine, in Dafny

This project models the permutation engine of the repository's knowledge-graph
generator and proves properties of it. The engine takes the graph of one
experiment (nodes with an integer id and a label, directed edges labelled with
a relation) and the semantic groups of its nodes (each member with a
granularity level). For every experiment it:

1. keeps, per group, the ids at the group's maximum level (the swappable
   tuple), and drops the groups with at most one such id;
2. enumerates every non-empty combination of the remaining groups and, for
   each combination, every choice of one ordering per group
   (`itertools.combinations`, `permutations`, `product`);
3. applies each choice to a copy of the graph, one group after another, by
   rewriting node ids through a positional old-to-new map;
4. resolves the candidate to its sorted list of
   `(source label, relation, target label)` triples and keeps it only when no
   graph accepted so far (the original first) has the same list;
5. records, for every kept graph, the label pairs it swapped and its
   deviation: the fraction of its triples that occur nowhere in the original.

The repository holds two copies of the engine,
`src/generators/ken_c137/graphs/permute_knowledge_graph.py` (current) and
`ken_kg_1/graphs/permute_knowledge_graph.py` (older). They differ in three
ways that do not affect results: logging versus `print`,
`zip(..., strict=False)` versus plain `zip`, and the accepted graphs passed to
`is_unique_permutation` as `list(permutations_i.values())` versus the live
view `permutations_i.values()`. The call only reads the view, and it returns
before the dictionary next changes, so both copies see the same graphs. One model covers both. The six functions sit at these
lines:

| function | current copy | older copy |
|---|---|---|
| `get_swappable_nodes` | 37-89 | 16-65 |
| `apply_permutation` | 92-111 | 68-77 |
| `get_graph_triples` | 114-133 | 80-91 |
| `is_unique_permutation` | 136-155 | 94-104 |
| `graph_deviation_from_original` | 158-184 | 107-124 |
| `create_permutations` | 187-302 | 127-227 |

Files:

- `itertools.dfy` (module `Itertools`): `combinations`, `permutations` and
  `product` as functions, with their counts (`n!`, binomials, `2^k - 1`,
  products of lengths). Each is shown to yield exactly the expected tuples,
  in Python's order where the engine relies on it.
- `ordering.dfy` (module `Ordering`): Python's order on strings and on
  triples, and `sorted` as insertion sort. The order is total and
  antisymmetric, so every correct sort returns this list.
- `graph.dfy` (module `KnowledgeGraph`): nodes, edges and graphs as values.
  It also holds the two ways the source turns an id back into a label:
  - the dictionary comprehension, where the last node with an id wins;
  - the `[...][0]` list scan, where the first node wins.
- `permute.dfy` (module `Permute`) models five functions, each against a
  specification function:
  - the swappable-node resolver;
  - `apply_permutation`;
  - `get_graph_triples`;
  - `is_unique_permutation`;
  - the deviation scorer.
- `driver.dfy` (module `Driver`): `create_permutations`.
  - The enumeration is a left-to-right fold: `Step` for one candidate, `RunOrders` over one combination's candidates, `RunCombos` over the combinations.
  - The run invariant `RunInv` holds at every step.
  - The fold only appends. Every graph it keeps comes, with its swap record, from one enumerated candidate. Every enumerated candidate's triple list is among the kept graphs (`RunCombosSources`).
  - The methods run the source's nested loops over dictionaries and counters. Each loop is proved to compute the fold.

In three places the engine's documented intent and its code disagree. The
model follows the code:
- An empty semantic group makes `max` raise a ValueError; it does not give an
  empty tuple.
- The id map is filled by a loop over `zip`. The shorter tuple decides its
  length, and a repeated old id keeps its later entry.
- A deviation of 0 means every candidate triple occurs somewhere in the
  original. It does not mean the candidate has the original's triples.

## Model

| member | source | states |
|---|---|---|
| `Itertools.Permutations` | src/generators/ken_c137/graphs/permute_knowledge_graph.py:246 | `permutations(nodes)`: the orderings of a tuple by position, taking each position in turn as the first element and ordering the rest the same way; the lemmas below count them, show each is a rearrangement, every rearrangement is present and the identity comes first |
| `Itertools.PermutationsCount` | src/generators/ken_c137/graphs/permute_knowledge_graph.py:246 | `permutations` of an n-tuple yields n! orderings; repeated values are not merged |
| `Itertools.PermutationsSound` | src/generators/ken_c137/graphs/permute_knowledge_graph.py:246 | every ordering yielded is a rearrangement (same multiset) of the tuple |
| `Itertools.PermutationsComplete` | src/generators/ken_c137/graphs/permute_knowledge_graph.py:246 | every rearrangement of the tuple is yielded |
| `Itertools.PermutationsFirst` | src/generators/ken_c137/graphs/permute_knowledge_graph.py:246 | the first ordering yielded is the tuple itself |
| `Itertools.Combinations` | src/generators/ken_c137/graphs/permute_knowledge_graph.py:232 | `combinations(s, r)`: the r-element selections that keep input order, those starting with `s[0]` before those without it, which is Python's order by position |
| `Itertools.CombinationsCount` | src/generators/ken_c137/graphs/permute_knowledge_graph.py:232 | `combinations(s, r)` yields binomial(len(s), r) selections |
| `Itertools.CombinationsSound` | src/generators/ken_c137/graphs/permute_knowledge_graph.py:232 | every selection yielded has r elements picked from `s` in order |
| `Itertools.CombinationsComplete` | src/generators/ken_c137/graphs/permute_knowledge_graph.py:232 | every order-preserving selection of r elements is yielded |
| `Itertools.BinomSumIsPow2` | src/generators/ken_c137/graphs/permute_knowledge_graph.py:230-234 | the binomials of n sum to 2^n, so sizes 0..k account for every subset |
| `Itertools.CombinationsUpTo` | src/generators/ken_c137/graphs/permute_knowledge_graph.py:230-234 | the selections of sizes 1 to m chained by increasing size, as `chain.from_iterable` over `range(1, m + 1)` lists them |
| `Itertools.NonEmptyCombinations` | src/generators/ken_c137/graphs/permute_knowledge_graph.py:230-234 | `group_combinations`: the chain up to the number of valid groups, every non-empty selection |
| `Itertools.CombinationsUpToCount` | src/generators/ken_c137/graphs/permute_knowledge_graph.py:230-234 | chaining the sizes 1..m yields the sum of those binomials |
| `Itertools.NonEmptyCombinationsCount` | src/generators/ken_c137/graphs/permute_knowledge_graph.py:230-234 | k groups give 2^k - 1 combinations |
| `Itertools.CombinationsUpToSound` | src/generators/ken_c137/graphs/permute_knowledge_graph.py:230-234 | every combination is non-empty, at most m long and picked in order, and sizes never decrease along the list |
| `Itertools.CombinationsUpToComplete` | src/generators/ken_c137/graphs/permute_knowledge_graph.py:230-234 | every non-empty ordered selection of at most m groups occurs |
| `Itertools.Product` | src/generators/ken_c137/graphs/permute_knowledge_graph.py:249 | `product(*group_swaps)`: one tuple per choice of an element from each list, the first list varying slowest |
| `Itertools.ProductCount` | src/generators/ken_c137/graphs/permute_knowledge_graph.py:249 | `product(*lists)` yields the product of the list lengths |
| `Itertools.ProductMembers` | src/generators/ken_c137/graphs/permute_knowledge_graph.py:249 | a tuple is yielded iff it has one position per list and position j holds an element of list j |
| `Itertools.ProductFirst` | src/generators/ken_c137/graphs/permute_knowledge_graph.py:249 | when no list is empty, the first tuple takes the first element of every list |
| `Ordering.StrLe` | src/generators/ken_c137/graphs/permute_knowledge_graph.py:133 | Python's `<=` on `str`: lexicographic by code point, a prefix before its extensions |
| `Ordering.TripleLe` | src/generators/ken_c137/graphs/permute_knowledge_graph.py:133 | Python's `<=` on `(source, relation, target)` tuples: the first differing component decides |
| `Ordering.TripleLeAntisym` | src/generators/ken_c137/graphs/permute_knowledge_graph.py:133 | two triples each at most the other under Python's tuple order are equal |
| `Ordering.TripleLeTotal` | src/generators/ken_c137/graphs/permute_knowledge_graph.py:133 | any two triples are comparable |
| `Ordering.Insert` | src/generators/ken_c137/graphs/permute_knowledge_graph.py:133 | inserting into a sorted list gives a sorted list one longer, headed by the new triple or the old head |
| `Ordering.InsertMultiset` | src/generators/ken_c137/graphs/permute_knowledge_graph.py:133 | insertion adds exactly the new triple to the elements |
| `Ordering.Sort` | src/generators/ken_c137/graphs/permute_knowledge_graph.py:133 | `sorted` returns a sorted list of the same length |
| `Ordering.SortMultiset` | src/generators/ken_c137/graphs/permute_knowledge_graph.py:133 | `sorted` keeps every element with its number of occurrences |
| `Ordering.SortedUnique` | src/generators/ken_c137/graphs/permute_knowledge_graph.py:132-133 | two sorted lists with the same elements are equal |
| `Ordering.SortCanonical` | src/generators/ken_c137/graphs/permute_knowledge_graph.py:132-133 | lists with the same elements sort to the same list, so input order does not affect the comparison |
| `Ordering.SortSorted` | src/generators/ken_c137/graphs/permute_knowledge_graph.py:133 | sorting a sorted list returns it unchanged |
| `KnowledgeGraph.LabelMap` | src/generators/ken_c137/graphs/permute_knowledge_graph.py:123 | the id-to-label dictionary has exactly the node ids as keys |
| `KnowledgeGraph.LabelMapLastWins` | ken_kg_1/graphs/permute_knowledge_graph.py:81 | an id carried by several nodes maps to the label of the last of them |
| `KnowledgeGraph.FirstLabel` | src/generators/ken_c137/graphs/permute_knowledge_graph.py:270-279 | the `[...][0]` scan returns the label of a node with the id before which no node has that id |
| `KnowledgeGraph.FirstLabelIsLabelMap` | src/generators/ken_c137/graphs/permute_knowledge_graph.py:270-279 | with unique node ids the scan and the dictionary give the same label |
| `Permute.MaxLevel` | src/generators/ken_c137/graphs/permute_knowledge_graph.py:85 | `max` of the members' levels; a non-empty group is required because `max` raises on an empty one |
| `Permute.IdsAtLevel` | src/generators/ken_c137/graphs/permute_knowledge_graph.py:86-88 | the ids of the members at the given level, in member order; never more ids than members |
| `Permute.SwappableIds` | src/generators/ken_c137/graphs/permute_knowledge_graph.py:84-88 | one group's swappable tuple: `IdsAtLevel` at `MaxLevel` |
| `Permute.MaxLevelSpec` | src/generators/ken_c137/graphs/permute_knowledge_graph.py:85 | the group's maximum level bounds every member's level and is some member's level |
| `Permute.IdsAtLevelMembers` | src/generators/ken_c137/graphs/permute_knowledge_graph.py:86-88 | an id is kept iff some member at that level carries it |
| `Permute.SwappableIdsNonEmpty` | src/generators/ken_c137/graphs/permute_knowledge_graph.py:85-88 | a non-empty group always has at least one id at its maximum level |
| `Permute.GetSwappableNodes` | src/generators/ken_c137/graphs/permute_knowledge_graph.py:83-89 | one entry per group, in group order; which ids entry i holds, and in which order, is stated by the two lemmas below |
| `Permute.SwappableNodesSpec` | src/generators/ken_c137/graphs/permute_knowledge_graph.py:83-89 | entry i names group i, is non-empty, and holds x iff some member with id x has a level no member exceeds |
| `Permute.IdsAtLevelInOrder` | src/generators/ken_c137/graphs/permute_knowledge_graph.py:86-88 | the level filter drops members and keeps the others' ids in member order |
| `Permute.SwappableNodesInOrder` | src/generators/ken_c137/graphs/permute_knowledge_graph.py:86-88 | entry i's ids are a subsequence of group i's member ids: in member order, none repeated beyond the members' own |
| `Permute.SwappableNodesExample` | src/generators/ken_c137/graphs/permute_knowledge_graph.py:41-81 | the docstring's two groups give (2, 3) and (4, 5) |
| `Permute.ValidGroups` | src/generators/ken_c137/graphs/permute_knowledge_graph.py:227 | `valid_groups`: the entries whose tuple has more than one id, in insertion order; never more entries than given |
| `Permute.ValidGroupsSpec` | src/generators/ken_c137/graphs/permute_knowledge_graph.py:227 | the filter keeps exactly the groups with more than one id, in their original order |
| `Permute.IdMapping` | src/generators/ken_c137/graphs/permute_knowledge_graph.py:104-106 | `id_mapping`: the zipped pairs up to the shorter tuple's length, inserted left to right so that a later pair overwrites an earlier one with the same old id |
| `Permute.IdMappingLastWins` | ken_kg_1/graphs/permute_knowledge_graph.py:70-72 | position j that `zip` reaches, with no later position repeating its old id, maps its old id to its new id |
| `Permute.IdMappingKeys` | src/generators/ken_c137/graphs/permute_knowledge_graph.py:104-106 | the map's keys are exactly the old ids at the positions `zip` reaches |
| `Permute.IdMappingPositional` | src/generators/ken_c137/graphs/permute_knowledge_graph.py:104-106 | with distinct old ids and equal lengths, old position j maps to new position j |
| `Permute.IdMappingValues` | src/generators/ken_c137/graphs/permute_knowledge_graph.py:104-106 | every id the map produces comes from the new tuple |
| `Permute.Renamed` | src/generators/ken_c137/graphs/permute_knowledge_graph.py:108-110 | a node whose id is a key of the map takes the mapped id, looked up once; any other node is unchanged |
| `Permute.Permuted` | src/generators/ken_c137/graphs/permute_knowledge_graph.py:92-111 | the graph `apply_permutation` returns: every node renamed through `IdMapping`, node order, labels and edges kept |
| `Permute.ApplyPermutation` | src/generators/ken_c137/graphs/permute_knowledge_graph.py:92-111 | the copy has the same node count, the same labels at the same positions and the same edges; each node's id is rewritten once through the map when it is a key and kept otherwise |
| `Permute.PermutedIdentity` | src/generators/ken_c137/graphs/permute_knowledge_graph.py:103-110 | mapping a tuple onto itself returns the graph unchanged |
| `Permute.PermutedIds` | src/generators/ken_c137/graphs/permute_knowledge_graph.py:104-110 | when the new tuple rearranges distinct old ids of the graph, the set of node ids is kept and a well-formed graph stays well formed |
| `Permute.PermutedIdMultiset` | src/generators/ken_c137/graphs/permute_knowledge_graph.py:104-110 | under the same conditions and with unique node ids, the multiset of node ids is kept: ids are traded, never merged or invented |
| `Permute.PermutedLabelAt` | src/generators/ken_c137/graphs/permute_knowledge_graph.py:104-110 | with unique node ids, new id k ends up carrying the label old id k carried |
| `Permute.PermutedKeepsOtherLabels` | src/generators/ken_c137/graphs/permute_knowledge_graph.py:108-110 | an id in neither tuple resolves to the same label, or stays unresolvable, after the rewrite |
| `Permute.Resolve` | src/generators/ken_c137/graphs/permute_knowledge_graph.py:127-130 | one edge's triple: its source's label, its relation, its target's label, under a label map holding both endpoints |
| `Permute.ResolveAll` | src/generators/ken_c137/graphs/permute_knowledge_graph.py:125-130 | `source_relation_target` before sorting: the triple of each edge at that edge's position |
| `Permute.UnsortedTriples` | src/generators/ken_c137/graphs/permute_knowledge_graph.py:123-130 | `ResolveAll` under the graph's own `LabelMap` (last node with an id wins), for a graph whose edge endpoints all resolve |
| `Permute.ResolveAllMultiset` | src/generators/ken_c137/graphs/permute_knowledge_graph.py:125-130 | rearranging the edges rearranges the resolved triples |
| `Permute.GraphTriples` | src/generators/ken_c137/graphs/permute_knowledge_graph.py:114-133 | one triple per edge, in sorted order |
| `Permute.GetGraphTriples` | ken_kg_1/graphs/permute_knowledge_graph.py:80-91 | the dictionary build, the append loop and the sort return the graph's triple signature |
| `Permute.GraphTriplesMultiset` | src/generators/ken_c137/graphs/permute_knowledge_graph.py:123-133 | the signature holds each edge's resolved triple as often as edges resolve to it |
| `Permute.GraphTriplesEqualIff` | src/generators/ken_c137/graphs/permute_knowledge_graph.py:132-133 | two graphs have equal signatures iff their edges resolve to the same multiset of triples |
| `Permute.GraphTriplesEdgeOrder` | src/generators/ken_c137/graphs/permute_knowledge_graph.py:132-133 | listing the same edges in another order leaves the signature unchanged |
| `Permute.UniqueAmong` | src/generators/ken_c137/graphs/permute_knowledge_graph.py:136-155 | false at the first existing graph with the same sorted triple list, true when no existing graph has it |
| `Permute.UniqueAmongIff` | src/generators/ken_c137/graphs/permute_knowledge_graph.py:146-155 | a candidate is unique iff no existing graph has its signature; in particular it is unique among no graphs |
| `Permute.IsUniquePermutation` | ken_kg_1/graphs/permute_knowledge_graph.py:94-104 | the search loop with its early return computes that uniqueness |
| `Permute.Mismatches` | src/generators/ken_c137/graphs/permute_knowledge_graph.py:170-182 | `deviation_count`: how many of the candidate's triples are not in the original's list; at most the number of candidate triples |
| `Permute.MismatchesExtremes` | src/generators/ken_c137/graphs/permute_knowledge_graph.py:174-181 | no mismatch iff every candidate triple occurs in the original; all mismatch iff none does |
| `Permute.MismatchesPresenceOnly` | src/generators/ken_c137/graphs/permute_knowledge_graph.py:170-181 | the count depends only on which triples the original has, not how often |
| `Permute.Deviation` | src/generators/ken_c137/graphs/permute_knowledge_graph.py:183 | the deviation lies in [0, 1] |
| `Permute.DeviationExtremes` | src/generators/ken_c137/graphs/permute_knowledge_graph.py:158-184 | the deviation is 0 iff every candidate triple occurs in the original, and 1 iff none does |
| `Permute.GraphDeviationFromOriginal` | src/generators/ken_c137/graphs/permute_knowledge_graph.py:158-184 | the method returns that deviation, in [0, 1], for graphs with equal, non-zero triple counts |
| `Permute.CountMissing` | ken_kg_1/graphs/permute_knowledge_graph.py:110-121 | the counting dictionary and the loop count the candidate triples absent from the original |
| `Permute.SwapExample` | src/generators/ken_c137/graphs/permute_knowledge_graph.py:92-184 | swapping B and C in A->B->C gives the signature [(A, causes, C), (C, causes, B)], against [(A, causes, B), (B, causes, C)], with deviation 1 |
| `Permute.ExampleTriples` | src/generators/ken_c137/graphs/permute_knowledge_graph.py:114-133 | the signature of the three-node example for either placement of the ids 2 and 3 |
| `Driver.GroupSwaps` | src/generators/ken_c137/graphs/permute_knowledge_graph.py:243-246 | `group_swaps`: every ordering of each group of the combination, one list per group |
| `Driver.Candidates` | src/generators/ken_c137/graphs/permute_knowledge_graph.py:249 | the candidates of one combination: `Product` of its `GroupSwaps` |
| `Driver.CandidatesAreCandidates` | src/generators/ken_c137/graphs/permute_knowledge_graph.py:243-249 | every tuple `product` yields picks one rearrangement of each group's tuple |
| `Driver.CandidatesComplete` | src/generators/ken_c137/graphs/permute_knowledge_graph.py:243-249 | every choice of one rearrangement per group is yielded |
| `Driver.CandidatesCount` | src/generators/ken_c137/graphs/permute_knowledge_graph.py:243-249 | a combination of groups of sizes n_1..n_k yields n_1! * ... * n_k! candidates |
| `Driver.FirstCandidate` | src/generators/ken_c137/graphs/permute_knowledge_graph.py:246-249 | the first candidate keeps every group in its original order |
| `Driver.ApplyOrders` | src/generators/ken_c137/graphs/permute_knowledge_graph.py:252-255 | the candidate graph: each group's chosen order applied with `Permuted`, the first group first |
| `Driver.ApplyOrdersKeeps` | src/generators/ken_c137/graphs/permute_knowledge_graph.py:252-255 | a candidate keeps the original's edges and set of node ids, so it stays well formed |
| `Driver.ApplyOrdersIdentity` | src/generators/ken_c137/graphs/permute_knowledge_graph.py:252-255 | applying every group's own tuple gives back the original graph |
| `Driver.BuildCandidate` | src/generators/ken_c137/graphs/permute_knowledge_graph.py:252-255 | the loop applies the groups' orders in turn to a copy, as the fold over the combination does |
| `Driver.SwapPairs` | src/generators/ken_c137/graphs/permute_knowledge_graph.py:269-280 | one label pair per position `zip` reaches |
| `Driver.SwapRecord` | src/generators/ken_c137/graphs/permute_knowledge_graph.py:265-281 | one tracker entry per group of the combination, entry j naming group j with one pair per position `zip` reaches |
| `Driver.SwapRecordMeaning` | src/generators/ken_c137/graphs/permute_knowledge_graph.py:265-281 | with unique node ids, entry j names group j, has one pair per id of its tuple, and pair k holds the label that carries new id k once group j's order is applied and the label that carried it before |
| `Driver.CandidateIds` | src/generators/ken_c137/graphs/permute_knowledge_graph.py:270-279 | a candidate only names ids of the graph, so the label scans never raise an IndexError |
| `Driver.SwapPairsMeaning` | src/generators/ken_c137/graphs/permute_knowledge_graph.py:265-281 | with unique node ids, pair k holds the label new id k carries after the swap and the label it carried before |
| `Driver.UniqueIdsLabels` | src/generators/ken_c137/graphs/permute_knowledge_graph.py:270-279 | with unique node ids, the scan agrees with the id-to-label dictionary |
| `Driver.RecordSwaps` | ken_kg_1/graphs/permute_knowledge_graph.py:202-210 | the nested loops build the tracker entry for the candidate |
| `Driver.NonEmptyWhenDifferent` | src/generators/ken_c137/graphs/permute_knowledge_graph.py:175-183 | a graph with the original's edges and a different signature has an edge, so the division never divides by zero |
| `Driver.Step` | src/generators/ken_c137/graphs/permute_knowledge_graph.py:252-291 | one candidate keeps the original first with only well-formed graphs that have its edges, and raises the count by one |
| `Driver.FirstCandidateRejected` | src/generators/ken_c137/graphs/permute_knowledge_graph.py:220-263 | the first candidate of every combination rebuilds the original, which is already accepted, so it is counted and discarded |
| `Driver.StepAccepts` | src/generators/ken_c137/graphs/permute_knowledge_graph.py:261-289 | a candidate with a new signature is appended with its swap record and deviation, and counted |
| `Driver.StepInv` | src/generators/ken_c137/graphs/permute_knowledge_graph.py:261-291 | each candidate keeps the run invariant |
| `Driver.RunOrders` | src/generators/ken_c137/graphs/permute_knowledge_graph.py:249-291 | the candidates of one combination keep the accepted list well formed and raise the count by their number |
| `Driver.RunOrdersLast` | src/generators/ken_c137/graphs/permute_knowledge_graph.py:249-291 | a non-empty list of candidates is its last candidate stepped after all the others |
| `Driver.RunOrdersInv` | src/generators/ken_c137/graphs/permute_knowledge_graph.py:249-291 | the candidates of one combination keep the run invariant |
| `Driver.RunCombos` | src/generators/ken_c137/graphs/permute_knowledge_graph.py:239-291 | the combinations keep the original first and every accepted graph well formed with its edges |
| `Driver.RunCombosLast` | src/generators/ken_c137/graphs/permute_knowledge_graph.py:239-291 | a non-empty list of combinations is its last combination's candidates run after all the others |
| `Driver.RunCombosTotal` | src/generators/ken_c137/graphs/permute_knowledge_graph.py:221-291 | every candidate of every combination is counted once |
| `Driver.RunCombosInv` | src/generators/ken_c137/graphs/permute_knowledge_graph.py:239-291 | the combinations keep the run invariant |
| `Driver.StepSources` | src/generators/ken_c137/graphs/permute_knowledge_graph.py:252-291 | one candidate only appends: a graph it adds is the candidate's own graph with its own swap record, and afterwards some accepted graph has the candidate's triple list |
| `Driver.StepAcceptedSources` | src/generators/ken_c137/graphs/permute_knowledge_graph.py:261-284 | a kept candidate is appended as its own graph with its own swap record |
| `Driver.StepRejectedCovered` | src/generators/ken_c137/graphs/permute_knowledge_graph.py:146-155 | a discarded candidate leaves the state but the count alone, and an accepted graph already has its triple list |
| `Driver.RunOrdersSources` | src/generators/ken_c137/graphs/permute_knowledge_graph.py:249-291 | the candidates of one combination only append, every graph they add comes from one of them, and each of them has its triple list among the graphs afterwards |
| `Driver.RunCombosSources` | src/generators/ken_c137/graphs/permute_knowledge_graph.py:239-291 | the combinations only append, every graph they add comes from a candidate of one of them, and every candidate of every one of them has its triple list among the graphs afterwards |
| `Driver.ExperimentCombos` | src/generators/ken_c137/graphs/permute_knowledge_graph.py:219-234 | an experiment's `group_combinations`: every non-empty combination of the valid groups of its swappable tuples |
| `Driver.ExperimentCombosOk` | src/generators/ken_c137/graphs/permute_knowledge_graph.py:226-234 | every combination holds groups whose tuples are distinct ids of the graph |
| `Driver.ExperimentCombosCount` | src/generators/ken_c137/graphs/permute_knowledge_graph.py:226-234 | there are 2^k - 1 combinations of the k groups left after filtering |
| `Driver.KeyedFrom` | src/generators/ken_c137/graphs/permute_knowledge_graph.py:262-263 | entries stored under the next count have consecutive keys from the first one |
| `Driver.KeyedFromAt` | src/generators/ken_c137/graphs/permute_knowledge_graph.py:262-263 | the key base + i holds the i-th entry stored |
| `Driver.RunOutputEntry` | src/generators/ken_c137/graphs/permute_knowledge_graph.py:262-289 | each dictionary entry built from a state keeping the run invariant has the original's node ids, its deviation, and a triple list other than the original's |
| `Driver.RunOutputsDiffer` | src/generators/ken_c137/graphs/permute_knowledge_graph.py:262-289 | two different keys of the dictionaries built from such a state hold graphs with different triple lists |
| `Driver.RunOutputs` | src/generators/ken_c137/graphs/permute_knowledge_graph.py:262-289 | from any state keeping the run invariant, the three dictionaries share their keys, every graph keeps the original's ids and edges, has its deviation, and differs in signature from the original and from every other |
| `Driver.ExperimentRun` | src/generators/ken_c137/graphs/permute_knowledge_graph.py:220-291 | an experiment's run: the fold over its combinations from the original alone with a count of one |
| `Driver.AcceptedGraphs` | src/generators/ken_c137/graphs/permute_knowledge_graph.py:220-297 | `permutations_i` after `del`: the run's graphs after the original, under keys 2, 3, ... |
| `Driver.SwapTracker` | src/generators/ken_c137/graphs/permute_knowledge_graph.py:284 | `node_swaps_tracker_i`: the run's swap records under keys 2, 3, ... |
| `Driver.DeviationTable` | src/generators/ken_c137/graphs/permute_knowledge_graph.py:287-289 | `triple_deviation_pct_i`: the run's deviations under keys 2, 3, ... |
| `Driver.ExperimentRunInv` | src/generators/ken_c137/graphs/permute_knowledge_graph.py:220-291 | an experiment's run keeps the invariant and counts the original plus every candidate of every combination |
| `Driver.ExperimentRunSources` | src/generators/ken_c137/graphs/permute_knowledge_graph.py:220-291 | every graph an experiment accepts after the original is, with its swap record, what one of its candidates makes of the original, and every candidate's triple list is among the accepted graphs |
| `Driver.RunCandidateKept` | src/generators/ken_c137/graphs/permute_knowledge_graph.py:261-297 | a candidate whose triple list an accepted graph has is the original's or an entry's of the dictionaries |
| `Driver.RunOutputsFrom` | src/generators/ken_c137/graphs/permute_knowledge_graph.py:252-297 | from a state reached from the original alone, each entry and its tracker record come from one candidate, and every choice of one reordering per group of every combination is the original's or some entry's triple list |
| `Driver.ExperimentOutputs` | src/generators/ken_c137/graphs/permute_knowledge_graph.py:220-300 | an experiment's dictionaries share their keys 2..unique count, hold pairwise distinct graphs that all differ from the original, with their deviations, and never more accepted than considered; each entry and its tracker record are what one enumerated candidate makes of the original, and every reordering of every combination has the original's or some entry's triple list |
| `Driver.KeyedFromDropFirst` | src/generators/ken_c137/graphs/permute_knowledge_graph.py:297 | deleting key 1 leaves the graphs after the original under keys 2, 3, ... |
| `Driver.ValuesOfKeyed` | src/generators/ken_c137/graphs/permute_knowledge_graph.py:261 | `list(permutations_i.values())` lists the accepted graphs in acceptance order |
| `Driver.ListGroupSwaps` | src/generators/ken_c137/graphs/permute_knowledge_graph.py:243-246 | the loop lists every ordering of every group of the combination |
| `Driver.ConsiderCandidate` | src/generators/ken_c137/graphs/permute_knowledge_graph.py:252-291 | one pass of the candidate loop leaves the dictionaries and counters holding the next step of the fold |
| `Driver.AcceptCandidate` | src/generators/ken_c137/graphs/permute_knowledge_graph.py:261-289 | the accepting branch stores the graph, its swap record and its deviation under the next key |
| `Driver.MirrorsSnoc` | src/generators/ken_c137/graphs/permute_knowledge_graph.py:262-289 | storing under the next key keeps the dictionaries in step with the run |
| `Driver.ConsiderCandidates` | src/generators/ken_c137/graphs/permute_knowledge_graph.py:249-291 | the loop over `product(*group_swaps)` computes the fold over the combination's candidates |
| `Driver.ConsiderCombo` | src/generators/ken_c137/graphs/permute_knowledge_graph.py:239-291 | one combination's pass computes the fold over all of its candidates |
| `Driver.ExperimentRunFold` | src/generators/ken_c137/graphs/permute_knowledge_graph.py:220-291 | an experiment's run is the fold over its combinations from the original alone |
| `Driver.ConsiderCombos` | ken_kg_1/graphs/permute_knowledge_graph.py:170-219 | the loop over `group_combinations` computes the fold over the combinations |
| `Driver.CreatePermutationsForExperiment` | src/generators/ken_c137/graphs/permute_knowledge_graph.py:216-300 | one experiment's loop body returns the accepted graphs without the original, the tracker, the deviations and both counts of its run |
| `Driver.AddExperiment` | src/generators/ken_c137/graphs/permute_knowledge_graph.py:215-300 | one pass of the experiment loop adds experiment i's entry to each dictionary |
| `Driver.ExperimentFits` | src/generators/ken_c137/graphs/permute_knowledge_graph.py:215-217 | when experiments 1 to n fit, each of them has a well-formed graph and semantic groups that fit it |
| `Driver.AllOutputs` | src/generators/ken_c137/graphs/permute_knowledge_graph.py:210-300 | the three dictionaries after experiments 1 to n; empty before the first |
| `Driver.LastExperiment` | src/generators/ken_c137/graphs/permute_knowledge_graph.py:297-300 | experiment n's accepted graphs, tracker and deviations stored under key n on top of the first n - 1 experiments' dictionaries |
| `Driver.AllOutputsStep` | src/generators/ken_c137/graphs/permute_knowledge_graph.py:215-300 | experiment n adds its accepted graphs, tracker and deviations under key n of the dictionaries of the first n - 1 |
| `Driver.AllOutputsStepKeys` | src/generators/ken_c137/graphs/permute_knowledge_graph.py:297-300 | experiment n adds the key n to each dictionary and no other |
| `Driver.AllOutputsStepKeeps` | src/generators/ken_c137/graphs/permute_knowledge_graph.py:297-300 | experiment n leaves every other experiment's entry unchanged |
| `Driver.AllOutputsKeys` | src/generators/ken_c137/graphs/permute_knowledge_graph.py:215-300 | after n experiments each dictionary has exactly the keys 1 to n |
| `Driver.AllOutputsStable` | src/generators/ken_c137/graphs/permute_knowledge_graph.py:297-300 | once experiment i has stored its entry, later experiments leave it unchanged |
| `Driver.AllOutputsAt` | src/generators/ken_c137/graphs/permute_knowledge_graph.py:215-300 | entry i of the dictionaries after n experiments is experiment i's own accepted graphs, tracker and deviations |
| `Driver.CreatePermutations` | src/generators/ken_c137/graphs/permute_knowledge_graph.py:210-302 | the three dictionaries returned are those of all experiments from 1 to the number of experiments |
| `Driver.CreatePermutationsOutputs` | src/generators/ken_c137/graphs/permute_knowledge_graph.py:210-302 | each experiment's entry of the returned dictionaries shares its keys, holds pairwise distinct graphs with the original's node ids that all differ from the original, each with its deviation; each graph and its tracker record come from one of the experiment's candidates, and no candidate's triple list is missing |

## Left out

- `load_json` and `save_json` are file I/O. Logging and `print` have no effect on results.
- The source defines no error types. Its exceptions are preconditions here:
  - `max` on an empty group raises a ValueError (`GroupsFit`, `GetSwappableNodes`).
  - An edge endpoint without a node raises a KeyError (`WellFormed`).
  - The deviation asserts equal triple counts, and divides by their number.
  - The candidates are proved to meet each of these where the engine calls them (`ApplyOrdersKeeps`, `CandidateIds`, `NonEmptyWhenDifferent`).
- Driver.GroupsFit: the enumeration is modelled for semantic groups whose swappable tuples of two or more ids hold distinct ids of the graph's nodes. The source does not check this. On other input the source either raises or returns normally. A candidate can rename a node to an id no edge resolves through, and `get_graph_triples` then raises a KeyError. A foreign id given to a node without edges reaches the `[...][0]` label scan, which raises an IndexError. A tuple with a repeated id, such as (2, 2), yields only identity candidates, and the run returns normally. The model follows none of these runs.
- Driver.ExperimentRun: the graph must be well formed even when no combination exists. With no group of two or more swappable ids the source never resolves the graph and returns empty dictionaries and a count of one, whatever its edges. The model covers only well-formed graphs there.
- Permute.IsUniquePermutation: every accepted graph must be well formed, while the source stops at the first match and never resolves the graphs after it. Every graph the engine passes is well formed (`Accepted`), so the engine's own calls are covered.
- Groups are not required to be disjoint. The model applies a candidate's groups one after another, as the code does, and claims nothing about simultaneous application.
- The experiment keys `"experiment_i"` become the integer `i`. `CreatePermutations` requires experiments 1 to n, as the source's lookups do.
- The group dictionary is a list of (name, members) entries in insertion order. The model does not require the names to be distinct.
- Graph copies (`copy.deepcopy`) are values, so no aliasing between a copy and the input is modelled. `ApplyPermutation` does rewrite ids in place in a freshly allocated array.
- Permute.Deviation: the quotient is an exact real; Python's float division rounds it to a double.
- Order independence: the engine is documented as yielding a final set of unique signatures that does not depend on the enumeration order. No separate lemma states it. It follows from `ExperimentOutputs`: the kept signatures are exactly the candidates' signatures other than the original's, so the set is determined. The model fixes the source's order for what does depend on it: the key each signature gets, and which candidate, and so which tracker record, represents it.
- Python ints are unbounded, as Dafny's are. Labels are sequences of code points; Python's string order is modelled as code-point lexicographic order.
