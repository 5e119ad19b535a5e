/** `create_permutations`: for each experiment, every non-empty combination of
    the groups that have something to swap, every choice of one reordering
    per group of the combination, applied to a copy of the experiment's
    graph; a candidate whose triple list is new is kept, together with the
    labels it swapped and its deviation from the original.

    The enumeration is specified as a left-to-right fold (`RunCombos` over
    the combinations, `RunOrders` over the candidates of one combination,
    `Step` for one candidate); the methods below run the source's loops and
    are proved to compute that fold. */
module Driver {
  import opened Itertools
  import opened Ordering
  import opened KnowledgeGraph
  import opened Permute

  /** One group's entry in the swap tracker: the group name and, position by
      position, the label of the old id and the label of the new id. */
  datatype GroupSwap = GroupSwap(group: string, pairs: seq<(string, string)>)

  // ============================================================ candidates

  /** Every id of the tuple names a node. */
  predicate IdsIn(ids: seq<int>, nodes: seq<Node>)
  {
    forall x | x in ids :: x in IdsOf(nodes)
  }

  /** A group whose tuple can be reordered without breaking the graph: its
      ids are distinct and each names a node. Any other tuple can rename a
      node to an id no edge resolves through, and `get_graph_triples` then
      raises a KeyError. */
  predicate Swappable(sg: SwapGroup, nodes: seq<Node>)
  {
    Distinct(sg.ids) && IdsIn(sg.ids, nodes)
  }

  predicate ComboOk(combo: seq<SwapGroup>, nodes: seq<Node>)
  {
    forall j | 0 <= j < |combo| :: Swappable(combo[j], nodes)
  }

  /** One new order per group of the combination, each a rearrangement of
      the group's tuple. */
  predicate Candidate(combo: seq<SwapGroup>, orders: seq<seq<int>>)
  {
    |orders| == |combo| &&
    forall j | 0 <= j < |combo| :: multiset(orders[j]) == multiset(combo[j].ids)
  }

  /** `[list(permutations(valid_groups[name])) for name in group_combo]`. */
  function GroupSwaps(combo: seq<SwapGroup>): (gs: seq<seq<seq<int>>>)
    ensures |gs| == |combo|
  {
    seq(|combo|, j requires 0 <= j < |combo| => Permutations(combo[j].ids))
  }

  /** `product(*group_swaps)`: the candidates of one combination. */
  function Candidates(combo: seq<SwapGroup>): seq<seq<seq<int>>>
  {
    Product(GroupSwaps(combo))
  }

  /** Every candidate the product yields reorders each group of the combination. */
  lemma CandidatesAreCandidates(combo: seq<SwapGroup>, k: nat)
    requires k < |Candidates(combo)|
    ensures Candidate(combo, Candidates(combo)[k])
  {
    var orders := Candidates(combo)[k];
    ProductMembers(GroupSwaps(combo), orders);
    forall j | 0 <= j < |combo| ensures multiset(orders[j]) == multiset(combo[j].ids) {
      PermutationsSound(combo[j].ids, orders[j]);
    }
  }

  /** Every reordering of every group is a candidate: none is skipped. */
  lemma CandidatesComplete(combo: seq<SwapGroup>, orders: seq<seq<int>>)
    requires Candidate(combo, orders)
    ensures orders in Candidates(combo)
  {
    forall j | 0 <= j < |combo| ensures orders[j] in GroupSwaps(combo)[j] {
      PermutationsComplete(combo[j].ids, orders[j]);
    }
    ProductMembers(GroupSwaps(combo), orders);
  }

  /** `|ids_1|! * ... * |ids_n|!`. */
  function OrderingsCount(combo: seq<SwapGroup>): nat
  {
    if combo == [] then 1 else Fact(|combo[0].ids|) * OrderingsCount(combo[1..])
  }

  lemma {:induction false} CandidatesCount(combo: seq<SwapGroup>)
    ensures |Candidates(combo)| == OrderingsCount(combo)
  {
    ProductCount(GroupSwaps(combo));
    GroupSwapsCount(combo);
  }

  lemma {:induction false} GroupSwapsCount(combo: seq<SwapGroup>)
    ensures LengthProduct(GroupSwaps(combo)) == OrderingsCount(combo)
  {
    if combo != [] {
      assert GroupSwaps(combo)[1..] == GroupSwaps(combo[1..]);
      PermutationsCount(combo[0].ids);
      GroupSwapsCount(combo[1..]);
    }
  }

  /** The first candidate keeps every group in its original order (the
      identity comes first out of `permutations`, and `product` starts with
      the first element of every list). */
  lemma FirstCandidate(combo: seq<SwapGroup>)
    ensures |Candidates(combo)| > 0
    ensures Candidates(combo)[0] == seq(|combo|, j requires 0 <= j < |combo| => combo[j].ids)
  {
    forall j | 0 <= j < |combo| ensures |GroupSwaps(combo)[j]| > 0 {
      PermutationsFirst(combo[j].ids);
    }
    ProductFirst(GroupSwaps(combo));
    forall j | 0 <= j < |combo| ensures Candidates(combo)[0][j] == combo[j].ids {
      PermutationsFirst(combo[j].ids);
    }
  }

  // =============================================================== applying

  /** The graph after `apply_permutation` for each (group, order) pair in turn,
      starting from the deep copy of the original. */
  function ApplyOrders(g: Graph, combo: seq<SwapGroup>, orders: seq<seq<int>>): Graph
    requires |orders| == |combo|
  {
    if combo == [] then g
    else
      var n := |combo| - 1;
      Permuted(ApplyOrders(g, combo[..n], orders[..n]), combo[n].ids, orders[n])
  }

  /** A candidate keeps the edges and the set of node ids, so it stays well
      formed. */
  lemma {:induction false} ApplyOrdersKeeps(g: Graph, combo: seq<SwapGroup>, orders: seq<seq<int>>)
    requires WellFormed(g) && ComboOk(combo, g.nodes) && Candidate(combo, orders)
    ensures ApplyOrders(g, combo, orders).edges == g.edges
    ensures IdsOf(ApplyOrders(g, combo, orders).nodes) == IdsOf(g.nodes)
    ensures WellFormed(ApplyOrders(g, combo, orders))
  {
    if combo != [] {
      var n := |combo| - 1;
      assert ComboOk(combo[..n], g.nodes) && Candidate(combo[..n], orders[..n]) by {
        assert forall j | 0 <= j < n :: combo[..n][j] == combo[j] && orders[..n][j] == orders[j];
      }
      ApplyOrdersKeeps(g, combo[..n], orders[..n]);
      var prev := ApplyOrders(g, combo[..n], orders[..n]);
      assert Swappable(combo[n], g.nodes);
      PermutedIds(prev, combo[n].ids, orders[n]);
    }
  }

  /** Reapplying every tuple onto itself gives back the original graph. */
  lemma {:induction false} ApplyOrdersIdentity(g: Graph, combo: seq<SwapGroup>)
    ensures ApplyOrders(g, combo, seq(|combo|, j requires 0 <= j < |combo| => combo[j].ids)) == g
  {
    if combo != [] {
      var n := |combo| - 1;
      var orders := seq(|combo|, j requires 0 <= j < |combo| => combo[j].ids);
      assert orders[..n] == seq(n, j requires 0 <= j < n => combo[..n][j].ids);
      ApplyOrdersIdentity(g, combo[..n]);
      PermutedIdentity(g, combo[n].ids);
    }
  }

  /** The inner loop of one candidate: a deep copy of the graph, then each
      group's order applied in turn, pairing groups and orders as `zip` does. */
  method BuildCandidate(g: Graph, combo: seq<SwapGroup>, orders: seq<seq<int>>) returns (ng: Graph)
    requires |orders| == |combo|
    ensures ng == ApplyOrders(g, combo, orders)
  {
    ng := g;
    var j := 0;
    while j < |combo| && j < |orders|
      invariant 0 <= j <= |combo|
      invariant ng == ApplyOrders(g, combo[..j], orders[..j])
    {
      assert combo[..j + 1][..j] == combo[..j] && orders[..j + 1][..j] == orders[..j];
      ng := ApplyPermutation(ng, combo[j].ids, orders[j]);
      j := j + 1;
    }
    assert combo[..j] == combo && orders[..j] == orders;
  }

  // ============================================================ swap record

  /** One group's `group_permutation`: for each position `zip` reaches, the
      label of the first node carrying the old id and of the first node
      carrying the new id (the source's `[...][0]`, an IndexError when no
      node carries the id). */
  function SwapPairs(nodes: seq<Node>, oldOrder: seq<int>, newOrder: seq<int>): (pairs: seq<(string, string)>)
    requires IdsIn(oldOrder, nodes) && IdsIn(newOrder, nodes)
    ensures |pairs| == ZipLength(oldOrder, newOrder)
  {
    seq(ZipLength(oldOrder, newOrder), k requires 0 <= k < ZipLength(oldOrder, newOrder) =>
      assert oldOrder[k] in oldOrder && newOrder[k] in newOrder;
      (FirstLabel(nodes, oldOrder[k]), FirstLabel(nodes, newOrder[k])))
  }

  /** `permuted_nodes`: one entry per group of the combination. */
  function SwapRecord(nodes: seq<Node>, combo: seq<SwapGroup>, orders: seq<seq<int>>): (record: seq<GroupSwap>)
    requires |orders| == |combo|
    requires forall j | 0 <= j < |combo| :: IdsIn(combo[j].ids, nodes) && IdsIn(orders[j], nodes)
    ensures |record| == |combo|
    ensures forall j | 0 <= j < |combo| ::
      record[j].group == combo[j].name && |record[j].pairs| == ZipLength(combo[j].ids, orders[j])
  {
    seq(|combo|, j requires 0 <= j < |combo| =>
      GroupSwap(combo[j].name, SwapPairs(nodes, combo[j].ids, orders[j])))
  }

  /** A candidate only names ids of the graph. */
  lemma CandidateIds(combo: seq<SwapGroup>, orders: seq<seq<int>>, nodes: seq<Node>)
    requires ComboOk(combo, nodes) && Candidate(combo, orders)
    ensures forall j | 0 <= j < |combo| :: IdsIn(combo[j].ids, nodes) && IdsIn(orders[j], nodes)
  {
    forall j, x | 0 <= j < |combo| && x in orders[j] ensures x in IdsOf(nodes) {
      assert x in multiset(combo[j].ids);
    }
  }

  /** What a tracker entry says, for a single group on a graph whose node ids
      are unique: at position `k`, the second label is the one the new id
      carried before the swap and the first label is the one it carries
      after it. */
  lemma SwapPairsMeaning(g: Graph, sg: SwapGroup, order: seq<int>, k: nat)
    requires Distinct(IdList(g)) && Swappable(sg, g.nodes)
    requires multiset(order) == multiset(sg.ids) && k < |sg.ids|
    ensures IdsIn(order, g.nodes)
    ensures k < |SwapPairs(g.nodes, sg.ids, order)|
    ensures order[k] in LabelMap(g.nodes)
    ensures order[k] in LabelMap(Permuted(g, sg.ids, order).nodes)
    ensures SwapPairs(g.nodes, sg.ids, order)[k]
         == (LabelMap(Permuted(g, sg.ids, order).nodes)[order[k]], LabelMap(g.nodes)[order[k]])
  {
    CandidateIds([sg], [order], g.nodes);
    assert [order][0] == order && [sg][0] == sg;
    assert |order| == |sg.ids| by {
      assert |multiset(order)| == |multiset(sg.ids)|;
    }
    assert order[k] in order && sg.ids[k] in sg.ids;
    UniqueIdsLabels(g, sg.ids[k]);
    UniqueIdsLabels(g, order[k]);
    PermutedLabelAt(g, sg.ids, order, k);
  }

  /** What entry `j` of a candidate's swap record says, on a graph whose node
      ids are unique: it names group `j` of the combination, has one pair
      per id of the group's tuple, and pair `k` holds the label that carries
      the new id `orders[j][k]` once the group's order is applied, then the
      label that carried it before. */
  lemma SwapRecordMeaning(g: Graph, combo: seq<SwapGroup>, orders: seq<seq<int>>, j: nat, k: nat)
    requires Distinct(IdList(g)) && ComboOk(combo, g.nodes) && Candidate(combo, orders)
    requires j < |combo| && k < |combo[j].ids|
    ensures forall i | 0 <= i < |combo| :: IdsIn(combo[i].ids, g.nodes) && IdsIn(orders[i], g.nodes)
    ensures var entry := SwapRecord(g.nodes, combo, orders)[j];
      && entry.group == combo[j].name
      && |entry.pairs| == |combo[j].ids| && k < |entry.pairs|
      && orders[j][k] in LabelMap(g.nodes)
      && orders[j][k] in LabelMap(Permuted(g, combo[j].ids, orders[j]).nodes)
      && entry.pairs[k]
         == (LabelMap(Permuted(g, combo[j].ids, orders[j]).nodes)[orders[j][k]], LabelMap(g.nodes)[orders[j][k]])
  {
    CandidateIds(combo, orders, g.nodes);
    assert Swappable(combo[j], g.nodes);
    assert |orders[j]| == |combo[j].ids| by {
      assert |multiset(orders[j])| == |multiset(combo[j].ids)|;
    }
    SwapPairsMeaning(g, combo[j], orders[j], k);
  }

  lemma UniqueIdsLabels(g: Graph, x: int)
    requires Distinct(IdList(g)) && x in IdsOf(g.nodes)
    ensures x in LabelMap(g.nodes) && LabelMap(g.nodes)[x] == FirstLabel(g.nodes, x)
  {
    forall i, j | 0 <= i < j < |g.nodes| ensures g.nodes[i].id != g.nodes[j].id {
      assert IdList(g)[i] == g.nodes[i].id && IdList(g)[j] == g.nodes[j].id;
    }
    FirstLabelIsLabelMap(g.nodes, x);
  }

  /** The nested loops that fill `permuted_nodes`. */
  method RecordSwaps(nodes: seq<Node>, combo: seq<SwapGroup>, orders: seq<seq<int>>)
    returns (record: seq<GroupSwap>)
    requires |orders| == |combo|
    requires forall j | 0 <= j < |combo| :: IdsIn(combo[j].ids, nodes) && IdsIn(orders[j], nodes)
    ensures record == SwapRecord(nodes, combo, orders)
  {
    record := [];
    var j := 0;
    while j < |combo| && j < |orders|
      invariant 0 <= j <= |combo|
      invariant record == SwapRecord(nodes, combo[..j], orders[..j])
    {
      var oldOrder, newOrder := combo[j].ids, orders[j];
      var pairs: seq<(string, string)> := [];
      var k := 0;
      while k < |oldOrder| && k < |newOrder|
        invariant 0 <= k <= ZipLength(oldOrder, newOrder)
        invariant pairs == SwapPairs(nodes, oldOrder, newOrder)[..k]
      {
        assert oldOrder[k] in oldOrder && newOrder[k] in newOrder;
        pairs := pairs + [(FirstLabel(nodes, oldOrder[k]), FirstLabel(nodes, newOrder[k]))];
        k := k + 1;
      }
      assert pairs == SwapPairs(nodes, oldOrder, newOrder);
      record := record + [GroupSwap(combo[j].name, pairs)];
      j := j + 1;
      assert combo[..j][..j - 1] == combo[..j - 1] && orders[..j][..j - 1] == orders[..j - 1];
    }
    assert combo[..j] == combo && orders[..j] == orders;
  }

  // ================================================================= fold

  /** The state of one experiment: the accepted graphs (the original first),
      the swap record and deviation of every accepted graph after the
      original, and the number of graphs considered, the original included. */
  datatype Run = Run(graphs: seq<Graph>, swaps: seq<seq<GroupSwap>>, deviations: seq<real>, total: nat)

  /** The original comes first, and every accepted graph is well formed and
      has the original's edges. */
  predicate Accepted(g: Graph, gs: seq<Graph>)
  {
    && WellFormed(g) && |gs| >= 1 && gs[0] == g
    && forall k | 0 <= k < |gs| :: WellFormed(gs[k]) && gs[k].edges == g.edges
  }

  /** Every accepted graph has the original's set of node ids. */
  predicate SameIds(g: Graph, gs: seq<Graph>)
  {
    forall k | 0 <= k < |gs| :: IdsOf(gs[k].nodes) == IdsOf(g.nodes)
  }

  /** No two accepted graphs share a triple list. */
  predicate SignaturesDistinct(gs: seq<Graph>)
  {
    forall i, j | 0 <= i < j < |gs| ::
      WellFormed(gs[i]) && WellFormed(gs[j]) && GraphTriples(gs[i]) != GraphTriples(gs[j])
  }

  /** `d` is the deviation of `h`, a graph with the original's edges, from
      the original `g`. */
  predicate DeviationOf(g: Graph, h: Graph, d: real)
  {
    WellFormed(g) && WellFormed(h) && h.edges == g.edges && |g.edges| > 0 && d == Deviation(h, g)
  }

  /** Entry `k` is the deviation of accepted graph `k + 1` from the original. */
  predicate DeviationsOf(g: Graph, gs: seq<Graph>, ds: seq<real>)
  {
    |ds| + 1 == |gs| && forall k | 0 <= k < |ds| :: DeviationOf(g, gs[k + 1], ds[k])
  }

  /** What holds of every state of an experiment: the accepted graphs keep
      the original's edges and node ids, no two share a triple list, there is
      one swap record and one deviation per accepted graph after the original,
      and no more graphs are accepted than considered. */
  predicate RunInv(g: Graph, s: Run)
  {
    && Accepted(g, s.graphs)
    && SameIds(g, s.graphs)
    && SignaturesDistinct(s.graphs)
    && |s.swaps| + 1 == |s.graphs| && |s.graphs| <= s.total
    && DeviationsOf(g, s.graphs, s.deviations)
  }

  /** A graph with the original's edges whose triple list differs from the
      original's has at least one edge. */
  lemma NonEmptyWhenDifferent(g: Graph, h: Graph)
    requires WellFormed(g) && WellFormed(h) && h.edges == g.edges
    requires GraphTriples(h) != GraphTriples(g)
    ensures |g.edges| > 0
  {
  }

  lemma AcceptedSnoc(g: Graph, gs: seq<Graph>, ng: Graph)
    requires Accepted(g, gs) && WellFormed(ng) && ng.edges == g.edges
    ensures Accepted(g, gs + [ng])
  {
    var hs := gs + [ng];
    forall k | 0 <= k < |hs| ensures WellFormed(hs[k]) && hs[k].edges == g.edges {
      if k < |gs| {
        assert hs[k] == gs[k];
      }
    }
  }

  lemma SameIdsSnoc(g: Graph, gs: seq<Graph>, ng: Graph)
    requires SameIds(g, gs) && IdsOf(ng.nodes) == IdsOf(g.nodes)
    ensures SameIds(g, gs + [ng])
  {
    var hs := gs + [ng];
    forall k | 0 <= k < |hs| ensures IdsOf(hs[k].nodes) == IdsOf(g.nodes) {
      if k < |gs| {
        assert hs[k] == gs[k];
      }
    }
  }

  lemma SignaturesDistinctSnoc(gs: seq<Graph>, ng: Graph)
    requires SignaturesDistinct(gs) && WellFormed(ng)
    requires forall k | 0 <= k < |gs| :: WellFormed(gs[k]) && GraphTriples(gs[k]) != GraphTriples(ng)
    ensures SignaturesDistinct(gs + [ng])
  {
    var hs := gs + [ng];
    forall i, j | 0 <= i < j < |hs|
      ensures WellFormed(hs[i]) && WellFormed(hs[j]) && GraphTriples(hs[i]) != GraphTriples(hs[j])
    {
      assert hs[i] == gs[i];
      if j < |gs| {
        assert hs[j] == gs[j];
      } else {
        assert hs[j] == ng;
      }
    }
  }

  lemma DeviationsSnoc(g: Graph, gs: seq<Graph>, ds: seq<real>, ng: Graph)
    requires DeviationsOf(g, gs, ds) && WellFormed(g) && WellFormed(ng) && ng.edges == g.edges && |g.edges| > 0
    ensures DeviationsOf(g, gs + [ng], ds + [Deviation(ng, g)])
  {
    var hs, es := gs + [ng], ds + [Deviation(ng, g)];
    forall k | 0 <= k < |es| ensures DeviationOf(g, hs[k + 1], es[k]) {
      if k < |ds| {
        assert hs[k + 1] == gs[k + 1] && es[k] == ds[k];
      } else {
        assert hs[k + 1] == ng && es[k] == Deviation(ng, g);
      }
    }
  }

  /** One candidate: keep it when its triple list is new, count it always. */
  function Step(g: Graph, combo: seq<SwapGroup>, orders: seq<seq<int>>, s: Run): (r: Run)
    requires Accepted(g, s.graphs) && ComboOk(combo, g.nodes) && Candidate(combo, orders)
    ensures Accepted(g, r.graphs)
    ensures r.total == s.total + 1
  {
    var ng := ApplyOrders(g, combo, orders);
    ApplyOrdersKeeps(g, combo, orders);
    CandidateIds(combo, orders, g.nodes);
    if UniqueAmong(ng, s.graphs) then
      UniqueAmongIff(ng, s.graphs);
      NonEmptyWhenDifferent(g, ng);
      AcceptedSnoc(g, s.graphs, ng);
      Run(s.graphs + [ng], s.swaps + [SwapRecord(g.nodes, combo, orders)],
          s.deviations + [Deviation(ng, g)], s.total + 1)
    else
      s.(total := s.total + 1)
  }

  /** The first candidate of every combination rebuilds the original graph,
      whose triple list is already taken, so it is counted and discarded. */
  lemma FirstCandidateRejected(g: Graph, combo: seq<SwapGroup>, s: Run)
    requires Accepted(g, s.graphs) && ComboOk(combo, g.nodes)
    ensures |Candidates(combo)| > 0 && Candidate(combo, Candidates(combo)[0])
    ensures Step(g, combo, Candidates(combo)[0], s) == s.(total := s.total + 1)
  {
    FirstCandidate(combo);
    CandidatesOk(combo);
    ApplyOrdersIdentity(g, combo);
    UniqueAmongIff(g, s.graphs);
  }

  /** What a step returns when the candidate's triple list is new. */
  lemma StepAccepts(g: Graph, combo: seq<SwapGroup>, orders: seq<seq<int>>, s: Run)
    requires Accepted(g, s.graphs) && ComboOk(combo, g.nodes) && Candidate(combo, orders)
    requires WellFormed(ApplyOrders(g, combo, orders))
    requires UniqueAmong(ApplyOrders(g, combo, orders), s.graphs)
    ensures ApplyOrders(g, combo, orders).edges == g.edges && |g.edges| > 0
    ensures forall j | 0 <= j < |combo| :: IdsIn(combo[j].ids, g.nodes) && IdsIn(orders[j], g.nodes)
    ensures Step(g, combo, orders, s)
         == Run(s.graphs + [ApplyOrders(g, combo, orders)], s.swaps + [SwapRecord(g.nodes, combo, orders)],
                s.deviations + [Deviation(ApplyOrders(g, combo, orders), g)], s.total + 1)
  {
    var ng := ApplyOrders(g, combo, orders);
    ApplyOrdersKeeps(g, combo, orders);
    CandidateIds(combo, orders, g.nodes);
    UniqueAmongIff(ng, s.graphs);
    NonEmptyWhenDifferent(g, ng);
  }

  /** Each step keeps the invariant. */
  lemma StepInv(g: Graph, combo: seq<SwapGroup>, orders: seq<seq<int>>, s: Run)
    requires RunInv(g, s) && ComboOk(combo, g.nodes) && Candidate(combo, orders)
    ensures RunInv(g, Step(g, combo, orders, s))
  {
    var ng := ApplyOrders(g, combo, orders);
    ApplyOrdersKeeps(g, combo, orders);
    if UniqueAmong(ng, s.graphs) {
      UniqueAmongIff(ng, s.graphs);
      NonEmptyWhenDifferent(g, ng);
      SameIdsSnoc(g, s.graphs, ng);
      SignaturesDistinctSnoc(s.graphs, ng);
      DeviationsSnoc(g, s.graphs, s.deviations, ng);
    }
  }

  /** The candidates of one combination, in the order `product` yields them. */
  function RunOrders(g: Graph, combo: seq<SwapGroup>, candidates: seq<seq<seq<int>>>, s: Run): (r: Run)
    requires ComboOk(combo, g.nodes) && Accepted(g, s.graphs)
    requires forall k | 0 <= k < |candidates| :: Candidate(combo, candidates[k])
    ensures Accepted(g, r.graphs)
    ensures r.total == s.total + |candidates|
    decreases |candidates|, 1
  {
    if candidates == [] then s else LastOrders(g, combo, candidates, s)
  }

  /** The last candidate, considered after all the others. */
  function LastOrders(g: Graph, combo: seq<SwapGroup>, candidates: seq<seq<seq<int>>>, s: Run): (r: Run)
    requires ComboOk(combo, g.nodes) && Accepted(g, s.graphs) && candidates != []
    requires forall k | 0 <= k < |candidates| :: Candidate(combo, candidates[k])
    ensures Accepted(g, r.graphs)
    ensures r.total == s.total + |candidates|
    decreases |candidates|, 0
  {
    var n := |candidates| - 1;
    Step(g, combo, candidates[n], RunOrders(g, combo, candidates[..n], s))
  }

  /** A non-empty list of candidates: the last one is a step from the others. */
  lemma RunOrdersLast(g: Graph, combo: seq<SwapGroup>, candidates: seq<seq<seq<int>>>, s: Run)
    requires ComboOk(combo, g.nodes) && Accepted(g, s.graphs) && candidates != []
    requires forall k | 0 <= k < |candidates| :: Candidate(combo, candidates[k])
    ensures RunOrders(g, combo, candidates, s)
         == Step(g, combo, candidates[|candidates| - 1], RunOrders(g, combo, candidates[..|candidates| - 1], s))
  {
    assert RunOrders(g, combo, candidates, s) == LastOrders(g, combo, candidates, s);
  }

  lemma {:induction false} RunOrdersInv(g: Graph, combo: seq<SwapGroup>, candidates: seq<seq<seq<int>>>, s: Run)
    requires ComboOk(combo, g.nodes) && RunInv(g, s)
    requires forall k | 0 <= k < |candidates| :: Candidate(combo, candidates[k])
    ensures RunInv(g, RunOrders(g, combo, candidates, s))
  {
    if candidates != [] {
      var n := |candidates| - 1;
      RunOrdersInv(g, combo, candidates[..n], s);
      StepInv(g, combo, candidates[n], RunOrders(g, combo, candidates[..n], s));
    }
  }

  /** The combinations in enumeration order, each with all of its candidates. */
  function RunCombos(g: Graph, combos: seq<seq<SwapGroup>>, s: Run): (r: Run)
    requires Accepted(g, s.graphs)
    requires forall k | 0 <= k < |combos| :: ComboOk(combos[k], g.nodes)
    ensures Accepted(g, r.graphs)
    decreases |combos|, 1
  {
    if combos == [] then s else LastCombo(g, combos, s)
  }

  /** The last combination, enumerated after all the others. */
  function LastCombo(g: Graph, combos: seq<seq<SwapGroup>>, s: Run): (r: Run)
    requires Accepted(g, s.graphs) && combos != []
    requires forall k | 0 <= k < |combos| :: ComboOk(combos[k], g.nodes)
    ensures Accepted(g, r.graphs)
    decreases |combos|, 0
  {
    var n := |combos| - 1;
    CandidatesOk(combos[n]);
    RunOrders(g, combos[n], Candidates(combos[n]), RunCombos(g, combos[..n], s))
  }

  /** A non-empty list of combinations: the last one runs all of its
      candidates after the others. */
  lemma RunCombosLast(g: Graph, combos: seq<seq<SwapGroup>>, s: Run)
    requires Accepted(g, s.graphs) && combos != []
    requires forall k | 0 <= k < |combos| :: ComboOk(combos[k], g.nodes)
    ensures var last := combos[|combos| - 1];
      forall k | 0 <= k < |Candidates(last)| :: Candidate(last, Candidates(last)[k])
    ensures RunCombos(g, combos, s)
         == RunOrders(g, combos[|combos| - 1], Candidates(combos[|combos| - 1]), RunCombos(g, combos[..|combos| - 1], s))
  {
    CandidatesOk(combos[|combos| - 1]);
    assert RunCombos(g, combos, s) == LastCombo(g, combos, s);
  }

  /** Every candidate of every combination is counted once. */
  lemma {:induction false} RunCombosTotal(g: Graph, combos: seq<seq<SwapGroup>>, s: Run)
    requires Accepted(g, s.graphs)
    requires forall k | 0 <= k < |combos| :: ComboOk(combos[k], g.nodes)
    ensures RunCombos(g, combos, s).total == s.total + CandidateTotal(combos)
  {
    if combos != [] {
      var n := |combos| - 1;
      RunCombosTotal(g, combos[..n], s);
      CandidatesOk(combos[n]);
      CandidatesCount(combos[n]);
    }
  }

  /** Every candidate the product yields reorders each group of the combination. */
  lemma CandidatesOk(combo: seq<SwapGroup>)
    ensures forall k | 0 <= k < |Candidates(combo)| :: Candidate(combo, Candidates(combo)[k])
  {
    forall k | 0 <= k < |Candidates(combo)| ensures Candidate(combo, Candidates(combo)[k]) {
      CandidatesAreCandidates(combo, k);
    }
  }

  lemma {:induction false} RunCombosInv(g: Graph, combos: seq<seq<SwapGroup>>, s: Run)
    requires RunInv(g, s)
    requires forall k | 0 <= k < |combos| :: ComboOk(combos[k], g.nodes)
    ensures RunInv(g, RunCombos(g, combos, s))
  {
    if combos != [] {
      var n := |combos| - 1;
      RunCombosInv(g, combos[..n], s);
      CandidatesOk(combos[n]);
      RunOrdersInv(g, combos[n], Candidates(combos[n]), RunCombos(g, combos[..n], s));
    }
  }

  // ================================================= sources and coverage

  /** `h` and `record` are what candidate `orders` of combination `combo`
      makes of `g`: the graph with those orders applied, and its swap record. */
  predicate Produced(g: Graph, combo: seq<SwapGroup>, orders: seq<seq<int>>, h: Graph, record: seq<GroupSwap>)
  {
    && ComboOk(combo, g.nodes) && Candidate(combo, orders)
    && (forall j | 0 <= j < |combo| :: IdsIn(combo[j].ids, g.nodes) && IdsIn(orders[j], g.nodes))
    && h == ApplyOrders(g, combo, orders)
    && record == SwapRecord(g.nodes, combo, orders)
  }

  /** Some graph of `gs` has the triple list that candidate `orders` of
      `combo` gives `g`. */
  predicate Covered(g: Graph, combo: seq<SwapGroup>, orders: seq<seq<int>>, gs: seq<Graph>)
  {
    && WellFormed(g) && ComboOk(combo, g.nodes) && Candidate(combo, orders)
    && WellFormed(ApplyOrders(g, combo, orders))
    && exists k | 0 <= k < |gs| :: WellFormed(gs[k]) && GraphTriples(gs[k]) == GraphTriples(ApplyOrders(g, combo, orders))
  }

  /** `r` continues `s`: every accepted graph and swap record of `s` is still
      in place, and as many graphs as records were added. */
  predicate Extends(s: Run, r: Run)
  {
    && |s.graphs| <= |r.graphs| && |r.swaps| - |s.swaps| == |r.graphs| - |s.graphs|
    && (forall k | 0 <= k < |s.graphs| :: r.graphs[k] == s.graphs[k])
    && (forall k | 0 <= k < |s.swaps| :: r.swaps[k] == s.swaps[k])
  }

  lemma ExtendsTrans(s: Run, m: Run, r: Run)
    requires Extends(s, m) && Extends(m, r)
    ensures Extends(s, r)
  {
  }

  lemma CoveredExtends(g: Graph, combo: seq<SwapGroup>, orders: seq<seq<int>>, gs: seq<Graph>, hs: seq<Graph>)
    requires Covered(g, combo, orders, gs)
    requires |gs| <= |hs| && forall k | 0 <= k < |gs| :: hs[k] == gs[k]
    ensures Covered(g, combo, orders, hs)
  {
    var k :| 0 <= k < |gs| && WellFormed(gs[k]) && GraphTriples(gs[k]) == GraphTriples(ApplyOrders(g, combo, orders));
    assert hs[k] == gs[k];
  }

  /** One candidate: the state only grows, some graph afterwards has the
      candidate's triple list, and a graph it adds is the candidate's own,
      with its swap record. */
  lemma StepSources(g: Graph, combo: seq<SwapGroup>, orders: seq<seq<int>>, s: Run)
    requires Accepted(g, s.graphs) && |s.swaps| + 1 == |s.graphs|
    requires ComboOk(combo, g.nodes) && Candidate(combo, orders)
    ensures var r := Step(g, combo, orders, s);
      && Extends(s, r) && |r.graphs| <= |s.graphs| + 1
      && Covered(g, combo, orders, r.graphs)
      && (|r.graphs| > |s.graphs| ==> Produced(g, combo, orders, r.graphs[|s.graphs|], r.swaps[|s.swaps|]))
  {
    var ng := ApplyOrders(g, combo, orders);
    ApplyOrdersKeeps(g, combo, orders);
    if UniqueAmong(ng, s.graphs) {
      StepAcceptedSources(g, combo, orders, s);
    } else {
      StepRejectedCovered(g, combo, orders, s);
    }
  }

  /** A kept candidate is appended with its own swap record. */
  lemma StepAcceptedSources(g: Graph, combo: seq<SwapGroup>, orders: seq<seq<int>>, s: Run)
    requires Accepted(g, s.graphs) && |s.swaps| + 1 == |s.graphs|
    requires ComboOk(combo, g.nodes) && Candidate(combo, orders)
    requires WellFormed(ApplyOrders(g, combo, orders)) && UniqueAmong(ApplyOrders(g, combo, orders), s.graphs)
    ensures var r := Step(g, combo, orders, s);
      && Extends(s, r) && |r.graphs| == |s.graphs| + 1
      && Covered(g, combo, orders, r.graphs)
      && Produced(g, combo, orders, r.graphs[|s.graphs|], r.swaps[|s.swaps|])
  {
    StepAccepts(g, combo, orders, s);
    var r := Step(g, combo, orders, s);
    assert r.graphs[|s.graphs|] == ApplyOrders(g, combo, orders);
  }

  /** A discarded candidate leaves the graphs alone, and an accepted graph
      already has its triple list. */
  lemma StepRejectedCovered(g: Graph, combo: seq<SwapGroup>, orders: seq<seq<int>>, s: Run)
    requires Accepted(g, s.graphs)
    requires ComboOk(combo, g.nodes) && Candidate(combo, orders)
    requires WellFormed(ApplyOrders(g, combo, orders)) && !UniqueAmong(ApplyOrders(g, combo, orders), s.graphs)
    ensures Step(g, combo, orders, s) == s.(total := s.total + 1)
    ensures Covered(g, combo, orders, s.graphs)
  {
    var ng := ApplyOrders(g, combo, orders);
    UniqueAmongIff(ng, s.graphs);
    var k :| 0 <= k < |s.graphs| && GraphTriples(s.graphs[k]) == GraphTriples(ng);
    assert WellFormed(s.graphs[k]);
  }

  /** `h` and `record` are what one of `candidates` of `combo` makes of `g`. */
  predicate FromOneOf(g: Graph, combo: seq<SwapGroup>, candidates: seq<seq<seq<int>>>, h: Graph, record: seq<GroupSwap>)
  {
    exists orders | orders in candidates :: Produced(g, combo, orders, h, record)
  }

  /** Accepted graph `k` of `r` comes, with its swap record, from one of
      `candidates` of `combo`. */
  predicate CandidateSourceAt(g: Graph, combo: seq<SwapGroup>, candidates: seq<seq<seq<int>>>, r: Run, k: int)
  {
    1 <= k < |r.graphs| && k - 1 < |r.swaps| && FromOneOf(g, combo, candidates, r.graphs[k], r.swaps[k - 1])
  }

  /** Every graph accepted after `s` on the way to `r` comes, with its swap
      record, from one of `candidates` of `combo`. */
  predicate FromCandidates(g: Graph, combo: seq<SwapGroup>, candidates: seq<seq<seq<int>>>, s: Run, r: Run)
  {
    forall k | |s.graphs| <= k < |r.graphs| :: CandidateSourceAt(g, combo, candidates, r, k)
  }

  /** One more candidate at the end of the list. */
  lemma FromCandidatesSnoc(g: Graph, combo: seq<SwapGroup>, candidates: seq<seq<seq<int>>>, s: Run, m: Run, r: Run)
    requires candidates != []
    requires FromCandidates(g, combo, candidates[..|candidates| - 1], s, m)
    requires |s.graphs| <= |m.graphs| && |m.swaps| + 1 == |m.graphs|
    requires Extends(m, r) && |r.graphs| <= |m.graphs| + 1
    requires |r.graphs| > |m.graphs| ==>
      Produced(g, combo, candidates[|candidates| - 1], r.graphs[|m.graphs|], r.swaps[|m.swaps|])
    ensures FromCandidates(g, combo, candidates, s, r)
  {
    var n := |candidates| - 1;
    forall k | |s.graphs| <= k < |r.graphs| ensures CandidateSourceAt(g, combo, candidates, r, k) {
      if k < |m.graphs| {
        assert CandidateSourceAt(g, combo, candidates[..n], m, k);
        var orders :| orders in candidates[..n] && Produced(g, combo, orders, m.graphs[k], m.swaps[k - 1]);
        assert r.graphs[k] == m.graphs[k] && r.swaps[k - 1] == m.swaps[k - 1];
        assert orders in candidates;
      } else {
        assert candidates[n] in candidates;
      }
    }
  }

  /** Coverage survives growth, and one more candidate is covered. */
  lemma CoveredSnoc(g: Graph, combo: seq<SwapGroup>, candidates: seq<seq<seq<int>>>, gs: seq<Graph>, hs: seq<Graph>)
    requires candidates != []
    requires forall orders | orders in candidates[..|candidates| - 1] :: Covered(g, combo, orders, gs)
    requires |gs| <= |hs| && forall k | 0 <= k < |gs| :: hs[k] == gs[k]
    requires Covered(g, combo, candidates[|candidates| - 1], hs)
    ensures forall orders | orders in candidates :: Covered(g, combo, orders, hs)
  {
    var n := |candidates| - 1;
    assert candidates == candidates[..n] + [candidates[n]];
    forall orders | orders in candidates ensures Covered(g, combo, orders, hs) {
      if orders in candidates[..n] {
        CoveredExtends(g, combo, orders, gs, hs);
      }
    }
  }

  /** The candidates of one combination: the state only grows, every graph
      it adds comes from one of them, and every one of them has its triple
      list among the graphs afterwards. */
  lemma {:induction false} RunOrdersSources(g: Graph, combo: seq<SwapGroup>, candidates: seq<seq<seq<int>>>, s: Run)
    requires ComboOk(combo, g.nodes) && Accepted(g, s.graphs) && |s.swaps| + 1 == |s.graphs|
    requires forall k | 0 <= k < |candidates| :: Candidate(combo, candidates[k])
    ensures var r := RunOrders(g, combo, candidates, s);
      && Extends(s, r)
      && FromCandidates(g, combo, candidates, s, r)
      && forall orders | orders in candidates :: Covered(g, combo, orders, r.graphs)
  {
    if candidates != [] {
      var n := |candidates| - 1;
      var m := RunOrders(g, combo, candidates[..n], s);
      RunOrdersSources(g, combo, candidates[..n], s);
      RunOrdersLast(g, combo, candidates, s);
      StepSources(g, combo, candidates[n], m);
      var r := Step(g, combo, candidates[n], m);
      ExtendsTrans(s, m, r);
      FromCandidatesSnoc(g, combo, candidates, s, m, r);
      CoveredSnoc(g, combo, candidates, m.graphs, r.graphs);
    }
  }

  /** `h` and `record` are what some candidate of one of `combos` makes of `g`. */
  predicate FromSomeCombo(g: Graph, combos: seq<seq<SwapGroup>>, h: Graph, record: seq<GroupSwap>)
  {
    exists combo, orders | combo in combos && orders in Candidates(combo) :: Produced(g, combo, orders, h, record)
  }

  /** Accepted graph `k` of `r` comes, with its swap record, from a
      candidate of one of `combos`. */
  predicate ComboSourceAt(g: Graph, combos: seq<seq<SwapGroup>>, r: Run, k: int)
  {
    1 <= k < |r.graphs| && k - 1 < |r.swaps| && FromSomeCombo(g, combos, r.graphs[k], r.swaps[k - 1])
  }

  /** Every graph accepted after `s` on the way to `r` comes, with its swap
      record, from a candidate of one of `combos`. */
  predicate FromCombos(g: Graph, combos: seq<seq<SwapGroup>>, s: Run, r: Run)
  {
    forall k | |s.graphs| <= k < |r.graphs| :: ComboSourceAt(g, combos, r, k)
  }

  /** One more combination at the end of the list. */
  lemma FromCombosSnoc(g: Graph, combos: seq<seq<SwapGroup>>, s: Run, m: Run, r: Run)
    requires combos != []
    requires FromCombos(g, combos[..|combos| - 1], s, m)
    requires |s.graphs| <= |m.graphs| && Extends(m, r)
    requires FromCandidates(g, combos[|combos| - 1], Candidates(combos[|combos| - 1]), m, r)
    ensures FromCombos(g, combos, s, r)
  {
    forall k | |s.graphs| <= k < |r.graphs| ensures ComboSourceAt(g, combos, r, k) {
      FromCombosAt(g, combos, s, m, r, k);
    }
  }

  lemma FromCombosAt(g: Graph, combos: seq<seq<SwapGroup>>, s: Run, m: Run, r: Run, k: int)
    requires combos != []
    requires FromCombos(g, combos[..|combos| - 1], s, m)
    requires |s.graphs| <= |m.graphs| && Extends(m, r)
    requires FromCandidates(g, combos[|combos| - 1], Candidates(combos[|combos| - 1]), m, r)
    requires |s.graphs| <= k < |r.graphs|
    ensures ComboSourceAt(g, combos, r, k)
  {
    var n := |combos| - 1;
    var last := combos[n];
    if k < |m.graphs| {
      assert ComboSourceAt(g, combos[..n], m, k);
      var combo, orders :| combo in combos[..n] && orders in Candidates(combo)
        && Produced(g, combo, orders, m.graphs[k], m.swaps[k - 1]);
      assert r.graphs[k] == m.graphs[k] && r.swaps[k - 1] == m.swaps[k - 1];
      assert combo in combos;
    } else {
      assert CandidateSourceAt(g, last, Candidates(last), r, k);
      var orders :| orders in Candidates(last) && Produced(g, last, orders, r.graphs[k], r.swaps[k - 1]);
      assert last in combos;
    }
  }

  /** Coverage survives growth, and one more combination is covered. */
  lemma CoveredCombosSnoc(g: Graph, combos: seq<seq<SwapGroup>>, gs: seq<Graph>, hs: seq<Graph>)
    requires combos != []
    requires forall combo, orders | combo in combos[..|combos| - 1] && orders in Candidates(combo) ::
      Covered(g, combo, orders, gs)
    requires |gs| <= |hs| && forall k | 0 <= k < |gs| :: hs[k] == gs[k]
    requires var last := combos[|combos| - 1];
      forall orders | orders in Candidates(last) :: Covered(g, last, orders, hs)
    ensures forall combo, orders | combo in combos && orders in Candidates(combo) :: Covered(g, combo, orders, hs)
  {
    var n := |combos| - 1;
    assert combos == combos[..n] + [combos[n]];
    forall combo, orders | combo in combos && orders in Candidates(combo)
      ensures Covered(g, combo, orders, hs)
    {
      if combo in combos[..n] {
        CoveredExtends(g, combo, orders, gs, hs);
      }
    }
  }

  /** The combinations: the state only grows, every graph they add comes
      from one of their candidates, and every candidate of every one of them
      has its triple list among the graphs afterwards. */
  lemma {:induction false} RunCombosSources(g: Graph, combos: seq<seq<SwapGroup>>, s: Run)
    requires Accepted(g, s.graphs) && |s.swaps| + 1 == |s.graphs|
    requires forall k | 0 <= k < |combos| :: ComboOk(combos[k], g.nodes)
    ensures var r := RunCombos(g, combos, s);
      && Extends(s, r)
      && FromCombos(g, combos, s, r)
      && forall combo, orders | combo in combos && orders in Candidates(combo) :: Covered(g, combo, orders, r.graphs)
  {
    if combos != [] {
      var n := |combos| - 1;
      var last := combos[n];
      var m := RunCombos(g, combos[..n], s);
      RunCombosSources(g, combos[..n], s);
      RunCombosLast(g, combos, s);
      RunOrdersSources(g, last, Candidates(last), m);
      var r := RunOrders(g, last, Candidates(last), m);
      ExtendsTrans(s, m, r);
      FromCombosSnoc(g, combos, s, m, r);
      CoveredCombosSnoc(g, combos, m.graphs, r.graphs);
    }
  }

  /** How many candidates the combinations yield between them. */
  function CandidateTotal(combos: seq<seq<SwapGroup>>): nat
  {
    if combos == [] then 0 else CandidateTotal(combos[..|combos| - 1]) + OrderingsCount(combos[|combos| - 1])
  }

  // ============================================================ experiment

  /** What the source needs of an experiment's semantic groups: `max` needs
      every group to be non-empty, and every tuple with something to swap
      holds distinct node ids. */
  predicate GroupsFit(g: Graph, groups: seq<SemanticGroup>)
  {
    && (forall i | 0 <= i < |groups| :: groups[i].members != [])
    && (forall k | 0 <= k < |groups| ::
          |GetSwappableNodes(groups)[k].ids| > 1 ==> Swappable(GetSwappableNodes(groups)[k], g.nodes))
  }

  /** The group combinations of one experiment. */
  function ExperimentCombos(groups: seq<SemanticGroup>): seq<seq<SwapGroup>>
    requires forall i | 0 <= i < |groups| :: groups[i].members != []
  {
    NonEmptyCombinations(ValidGroups(GetSwappableNodes(groups)))
  }

  lemma ExperimentCombosOk(g: Graph, groups: seq<SemanticGroup>)
    requires GroupsFit(g, groups)
    ensures forall k | 0 <= k < |ExperimentCombos(groups)| :: ComboOk(ExperimentCombos(groups)[k], g.nodes)
  {
    var sw := GetSwappableNodes(groups);
    var valid := ValidGroups(sw);
    ValidGroupsSpec(sw);
    CombinationsUpToSound(valid, |valid|);
    forall k | 0 <= k < |ExperimentCombos(groups)| ensures ComboOk(ExperimentCombos(groups)[k], g.nodes) {
      var combo := ExperimentCombos(groups)[k];
      SubsequenceMembers(combo, valid);
      forall j | 0 <= j < |combo| ensures Swappable(combo[j], g.nodes) {
        assert combo[j] in valid;
        var i :| 0 <= i < |sw| && sw[i] == combo[j];
      }
    }
  }

  /** The run of one experiment, from `{1: graph}` and a count of one. */
  function ExperimentRun(g: Graph, groups: seq<SemanticGroup>): Run
    requires WellFormed(g) && GroupsFit(g, groups)
  {
    ExperimentCombosOk(g, groups);
    RunCombos(g, ExperimentCombos(groups), Run([g], [], [], 1))
  }

  /** `len(group_combinations)`: 2^k - 1 combinations of the k groups left
      after filtering. */
  lemma ExperimentCombosCount(groups: seq<SemanticGroup>)
    requires forall i | 0 <= i < |groups| :: groups[i].members != []
    ensures |ExperimentCombos(groups)| == Pow2(|ValidGroups(GetSwappableNodes(groups))|) - 1
  {
    NonEmptyCombinationsCount(ValidGroups(GetSwappableNodes(groups)));
  }

  /** A list laid out as a dictionary with consecutive integer keys from
      `base`, filled in list order. */
  function KeyedFrom<T>(xs: seq<T>, base: int): (m: map<int, T>)
    ensures forall k :: k in m <==> base <= k < base + |xs|
  {
    if xs == [] then map[]
    else KeyedFrom(xs[..|xs| - 1], base)[base + |xs| - 1 := xs[|xs| - 1]]
  }

  /** Key `base + i` holds element `i`. */
  lemma {:induction false} KeyedFromAt<T>(xs: seq<T>, base: int, i: nat)
    requires i < |xs|
    ensures KeyedFrom(xs, base)[base + i] == xs[i]
  {
    if i < |xs| - 1 {
      KeyedFromAt(xs[..|xs| - 1], base, i);
    }
  }

  /** `permutations_i` after `del permutations_i[1]`: the accepted graphs
      other than the original, under keys 2, 3, .... */
  function AcceptedGraphs(g: Graph, groups: seq<SemanticGroup>): map<int, Graph>
    requires WellFormed(g) && GroupsFit(g, groups)
  {
    KeyedFrom(ExperimentRun(g, groups).graphs[1..], 2)
  }

  /** `node_swaps_tracker_i`. */
  function SwapTracker(g: Graph, groups: seq<SemanticGroup>): map<int, seq<GroupSwap>>
    requires WellFormed(g) && GroupsFit(g, groups)
  {
    KeyedFrom(ExperimentRun(g, groups).swaps, 2)
  }

  /** `triple_deviation_pct_i`. */
  function DeviationTable(g: Graph, groups: seq<SemanticGroup>): map<int, real>
    requires WellFormed(g) && GroupsFit(g, groups)
  {
    KeyedFrom(ExperimentRun(g, groups).deviations, 2)
  }


  /** What one experiment's three dictionaries hold: the same keys, and under
      each key a graph with the original's edges and node ids, its deviation
      from the original, and a triple list that differs from the original's
      and from every other entry's. */
  predicate OutputsOk(g: Graph, perms: map<int, Graph>, tracker: map<int, seq<GroupSwap>>,
                      deviations: map<int, real>)
  {
    && WellFormed(g)
    && perms.Keys == tracker.Keys
    && perms.Keys == deviations.Keys
    && (forall k | k in perms ::
          IdsOf(perms[k].nodes) == IdsOf(g.nodes) && DeviationOf(g, perms[k], deviations[k]))
    && (forall k | k in perms :: WellFormed(perms[k]) && GraphTriples(perms[k]) != GraphTriples(g))
    && (forall j, k | j in perms && k in perms && j != k ::
          WellFormed(perms[j]) && WellFormed(perms[k]) && GraphTriples(perms[j]) != GraphTriples(perms[k]))
  }

  /** Key `k` of the dictionaries built from a state holds accepted graph
      `k - 1` and its deviation. */
  lemma RunOutputAt(s: Run, k: int)
    requires |s.deviations| + 1 == |s.graphs| && 2 <= k <= |s.graphs|
    ensures KeyedFrom(s.graphs[1..], 2)[k] == s.graphs[k - 1]
    ensures KeyedFrom(s.deviations, 2)[k] == s.deviations[k - 2]
  {
    KeyedFromAt(s.graphs[1..], 2, k - 2);
    KeyedFromAt(s.deviations, 2, k - 2);
  }

  /** Each entry built from a state that keeps the run invariant: an
      accepted graph with the original's node ids, its deviation, and a
      triple list other than the original's. */
  lemma RunOutputEntry(g: Graph, s: Run, k: int)
    requires RunInv(g, s) && 2 <= k <= |s.graphs|
    ensures var h := KeyedFrom(s.graphs[1..], 2)[k];
      && IdsOf(h.nodes) == IdsOf(g.nodes) && DeviationOf(g, h, KeyedFrom(s.deviations, 2)[k])
      && WellFormed(h) && GraphTriples(h) != GraphTriples(g)
  {
    RunOutputAt(s, k);
    assert SignaturesDistinct(s.graphs) && 0 < k - 1 < |s.graphs|;
  }

  /** Two entries built from a state that keeps the run invariant have
      different triple lists. */
  lemma RunOutputsDiffer(g: Graph, s: Run, j: int, k: int)
    requires RunInv(g, s) && 2 <= j <= |s.graphs| && 2 <= k <= |s.graphs| && j != k
    ensures var perms := KeyedFrom(s.graphs[1..], 2);
      WellFormed(perms[j]) && WellFormed(perms[k]) && GraphTriples(perms[j]) != GraphTriples(perms[k])
  {
    RunOutputAt(s, j);
    RunOutputAt(s, k);
    if j < k {
      assert SignaturesDistinct(s.graphs) && 0 <= j - 1 < k - 1 < |s.graphs|;
    } else {
      assert SignaturesDistinct(s.graphs) && 0 <= k - 1 < j - 1 < |s.graphs|;
    }
  }

  /** The dictionaries built from any state that keeps the run invariant. */
  lemma RunOutputs(g: Graph, s: Run)
    requires RunInv(g, s)
    ensures OutputsOk(g, KeyedFrom(s.graphs[1..], 2), KeyedFrom(s.swaps, 2), KeyedFrom(s.deviations, 2))
  {
    var perms, deviations := KeyedFrom(s.graphs[1..], 2), KeyedFrom(s.deviations, 2);
    forall k | k in perms
      ensures IdsOf(perms[k].nodes) == IdsOf(g.nodes) && DeviationOf(g, perms[k], deviations[k])
      ensures WellFormed(perms[k]) && GraphTriples(perms[k]) != GraphTriples(g)
    {
      RunOutputEntry(g, s, k);
    }
    forall j, k | j in perms && k in perms && j != k
      ensures WellFormed(perms[j]) && WellFormed(perms[k]) && GraphTriples(perms[j]) != GraphTriples(perms[k])
    {
      RunOutputsDiffer(g, s, j, k);
    }
  }

  /** The triple list candidate `orders` of `combo` gives `g` is the
      original's or that of an entry of `perms`. */
  predicate KeptSignature(g: Graph, combo: seq<SwapGroup>, orders: seq<seq<int>>, perms: map<int, Graph>)
  {
    && WellFormed(g) && ComboOk(combo, g.nodes) && Candidate(combo, orders)
    && WellFormed(ApplyOrders(g, combo, orders))
    && (|| GraphTriples(ApplyOrders(g, combo, orders)) == GraphTriples(g)
        || exists k | k in perms ::
             WellFormed(perms[k]) && GraphTriples(perms[k]) == GraphTriples(ApplyOrders(g, combo, orders)))
  }

  /** Where one experiment's entries come from, and that none is missed: each
      graph and its swap record are what a candidate of one of `combos`
      makes of the original, and every choice of one reordering per group of
      every one of `combos` has the original's triple list or an entry's. */
  ghost predicate OutputsFrom(g: Graph, combos: seq<seq<SwapGroup>>, perms: map<int, Graph>,
                              tracker: map<int, seq<GroupSwap>>)
  {
    && (forall k | k in perms :: k in tracker && FromSomeCombo(g, combos, perms[k], tracker[k]))
    && (forall combo, orders | combo in combos && Candidate(combo, orders) :: KeptSignature(g, combo, orders, perms))
  }

  /** Key `k` of the tracker built from a state holds swap record `k - 2`,
      the one of accepted graph `k - 1`. */
  lemma RunTrackerAt(s: Run, k: int)
    requires |s.swaps| + 1 == |s.graphs| && 2 <= k <= |s.graphs|
    ensures KeyedFrom(s.swaps, 2)[k] == s.swaps[k - 2]
  {
    KeyedFromAt(s.swaps, 2, k - 2);
  }

  /** A candidate whose triple list some accepted graph has is kept in the
      dictionaries built from the state: as the original, or as an entry. */
  lemma RunCandidateKept(g: Graph, s: Run, combo: seq<SwapGroup>, orders: seq<seq<int>>)
    requires RunInv(g, s) && Covered(g, combo, orders, s.graphs)
    ensures KeptSignature(g, combo, orders, KeyedFrom(s.graphs[1..], 2))
  {
    var h := ApplyOrders(g, combo, orders);
    var j :| 0 <= j < |s.graphs| && WellFormed(s.graphs[j]) && GraphTriples(s.graphs[j]) == GraphTriples(h);
    if j > 0 {
      RunOutputAt(s, j + 1);
      assert j + 1 in KeyedFrom(s.graphs[1..], 2);
    }
  }

  /** The dictionaries built from a state reached from the original alone:
      each entry comes from a candidate of `combos`, and every candidate of
      `combos` is kept. */
  lemma RunOutputsFrom(g: Graph, combos: seq<seq<SwapGroup>>, s0: Run, s: Run)
    requires RunInv(g, s) && |s0.graphs| <= 1 && FromCombos(g, combos, s0, s)
    requires forall combo, orders | combo in combos && orders in Candidates(combo) :: Covered(g, combo, orders, s.graphs)
    ensures OutputsFrom(g, combos, KeyedFrom(s.graphs[1..], 2), KeyedFrom(s.swaps, 2))
  {
    var perms, tracker := KeyedFrom(s.graphs[1..], 2), KeyedFrom(s.swaps, 2);
    forall k | k in perms ensures k in tracker && FromSomeCombo(g, combos, perms[k], tracker[k]) {
      RunOutputAt(s, k);
      RunTrackerAt(s, k);
      assert ComboSourceAt(g, combos, s, k - 1);
    }
    forall combo, orders | combo in combos && Candidate(combo, orders)
      ensures KeptSignature(g, combo, orders, perms)
    {
      CandidatesComplete(combo, orders);
      RunCandidateKept(g, s, combo, orders);
    }
  }

  /** One experiment's run keeps the invariant from the original alone, and
      considers the original plus every candidate of every combination. */
  lemma ExperimentRunInv(g: Graph, groups: seq<SemanticGroup>)
    requires WellFormed(g) && GroupsFit(g, groups)
    ensures RunInv(g, ExperimentRun(g, groups))
    ensures ExperimentRun(g, groups).total == 1 + CandidateTotal(ExperimentCombos(groups))
  {
    ExperimentRunFold(g, groups);
    var s0 := Run([g], [], [], 1);
    assert RunInv(g, s0);
    RunCombosInv(g, ExperimentCombos(groups), s0);
    RunCombosTotal(g, ExperimentCombos(groups), s0);
  }

  /** Every graph an experiment accepts after the original is, with its swap
      record, what one of the experiment's candidates makes of the original,
      and every candidate has its triple list among the accepted graphs. */
  lemma ExperimentRunSources(g: Graph, groups: seq<SemanticGroup>)
    requires WellFormed(g) && GroupsFit(g, groups)
    ensures FromCombos(g, ExperimentCombos(groups), Run([g], [], [], 1), ExperimentRun(g, groups))
    ensures forall combo, orders | combo in ExperimentCombos(groups) && orders in Candidates(combo) ::
      Covered(g, combo, orders, ExperimentRun(g, groups).graphs)
  {
    ExperimentRunFold(g, groups);
    RunCombosSources(g, ExperimentCombos(groups), Run([g], [], [], 1));
  }

  /** The three dictionaries `create_permutations` stores for one experiment
      share their keys, 2 up to the number of accepted graphs, and hold
      pairwise distinct graphs that all differ from the original, with their
      deviations; no more graphs are accepted than considered. */
  lemma ExperimentOutputs(g: Graph, groups: seq<SemanticGroup>)
    requires WellFormed(g) && GroupsFit(g, groups)
    ensures OutputsOk(g, AcceptedGraphs(g, groups), SwapTracker(g, groups), DeviationTable(g, groups))
    ensures forall k :: k in AcceptedGraphs(g, groups) <==> 2 <= k <= |ExperimentRun(g, groups).graphs|
    ensures |ExperimentRun(g, groups).graphs| <= ExperimentRun(g, groups).total
    ensures OutputsFrom(g, ExperimentCombos(groups), AcceptedGraphs(g, groups), SwapTracker(g, groups))
  {
    ExperimentRunInv(g, groups);
    RunOutputs(g, ExperimentRun(g, groups));
    ExperimentRunSources(g, groups);
    RunOutputsFrom(g, ExperimentCombos(groups), Run([g], [], [], 1), ExperimentRun(g, groups));
  }
  /** Building the dictionary one key at a time. */
  lemma KeyedFromSnoc<T>(xs: seq<T>, x: T, base: int)
    ensures KeyedFrom(xs + [x], base) == KeyedFrom(xs, base)[base + |xs| := x]
  {
    assert (xs + [x])[..|xs|] == xs;
  }

  /** `del permutations_i[1]` leaves the graphs after the original under keys
      2, 3, .... */
  lemma KeyedFromDropFirst<T>(xs: seq<T>)
    requires |xs| >= 1
    ensures KeyedFrom(xs, 1) - {1} == KeyedFrom(xs[1..], 2)
  {
    var m, m2 := KeyedFrom(xs, 1) - {1}, KeyedFrom(xs[1..], 2);
    forall k | k in m ensures m2[k] == m[k] {
      KeyedFromAt(xs, 1, k - 1);
      KeyedFromAt(xs[1..], 2, k - 2);
    }
  }

  /** `list(permutations_i.values())`: the keys were inserted as 1, 2, ..., n,
      so the values come out in key order. */
  function ValuesInKeyOrder(m: map<int, Graph>, n: nat): (vs: seq<Graph>)
    requires forall k | 1 <= k <= n :: k in m
    ensures |vs| == n
  {
    seq(n, i requires 0 <= i < n => m[i + 1])
  }

  lemma ValuesOfKeyed(xs: seq<Graph>)
    ensures ValuesInKeyOrder(KeyedFrom(xs, 1), |xs|) == xs
  {
    forall i | 0 <= i < |xs| ensures ValuesInKeyOrder(KeyedFrom(xs, 1), |xs|)[i] == xs[i] {
      ValueInKeyOrder(xs, i);
    }
  }

  lemma ValueInKeyOrder(xs: seq<Graph>, i: nat)
    requires i < |xs|
    ensures ValuesInKeyOrder(KeyedFrom(xs, 1), |xs|)[i] == xs[i]
  {
    KeyedFromAt(xs, 1, i);
  }

  /** The method's dictionaries and counters hold the run `s`. */
  predicate Mirrors(s: Run, perms: map<int, Graph>, tracker: map<int, seq<GroupSwap>>,
                    deviations: map<int, real>, total: nat, unique: nat)
  {
    && unique == |s.graphs| && total == s.total
    && |s.swaps| + 1 == |s.graphs| && |s.deviations| + 1 == |s.graphs|
    && perms == KeyedFrom(s.graphs, 1)
    && tracker == KeyedFrom(s.swaps, 2)
    && deviations == KeyedFrom(s.deviations, 2)
  }

  /** The loop that fills `group_swaps` for one combination. */
  method ListGroupSwaps(combo: seq<SwapGroup>) returns (groupSwaps: seq<seq<seq<int>>>)
    ensures groupSwaps == GroupSwaps(combo)
  {
    groupSwaps := [];
    var j := 0;
    while j < |combo|
      invariant 0 <= j <= |combo|
      invariant groupSwaps == GroupSwaps(combo[..j])
    {
      assert GroupSwaps(combo[..j + 1]) == GroupSwaps(combo[..j]) + [Permutations(combo[j].ids)];
      groupSwaps := groupSwaps + [Permutations(combo[j].ids)];
      j := j + 1;
    }
    assert combo[..j] == combo;
  }

  /** The body of the loop over `product(*group_swaps)`: build the candidate,
      and when its triple list is new, record it under the next key with its
      swapped labels and its deviation; count it either way. */
  method ConsiderCandidate(g: Graph, combo: seq<SwapGroup>, orders: seq<seq<int>>, ghost s: Run,
                           perms: map<int, Graph>, tracker: map<int, seq<GroupSwap>>,
                           deviations: map<int, real>, total: nat, unique: nat)
    returns (perms': map<int, Graph>, tracker': map<int, seq<GroupSwap>>,
             deviations': map<int, real>, total': nat, unique': nat)
    requires Accepted(g, s.graphs) && ComboOk(combo, g.nodes) && Candidate(combo, orders)
    requires Mirrors(s, perms, tracker, deviations, total, unique)
    ensures Mirrors(Step(g, combo, orders, s), perms', tracker', deviations', total', unique')
  {
    perms', tracker', deviations', total', unique' := perms, tracker, deviations, total, unique;
    var ng := BuildCandidate(g, combo, orders);
    ApplyOrdersKeeps(g, combo, orders);
    ValuesOfKeyed(s.graphs);
    var existing := ValuesInKeyOrder(perms, unique);
    assert existing == s.graphs;
    var isUnique := IsUniquePermutation(ng, existing);
    if isUnique {
      perms', tracker', deviations', total', unique' :=
        AcceptCandidate(g, combo, orders, s, ng, perms, tracker, deviations, total, unique);
    } else {
      total' := total' + 1;
    }
  }

  /** The accepting branch of the loop body: record the new graph under the
      next key, with its swapped labels and its deviation, and count it. */
  method AcceptCandidate(g: Graph, combo: seq<SwapGroup>, orders: seq<seq<int>>, ghost s: Run, ng: Graph,
                         perms: map<int, Graph>, tracker: map<int, seq<GroupSwap>>,
                         deviations: map<int, real>, total: nat, unique: nat)
    returns (perms': map<int, Graph>, tracker': map<int, seq<GroupSwap>>,
             deviations': map<int, real>, total': nat, unique': nat)
    requires Accepted(g, s.graphs) && ComboOk(combo, g.nodes) && Candidate(combo, orders)
    requires ng == ApplyOrders(g, combo, orders) && WellFormed(ng) && UniqueAmong(ng, s.graphs)
    requires Mirrors(s, perms, tracker, deviations, total, unique)
    ensures Mirrors(Step(g, combo, orders, s), perms', tracker', deviations', total', unique')
  {
    StepAccepts(g, combo, orders, s);
    unique' := unique + 1;
    perms' := perms[unique' := ng];
    var record := RecordSwaps(g.nodes, combo, orders);
    tracker' := tracker[unique' := record];
    var pct := GraphDeviationFromOriginal(ng, g);
    deviations' := deviations[unique' := pct];
    total' := total + 1;
    MirrorsSnoc(s, ng, record, pct, perms, tracker, deviations, total, unique);
  }

  /** Recording an accepted graph under the next key keeps the dictionaries
      in step with the run. */
  lemma MirrorsSnoc(s: Run, ng: Graph, record: seq<GroupSwap>, pct: real, perms: map<int, Graph>,
                    tracker: map<int, seq<GroupSwap>>, deviations: map<int, real>, total: nat, unique: nat)
    requires Mirrors(s, perms, tracker, deviations, total, unique)
    ensures Mirrors(Run(s.graphs + [ng], s.swaps + [record], s.deviations + [pct], s.total + 1),
                    perms[unique + 1 := ng], tracker[unique + 1 := record], deviations[unique + 1 := pct],
                    total + 1, unique + 1)
  {
    KeyedFromSnoc(s.graphs, ng, 1);
    KeyedFromSnoc(s.swaps, record, 2);
    KeyedFromSnoc(s.deviations, pct, 2);
  }

  /** The loop over `product(*group_swaps)`. */
  method ConsiderCandidates(g: Graph, combo: seq<SwapGroup>, candidates: seq<seq<seq<int>>>, ghost s: Run,
                            perms: map<int, Graph>, tracker: map<int, seq<GroupSwap>>,
                            deviations: map<int, real>, total: nat, unique: nat)
    returns (perms': map<int, Graph>, tracker': map<int, seq<GroupSwap>>,
             deviations': map<int, real>, total': nat, unique': nat)
    requires Accepted(g, s.graphs) && ComboOk(combo, g.nodes)
    requires forall k | 0 <= k < |candidates| :: Candidate(combo, candidates[k])
    requires Mirrors(s, perms, tracker, deviations, total, unique)
    ensures Mirrors(RunOrders(g, combo, candidates, s), perms', tracker', deviations', total', unique')
  {
    perms', tracker', deviations', total', unique' := perms, tracker, deviations, total, unique;
    ghost var t := s;
    var p := 0;
    while p < |candidates|
      invariant 0 <= p <= |candidates|
      invariant forall k | 0 <= k < p :: candidates[..p][k] == candidates[k]
      invariant Accepted(g, t.graphs) && t == RunOrders(g, combo, candidates[..p], s)
      invariant Mirrors(t, perms', tracker', deviations', total', unique')
    {
      var orders := candidates[p];
      perms', tracker', deviations', total', unique' :=
        ConsiderCandidate(g, combo, orders, t, perms', tracker', deviations', total', unique');
      t := Step(g, combo, orders, t);
      assert candidates[..p + 1][..p] == candidates[..p];
      p := p + 1;
    }
    assert candidates[..p] == candidates;
  }

  /** One pass of the loop over `group_combinations`: the candidates of one
      combination. */
  method ConsiderCombo(g: Graph, combo: seq<SwapGroup>, ghost s: Run,
                       perms: map<int, Graph>, tracker: map<int, seq<GroupSwap>>,
                       deviations: map<int, real>, total: nat, unique: nat)
    returns (perms': map<int, Graph>, tracker': map<int, seq<GroupSwap>>,
             deviations': map<int, real>, total': nat, unique': nat)
    requires Accepted(g, s.graphs) && ComboOk(combo, g.nodes)
    requires Mirrors(s, perms, tracker, deviations, total, unique)
    ensures forall k | 0 <= k < |Candidates(combo)| :: Candidate(combo, Candidates(combo)[k])
    ensures Mirrors(RunOrders(g, combo, Candidates(combo), s), perms', tracker', deviations', total', unique')
  {
    var groupSwaps := ListGroupSwaps(combo);
    var candidates := Product(groupSwaps);
    assert candidates == Candidates(combo);
    CandidatesOk(combo);
    perms', tracker', deviations', total', unique' :=
      ConsiderCandidates(g, combo, candidates, s, perms, tracker, deviations, total, unique);
  }

  /** The experiment's run is the fold over its combinations from the
      original alone. */
  lemma ExperimentRunFold(g: Graph, groups: seq<SemanticGroup>)
    requires WellFormed(g) && GroupsFit(g, groups)
    ensures forall k | 0 <= k < |ExperimentCombos(groups)| :: ComboOk(ExperimentCombos(groups)[k], g.nodes)
    ensures ExperimentRun(g, groups) == RunCombos(g, ExperimentCombos(groups), Run([g], [], [], 1))
  {
    ExperimentCombosOk(g, groups);
  }

  /** The loop over `group_combinations`, from the dictionaries and counters
      of the run `s`. */
  method ConsiderCombos(g: Graph, combos: seq<seq<SwapGroup>>, ghost s: Run,
                        perms: map<int, Graph>, tracker: map<int, seq<GroupSwap>>,
                        deviations: map<int, real>, total: nat, unique: nat)
    returns (perms': map<int, Graph>, tracker': map<int, seq<GroupSwap>>,
             deviations': map<int, real>, total': nat, unique': nat)
    requires Accepted(g, s.graphs)
    requires forall k | 0 <= k < |combos| :: ComboOk(combos[k], g.nodes)
    requires Mirrors(s, perms, tracker, deviations, total, unique)
    ensures Mirrors(RunCombos(g, combos, s), perms', tracker', deviations', total', unique')
  {
    perms', tracker', deviations', total', unique' := perms, tracker, deviations, total, unique;
    ghost var t := s;
    var c := 0;
    while c < |combos|
      invariant 0 <= c <= |combos|
      invariant forall k | 0 <= k < c :: combos[..c][k] == combos[k]
      invariant Accepted(g, t.graphs) && t == RunCombos(g, combos[..c], s)
      invariant Mirrors(t, perms', tracker', deviations', total', unique')
    {
      perms', tracker', deviations', total', unique' :=
        ConsiderCombo(g, combos[c], t, perms', tracker', deviations', total', unique');
      t := RunOrders(g, combos[c], Candidates(combos[c]), t);
      assert combos[..c + 1][..c] == combos[..c];
      c := c + 1;
    }
    assert combos[..c] == combos;
  }

  /** The body of the experiment loop of `create_permutations`. */
  method CreatePermutationsForExperiment(g: Graph, groups: seq<SemanticGroup>)
    returns (perms: map<int, Graph>, tracker: map<int, seq<GroupSwap>>, deviations: map<int, real>,
             total: nat, unique: nat)
    requires WellFormed(g) && GroupsFit(g, groups)
    ensures perms == AcceptedGraphs(g, groups)
    ensures tracker == SwapTracker(g, groups)
    ensures deviations == DeviationTable(g, groups)
    ensures total == ExperimentRun(g, groups).total
    ensures unique == |ExperimentRun(g, groups).graphs|
  {
    var swappable := GetSwappableNodes(groups);
    var valid := ValidGroups(swappable);
    var combos := NonEmptyCombinations(valid);
    ExperimentRunFold(g, groups);
    ghost var start := Run([g], [], [], 1);
    assert KeyedFrom([g], 1) == map[1 := g] by {
      KeyedFromSnoc([], g, 1);
      assert [] + [g] == [g];
    }
    var permutations;
    permutations, tracker, deviations, total, unique := ConsiderCombos(g, combos, start, map[1 := g], map[], map[], 1, 1);
    KeyedFromDropFirst(ExperimentRun(g, groups).graphs);
    perms := permutations - {1};
  }

  /** Every experiment from 1 to `n` has a well-formed graph and semantic
      groups that fit it. */
  predicate ExperimentsFit(kg: map<int, Graph>, sg: map<int, seq<SemanticGroup>>, n: nat)
    decreases n, 1
  {
    n == 0 || LastExperimentFits(kg, sg, n)
  }

  /** The experiments before `n` fit, and so does experiment `n`. */
  predicate LastExperimentFits(kg: map<int, Graph>, sg: map<int, seq<SemanticGroup>>, n: nat)
    requires n > 0
    decreases n, 0
  {
    ExperimentsFit(kg, sg, n - 1) && n in kg && n in sg && WellFormed(kg[n]) && GroupsFit(kg[n], sg[n])
  }

  /** When experiments 1 to `n` fit, so does each of them. */
  lemma {:induction false} ExperimentFits(kg: map<int, Graph>, sg: map<int, seq<SemanticGroup>>, n: nat, i: nat)
    requires ExperimentsFit(kg, sg, n) && 1 <= i <= n
    ensures i in kg && i in sg && WellFormed(kg[i]) && GroupsFit(kg[i], sg[i])
  {
    assert LastExperimentFits(kg, sg, n);
    if i < n {
      ExperimentFits(kg, sg, n - 1, i);
    }
  }

  /** The three dictionaries `create_permutations` returns:
      `knowledge_graph_permutations`, `node_swaps_tracker` and
      `triple_deviation_pct`, each keyed by experiment. */
  datatype Outputs = Outputs(perms: map<int, map<int, Graph>>,
                             trackers: map<int, map<int, seq<GroupSwap>>>,
                             deviations: map<int, map<int, real>>)

  /** The dictionaries after the first `n` experiments: experiment `i` holds
      its accepted graphs, its swap tracker and its deviations. */
  function AllOutputs(kg: map<int, Graph>, sg: map<int, seq<SemanticGroup>>, n: nat): Outputs
    requires ExperimentsFit(kg, sg, |kg|) && n <= |kg|
    decreases n, 1
  {
    if n == 0 then Outputs(map[], map[], map[]) else LastExperiment(kg, sg, n)
  }

  /** Experiment `n` adds its entry to each dictionary of the experiments
      before it. */
  function LastExperiment(kg: map<int, Graph>, sg: map<int, seq<SemanticGroup>>, n: nat): Outputs
    requires ExperimentsFit(kg, sg, |kg|) && 1 <= n <= |kg|
    decreases n, 0
  {
    ExperimentFits(kg, sg, |kg|, n);
    var o := AllOutputs(kg, sg, n - 1);
    Outputs(o.perms[n := AcceptedGraphs(kg[n], sg[n])],
            o.trackers[n := SwapTracker(kg[n], sg[n])],
            o.deviations[n := DeviationTable(kg[n], sg[n])])
  }

  /** One pass of the experiment loop of `create_permutations`: experiment
      `i` adds its entry to each of the three dictionaries. */
  method AddExperiment(kg: map<int, Graph>, sg: map<int, seq<SemanticGroup>>, i: nat, all: Outputs)
    returns (all': Outputs)
    requires ExperimentsFit(kg, sg, |kg|) && 1 <= i <= |kg|
    requires all == AllOutputs(kg, sg, i - 1)
    ensures all' == AllOutputs(kg, sg, i)
  {
    ExperimentFits(kg, sg, |kg|, i);
    AllOutputsStep(kg, sg, i);
    var perms, tracker, deviations, total, unique := CreatePermutationsForExperiment(kg[i], sg[i]);
    all' := Outputs(all.perms[i := perms], all.trackers[i := tracker], all.deviations[i := deviations]);
  }

  /** `create_permutations`: experiment `i` (the source's key
      `"experiment_i"`) for each `i` from 1 to the number of experiments. */
  method CreatePermutations(kg: map<int, Graph>, sg: map<int, seq<SemanticGroup>>)
    returns (all: Outputs)
    requires ExperimentsFit(kg, sg, |kg|)
    ensures all == AllOutputs(kg, sg, |kg|)
  {
    var numExperiments := |kg|;
    all := Outputs(map[], map[], map[]);
    var i := 1;
    while i <= numExperiments
      invariant 1 <= i <= numExperiments + 1
      invariant all == AllOutputs(kg, sg, i - 1)
    {
      all := AddExperiment(kg, sg, i, all);
      i := i + 1;
    }
  }

  /** Experiment `n` adds its entry to each dictionary of the first `n - 1`. */
  lemma AllOutputsStep(kg: map<int, Graph>, sg: map<int, seq<SemanticGroup>>, n: nat)
    requires ExperimentsFit(kg, sg, |kg|) && 1 <= n <= |kg|
    ensures n in kg && n in sg && WellFormed(kg[n]) && GroupsFit(kg[n], sg[n])
    ensures var o := AllOutputs(kg, sg, n - 1);
      AllOutputs(kg, sg, n) == Outputs(o.perms[n := AcceptedGraphs(kg[n], sg[n])],
                                       o.trackers[n := SwapTracker(kg[n], sg[n])],
                                       o.deviations[n := DeviationTable(kg[n], sg[n])])
  {
    ExperimentFits(kg, sg, |kg|, n);
    assert AllOutputs(kg, sg, n) == LastExperiment(kg, sg, n);
  }

  /** Experiment `n` adds key `n` to each dictionary of the first `n - 1`. */
  lemma AllOutputsStepKeys(kg: map<int, Graph>, sg: map<int, seq<SemanticGroup>>, n: nat)
    requires ExperimentsFit(kg, sg, |kg|) && 1 <= n <= |kg|
    ensures var o, o' := AllOutputs(kg, sg, n - 1), AllOutputs(kg, sg, n);
      forall i ::
        && (i in o'.perms <==> i in o.perms || i == n)
        && (i in o'.trackers <==> i in o.trackers || i == n)
        && (i in o'.deviations <==> i in o.deviations || i == n)
  {
    assert AllOutputs(kg, sg, n) == LastExperiment(kg, sg, n);
  }

  /** Experiment `n` leaves the entries of the experiments before it alone. */
  lemma AllOutputsStepKeeps(kg: map<int, Graph>, sg: map<int, seq<SemanticGroup>>, n: nat, i: int)
    requires ExperimentsFit(kg, sg, |kg|) && 1 <= n <= |kg| && i != n
    ensures var o, o' := AllOutputs(kg, sg, n - 1), AllOutputs(kg, sg, n);
      && (i in o.perms ==> i in o'.perms && o'.perms[i] == o.perms[i])
      && (i in o.trackers ==> i in o'.trackers && o'.trackers[i] == o.trackers[i])
      && (i in o.deviations ==> i in o'.deviations && o'.deviations[i] == o.deviations[i])
  {
    assert AllOutputs(kg, sg, n) == LastExperiment(kg, sg, n);
  }

  /** After `n` experiments the dictionaries hold experiments 1 to `n` and
      nothing else. */
  lemma {:induction false} AllOutputsKeys(kg: map<int, Graph>, sg: map<int, seq<SemanticGroup>>, n: nat)
    requires ExperimentsFit(kg, sg, |kg|) && n <= |kg|
    ensures var o := AllOutputs(kg, sg, n);
      forall i ::
        && (i in o.perms <==> 1 <= i <= n)
        && (i in o.trackers <==> 1 <= i <= n)
        && (i in o.deviations <==> 1 <= i <= n)
  {
    if n > 0 {
      AllOutputsKeys(kg, sg, n - 1);
      AllOutputsStepKeys(kg, sg, n);
    }
  }

  /** Entry `i` is experiment `i`'s own result: its accepted graphs, its swap
      tracker and its deviations, whatever the experiments after it. */
  lemma {:induction false} AllOutputsAt(kg: map<int, Graph>, sg: map<int, seq<SemanticGroup>>, n: nat, i: int)
    requires ExperimentsFit(kg, sg, |kg|) && 1 <= i <= n <= |kg|
    ensures i in kg && i in sg && WellFormed(kg[i]) && GroupsFit(kg[i], sg[i])
    ensures var o := AllOutputs(kg, sg, n);
      && i in o.perms && i in o.trackers && i in o.deviations
      && o.perms[i] == AcceptedGraphs(kg[i], sg[i])
      && o.trackers[i] == SwapTracker(kg[i], sg[i])
      && o.deviations[i] == DeviationTable(kg[i], sg[i])
  {
    AllOutputsStep(kg, sg, i);
    AllOutputsStable(kg, sg, n, i);
  }

  /** Once experiment `i` has added its entry, later experiments leave it
      unchanged. */
  lemma {:induction false} AllOutputsStable(kg: map<int, Graph>, sg: map<int, seq<SemanticGroup>>, n: nat, i: int)
    requires ExperimentsFit(kg, sg, |kg|) && 1 <= i <= n <= |kg|
    ensures var p, o := AllOutputs(kg, sg, i), AllOutputs(kg, sg, n);
      && (i in p.perms ==> i in o.perms && o.perms[i] == p.perms[i])
      && (i in p.trackers ==> i in o.trackers && o.trackers[i] == p.trackers[i])
      && (i in p.deviations ==> i in o.deviations && o.deviations[i] == p.deviations[i])
  {
    if i < n {
      AllOutputsStable(kg, sg, n - 1, i);
      AllOutputsStepKeeps(kg, sg, n, i);
    }
  }

  /** What `create_permutations` returns for each experiment: the accepted
      graphs keep the original's node ids and edges, differ from the
      original and from each other in their triple lists, and each has its
      swap record and its deviation from the original. */
  lemma CreatePermutationsOutputs(kg: map<int, Graph>, sg: map<int, seq<SemanticGroup>>, i: int)
    requires ExperimentsFit(kg, sg, |kg|) && 1 <= i <= |kg|
    ensures i in kg && i in sg
    ensures var o := AllOutputs(kg, sg, |kg|);
      && i in o.perms && i in o.trackers && i in o.deviations
      && OutputsOk(kg[i], o.perms[i], o.trackers[i], o.deviations[i])
      && (forall k | 0 <= k < |sg[i]| :: sg[i][k].members != [])
      && OutputsFrom(kg[i], ExperimentCombos(sg[i]), o.perms[i], o.trackers[i])
  {
    AllOutputsAt(kg, sg, |kg|, i);
    ExperimentOutputs(kg[i], sg[i]);
  }
}
