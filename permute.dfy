/** The five building blocks of the permutation engine: the swappable-node
    resolver, the id-remap transformer, the triple signature of a graph, the
    uniqueness test against accepted graphs and the deviation score. */
module Permute {
  import opened Itertools
  import opened Ordering
  import opened KnowledgeGraph

  // ================================================== swappable-node resolver

  /** One entry of a semantic group: a node of the graph and its granularity. */
  datatype Member = Member(id: int, text: string, level: int)

  /** A named semantic group; a list of these stands for the source's
      dictionary from group name to members, in insertion order. */
  datatype SemanticGroup = SemanticGroup(name: string, members: seq<Member>)

  /** A group name with the ids that may trade places (its swappable tuple). */
  datatype SwapGroup = SwapGroup(name: string, ids: seq<int>)

  /** `max(node["level"] for node in group)`; an empty group makes `max` raise. */
  function MaxLevel(members: seq<Member>): (m: int)
    requires members != []
  {
    if |members| == 1 then members[0].level
    else
      var rest := MaxLevel(members[1..]);
      if members[0].level >= rest then members[0].level else rest
  }

  /** The maximum bounds every member's level and is some member's level. */
  lemma {:induction false} MaxLevelSpec(members: seq<Member>)
    requires members != []
    ensures forall i | 0 <= i < |members| :: members[i].level <= MaxLevel(members)
    ensures exists i | 0 <= i < |members| :: members[i].level == MaxLevel(members)
  {
    if |members| > 1 {
      MaxLevelSpec(members[1..]);
      assert forall i | 1 <= i < |members| :: members[i] == members[1..][i - 1];
      if members[0].level < MaxLevel(members[1..]) {
        var i :| 0 <= i < |members[1..]| && members[1..][i].level == MaxLevel(members[1..]);
        assert members[i + 1].level == MaxLevel(members);
      } else {
        assert members[0].level == MaxLevel(members);
      }
    } else {
      assert members[0].level == MaxLevel(members);
    }
  }

  /** `[node["id"] for node in group if node["level"] == level]`. */
  function IdsAtLevel(members: seq<Member>, level: int): (ids: seq<int>)
    ensures |ids| <= |members|
  {
    if members == [] then []
    else (if members[0].level == level then [members[0].id] else []) + IdsAtLevel(members[1..], level)
  }

  /** An id is kept exactly when some member at that level carries it. */
  lemma {:induction false} IdsAtLevelMembers(members: seq<Member>, level: int, x: int)
    ensures x in IdsAtLevel(members, level) <==>
      exists i | 0 <= i < |members| :: members[i].level == level && members[i].id == x
  {
    if members != [] {
      IdsAtLevelMembers(members[1..], level, x);
      assert forall i | 1 <= i < |members| :: members[i] == members[1..][i - 1];
    }
  }

  /** The ids of a group's members, in member order. */
  function MemberIds(members: seq<Member>): seq<int>
  {
    seq(|members|, i requires 0 <= i < |members| => members[i].id)
  }

  /** The filter drops members and never reorders the ones it keeps. */
  lemma {:induction false} IdsAtLevelInOrder(members: seq<Member>, level: int)
    ensures Subsequence(IdsAtLevel(members, level), MemberIds(members))
  {
    if members != [] {
      var rest := IdsAtLevel(members[1..], level);
      IdsAtLevelInOrder(members[1..], level);
      assert MemberIds(members)[1..] == MemberIds(members[1..]);
      if members[0].level == level {
        assert ([members[0].id] + rest)[1..] == rest;
      } else {
        assert IdsAtLevel(members, level) == rest;
        assert rest == [] || Subsequence(rest, MemberIds(members)[1..]);
      }
    }
  }

  /** The ids of a group that sit at its finest (maximum) level. */
  function SwappableIds(members: seq<Member>): (ids: seq<int>)
    requires members != []
  {
    IdsAtLevel(members, MaxLevel(members))
  }

  /** A non-empty group always has something at its maximum level. */
  lemma SwappableIdsNonEmpty(members: seq<Member>)
    requires members != []
    ensures SwappableIds(members) != []
  {
    var top := MaxLevel(members);
    MaxLevelSpec(members);
    var i :| 0 <= i < |members| && members[i].level == top;
    IdsAtLevelMembers(members, top, members[i].id);
  }

  /** `get_swappable_nodes`: one entry per group, in group order. */
  function GetSwappableNodes(groups: seq<SemanticGroup>): (r: seq<SwapGroup>)
    requires forall i | 0 <= i < |groups| :: groups[i].members != []
    ensures |r| == |groups|
    ensures forall i | 0 <= i < |groups| ::
      r[i].name == groups[i].name && r[i].ids == SwappableIds(groups[i].members)
  {
    seq(|groups|, i requires 0 <= i < |groups| && groups[i].members != [] =>
      SwapGroup(groups[i].name, SwappableIds(groups[i].members)))
  }

  /** Entry `i` of the result names group `i`, is non-empty, and holds exactly
      the ids of the members at the group's maximum level. */
  lemma SwappableNodesSpec(groups: seq<SemanticGroup>, i: nat, x: int)
    requires forall k | 0 <= k < |groups| :: groups[k].members != []
    requires i < |groups|
    ensures GetSwappableNodes(groups)[i].name == groups[i].name
    ensures |GetSwappableNodes(groups)[i].ids| >= 1
    ensures x in GetSwappableNodes(groups)[i].ids <==>
      exists k | 0 <= k < |groups[i].members| ::
        groups[i].members[k].id == x &&
        forall j | 0 <= j < |groups[i].members| :: groups[i].members[j].level <= groups[i].members[k].level
  {
    var ms := groups[i].members;
    var top := MaxLevel(ms);
    MaxLevelSpec(ms);
    SwappableIdsNonEmpty(ms);
    IdsAtLevelMembers(ms, top, x);
    if x in GetSwappableNodes(groups)[i].ids {
      var k :| 0 <= k < |ms| && ms[k].level == top && ms[k].id == x;
    }
    if exists k | 0 <= k < |ms| :: ms[k].id == x && forall j | 0 <= j < |ms| :: ms[j].level <= ms[k].level {
      var k :| 0 <= k < |ms| && ms[k].id == x && forall j | 0 <= j < |ms| :: ms[j].level <= ms[k].level;
      var m :| 0 <= m < |ms| && ms[m].level == top;
      assert ms[k].level == top;
    }
  }

  /** Entry `i` of the result lists its ids in the order of group `i`'s
      members. */
  lemma SwappableNodesInOrder(groups: seq<SemanticGroup>, i: nat)
    requires forall k | 0 <= k < |groups| :: groups[k].members != []
    requires i < |groups|
    ensures Subsequence(GetSwappableNodes(groups)[i].ids, MemberIds(groups[i].members))
  {
    IdsAtLevelInOrder(groups[i].members, MaxLevel(groups[i].members));
  }

  /** The docstring's example: levels 1, 2, 2 and 2, 2 give (2, 3) and (4, 5). */
  lemma SwappableNodesExample()
    ensures GetSwappableNodes([
      SemanticGroup("group_name_1", [Member(1, "aaa", 1), Member(2, "bbb", 2), Member(3, "ccc", 2)]),
      SemanticGroup("group_name_2", [Member(4, "ddd", 2), Member(5, "eee", 2)])])
      == [SwapGroup("group_name_1", [2, 3]), SwapGroup("group_name_2", [4, 5])]
  {
    var g1 := [Member(1, "aaa", 1), Member(2, "bbb", 2), Member(3, "ccc", 2)];
    var g2 := [Member(4, "ddd", 2), Member(5, "eee", 2)];
    assert MaxLevel(g1) == 2 && MaxLevel(g2) == 2;
    assert IdsAtLevel(g1, 2) == [2, 3];
    assert IdsAtLevel(g2, 2) == [4, 5];
  }

  /** `{g: ids for g, ids in swappable.items() if len(ids) > 1}`. */
  function ValidGroups(sw: seq<SwapGroup>): (r: seq<SwapGroup>)
    ensures |r| <= |sw|
  {
    if sw == [] then []
    else if |sw[0].ids| > 1 then [sw[0]] + ValidGroups(sw[1..])
    else ValidGroups(sw[1..])
  }

  /** The filter keeps exactly the groups with more than one id, in their
      original order. */
  lemma {:induction false} ValidGroupsSpec(sw: seq<SwapGroup>)
    ensures forall k | 0 <= k < |ValidGroups(sw)| :: |ValidGroups(sw)[k].ids| > 1
    ensures forall x :: x in ValidGroups(sw) <==> x in sw && |x.ids| > 1
    ensures Subsequence(ValidGroups(sw), sw)
  {
    if sw != [] {
      var rest := ValidGroups(sw[1..]);
      ValidGroupsSpec(sw[1..]);
      assert sw == [sw[0]] + sw[1..];
      if |sw[0].ids| > 1 {
        assert ([sw[0]] + rest)[1..] == rest;
      } else {
        assert rest == [] || Subsequence(rest, sw[1..]);
      }
    }
  }

  // ==================================================== id-remap transformer

  /** The dictionary filled by `for old, new in zip(old_order, new_order):
      id_mapping[old] = new`: `zip` stops at the shorter tuple and a repeated
      old id keeps the later entry. */
  function IdMapping(oldOrder: seq<int>, newOrder: seq<int>): map<int, int>
    decreases |oldOrder|
  {
    var n := if |oldOrder| < |newOrder| then |oldOrder| else |newOrder|;
    if n == 0 then map[]
    else IdMapping(oldOrder[..n - 1], newOrder[..n - 1])[oldOrder[n - 1] := newOrder[n - 1]]
  }

  function ZipLength(a: seq<int>, b: seq<int>): nat
  {
    if |a| < |b| then |a| else |b|
  }

  /** The keys are the old ids zip reaches; each maps to the new id paired
      with its last occurrence. */
  lemma {:induction false} IdMappingLastWins(oldOrder: seq<int>, newOrder: seq<int>, j: nat)
    requires j < ZipLength(oldOrder, newOrder)
    requires forall k | j < k < ZipLength(oldOrder, newOrder) :: oldOrder[k] != oldOrder[j]
    ensures oldOrder[j] in IdMapping(oldOrder, newOrder)
    ensures IdMapping(oldOrder, newOrder)[oldOrder[j]] == newOrder[j]
    decreases |oldOrder|
  {
    var n := ZipLength(oldOrder, newOrder);
    if j < n - 1 {
      IdMappingLastWins(oldOrder[..n - 1], newOrder[..n - 1], j);
    }
  }

  lemma {:induction false} IdMappingKeys(oldOrder: seq<int>, newOrder: seq<int>, x: int)
    ensures x in IdMapping(oldOrder, newOrder) <==>
      exists j | 0 <= j < ZipLength(oldOrder, newOrder) :: oldOrder[j] == x
    decreases |oldOrder|
  {
    var n := ZipLength(oldOrder, newOrder);
    if n > 0 {
      IdMappingKeys(oldOrder[..n - 1], newOrder[..n - 1], x);
      if exists j | 0 <= j < n - 1 :: oldOrder[j] == x {
        var j :| 0 <= j < n - 1 && oldOrder[j] == x;
        assert oldOrder[..n - 1][j] == x;
      }
      if exists j | 0 <= j < n :: oldOrder[j] == x {
        var j :| 0 <= j < n && oldOrder[j] == x;
        if j < n - 1 {
          assert oldOrder[..n - 1][j] == x;
        }
      }
    }
  }

  /** With distinct old ids, position `j` of the old tuple maps to position `j`
      of the new one. */
  lemma IdMappingPositional(oldOrder: seq<int>, newOrder: seq<int>, j: nat)
    requires Distinct(oldOrder) && |oldOrder| == |newOrder| && j < |oldOrder|
    ensures oldOrder[j] in IdMapping(oldOrder, newOrder)
    ensures IdMapping(oldOrder, newOrder)[oldOrder[j]] == newOrder[j]
  {
    IdMappingLastWins(oldOrder, newOrder, j);
  }

  /** Rewrites a node's id through the mapping, once; other nodes are kept. */
  function Renamed(mapping: map<int, int>, n: Node): Node
  {
    if n.id in mapping then n.(id := mapping[n.id]) else n
  }

  /** The graph `apply_permutation` returns: every node renamed through the
      positional map, the edges untouched. */
  function Permuted(g: Graph, oldOrder: seq<int>, newOrder: seq<int>): Graph
  {
    var mapping := IdMapping(oldOrder, newOrder);
    Graph(seq(|g.nodes|, i requires 0 <= i < |g.nodes| => Renamed(mapping, g.nodes[i])), g.edges)
  }

  /** `apply_permutation`: builds the id map, copies the nodes into a fresh
      array (the deep copy) and rewrites the copied ids in place. */
  method ApplyPermutation(g: Graph, oldOrder: seq<int>, newOrder: seq<int>) returns (r: Graph)
    ensures r == Permuted(g, oldOrder, newOrder)
    ensures |r.nodes| == |g.nodes| && r.edges == g.edges
    ensures forall i | 0 <= i < |g.nodes| :: r.nodes[i].text == g.nodes[i].text
    ensures forall i | 0 <= i < |g.nodes| ::
      r.nodes[i].id == if g.nodes[i].id in IdMapping(oldOrder, newOrder)
                       then IdMapping(oldOrder, newOrder)[g.nodes[i].id] else g.nodes[i].id
  {
    var mapping: map<int, int> := map[];
    var k := 0;
    while k < |oldOrder| && k < |newOrder|
      invariant 0 <= k <= ZipLength(oldOrder, newOrder)
      invariant mapping == IdMapping(oldOrder[..k], newOrder[..k])
    {
      assert oldOrder[..k + 1][..k] == oldOrder[..k] && newOrder[..k + 1][..k] == newOrder[..k];
      mapping := mapping[oldOrder[k] := newOrder[k]];
      k := k + 1;
    }
    assert oldOrder[..k] == oldOrder[..ZipLength(oldOrder, newOrder)];
    assert mapping == IdMapping(oldOrder, newOrder) by {
      var n := ZipLength(oldOrder, newOrder);
      if n < |oldOrder| || n < |newOrder| {
        ZipPrefix(oldOrder, newOrder);
      } else {
        assert oldOrder[..k] == oldOrder && newOrder[..k] == newOrder;
      }
    }
    var nodes := new Node[|g.nodes|](i requires 0 <= i < |g.nodes| => g.nodes[i]);
    var i := 0;
    while i < nodes.Length
      invariant 0 <= i <= nodes.Length
      invariant forall j | 0 <= j < i :: nodes[j] == Renamed(mapping, g.nodes[j])
      invariant forall j | i <= j < nodes.Length :: nodes[j] == g.nodes[j]
    {
      if nodes[i].id in mapping {
        nodes[i] := nodes[i].(id := mapping[nodes[i].id]);
      }
      i := i + 1;
    }
    r := Graph(nodes[..], g.edges);
  }

  /** Only the pairs zip reaches matter. */
  lemma ZipPrefix(oldOrder: seq<int>, newOrder: seq<int>)
    ensures IdMapping(oldOrder, newOrder)
      == IdMapping(oldOrder[..ZipLength(oldOrder, newOrder)], newOrder[..ZipLength(oldOrder, newOrder)])
  {
    var n := ZipLength(oldOrder, newOrder);
    if n > 0 {
      assert oldOrder[..n][..n - 1] == oldOrder[..n - 1];
      assert newOrder[..n][..n - 1] == newOrder[..n - 1];
    }
  }

  /** Applying a tuple onto itself changes nothing. */
  lemma PermutedIdentity(g: Graph, order: seq<int>)
    ensures Permuted(g, order, order) == g
  {
    var mapping := IdMapping(order, order);
    forall x | x in mapping ensures mapping[x] == x {
      IdMappingKeys(order, order, x);
      var j :| 0 <= j < |order| && order[j] == x;
      var last := LastOccurrence(order, j);
      IdMappingLastWins(order, order, last);
    }
    assert Permuted(g, order, order).nodes == g.nodes;
  }

  /** The last position at or after `j` holding the value at `j`. */
  lemma {:induction false} LastOccurrence(s: seq<int>, j: nat) returns (last: nat)
    requires j < |s|
    ensures j <= last < |s| && s[last] == s[j] && forall k | last < k < |s| :: s[k] != s[j]
    decreases |s| - j
  {
    if exists k | j < k < |s| :: s[k] == s[j] {
      var k :| j < k < |s| && s[k] == s[j];
      last := LastOccurrence(s, k);
    } else {
      last := j;
    }
  }

  /** When the new tuple rearranges distinct old ids that all name nodes, the
      graph keeps the same set of node ids, so its edges still resolve. */
  lemma PermutedIds(g: Graph, oldOrder: seq<int>, newOrder: seq<int>)
    requires Distinct(oldOrder) && multiset(newOrder) == multiset(oldOrder)
    requires forall x | x in oldOrder :: x in IdsOf(g.nodes)
    ensures IdsOf(Permuted(g, oldOrder, newOrder).nodes) == IdsOf(g.nodes)
    ensures WellFormed(g) ==> WellFormed(Permuted(g, oldOrder, newOrder))
  {
    var mapping := IdMapping(oldOrder, newOrder);
    var p := Permuted(g, oldOrder, newOrder);
    assert |newOrder| == |oldOrder| by {
      assert |multiset(newOrder)| == |multiset(oldOrder)|;
    }
    forall x | x in mapping ensures mapping[x] in oldOrder {
      IdMappingKeys(oldOrder, newOrder, x);
      var j :| 0 <= j < |oldOrder| && oldOrder[j] == x;
      IdMappingPositional(oldOrder, newOrder, j);
      assert newOrder[j] in multiset(oldOrder);
    }
    forall y | y in IdsOf(p.nodes) ensures y in IdsOf(g.nodes) {
      var n :| n in p.nodes && n.id == y;
      var i :| 0 <= i < |p.nodes| && p.nodes[i] == n;
      assert g.nodes[i] in g.nodes;
    }
    forall y | y in IdsOf(g.nodes) ensures y in IdsOf(p.nodes) {
      if y in oldOrder {
        assert y in multiset(newOrder);
        var j :| 0 <= j < |newOrder| && newOrder[j] == y;
        IdMappingPositional(oldOrder, newOrder, j);
        assert oldOrder[j] in oldOrder;
        assert oldOrder[j] in IdsOf(g.nodes);
        var n :| n in g.nodes && n.id == oldOrder[j];
        var i :| 0 <= i < |g.nodes| && g.nodes[i] == n;
        assert p.nodes[i].id == y;
        assert p.nodes[i] in p.nodes;
      } else {
        var n :| n in g.nodes && n.id == y;
        var i :| 0 <= i < |g.nodes| && g.nodes[i] == n;
        IdMappingKeys(oldOrder, newOrder, y);
        assert p.nodes[i].id == y;
        assert p.nodes[i] in p.nodes;
      }
    }
  }

  /** Under the same conditions, and with node ids unique, the multiset of
      node ids is unchanged: ids are traded, never merged or invented. */
  lemma PermutedIdMultiset(g: Graph, oldOrder: seq<int>, newOrder: seq<int>)
    requires Distinct(oldOrder) && multiset(newOrder) == multiset(oldOrder)
    requires forall x | x in oldOrder :: x in IdsOf(g.nodes)
    requires Distinct(IdList(g))
    ensures multiset(IdList(Permuted(g, oldOrder, newOrder))) == multiset(IdList(g))
  {
    var mapping := IdMapping(oldOrder, newOrder);
    var p := Permuted(g, oldOrder, newOrder);
    assert |newOrder| == |oldOrder| by {
      assert |multiset(newOrder)| == |multiset(oldOrder)|;
    }
    SameMultisetDistinct(oldOrder, newOrder);
    forall i, j | 0 <= i < j < |p.nodes| ensures IdList(p)[i] != IdList(p)[j] {
      var a, b := g.nodes[i].id, g.nodes[j].id;
      assert a != b by {
        assert IdList(g)[i] == a && IdList(g)[j] == b;
      }
      IdMappingKeys(oldOrder, newOrder, a);
      IdMappingKeys(oldOrder, newOrder, b);
      if a in mapping {
        var ja :| 0 <= ja < |oldOrder| && oldOrder[ja] == a;
        IdMappingPositional(oldOrder, newOrder, ja);
        assert newOrder[ja] in multiset(oldOrder);
        if b in mapping {
          var jb :| 0 <= jb < |oldOrder| && oldOrder[jb] == b;
          IdMappingPositional(oldOrder, newOrder, jb);
        }
      } else if b in mapping {
        var jb :| 0 <= jb < |oldOrder| && oldOrder[jb] == b;
        IdMappingPositional(oldOrder, newOrder, jb);
        assert newOrder[jb] in multiset(oldOrder);
      }
    }
    PermutedIds(g, oldOrder, newOrder);
    forall y ensures y in IdList(p) <==> y in IdList(g) {
      IdListIds(p);
      IdListIds(g);
    }
    DistinctSameSetMultiset(IdList(p), IdList(g));
  }

  /** With unique node ids, the id at position `k` of the new tuple ends up
      carrying the label the id at position `k` of the old tuple carried. */
  lemma PermutedLabelAt(g: Graph, oldOrder: seq<int>, newOrder: seq<int>, k: nat)
    requires Distinct(oldOrder) && multiset(newOrder) == multiset(oldOrder)
    requires forall x | x in oldOrder :: x in IdsOf(g.nodes)
    requires Distinct(IdList(g)) && k < |oldOrder|
    ensures |newOrder| == |oldOrder|
    ensures oldOrder[k] in LabelMap(g.nodes)
    ensures newOrder[k] in LabelMap(Permuted(g, oldOrder, newOrder).nodes)
    ensures LabelMap(Permuted(g, oldOrder, newOrder).nodes)[newOrder[k]] == LabelMap(g.nodes)[oldOrder[k]]
  {
    assert |newOrder| == |oldOrder| by {
      assert |multiset(newOrder)| == |multiset(oldOrder)|;
    }
    var p := Permuted(g, oldOrder, newOrder);
    var x := oldOrder[k];
    assert x in oldOrder;
    var n :| n in g.nodes && n.id == x;
    var i :| 0 <= i < |g.nodes| && g.nodes[i] == n;
    IdMappingPositional(oldOrder, newOrder, k);
    assert p.nodes[i] == Node(newOrder[k], n.text);
    PermutedIdMultiset(g, oldOrder, newOrder);
    SameMultisetDistinct(IdList(g), IdList(p));
    forall j | i < j < |g.nodes| ensures p.nodes[j].id != p.nodes[i].id && g.nodes[j].id != g.nodes[i].id {
      assert IdList(p)[i] == p.nodes[i].id && IdList(p)[j] == p.nodes[j].id;
      assert IdList(g)[i] == g.nodes[i].id && IdList(g)[j] == g.nodes[j].id;
    }
    LabelMapLastWins(p.nodes, i);
    LabelMapLastWins(g.nodes, i);
  }

  lemma IdListIds(g: Graph)
    ensures forall y :: y in IdList(g) <==> y in IdsOf(g.nodes)
  {
    forall y | y in IdsOf(g.nodes) ensures y in IdList(g) {
      var n :| n in g.nodes && n.id == y;
      var i :| 0 <= i < |g.nodes| && g.nodes[i] == n;
      assert IdList(g)[i] == y;
    }
  }

  /** Every id the map produces comes from the new tuple. */
  lemma {:induction false} IdMappingValues(oldOrder: seq<int>, newOrder: seq<int>, y: int)
    requires y in IdMapping(oldOrder, newOrder)
    ensures IdMapping(oldOrder, newOrder)[y] in newOrder
    decreases |oldOrder|
  {
    var n := ZipLength(oldOrder, newOrder);
    if y != oldOrder[n - 1] {
      IdMappingValues(oldOrder[..n - 1], newOrder[..n - 1], y);
      var v := IdMapping(oldOrder, newOrder)[y];
      var j :| 0 <= j < n - 1 && newOrder[..n - 1][j] == v;
      assert newOrder[j] == v;
    }
  }

  /** Permuting one group leaves the label behind every other id alone: an id
      outside both tuples is carried by exactly the same nodes as before. */
  lemma PermutedKeepsOtherLabels(g: Graph, oldOrder: seq<int>, newOrder: seq<int>, x: int)
    requires x !in oldOrder && x !in newOrder
    ensures x in LabelMap(Permuted(g, oldOrder, newOrder).nodes) <==> x in LabelMap(g.nodes)
    ensures x in LabelMap(g.nodes) ==>
      LabelMap(Permuted(g, oldOrder, newOrder).nodes)[x] == LabelMap(g.nodes)[x]
  {
    var mapping := IdMapping(oldOrder, newOrder);
    assert x !in mapping by {
      IdMappingKeys(oldOrder, newOrder, x);
    }
    forall y | y in mapping ensures mapping[y] != x {
      IdMappingValues(oldOrder, newOrder, y);
    }
    RenamedLabelMap(mapping, g.nodes, x);
    assert Permuted(g, oldOrder, newOrder).nodes == RenameAll(mapping, g.nodes);
  }

  function RenameAll(mapping: map<int, int>, nodes: seq<Node>): seq<Node>
  {
    seq(|nodes|, i requires 0 <= i < |nodes| => Renamed(mapping, nodes[i]))
  }

  lemma {:induction false} RenamedLabelMap(mapping: map<int, int>, nodes: seq<Node>, x: int)
    requires x !in mapping && forall y | y in mapping :: mapping[y] != x
    ensures x in LabelMap(RenameAll(mapping, nodes)) <==> x in LabelMap(nodes)
    ensures x in LabelMap(nodes) ==> LabelMap(RenameAll(mapping, nodes))[x] == LabelMap(nodes)[x]
  {
    if nodes != [] {
      var init := nodes[..|nodes| - 1];
      assert RenameAll(mapping, nodes)[..|nodes| - 1] == RenameAll(mapping, init);
      RenamedLabelMap(mapping, init, x);
    }
  }

  // ========================================================= triple signature

  /** The triple of one edge: both endpoints resolved through the id map. */
  function Resolve(labels: map<int, string>, e: Edge): Triple
    requires e.source in labels && e.target in labels
  {
    (labels[e.source], e.relation, labels[e.target])
  }

  /** The list `get_graph_triples` builds before sorting: the triple of each
      edge, at the edge's position. */
  function ResolveAll(labels: map<int, string>, edges: seq<Edge>): seq<Triple>
    requires forall e | e in edges :: e.source in labels && e.target in labels
  {
    seq(|edges|, k requires 0 <= k < |edges| => Resolve(labels, edges[k]))
  }

  /** Taking one edge out takes its triple out. */
  lemma ResolveAllRemove(labels: map<int, string>, b: seq<Edge>, i: nat)
    requires i < |b|
    requires forall e | e in b :: e.source in labels && e.target in labels
    ensures forall e | e in RemoveAt(b, i) :: e.source in labels && e.target in labels
    ensures multiset(ResolveAll(labels, b))
         == multiset(ResolveAll(labels, RemoveAt(b, i))) + multiset{Resolve(labels, b[i])}
  {
    var rest := RemoveAt(b, i);
    var rb := ResolveAll(labels, b);
    forall k | 0 <= k < |rest|
      ensures rest[k] == (if k < i then b[k] else b[k + 1])
    {
    }
    assert forall e | e in rest :: e in b;
    assert ResolveAll(labels, rest) == RemoveAt(rb, i);
    RemoveAtMultiset(rb, i);
  }

  /** Rearranging the edges rearranges the resolved triples. */
  lemma {:induction false} ResolveAllMultiset(labels: map<int, string>, a: seq<Edge>, b: seq<Edge>)
    requires forall e | e in a :: e.source in labels && e.target in labels
    requires multiset(a) == multiset(b)
    ensures forall e | e in b :: e.source in labels && e.target in labels
    ensures multiset(ResolveAll(labels, a)) == multiset(ResolveAll(labels, b))
    decreases |a|
  {
    assert forall e | e in b :: e in multiset(a);
    if a != [] {
      var x := a[|a| - 1];
      var init := a[..|a| - 1];
      assert x in multiset(b);
      var i :| 0 <= i < |b| && b[i] == x;
      var rest := RemoveAt(b, i);
      var t := Resolve(labels, x);
      assert multiset(ResolveAll(labels, a)) == multiset(ResolveAll(labels, init)) + multiset{t} by {
        assert forall e | e in init :: e in a;
        assert ResolveAll(labels, a) == ResolveAll(labels, init) + [t];
      }
      assert multiset(ResolveAll(labels, init)) == multiset(ResolveAll(labels, rest)) by {
        assert forall e | e in init :: e in a;
        assert multiset(init) == multiset(rest) by {
          assert a == init + [x];
          assert multiset(a) == multiset(init) + multiset{x};
          RemoveAtMultiset(b, i);
          MultisetCancel(multiset(init), multiset(rest), x);
        }
        ResolveAllMultiset(labels, init, rest);
      }
      ResolveAllRemove(labels, b, i);
    }
  }

  /** The resolved, unsorted triples of a graph. */
  function UnsortedTriples(g: Graph): (ts: seq<Triple>)
    requires WellFormed(g)
  {
    ResolveAll(LabelMap(g.nodes), g.edges)
  }

  /** `get_graph_triples`: one triple per edge, in sorted order. */
  function GraphTriples(g: Graph): (ts: seq<Triple>)
    requires WellFormed(g)
    ensures |ts| == |g.edges|
    ensures Sorted(ts)
  {
    Sort(UnsortedTriples(g))
  }

  /** `get_graph_triples`: builds the id-to-label dictionary, appends the
      triple of each edge in turn, and sorts the list. */
  method GetGraphTriples(graph: Graph) returns (triples: seq<Triple>)
    requires WellFormed(graph)
    ensures triples == GraphTriples(graph)
  {
    var idToLabel := LabelMap(graph.nodes);
    var sourceRelationTarget: seq<Triple> := [];
    var k := 0;
    while k < |graph.edges|
      invariant 0 <= k <= |graph.edges|
      invariant |sourceRelationTarget| == k
      invariant forall j | 0 <= j < k :: sourceRelationTarget[j] == Resolve(idToLabel, graph.edges[j])
    {
      var edge := graph.edges[k];
      assert edge in graph.edges;
      sourceRelationTarget := sourceRelationTarget + [(idToLabel[edge.source], edge.relation, idToLabel[edge.target])];
      k := k + 1;
    }
    assert sourceRelationTarget == UnsortedTriples(graph);
    triples := Sort(sourceRelationTarget);
  }

  /** The sorted list holds the resolved triples, each as often as an edge
      resolves to it. */
  lemma GraphTriplesMultiset(g: Graph)
    requires WellFormed(g)
    ensures multiset(GraphTriples(g)) == multiset(UnsortedTriples(g))
  {
    SortMultiset(UnsortedTriples(g));
  }

  /** Two graphs get the same triple list exactly when their edges resolve to
      the same multiset of triples, whatever the order of the edges. */
  lemma GraphTriplesEqualIff(g: Graph, h: Graph)
    requires WellFormed(g) && WellFormed(h)
    ensures GraphTriples(g) == GraphTriples(h) <==>
      multiset(UnsortedTriples(g)) == multiset(UnsortedTriples(h))
  {
    GraphTriplesMultiset(g);
    GraphTriplesMultiset(h);
    if multiset(UnsortedTriples(g)) == multiset(UnsortedTriples(h)) {
      SortedUnique(GraphTriples(g), GraphTriples(h));
    }
  }

  /** Listing the same edges in another order does not change the triples. */
  lemma GraphTriplesEdgeOrder(g: Graph, edges: seq<Edge>)
    requires WellFormed(g) && multiset(edges) == multiset(g.edges)
    ensures WellFormed(Graph(g.nodes, edges))
    ensures GraphTriples(Graph(g.nodes, edges)) == GraphTriples(g)
  {
    ResolveAllMultiset(LabelMap(g.nodes), g.edges, edges);
    GraphTriplesEqualIff(g, Graph(g.nodes, edges));
  }

  // =============================================================== uniqueness

  /** No accepted graph before the candidate has its triple list: the search
      `is_unique_permutation` makes, written as a recursion over the list. */
  function UniqueAmong(candidate: Graph, existing: seq<Graph>): bool
    requires WellFormed(candidate)
    requires forall k | 0 <= k < |existing| :: WellFormed(existing[k])
  {
    if existing == [] then true
    else if GraphTriples(candidate) == GraphTriples(existing[0]) then false
    else
      assert forall k | 1 <= k < |existing| :: existing[k] == existing[1..][k - 1];
      UniqueAmong(candidate, existing[1..])
  }

  /** A candidate is unique exactly when no accepted graph has its triple
      list. */
  lemma {:induction false} UniqueAmongIff(candidate: Graph, existing: seq<Graph>)
    requires WellFormed(candidate)
    requires forall k | 0 <= k < |existing| :: WellFormed(existing[k])
    ensures UniqueAmong(candidate, existing) <==>
      forall k | 0 <= k < |existing| :: GraphTriples(existing[k]) != GraphTriples(candidate)
  {
    if existing != [] {
      assert forall k | 1 <= k < |existing| :: existing[k] == existing[1..][k - 1];
      UniqueAmongIff(candidate, existing[1..]);
    }
  }

  /** `is_unique_permutation`: resolves the candidate once, then walks the
      accepted graphs and returns False at the first one with the same triple
      list. */
  method IsUniquePermutation(newGraph: Graph, existingGraphs: seq<Graph>) returns (unique: bool)
    requires WellFormed(newGraph)
    requires forall k | 0 <= k < |existingGraphs| :: WellFormed(existingGraphs[k])
    ensures unique == UniqueAmong(newGraph, existingGraphs)
  {
    var newTriples := GetGraphTriples(newGraph);
    var i := 0;
    while i < |existingGraphs|
      invariant 0 <= i <= |existingGraphs|
      invariant UniqueAmong(newGraph, existingGraphs) == UniqueAmong(newGraph, existingGraphs[i..])
    {
      var existingTriples := GetGraphTriples(existingGraphs[i]);
      assert existingGraphs[i..][1..] == existingGraphs[i + 1..];
      if newTriples == existingTriples {
        return false;
      }
      i := i + 1;
    }
    return true;
  }

  // ================================================================ deviation

  /** How many entries of `ts` occur nowhere in `orig` (presence only). */
  function Mismatches(ts: seq<Triple>, orig: seq<Triple>): (n: nat)
    ensures n <= |ts|
  {
    if ts == [] then 0
    else Mismatches(ts[..|ts| - 1], orig) + if ts[|ts| - 1] in orig then 0 else 1
  }

  /** No mismatch exactly when every entry occurs in `orig`; all mismatches
      exactly when none does. */
  lemma {:induction false} MismatchesExtremes(ts: seq<Triple>, orig: seq<Triple>)
    ensures Mismatches(ts, orig) == 0 <==> forall k | 0 <= k < |ts| :: ts[k] in orig
    ensures Mismatches(ts, orig) == |ts| <==> forall k | 0 <= k < |ts| :: ts[k] !in orig
  {
    if ts != [] {
      var init := ts[..|ts| - 1];
      MismatchesExtremes(init, orig);
      assert forall k | 0 <= k < |init| :: init[k] == ts[k];
    }
  }

  lemma MismatchesSnoc(ts: seq<Triple>, t: Triple, orig: seq<Triple>)
    ensures Mismatches(ts + [t], orig) == Mismatches(ts, orig) + if t in orig then 0 else 1
  {
    assert (ts + [t])[..|ts|] == ts;
  }

  /** Occurrence counts in the original play no part: only which triples occur. */
  lemma {:induction false} MismatchesPresenceOnly(ts: seq<Triple>, o1: seq<Triple>, o2: seq<Triple>)
    requires forall t :: t in o1 <==> t in o2
    ensures Mismatches(ts, o1) == Mismatches(ts, o2)
  {
    if ts != [] {
      MismatchesPresenceOnly(ts[..|ts| - 1], o1, o2);
    }
  }

  /** The fraction of the candidate's triples absent from the original. */
  function Deviation(candidate: Graph, original: Graph): (d: real)
    requires WellFormed(candidate) && WellFormed(original)
    requires |candidate.edges| == |original.edges| > 0
    ensures 0.0 <= d <= 1.0
  {
    var ts := GraphTriples(candidate);
    FractionBounds(Mismatches(ts, GraphTriples(original)), |ts|);
    Mismatches(ts, GraphTriples(original)) as real / |ts| as real
  }

  /** The deviation is 0 exactly when every triple of the candidate occurs in
      the original, and 1 exactly when none does. */
  lemma DeviationExtremes(candidate: Graph, original: Graph)
    requires WellFormed(candidate) && WellFormed(original)
    requires |candidate.edges| == |original.edges| > 0
    ensures Deviation(candidate, original) == 0.0 <==>
      forall t | t in GraphTriples(candidate) :: t in GraphTriples(original)
    ensures Deviation(candidate, original) == 1.0 <==>
      forall t | t in GraphTriples(candidate) :: t !in GraphTriples(original)
  {
    var ts := GraphTriples(candidate);
    FractionBounds(Mismatches(ts, GraphTriples(original)), |ts|);
    MismatchesExtremes(ts, GraphTriples(original));
    assert forall t | t in ts :: exists k | 0 <= k < |ts| :: ts[k] == t;
  }

  lemma FractionBounds(m: nat, n: nat)
    requires 0 < n && m <= n
    ensures 0.0 <= m as real / n as real <= 1.0
    ensures m as real / n as real == 0.0 <==> m == 0
    ensures m as real / n as real == 1.0 <==> m == n
  {
    var q := m as real / n as real;
    assert q * n as real == m as real;
  }

  /** `graph_deviation_from_original`: resolves both graphs to their triple
      lists, counts the candidate's triples missing from the original and
      divides by the number of triples. */
  method GraphDeviationFromOriginal(candidate: Graph, original: Graph) returns (pct: real)
    requires WellFormed(candidate) && WellFormed(original)
    requires |candidate.edges| == |original.edges|
    requires |candidate.edges| > 0
    ensures pct == Deviation(candidate, original)
    ensures 0.0 <= pct <= 1.0
  {
    var newTriples := GetGraphTriples(candidate);
    var originalTriples := GetGraphTriples(original);
    var deviationCount := CountMissing(newTriples, originalTriples);
    var totalTriples := |newTriples|;
    pct := deviationCount as real / totalTriples as real;
  }

  /** The two loops of `graph_deviation_from_original`: the original's
      triples are counted into a dictionary, then every triple of the
      candidate that is not a key of it adds one. */
  method CountMissing(newTriples: seq<Triple>, originalTriples: seq<Triple>) returns (deviationCount: nat)
    ensures deviationCount == Mismatches(newTriples, originalTriples)
  {
    var counts: map<Triple, nat> := map[];
    var i := 0;
    while i < |originalTriples|
      invariant 0 <= i <= |originalTriples|
      invariant forall t :: t in counts <==> t in originalTriples[..i]
      invariant forall t | t in counts :: counts[t] == multiset(originalTriples[..i])[t]
    {
      var t := originalTriples[i];
      assert originalTriples[..i + 1] == originalTriples[..i] + [t];
      counts := counts[t := (if t in counts then counts[t] else 0) + 1];
      i := i + 1;
    }
    assert originalTriples[..i] == originalTriples;
    deviationCount := 0;
    var j := 0;
    while j < |newTriples|
      invariant 0 <= j <= |newTriples|
      invariant deviationCount == Mismatches(newTriples[..j], originalTriples)
    {
      assert newTriples[..j + 1] == newTriples[..j] + [newTriples[j]];
      MismatchesSnoc(newTriples[..j], newTriples[j], originalTriples);
      if newTriples[j] !in counts {
        deviationCount := deviationCount + 1;
      }
      j := j + 1;
    }
    assert newTriples[..j] == newTriples;
  }

  /** The worked example: swapping the ids of B and C in A->B->C relabels both
      edges, giving (A, causes, C) and (C, causes, B), so both triples are
      new and the deviation is 2/2. */
  lemma SwapExample()
    ensures var g := Graph([Node(1, "A"), Node(2, "B"), Node(3, "C")],
                           [Edge(1, 2, "causes"), Edge(2, 3, "causes")]);
            var p := Permuted(g, [2, 3], [3, 2]);
            && WellFormed(g) && WellFormed(p)
            && GraphTriples(g) == [("A", "causes", "B"), ("B", "causes", "C")]
            && GraphTriples(p) == [("A", "causes", "C"), ("C", "causes", "B")]
            && Deviation(p, g) == 1.0
  {
    var edges := [Edge(1, 2, "causes"), Edge(2, 3, "causes")];
    var g := Graph([Node(1, "A"), Node(2, "B"), Node(3, "C")], edges);
    var p := Permuted(g, [2, 3], [3, 2]);
    SwapExampleNodes(edges);
    ExampleTriples(g, 2, 3);
    ExampleTriples(p, 3, 2);
    ExampleDeviation(p, g);
  }

  lemma ExampleDeviation(p: Graph, g: Graph)
    requires WellFormed(p) && WellFormed(g) && |p.edges| == |g.edges| > 0
    requires GraphTriples(g) == [("A", "causes", "B"), ("B", "causes", "C")]
    requires GraphTriples(p) == [("A", "causes", "C"), ("C", "causes", "B")]
    ensures Deviation(p, g) == 1.0
  {
    var tp, tg := GraphTriples(p), GraphTriples(g);
    assert tp[0] !in tg && tp[1] !in tg;
    DeviationExtremes(p, g);
  }

  lemma SwapExampleNodes(edges: seq<Edge>)
    ensures Permuted(Graph([Node(1, "A"), Node(2, "B"), Node(3, "C")], edges), [2, 3], [3, 2])
         == Graph([Node(1, "A"), Node(3, "B"), Node(2, "C")], edges)
  {
    assert IdMapping([2, 3], [3, 2]) == map[2 := 3, 3 := 2];
  }

  /** The triples of A->B->C when B and C carry the ids `b` and `c`. */
  lemma ExampleTriples(g: Graph, b: int, c: int)
    requires g == Graph([Node(1, "A"), Node(b, "B"), Node(c, "C")],
                        [Edge(1, 2, "causes"), Edge(2, 3, "causes")])
    requires {b, c} == {2, 3} && b != c
    ensures WellFormed(g)
    ensures GraphTriples(g) == [("A", "causes", if b == 2 then "B" else "C"),
                                (if b == 2 then "B" else "C", "causes", if b == 2 then "C" else "B")]
  {
    ExampleLabels(g.nodes, b, c);
    var u := UnsortedTriples(g);
    assert u[0] == ("A", "causes", LabelMap(g.nodes)[2]);
    assert u[1] == (LabelMap(g.nodes)[2], "causes", LabelMap(g.nodes)[3]);
    assert TripleLe(u[0], u[1]) by {
      assert StrLe("A", LabelMap(g.nodes)[2]);
    }
    SortSorted(u);
  }

  /** Label map and id set of the three-node lists of the example. */
  lemma ExampleLabels(nodes: seq<Node>, b: int, c: int)
    requires nodes == [Node(1, "A"), Node(b, "B"), Node(c, "C")]
    requires b != 1 && c != 1 && b != c
    ensures IdsOf(nodes) == {1, b, c}
    ensures LabelMap(nodes) == map[1 := "A", b := "B", c := "C"]
  {
    assert nodes[..2] == [Node(1, "A"), Node(b, "B")];
    assert nodes[..2][..1] == [Node(1, "A")];
    assert LabelMap([Node(1, "A")]) == map[1 := "A"];
  }
}
