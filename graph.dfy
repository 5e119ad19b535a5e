/** The knowledge-graph data model: nodes with an integer id and a string
    label, directed labelled edges that refer to nodes by id, and the two ways
    the engine turns an id back into a label. A graph is a value: Python's
    `copy.deepcopy` of a graph is the same value here, so no copy can alias
    the input. */
module KnowledgeGraph {

  datatype Node = Node(id: int, text: string)

  datatype Edge = Edge(source: int, target: int, relation: string)

  datatype Graph = Graph(nodes: seq<Node>, edges: seq<Edge>)

  /** The ids carried by a list of nodes. */
  function IdsOf(nodes: seq<Node>): set<int>
  {
    set n | n in nodes :: n.id
  }

  /** The ids of a graph's nodes, in node order. */
  function IdList(g: Graph): seq<int>
  {
    seq(|g.nodes|, i requires 0 <= i < |g.nodes| => g.nodes[i].id)
  }

  /** Every edge endpoint names a node of the graph; on any other graph
      resolving the edges to labels raises a KeyError. */
  predicate WellFormed(g: Graph)
  {
    forall e | e in g.edges :: e.source in IdsOf(g.nodes) && e.target in IdsOf(g.nodes)
  }

  lemma IdsOfSnoc(nodes: seq<Node>, n: Node)
    ensures IdsOf(nodes + [n]) == IdsOf(nodes) + {n.id}
  {
    assert forall m :: m in nodes + [n] <==> m in nodes || m == n;
  }

  /** `{node["id"]: node["label"] for node in nodes}`: each node in turn
      overwrites the entry for its id, so the last node with an id wins. */
  function LabelMap(nodes: seq<Node>): (m: map<int, string>)
    ensures m.Keys == IdsOf(nodes)
  {
    if nodes == [] then map[]
    else
      var last := nodes[|nodes| - 1];
      assert nodes == nodes[..|nodes| - 1] + [last];
      IdsOfSnoc(nodes[..|nodes| - 1], last);
      LabelMap(nodes[..|nodes| - 1])[last.id := last.text]
  }

  /** A duplicated id resolves to the label of the last node carrying it. */
  lemma {:induction false} LabelMapLastWins(nodes: seq<Node>, i: nat)
    requires i < |nodes|
    requires forall j | i < j < |nodes| :: nodes[j].id != nodes[i].id
    ensures nodes[i].id in LabelMap(nodes) && LabelMap(nodes)[nodes[i].id] == nodes[i].text
  {
    if i < |nodes| - 1 {
      LabelMapLastWins(nodes[..|nodes| - 1], i);
    }
  }

  /** `[node["label"] for node in nodes if node["id"] == x][0]`: the label of
      the first node carrying `x`; with no such node the source raises an
      IndexError. */
  function FirstLabel(nodes: seq<Node>, x: int): (l: string)
    requires x in IdsOf(nodes)
    ensures exists i | 0 <= i < |nodes| ::
      nodes[i].id == x && nodes[i].text == l && forall j | 0 <= j < i :: nodes[j].id != x
  {
    if nodes[0].id == x then nodes[0].text
    else
      assert x in IdsOf(nodes[1..]) by {
        var n :| n in nodes && n.id == x;
        assert n in nodes[1..] by {
          assert nodes == [nodes[0]] + nodes[1..];
        }
      }
      var l := FirstLabel(nodes[1..], x);
      assert exists i | 0 <= i < |nodes[1..]| ::
        nodes[1..][i].id == x && nodes[1..][i].text == l && forall j | 0 <= j < i :: nodes[1..][j].id != x;
      var i :| 0 <= i < |nodes[1..]| &&
        nodes[1..][i].id == x && nodes[1..][i].text == l && forall j | 0 <= j < i :: nodes[1..][j].id != x;
      assert nodes[i + 1].id == x && nodes[i + 1].text == l;
      assert forall j | 0 <= j < i + 1 :: nodes[j].id != x by {
        forall j | 0 <= j < i + 1 ensures nodes[j].id != x {
          if j > 0 {
            assert nodes[j] == nodes[1..][j - 1];
          }
        }
      }
      l
  }

  /** When ids are unique both lookups agree: the first node with an id is
      also the last one. */
  lemma FirstLabelIsLabelMap(nodes: seq<Node>, x: int)
    requires x in IdsOf(nodes)
    requires forall i, j | 0 <= i < j < |nodes| :: nodes[i].id != nodes[j].id
    ensures LabelMap(nodes)[x] == FirstLabel(nodes, x)
  {
    var i :| 0 <= i < |nodes| && nodes[i].id == x && nodes[i].text == FirstLabel(nodes, x);
    LabelMapLastWins(nodes, i);
  }
}
