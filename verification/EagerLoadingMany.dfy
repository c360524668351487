/** The to-many loaders: rows with a foreign key to the node, and the join of
    accounts with groups (backend/ent/account_query.go:714-774, 839-993). */
module EagerLoadingMany {
  import opened EagerLoading

  lemma DistinctIdsAreDistinctNodes(nodes: seq<Node>)
    requires DistinctIds(nodes)
    ensures forall n, m :: n in nodes && m in nodes && n.id == m.id ==> n == m
  {}

  // -------------------------------------------------------------- one to many

  /** A node's edges once the rows have been scattered: exactly the subsequence
      of rows whose key is its id. */
  function ManyAfter(n: Node, before: Edges, e: Edge, col: ForeignKey, rows: seq<Node>): Edges {
    before.(many := before.many[e := KeyedBy(rows, col, n.id)])
  }

  ghost predicate ScatteredMany(nodes: seq<Node>, before: map<Node, Edges>, e: Edge, col: ForeignKey, rows: seq<Node>)
    reads set n | n in nodes
  {
    forall n :: n in nodes ==> n in before && n.edges == ManyAfter(n, before[n], e, col, rows)
  }

  ghost predicate IndexesById(nodes: seq<Node>, nodeids: map<int64, Node>) {
    && (forall n :: n in nodes ==> n.id in nodeids && nodeids[n.id] == n)
    && (forall k :: k in nodeids ==> nodeids[k] in nodes && nodeids[k].id == k)
  }

  /** The first loop: index by id, and an empty edge for every node. */
  method InitMany(nodes: seq<Node>, e: Edge) returns (nodeids: map<int64, Node>)
    requires DistinctIds(nodes)
    modifies set n | n in nodes
    ensures IndexesById(nodes, nodeids)
    ensures forall n :: n in nodes ==> n.edges == old(n.edges).(many := old(n.edges).many[e := []])
  {
    nodeids := map[];
    for i := 0 to |nodes|
      invariant IndexesById(nodes[..i], nodeids)
      invariant forall n :: n in nodes ==>
        n.edges == if n in nodes[..i] then old(n.edges).(many := old(n.edges).many[e := []]) else old(n.edges)
    {
      assert nodes[i] in nodes;
      assert nodes[..i + 1] == nodes[..i] + [nodes[i]];
      forall n | n in nodes[..i] ensures n.id != nodes[i].id {
        var j :| 0 <= j < i && nodes[j] == n;
      }
      nodeids := nodeids[nodes[i].id := nodes[i]];
      nodes[i].edges := nodes[i].edges.(many := nodes[i].edges.many[e := []]);
    }
    assert nodes[..|nodes|] == nodes;
  }

  lemma ManyAfterSnoc(n: Node, before: Edges, e: Edge, col: ForeignKey, rows: seq<Node>, j: nat)
    requires j < |rows|
    ensures ManyAfter(n, before, e, col, rows[..j + 1]) ==
            if HasKey(rows[j], col, n.id)
            then before.(many := before.many[e := KeyedBy(rows[..j], col, n.id) + [rows[j]]])
            else ManyAfter(n, before, e, col, rows[..j])
  {
    assert rows[..j + 1] == rows[..j] + [rows[j]];
    KeyedBySnoc(rows[..j], rows[j], col, n.id);
    assert KeyedBy(rows[..j], col, n.id) + [] == KeyedBy(rows[..j], col, n.id);
  }

  method AppendRow(nodes: seq<Node>, nodeids: map<int64, Node>, ghost before: map<Node, Edges>,
                   e: Edge, col: ForeignKey, rows: seq<Node>, j: nat)
    requires j < |rows| && IndexesById(nodes, nodeids)
    requires col in rows[j].keys && rows[j].keys[col] in nodeids
    requires ScatteredMany(nodes, before, e, col, rows[..j])
    modifies set n | n in nodes
    ensures ScatteredMany(nodes, before, e, col, rows[..j + 1])
  {
    forall n | n in nodes {
      ManyAfterSnoc(n, before[n], e, col, rows, j);
    }
    var node := nodeids[rows[j].keys[col]];
    node.edges := node.edges.(many := node.edges.many[e := node.edges.many[e] + [rows[j]]]);
  }

  /** The row's key is the id of one of the nodes. */
  ghost predicate Belongs(row: Node, nodes: seq<Node>, col: ForeignKey) {
    exists n :: n in nodes && HasKey(row, col, n.id)
  }

  lemma BelongsWhenIndexed(nodes: seq<Node>, nodeids: map<int64, Node>, row: Node, col: ForeignKey)
    requires IndexesById(nodes, nodeids)
    ensures Belongs(row, nodes, col) <==> col in row.keys && row.keys[col] in nodeids
  {
    if col in row.keys && row.keys[col] in nodeids {
      assert HasKey(row, col, nodeids[row.keys[col]].id);
    }
  }

  /** Every row scattered belongs to a node; the first that does not ends the loader. */
  ghost predicate ManyVerdict(nodes: seq<Node>, col: ForeignKey, rows: seq<Node>, scattered: nat, failed: bool) {
    && scattered <= |rows|
    && (forall j :: 0 <= j < scattered ==> Belongs(rows[j], nodes, col))
    && (failed <==> scattered < |rows|)
    && (scattered < |rows| ==> !Belongs(rows[scattered], nodes, col))
  }

  /** The scatter loop; it stops at the first row that belongs to no node. */
  method AppendRows(nodes: seq<Node>, nodeids: map<int64, Node>, ghost before: map<Node, Edges>,
                    e: Edge, col: ForeignKey, rows: seq<Node>)
    returns (scattered: nat, failed: bool)
    requires IndexesById(nodes, nodeids)
    requires ScatteredMany(nodes, before, e, col, [])
    modifies set n | n in nodes
    ensures ManyVerdict(nodes, col, rows, scattered, failed)
    ensures ScatteredMany(nodes, before, e, col, rows[..scattered])
  {
    scattered, failed := 0, false;
    assert rows[..0] == [];
    while scattered < |rows|
      invariant scattered <= |rows| && forall j :: 0 <= j < scattered ==> Belongs(rows[j], nodes, col)
      invariant ScatteredMany(nodes, before, e, col, rows[..scattered])
    {
      var row := rows[scattered];
      BelongsWhenIndexed(nodes, nodeids, row, col);
      if col !in row.keys || row.keys[col] !in nodeids {
        failed := true;
        return;
      }
      AppendRow(nodes, nodeids, before, e, col, rows, scattered);
      scattered := scattered + 1;
    }
  }

  /** loadEndpointProbes, loadChildren, loadUsageLogs and loadAccountGroups. */
  method LoadToMany(nodes: seq<Node>, e: Edge, col: ForeignKey, neighbors: seq<Node>)
    returns (scattered: nat, failed: bool)
    requires DistinctIds(nodes)
    modifies set n | n in nodes
    ensures ManyVerdict(nodes, col, neighbors, scattered, failed)
    ensures ScatteredMany(nodes, old(EdgesOf(nodes)), e, col, neighbors[..scattered])
  {
    ghost var before := EdgesOf(nodes);
    var nodeids := InitMany(nodes, e);
    scattered, failed := AppendRows(nodes, nodeids, before, e, col, neighbors);
  }

  // ------------------------------------------------------------- many to many

  /** A row of the join: the account id selected in front of the group's columns. */
  datatype JoinRow = JoinRow(account: int64, group: int64)

  /** The different groups of the rows, in order of first appearance. */
  function FirstSeen(rows: seq<JoinRow>): seq<int64> {
    if rows == [] then [] else
      var last, rest := rows[|rows| - 1].group, FirstSeen(rows[..|rows| - 1]);
      if last in rest then rest else rest + [last]
  }

  /** The neighbours joined with account `a`, in their order. */
  function Joined(neighbors: seq<Node>, rows: seq<JoinRow>, a: int64): seq<Node> {
    if neighbors == [] then [] else
      var last := neighbors[|neighbors| - 1];
      Joined(neighbors[..|neighbors| - 1], rows, a) + if JoinRow(a, last.id) in rows then [last] else []
  }

  lemma FirstSeenSnoc(rows: seq<JoinRow>, r: JoinRow)
    ensures FirstSeen(rows + [r]) == if r.group in FirstSeen(rows) then FirstSeen(rows) else FirstSeen(rows) + [r.group]
  {
    assert (rows + [r])[..|rows|] == rows;
  }

  lemma JoinedSnoc(neighbors: seq<Node>, g: Node, rows: seq<JoinRow>, a: int64)
    ensures Joined(neighbors + [g], rows, a) ==
            if JoinRow(a, g.id) in rows then Joined(neighbors, rows, a) + [g] else Joined(neighbors, rows, a)
  {
    assert (neighbors + [g])[..|neighbors|] == neighbors;
    assert Joined(neighbors, rows, a) + [] == Joined(neighbors, rows, a);
  }

  lemma {:induction false} FirstSeenExact(rows: seq<JoinRow>)
    ensures NoDuplicates(FirstSeen(rows))
    ensures forall g :: g in FirstSeen(rows) <==> exists a :: JoinRow(a, g) in rows
    decreases |rows|
  {
    if rows != [] {
      var rest, last := rows[..|rows| - 1], rows[|rows| - 1];
      FirstSeenExact(rest);
      assert rows == rest + [last];
      forall g ensures g in FirstSeen(rows) <==> exists a :: JoinRow(a, g) in rows {
        if g in FirstSeen(rest) {
          var a :| JoinRow(a, g) in rest;
          assert JoinRow(a, g) in rows;
        }
        if g == last.group {
          assert JoinRow(last.account, g) in rows;
        }
        if a :| JoinRow(a, g) in rows {
          assert JoinRow(a, g) in rest || JoinRow(a, g) == last;
        }
      }
    }
  }

  /** The position of the first row of a group. */
  ghost predicate FirstRowOf(rows: seq<JoinRow>, g: int64, p: nat) {
    p < |rows| && rows[p].group == g && forall q :: 0 <= q < p ==> rows[q].group != g
  }

  /** FirstSeen is ordered by first rows. */
  lemma {:induction false} FirstSeenOrder(rows: seq<JoinRow>, i: nat, j: nat, p: nat, q: nat)
    requires i < j < |FirstSeen(rows)|
    requires FirstRowOf(rows, FirstSeen(rows)[i], p) && FirstRowOf(rows, FirstSeen(rows)[j], q)
    ensures p < q
    decreases |rows|
  {
    var rest, last := rows[..|rows| - 1], rows[|rows| - 1];
    assert rows == rest + [last];
    var seen := FirstSeen(rest);
    FirstSeenExact(rest);
    assert seen[i] in seen;
    var a :| JoinRow(a, seen[i]) in rest;
    assert p < |rest| by {
      var k :| 0 <= k < |rest| && rest[k] == JoinRow(a, seen[i]);
    }
    if j < |seen| {
      assert seen[j] in seen;
      var b :| JoinRow(b, seen[j]) in rest;
      assert q < |rest| by {
        var k :| 0 <= k < |rest| && rest[k] == JoinRow(b, seen[j]);
      }
      FirstSeenOrder(rest, i, j, p, q);
    } else {
      forall k | 0 <= k < |rest| ensures rest[k].group != last.group {
        assert JoinRow(rest[k].account, rest[k].group) in rest;
      }
      assert q == |rest|;
    }
  }

  lemma {:induction false} JoinedMembers(neighbors: seq<Node>, rows: seq<JoinRow>, a: int64)
    ensures forall i :: 0 <= i < |Joined(neighbors, rows, a)| ==>
              Joined(neighbors, rows, a)[i] in neighbors && JoinRow(a, Joined(neighbors, rows, a)[i].id) in rows
    ensures forall k :: 0 <= k < |neighbors| && JoinRow(a, neighbors[k].id) in rows ==>
              neighbors[k] in Joined(neighbors, rows, a)
    decreases |neighbors|
  {
    if neighbors != [] {
      var rest, last := neighbors[..|neighbors| - 1], neighbors[|neighbors| - 1];
      JoinedMembers(rest, rows, a);
      assert neighbors == rest + [last];
    } else {
      assert |neighbors| == 0 && Joined(neighbors, rows, a) == [];
    }
  }

  lemma {:induction false} JoinedDistinct(neighbors: seq<Node>, rows: seq<JoinRow>, a: int64)
    requires DistinctIds(neighbors)
    ensures DistinctIds(Joined(neighbors, rows, a))
    decreases |neighbors|
  {
    if neighbors != [] {
      var rest, last := neighbors[..|neighbors| - 1], neighbors[|neighbors| - 1];
      JoinedDistinct(rest, rows, a);
      JoinedMembers(rest, rows, a);
      var l := Joined(rest, rows, a);
      forall i | 0 <= i < |l| ensures l[i].id != last.id {
        var k :| 0 <= k < |rest| && rest[k] == l[i];
      }
    } else {
      assert Joined(neighbors, rows, a) == [];
    }
  }

  /** What the join query filled: the groups by first row, and for each group
      the accounts it was joined with. */
  ghost predicate Collected(nodes: seq<Node>, rows: seq<JoinRow>, neighbors: seq<Node>, nids: map<int64, set<Node>>) {
    && Ids(neighbors) == FirstSeen(rows)
    && (forall g :: g in nids <==> g in FirstSeen(rows))
    && (forall g :: g in nids ==> forall n :: n in nids[g] ==> n in nodes && JoinRow(n.id, g) in rows)
    && (forall g :: g in nids ==> forall n :: n in nodes && JoinRow(n.id, g) in rows ==> n in nids[g])
  }

  lemma IdsSnoc(neighbors: seq<Node>, g: Node)
    ensures Ids(neighbors + [g]) == Ids(neighbors) + [g.id]
  {}

  lemma CollectedJoin(nodes: seq<Node>, rows: seq<JoinRow>, neighbors: seq<Node>, nids: map<int64, set<Node>>,
                      r: JoinRow, node: Node)
    requires Collected(nodes, rows, neighbors, nids)
    requires node in nodes && node.id == r.account
    requires forall n :: n in nodes && n.id == node.id ==> n == node
    requires r.group in nids
    ensures Collected(nodes, rows + [r], neighbors, nids[r.group := nids[r.group] + {node}])
  {
    FirstSeenSnoc(rows, r);
    assert forall x :: x in rows + [r] <==> x in rows || x == r;
  }

  lemma CollectedNew(nodes: seq<Node>, rows: seq<JoinRow>, neighbors: seq<Node>, nids: map<int64, set<Node>>,
                     r: JoinRow, node: Node, g: Node)
    requires Collected(nodes, rows, neighbors, nids)
    requires node in nodes && node.id == r.account
    requires forall n :: n in nodes && n.id == node.id ==> n == node
    requires r.group !in nids && g.id == r.group
    ensures Collected(nodes, rows + [r], neighbors + [g], nids[r.group := {node}])
  {
    FirstSeenSnoc(rows, r);
    FirstSeenExact(rows);
    IdsSnoc(neighbors, g);
    assert forall x :: x in rows + [r] <==> x in rows || x == r;
  }

  /** The rows of the join query, read one by one: a group becomes a node the
      first time it appears. */
  method ReadJoin(nodes: seq<Node>, byID: map<int64, Node>, rows: seq<JoinRow>)
    returns (neighbors: seq<Node>, nids: map<int64, set<Node>>)
    requires DistinctIds(nodes) && IndexesById(nodes, byID)
    requires forall r :: r in rows ==> r.account in Ids(nodes)
    ensures Collected(nodes, rows, neighbors, nids)
    ensures fresh(set g | g in neighbors)
  {
    neighbors, nids := [], map[];
    DistinctIdsAreDistinctNodes(nodes);
    for i := 0 to |rows|
      invariant Collected(nodes, rows[..i], neighbors, nids)
      invariant fresh(set g | g in neighbors)
    {
      var r := rows[i];
      assert rows[..i + 1] == rows[..i] + [r];
      assert r in rows;
      var k :| 0 <= k < |nodes| && Ids(nodes)[k] == r.account;
      assert nodes[k] in nodes;
      var node := byID[r.account];
      if r.group !in nids {
        var g := new Node(r.group, map[]);
        CollectedNew(nodes, rows[..i], neighbors, nids, r, node, g);
        nids := nids[r.group := {node}];
        neighbors := neighbors + [g];
      } else {
        CollectedJoin(nodes, rows[..i], neighbors, nids, r, node);
        nids := nids[r.group := nids[r.group] + {node}];
      }
    }
    assert rows[..|rows|] == rows;
  }

  function GroupsAfter(n: Node, before: Edges, neighbors: seq<Node>, rows: seq<JoinRow>): Edges {
    before.(many := before.many[Groups := Joined(neighbors, rows, n.id)])
  }

  ghost predicate ScatteredGroups(nodes: seq<Node>, before: map<Node, Edges>, neighbors: seq<Node>, rows: seq<JoinRow>)
    reads set n | n in nodes
  {
    forall n :: n in nodes ==> n in before && n.edges == GroupsAfter(n, before[n], neighbors, rows)
  }

  /** `for kn := range nodes { assign(kn, n) }`: the map is walked in any order. */
  method AssignGroup(accounts: set<Node>, g: Node)
    requires forall n :: n in accounts ==> Groups in n.edges.many
    modifies accounts
    ensures forall n :: n in accounts ==>
              n.edges == old(n.edges).(many := old(n.edges).many[Groups := old(n.edges).many[Groups] + [g]])
  {
    var todo := accounts;
    while todo != {}
      invariant todo <= accounts
      invariant forall n :: n in todo ==> n.edges == old(n.edges)
      invariant forall n :: n in accounts - todo ==>
        n.edges == old(n.edges).(many := old(n.edges).many[Groups := old(n.edges).many[Groups] + [g]])
      decreases |todo|
    {
      var n :| n in todo;
      todo := todo - {n};
      n.edges := n.edges.(many := n.edges.many[Groups := n.edges.many[Groups] + [g]]);
    }
  }

  method ScatterGroup(nodes: seq<Node>, accounts: set<Node>, ghost before: map<Node, Edges>,
                      neighbors: seq<Node>, j: nat, ghost rows: seq<JoinRow>)
    requires j < |neighbors|
    requires forall n :: n in accounts ==> n in nodes && JoinRow(n.id, neighbors[j].id) in rows
    requires forall n :: n in nodes && JoinRow(n.id, neighbors[j].id) in rows ==> n in accounts
    requires ScatteredGroups(nodes, before, neighbors[..j], rows)
    modifies set n | n in nodes
    ensures ScatteredGroups(nodes, before, neighbors[..j + 1], rows)
  {
    assert neighbors[..j + 1] == neighbors[..j] + [neighbors[j]];
    AssignGroup(accounts, neighbors[j]);
    forall n | n in nodes ensures n.edges == GroupsAfter(n, before[n], neighbors[..j + 1], rows) {
      JoinedSnoc(neighbors[..j], neighbors[j], rows, n.id);
    }
  }

  /** loadGroups. The IN filter of the query means that every row is of one of
      the nodes. Each node gets exactly the groups it is joined with; the group
      nodes are shared and stand in order of their first row. */
  method LoadGroups(nodes: seq<Node>, rows: seq<JoinRow>) returns (neighbors: seq<Node>)
    requires DistinctIds(nodes)
    requires forall r :: r in rows ==> r.account in Ids(nodes)
    modifies set n | n in nodes
    ensures Ids(neighbors) == FirstSeen(rows) && fresh(set g | g in neighbors)
    ensures ScatteredGroups(nodes, old(EdgesOf(nodes)), neighbors, rows)
  {
    ghost var before := EdgesOf(nodes);
    var byID := InitMany(nodes, Groups);
    var nids;
    neighbors, nids := ReadJoin(nodes, byID, rows);
    assert neighbors[..0] == [];
    for j := 0 to |neighbors|
      invariant ScatteredGroups(nodes, before, neighbors[..j], rows)
    {
      assert Ids(neighbors)[j] in FirstSeen(rows);
      ScatterGroup(nodes, nids[neighbors[j].id], before, neighbors, j, rows);
    }
    assert neighbors[..|neighbors|] == neighbors;
  }
}
