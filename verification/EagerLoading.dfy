/** Batched eager loading of account edges: one query per edge, its rows
    scattered over the nodes through an index of ids
    (backend/ent/account_query.go:714-993). */
module EagerLoading {
  import opened Wrappers

  type int64 = x: int | -0x8000_0000_0000_0000 <= x < 0x8000_0000_0000_0000

  datatype Edge = Groups | Proxy | Connection | EndpointProbes | Parent | Children | UsageLogs | AccountGroups

  datatype ForeignKey = ProxyId | ConnectionId | ParentAccountId | AccountId

  /** The Edges struct of an entity: an absent to-one edge is nil, an absent
      to-many edge has not been initialized. */
  datatype Edges = Edges(one: map<Edge, Node>, many: map<Edge, seq<Node>>)

  /** A loaded entity. `keys` holds its non-null foreign keys. */
  class Node {
    const id: int64
    const keys: map<ForeignKey, int64>
    var edges: Edges

    constructor (id: int64, keys: map<ForeignKey, int64>)
      ensures this.id == id && this.keys == keys && edges == Edges(map[], map[])
    {
      this.id, this.keys, edges := id, keys, Edges(map[], map[]);
    }
  }

  ghost predicate DistinctIds(nodes: seq<Node>) {
    forall i, j :: 0 <= i < j < |nodes| ==> nodes[i].id != nodes[j].id
  }

  ghost predicate NoDuplicates(ids: seq<int64>) {
    forall i, j :: 0 <= i < j < |ids| ==> ids[i] != ids[j]
  }

  function Ids(nodes: seq<Node>): (ids: seq<int64>)
    ensures |ids| == |nodes| && forall i :: 0 <= i < |nodes| ==> ids[i] == nodes[i].id
  {
    seq(|nodes|, i requires 0 <= i < |nodes| => nodes[i].id)
  }

  predicate HasKey(n: Node, col: ForeignKey, k: int64) {
    col in n.keys && n.keys[col] == k
  }

  /** The subsequence of the nodes whose foreign key is `k`. */
  function KeyedBy(nodes: seq<Node>, col: ForeignKey, k: int64): seq<Node> {
    if nodes == [] then [] else
      var last := nodes[|nodes| - 1];
      KeyedBy(nodes[..|nodes| - 1], col, k) + if HasKey(last, col, k) then [last] else []
  }

  lemma {:induction false} KeyedByMembers(nodes: seq<Node>, col: ForeignKey, k: int64)
    ensures forall n :: n in KeyedBy(nodes, col, k) <==> n in nodes && HasKey(n, col, k)
    decreases |nodes|
  {
    if nodes != [] {
      var rest, last := nodes[..|nodes| - 1], nodes[|nodes| - 1];
      KeyedByMembers(rest, col, k);
      assert nodes == rest + [last];
    }
  }

  lemma KeyedBySnoc(nodes: seq<Node>, n: Node, col: ForeignKey, k: int64)
    ensures KeyedBy(nodes + [n], col, k) == KeyedBy(nodes, col, k) + if HasKey(n, col, k) then [n] else []
  {
    assert (nodes + [n])[..|nodes|] == nodes;
  }

  /** The different foreign keys, in order of first appearance. */
  function KeysOf(nodes: seq<Node>, col: ForeignKey): seq<int64> {
    if nodes == [] then [] else
      var last, rest := nodes[|nodes| - 1], KeysOf(nodes[..|nodes| - 1], col);
      if col in last.keys && last.keys[col] !in rest then rest + [last.keys[col]] else rest
  }

  lemma KeysOfSnoc(nodes: seq<Node>, n: Node, col: ForeignKey)
    ensures KeysOf(nodes + [n], col) ==
            if col in n.keys && n.keys[col] !in KeysOf(nodes, col) then KeysOf(nodes, col) + [n.keys[col]]
            else KeysOf(nodes, col)
  {
    assert (nodes + [n])[..|nodes|] == nodes;
  }

  /** The queried ids: no duplicates, and exactly the non-nil keys. */
  lemma {:induction false} KeysOfExact(nodes: seq<Node>, col: ForeignKey)
    ensures NoDuplicates(KeysOf(nodes, col))
    ensures forall k :: k in KeysOf(nodes, col) <==> exists n :: n in nodes && HasKey(n, col, k)
    decreases |nodes|
  {
    if nodes != [] {
      var rest, last := nodes[..|nodes| - 1], nodes[|nodes| - 1];
      KeysOfExact(rest, col);
      assert nodes == rest + [last];
      forall k ensures k in KeysOf(nodes, col) <==> exists n :: n in nodes && HasKey(n, col, k) {
        if k in KeysOf(rest, col) {
          var n :| n in rest && HasKey(n, col, k);
          assert n in nodes;
        }
        if HasKey(last, col, k) {
          assert last in nodes;
        }
      }
    }
  }

  /** The row a key refers to: with repeated ids, the last one returned. */
  function RowWithId(rows: seq<Node>, id: int64): Option<Node> {
    if rows == [] then None
    else if rows[|rows| - 1].id == id then Some(rows[|rows| - 1])
    else RowWithId(rows[..|rows| - 1], id)
  }

  lemma RowWithIdSnoc(rows: seq<Node>, i: nat, id: int64)
    requires i < |rows|
    ensures RowWithId(rows[..i + 1], id) ==
            if rows[i].id == id then Some(rows[i]) else RowWithId(rows[..i], id)
  {
    assert rows[..i + 1][..i] == rows[..i];
  }

  /** Over distinct ids the lookup is the obvious one. */
  lemma {:induction false} RowWithIdExact(rows: seq<Node>, id: int64)
    requires DistinctIds(rows)
    ensures forall r :: RowWithId(rows, id) == Some(r) <==> r in rows && r.id == id
    ensures RowWithId(rows, id) == None <==> forall r :: r in rows ==> r.id != id
    decreases |rows|
  {
    if rows != [] {
      var rest, last := rows[..|rows| - 1], rows[|rows| - 1];
      RowWithIdExact(rest, id);
      assert rows == rest + [last];
      assert forall r :: r in rest ==> r.id != last.id;
    }
  }

  // ------------------------------------------------------------- to-one edges

  /** Edge `e` points at the row, if there is one, and is as before otherwise;
      every other edge is as before. */
  ghost predicate EdgeSet(before: Edges, after: Edges, e: Edge, row: Option<Node>) {
    && after.many == before.many
    && (forall d :: d != e ==> SameEdge(before.one, after.one, d))
    && (row.Some? ==> e in after.one && after.one[e] == row.value)
    && (row.None? ==> SameEdge(before.one, after.one, e))
  }

  ghost predicate SameEdge(before: map<Edge, Node>, after: map<Edge, Node>, d: Edge) {
    (d in before <==> d in after) && (d in before && d in after ==> before[d] == after[d])
  }

  lemma EdgeSetTwice(a: Edges, b: Edges, c: Edges, e: Edge, earlier: Option<Node>, row: Node)
    requires EdgeSet(a, b, e, earlier) && EdgeSet(b, c, e, Some(row))
    ensures EdgeSet(a, c, e, Some(row))
  {
    forall d | d != e ensures SameEdge(a.one, c.one, d) {
      assert SameEdge(a.one, b.one, d) && SameEdge(b.one, c.one, d);
    }
  }

  lemma EdgeSetHere(a: Edges, e: Edge, row: Node)
    ensures EdgeSet(a, a, e, None)
    ensures EdgeSet(a, a.(one := a.one[e := row]), e, Some(row))
  {}

  /** The row that a node's key refers to. */
  function Referred(n: Node, col: ForeignKey, rows: seq<Node>): Option<Node> {
    if col in n.keys then RowWithId(rows, n.keys[col]) else None
  }

  /** The index of a to-one loader: the ids to query, and the nodes per id. */
  ghost predicate Indexed(nodes: seq<Node>, col: ForeignKey, ids: seq<int64>, nodeids: map<int64, seq<Node>>) {
    && ids == KeysOf(nodes, col)
    && (forall k :: k in nodeids <==> k in ids)
    && (forall k :: KeyedBy(nodes, col, k) == if k in nodeids then nodeids[k] else [])
  }

  lemma IndexSkip(nodes: seq<Node>, n: Node, col: ForeignKey, ids: seq<int64>, nodeids: map<int64, seq<Node>>)
    requires Indexed(nodes, col, ids, nodeids) && col !in n.keys
    ensures Indexed(nodes + [n], col, ids, nodeids)
  {
    KeysOfSnoc(nodes, n, col);
    forall k {
      KeyedBySnoc(nodes, n, col, k);
    }
  }

  lemma IndexAdd(nodes: seq<Node>, n: Node, col: ForeignKey, ids: seq<int64>, nodeids: map<int64, seq<Node>>)
    requires Indexed(nodes, col, ids, nodeids) && col in n.keys
    ensures var fk := n.keys[col];
            if fk in nodeids then Indexed(nodes + [n], col, ids, nodeids[fk := nodeids[fk] + [n]])
            else Indexed(nodes + [n], col, ids + [fk], nodeids[fk := [n]])
  {
    KeysOfSnoc(nodes, n, col);
    forall k {
      KeyedBySnoc(nodes, n, col, k);
    }
  }

  /** What the scatter loop needs of the index: `nodeids` partitions the nodes
      that have a key by that key, and its keys are the queried ids. */
  ghost predicate Partitions(nodes: seq<Node>, col: ForeignKey, ids: seq<int64>, nodeids: map<int64, seq<Node>>) {
    && (forall k :: k in nodeids <==> k in ids)
    && (forall k :: k in nodeids ==> forall n :: n in nodeids[k] ==> n in nodes && HasKey(n, col, k))
    && (forall n :: n in nodes && col in n.keys ==> n.keys[col] in nodeids && n in nodeids[n.keys[col]])
  }

  lemma IndexPartitions(nodes: seq<Node>, col: ForeignKey, ids: seq<int64>, nodeids: map<int64, seq<Node>>)
    requires Indexed(nodes, col, ids, nodeids)
    ensures Partitions(nodes, col, ids, nodeids)
  {
    forall k {
      KeyedByMembers(nodes, col, k);
    }
    forall n | n in nodes && col in n.keys ensures n.keys[col] in nodeids && n in nodeids[n.keys[col]] {
      assert HasKey(n, col, n.keys[col]);
      assert n in KeyedBy(nodes, col, n.keys[col]);
    }
  }

  method IndexByKey(nodes: seq<Node>, col: ForeignKey) returns (ids: seq<int64>, nodeids: map<int64, seq<Node>>)
    ensures Indexed(nodes, col, ids, nodeids) && Partitions(nodes, col, ids, nodeids)
  {
    ids, nodeids := [], map[];
    for i := 0 to |nodes|
      invariant Indexed(nodes[..i], col, ids, nodeids)
    {
      assert nodes[..i + 1] == nodes[..i] + [nodes[i]];
      if col !in nodes[i].keys {
        IndexSkip(nodes[..i], nodes[i], col, ids, nodeids);
        continue;
      }
      IndexAdd(nodes[..i], nodes[i], col, ids, nodeids);
      var fk := nodes[i].keys[col];
      if fk !in nodeids {
        ids := ids + [fk];
        nodeids := nodeids[fk := []];
      }
      nodeids := nodeids[fk := nodeids[fk] + [nodes[i]]];
    }
    assert nodes[..|nodes|] == nodes;
    IndexPartitions(nodes, col, ids, nodeids);
  }

  /** One returned row is assigned to every node that refers to it. */
  method AssignOne(keyed: seq<Node>, e: Edge, row: Node)
    modifies set n | n in keyed
    ensures forall n :: n in keyed ==> EdgeSet(old(n.edges), n.edges, e, Some(row))
  {
    for i := 0 to |keyed|
      invariant forall n :: n in keyed ==>
        if n in keyed[..i] then EdgeSet(old(n.edges), n.edges, e, Some(row)) else n.edges == old(n.edges)
    {
      assert keyed[..i + 1] == keyed[..i] + [keyed[i]];
      assert keyed[i] in keyed;
      EdgeSetHere(keyed[i].edges, e, row);
      ghost var pointed := keyed[i].edges.(one := keyed[i].edges.one[e := row]);
      EdgeSetTwice(old(keyed[i].edges), keyed[i].edges, pointed, e, if keyed[i] in keyed[..i] then Some(row) else None, row);
      keyed[i].edges := keyed[i].edges.(one := keyed[i].edges.one[e := row]);
    }
    assert keyed[..|keyed|] == keyed;
  }

  lemma ReferredSnoc(n: Node, col: ForeignKey, rows: seq<Node>, j: nat)
    requires j < |rows|
    ensures Referred(n, col, rows[..j + 1]) ==
            if HasKey(n, col, rows[j].id) then Some(rows[j]) else Referred(n, col, rows[..j])
  {
    if col in n.keys {
      RowWithIdSnoc(rows, j, n.keys[col]);
    }
  }

  /** The edges of the nodes, as they stood before the loader. */
  ghost function EdgesOf(nodes: seq<Node>): map<Node, Edges>
    reads set n | n in nodes
  {
    map n | n in nodes :: n.edges
  }

  /** The rows so far have been scattered: nodes whose key is among them point
      at the last such row, the other edges are as before. */
  ghost predicate Scattered(nodes: seq<Node>, before: map<Node, Edges>, e: Edge, col: ForeignKey, rows: seq<Node>)
    reads set n | n in nodes
  {
    forall n :: n in nodes ==> n in before && EdgeSet(before[n], n.edges, e, Referred(n, col, rows))
  }

  /** One returned row is assigned to every node that refers to it. */
  method ScatterRow(nodes: seq<Node>, keyed: seq<Node>, ghost before: map<Node, Edges>,
                    e: Edge, col: ForeignKey, rows: seq<Node>, j: nat)
    requires j < |rows| && ListsReferrers(nodes, col, keyed, rows[j].id)
    requires Scattered(nodes, before, e, col, rows[..j])
    modifies set n | n in nodes
    ensures Scattered(nodes, before, e, col, rows[..j + 1])
  {
    AssignOne(keyed, e, rows[j]);
    forall n | n in nodes ensures EdgeSet(before[n], n.edges, e, Referred(n, col, rows[..j + 1])) {
      ReferredSnoc(n, col, rows, j);
      if n in keyed {
        EdgeSetTwice(before[n], old(n.edges), n.edges, e, Referred(n, col, rows[..j]), rows[j]);
      }
    }
  }

  lemma NothingScattered(nodes: seq<Node>, e: Edge, col: ForeignKey)
    ensures Scattered(nodes, EdgesOf(nodes), e, col, [])
  {
    forall n | n in nodes ensures Referred(n, col, []) == None {}
  }

  /** The nodes that refer to `k`, and only those, are listed under it. */
  ghost predicate ListsReferrers(nodes: seq<Node>, col: ForeignKey, keyed: seq<Node>, k: int64) {
    && (forall n :: n in keyed ==> n in nodes && HasKey(n, col, k))
    && (forall n :: n in nodes && HasKey(n, col, k) ==> n in keyed)
  }

  lemma PartitionAt(nodes: seq<Node>, col: ForeignKey, ids: seq<int64>, nodeids: map<int64, seq<Node>>, k: int64)
    requires Partitions(nodes, col, ids, nodeids) && k in nodeids
    ensures ListsReferrers(nodes, col, nodeids[k], k)
  {}

  /** All rows were asked for, or the error names the first one that was not. */
  ghost predicate Verdict(ids: seq<int64>, rows: seq<Node>, scattered: nat, unexpected: Option<int64>) {
    && scattered <= |rows|
    && (forall j :: 0 <= j < scattered ==> rows[j].id in ids)
    && if scattered == |rows| then unexpected == None
       else rows[scattered].id !in ids && unexpected == Some(rows[scattered].id)
  }

  /** The scatter loop; it stops at the first row whose id was not asked for. */
  method ScatterRows(nodes: seq<Node>, ids: seq<int64>, nodeids: map<int64, seq<Node>>,
                     e: Edge, col: ForeignKey, rows: seq<Node>)
    returns (scattered: nat, unexpected: Option<int64>)
    requires Partitions(nodes, col, ids, nodeids)
    modifies set n | n in nodes
    ensures Verdict(ids, rows, scattered, unexpected)
    ensures Scattered(nodes, old(EdgesOf(nodes)), e, col, rows[..scattered])
  {
    scattered, unexpected := 0, None;
    ghost var before := EdgesOf(nodes);
    assert rows[..0] == [];
    NothingScattered(nodes, e, col);
    while scattered < |rows|
      invariant scattered <= |rows|
      invariant forall j :: 0 <= j < scattered ==> rows[j].id in ids
      invariant Scattered(nodes, before, e, col, rows[..scattered])
    {
      if rows[scattered].id !in nodeids {
        unexpected := Some(rows[scattered].id);
        return;
      }
      PartitionAt(nodes, col, ids, nodeids, rows[scattered].id);
      ScatterRow(nodes, nodeids[rows[scattered].id], before, e, col, rows, scattered);
      scattered := scattered + 1;
    }
  }

  /** loadProxy, loadConnection and loadParent: `neighbors` is what the query
      for `ids` returned. Without ids there is no query. */
  method LoadToOne(nodes: seq<Node>, e: Edge, col: ForeignKey, neighbors: seq<Node>)
    returns (ids: seq<int64>, scattered: nat, unexpected: Option<int64>)
    modifies set n | n in nodes
    ensures ids == KeysOf(nodes, col)
    ensures if ids == [] then scattered == 0 && unexpected == None
            else Verdict(ids, neighbors, scattered, unexpected)
    ensures scattered <= |neighbors|
    ensures Scattered(nodes, old(EdgesOf(nodes)), e, col, neighbors[..scattered])
  {
    var nodeids;
    ids, nodeids := IndexByKey(nodes, col);
    if |ids| == 0 {
      assert neighbors[..0] == [];
      NothingScattered(nodes, e, col);
      return ids, 0, None;
    }
    scattered, unexpected := ScatterRows(nodes, ids, nodeids, e, col, neighbors);
  }
}
