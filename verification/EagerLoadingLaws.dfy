/** What the edges that the loaders scatter mean for a reader of the nodes. */
module EagerLoadingLaws {
  import opened EagerLoading
  import opened EagerLoadingMany
  import Ascending

  // ------------------------------------------------ what the scattered edges mean

  /** The groups of an account: no duplicates, exactly the joined ones, and in
      order of the first row of each group in the whole result (not of the
      account's own first row, see OwnOrderMayDiffer), whatever order the maps
      were walked in. */
  lemma GroupsAreTheJoin(neighbors: seq<Node>, rows: seq<JoinRow>, a: int64)
    requires Ids(neighbors) == FirstSeen(rows)
    ensures var gs := Joined(neighbors, rows, a);
            && NoDuplicates(Ids(gs))
            && (forall g :: g in Ids(gs) <==> JoinRow(a, g) in rows)
            && InRowOrder(rows, gs)
  {
    FirstSeenExact(rows);
    assert DistinctIds(neighbors) by {
      forall i, j | 0 <= i < j < |neighbors| ensures neighbors[i].id != neighbors[j].id {
        assert Ids(neighbors)[i] != Ids(neighbors)[j];
      }
    }
    JoinedDistinct(neighbors, rows, a);
    JoinedMembers(neighbors, rows, a);
    JoinedIds(neighbors, rows, a);
    JoinedInOrder(neighbors, rows, a);
  }

  /** Earlier groups have earlier first rows. */
  ghost predicate InRowOrder(rows: seq<JoinRow>, gs: seq<Node>) {
    forall i, j, p, q ::
      (0 <= i < j < |gs| && FirstRowOf(rows, gs[i].id, p) && FirstRowOf(rows, gs[j].id, q)) ==> p < q
  }

  lemma JoinedIds(neighbors: seq<Node>, rows: seq<JoinRow>, a: int64)
    requires Ids(neighbors) == FirstSeen(rows)
    ensures forall g :: g in Ids(Joined(neighbors, rows, a)) <==> JoinRow(a, g) in rows
  {
    var gs := Joined(neighbors, rows, a);
    JoinedMembers(neighbors, rows, a);
    FirstSeenExact(rows);
    forall g ensures g in Ids(gs) <==> JoinRow(a, g) in rows {
      if g in Ids(gs) {
        var i :| 0 <= i < |gs| && Ids(gs)[i] == g;
      }
      if JoinRow(a, g) in rows {
        assert g in FirstSeen(rows);
        var k :| 0 <= k < |neighbors| && Ids(neighbors)[k] == g;
        assert neighbors[k] in gs;
        var i :| 0 <= i < |gs| && gs[i] == neighbors[k];
        assert Ids(gs)[i] == g;
      }
    }
  }

  /** The joined neighbours keep the order of all neighbours. */
  lemma {:induction false} JoinedPositions(neighbors: seq<Node>, rows: seq<JoinRow>, a: int64, i: nat, j: nat)
    returns (k: nat, l: nat)
    requires i < j < |Joined(neighbors, rows, a)|
    ensures k < l < |neighbors|
    ensures neighbors[k] == Joined(neighbors, rows, a)[i] && neighbors[l] == Joined(neighbors, rows, a)[j]
    decreases |neighbors|
  {
    var rest, last := neighbors[..|neighbors| - 1], neighbors[|neighbors| - 1];
    var gs := Joined(rest, rows, a);
    if j < |gs| {
      k, l := JoinedPositions(rest, rows, a, i, j);
    } else {
      JoinedMembers(rest, rows, a);
      k :| 0 <= k < |rest| && rest[k] == gs[i];
      l := |rest|;
    }
  }

  lemma JoinedInOrder(neighbors: seq<Node>, rows: seq<JoinRow>, a: int64)
    requires Ids(neighbors) == FirstSeen(rows)
    ensures InRowOrder(rows, Joined(neighbors, rows, a))
  {
    var gs := Joined(neighbors, rows, a);
    forall i, j, p, q | 0 <= i < j < |gs| && FirstRowOf(rows, gs[i].id, p) && FirstRowOf(rows, gs[j].id, q)
      ensures p < q
    {
      var k, l := JoinedPositions(neighbors, rows, a, i, j);
      assert Ids(neighbors)[k] == gs[i].id && Ids(neighbors)[l] == gs[j].id;
      FirstSeenOrder(rows, k, l, p, q);
    }
  }

  /** The rows of one account. */
  function RowsOf(rows: seq<JoinRow>, a: int64): seq<JoinRow> {
    if rows == [] then [] else
      var last := rows[|rows| - 1];
      RowsOf(rows[..|rows| - 1], a) + if last.account == a then [last] else []
  }

  /** A per-account query would list an account's groups in the order of that
      account's rows. Batched loading need not: with these rows account 2 gets
      10 before 20, though its own rows come the other way round. */
  lemma OwnOrderMayDiffer(g: Node, h: Node)
    requires g.id == 10 && h.id == 20
    ensures var rows := [JoinRow(1, 10), JoinRow(2, 20), JoinRow(2, 10)];
            && Ids([g, h]) == FirstSeen(rows)
            && Ids(Joined([g, h], rows, 2)) == [10, 20]
            && FirstSeen(RowsOf(rows, 2)) == [20, 10]
  {
    ThreeRows(JoinRow(1, 10), JoinRow(2, 20), JoinRow(2, 10));
    TwoRows(JoinRow(2, 20), JoinRow(2, 10));
    OwnRows(JoinRow(1, 10), JoinRow(2, 20), JoinRow(2, 10));
    var rows := [JoinRow(1, 10), JoinRow(2, 20), JoinRow(2, 10)];
    assert rows[1] in rows && rows[2] in rows;
    TwoJoined(g, h, rows, 2);
  }

  lemma TwoRows(r: JoinRow, s: JoinRow)
    requires r.group != s.group
    ensures FirstSeen([r, s]) == [r.group, s.group]
  {
    assert [r, s][..1] == [r] && [r][..0] == [];
    assert FirstSeen([r]) == [r.group];
  }

  lemma ThreeRows(r: JoinRow, s: JoinRow, t: JoinRow)
    requires r.group != s.group && t.group == r.group
    ensures FirstSeen([r, s, t]) == [r.group, s.group]
  {
    TwoRows(r, s);
    assert [r, s, t][..2] == [r, s];
  }

  lemma OwnRows(r: JoinRow, s: JoinRow, t: JoinRow)
    requires r.account != s.account && t.account == s.account
    ensures RowsOf([r, s, t], s.account) == [s, t]
  {
    assert [r, s, t][..2] == [r, s] && [r, s][..1] == [r] && [r][..0] == [];
    assert RowsOf([r], s.account) == [];
    assert RowsOf([r, s], s.account) == [s];
  }

  lemma TwoJoined(g: Node, h: Node, rows: seq<JoinRow>, a: int64)
    requires JoinRow(a, g.id) in rows && JoinRow(a, h.id) in rows
    ensures Joined([g, h], rows, a) == [g, h]
  {
    assert [g, h][..1] == [g] && [g][..0] == [];
    assert Joined([g], rows, a) == [g];
  }

  /** Groups listed in order of their first rows in the whole result. */
  ghost predicate AppearInOrder(rows: seq<JoinRow>, gs: seq<int64>) {
    forall i, j, p, q ::
      (0 <= i < j < |gs| && FirstRowOf(rows, gs[i], p) && FirstRowOf(rows, gs[j], q)) ==> p < q
  }

  function FirstPosition(rows: seq<JoinRow>, g: int64): (p: nat)
    requires exists i :: 0 <= i < |rows| && rows[i].group == g
    ensures FirstRowOf(rows, g, p)
  {
    if rows[0].group == g then 0 else
      assert exists i :: 0 <= i < |rows[1..]| && rows[1..][i].group == g by {
        var i :| 0 <= i < |rows| && rows[i].group == g;
        assert rows[1..][i - 1] == rows[i];
      }
      1 + FirstPosition(rows[1..], g)
  }

  /** Group lists over the same groups, both in row order, are equal. */
  lemma SameOrderedGroups(rows: seq<JoinRow>, gs: seq<int64>, hs: seq<int64>)
    requires forall g :: g in gs <==> g in hs
    requires forall g :: g in gs ==> exists i :: 0 <= i < |rows| && rows[i].group == g
    requires AppearInOrder(rows, gs) && AppearInOrder(rows, hs)
    ensures gs == hs
  {
    var ps := seq(|gs|, i requires 0 <= i < |gs| => assert gs[i] in gs; FirstPosition(rows, gs[i]));
    var qs := seq(|hs|, i requires 0 <= i < |hs| => assert hs[i] in hs; FirstPosition(rows, hs[i]));
    var s := set p | p in ps;
    forall p ensures p in qs <==> p in ps {
      if p in ps {
        var i :| 0 <= i < |ps| && ps[i] == p;
        assert gs[i] in hs;
        var j :| 0 <= j < |hs| && hs[j] == gs[i];
        assert qs[j] == p;
      }
      if p in qs {
        var j :| 0 <= j < |qs| && qs[j] == p;
        assert hs[j] in gs;
        var i :| 0 <= i < |gs| && gs[i] == hs[j];
        assert ps[i] == p;
      }
    }
    assert Ascending.Increasing(ps) && Ascending.Increasing(qs);
    Ascending.SortedIsUnique(ps, s);
    Ascending.SortedIsUnique(qs, s);
    assert ps == qs;
    forall i | 0 <= i < |gs| ensures gs[i] == hs[i] {
      assert rows[ps[i]].group == gs[i] && rows[qs[i]].group == hs[i];
    }
  }

  lemma {:induction false} RowsOfMembers(rows: seq<JoinRow>, a: int64)
    ensures forall r :: r in RowsOf(rows, a) <==> r in rows && r.account == a
    decreases |rows|
  {
    if rows != [] {
      RowsOfMembers(rows[..|rows| - 1], a);
      assert rows == rows[..|rows| - 1] + [rows[|rows| - 1]];
    }
  }

  /** Batched loading lists an account's groups in the order of the account's
      own rows exactly when they first appear there in the order in which they
      first appear in the whole result. */
  lemma OwnOrderExactly(neighbors: seq<Node>, rows: seq<JoinRow>, a: int64)
    requires Ids(neighbors) == FirstSeen(rows)
    ensures Ids(Joined(neighbors, rows, a)) == FirstSeen(RowsOf(rows, a)) <==>
            AppearInOrder(rows, FirstSeen(RowsOf(rows, a)))
  {
    var gs, own := Joined(neighbors, rows, a), FirstSeen(RowsOf(rows, a));
    JoinedIds(neighbors, rows, a);
    JoinedInOrder(neighbors, rows, a);
    assert AppearInOrder(rows, Ids(gs));
    if AppearInOrder(rows, own) {
      RowsOfMembers(rows, a);
      FirstSeenExact(RowsOf(rows, a));
      forall g ensures g in own <==> g in Ids(gs) {
        assert g in own <==> exists b :: JoinRow(b, g) in RowsOf(rows, a);
        assert JoinRow(a, g) in RowsOf(rows, a) <==> JoinRow(a, g) in rows;
      }
      forall g | g in own ensures exists i :: 0 <= i < |rows| && rows[i].group == g {
        assert JoinRow(a, g) in rows;
        var i :| 0 <= i < |rows| && rows[i] == JoinRow(a, g);
      }
      SameOrderedGroups(rows, own, Ids(gs));
    }
  }

  /** The rows of each group stand together, as when the query is ordered by group. */
  ghost predicate GroupedRows(rows: seq<JoinRow>) {
    forall i, j, k :: 0 <= i < j < k < |rows| && rows[i].group == rows[k].group ==> rows[j].group == rows[i].group
  }

  /** A query ordered by group returns grouped rows. */
  lemma OrderedRowsAreGrouped(rows: seq<JoinRow>)
    requires forall i, j :: 0 <= i < j < |rows| ==> rows[i].group <= rows[j].group
    ensures GroupedRows(rows)
  {
    forall i, j, k | 0 <= i < j < k < |rows| && rows[i].group == rows[k].group ensures rows[j].group == rows[i].group {
      assert rows[i].group <= rows[j].group <= rows[k].group;
    }
  }

  /** Over grouped rows every account has its groups in the order of its own rows. */
  lemma GroupedRowsKeepOwnOrder(neighbors: seq<Node>, rows: seq<JoinRow>, a: int64)
    requires Ids(neighbors) == FirstSeen(rows) && GroupedRows(rows)
    ensures Ids(Joined(neighbors, rows, a)) == FirstSeen(RowsOf(rows, a))
  {
    OwnAppearInOrder(rows, a);
    OwnOrderExactly(neighbors, rows, a);
  }

  lemma {:induction false} OwnAppearInOrder(rows: seq<JoinRow>, a: int64)
    requires GroupedRows(rows)
    ensures AppearInOrder(rows, FirstSeen(RowsOf(rows, a)))
    decreases |rows|
  {
    if rows != [] {
      var rest, last := rows[..|rows| - 1], rows[|rows| - 1];
      assert rows == rest + [last];
      assert forall i :: 0 <= i < |rest| ==> rest[i] == rows[i];
      OwnAppearInOrder(rest, a);
      var own := FirstSeen(RowsOf(rows, a));
      forall i, j, p: nat, q: nat | 0 <= i < j < |own| && FirstRowOf(rows, own[i], p) && FirstRowOf(rows, own[j], q)
        ensures p < q
      {
        OwnPairInOrder(rest, last, a, i, j, p, q);
      }
    }
  }

  lemma OwnPairInOrder(rest: seq<JoinRow>, last: JoinRow, a: int64, i: nat, j: nat, p: nat, q: nat)
    requires AppearInOrder(rest, FirstSeen(RowsOf(rest, a))) && GroupedRows(rest + [last])
    requires i < j < |FirstSeen(RowsOf(rest + [last], a))|
    requires FirstRowOf(rest + [last], FirstSeen(RowsOf(rest + [last], a))[i], p)
    requires FirstRowOf(rest + [last], FirstSeen(RowsOf(rest + [last], a))[j], q)
    ensures p < q
  {
    var rows, before := rest + [last], FirstSeen(RowsOf(rest, a));
    var own := FirstSeen(RowsOf(rows, a));
    OwnGrows(rest, last, a);
    OwnIsInRows(rest, a, own[i]);
    FirstRowBefore(rest, last, own[i], p);
    if j < |before| {
      OwnIsInRows(rest, a, own[j]);
      FirstRowBefore(rest, last, own[j], q);
    } else {
      NewIsDifferent(RowsOf(rest, a), last, i);
      assert rows[|rest|] == last && rows[p].group != rows[q].group;
    }
  }

  lemma OwnGrows(rest: seq<JoinRow>, last: JoinRow, a: int64)
    ensures var before, own := FirstSeen(RowsOf(rest, a)), FirstSeen(RowsOf(rest + [last], a));
            own == if last.account == a && last.group !in before then before + [last.group] else before
  {
    assert (rest + [last])[..|rest|] == rest;
    FirstSeenSnoc(RowsOf(rest, a), last);
    assert RowsOf(rest, a) + [] == RowsOf(rest, a);
  }

  lemma NewIsDifferent(own: seq<JoinRow>, last: JoinRow, i: nat)
    requires i < |FirstSeen(own)| && last.group !in FirstSeen(own)
    ensures FirstSeen(own)[i] != last.group
  {}

  /** A group of an account's own rows has a row. */
  lemma OwnIsInRows(rows: seq<JoinRow>, a: int64, g: int64)
    ensures g in FirstSeen(RowsOf(rows, a)) ==> exists i :: 0 <= i < |rows| && rows[i].group == g
  {
    FirstSeenExact(RowsOf(rows, a));
    RowsOfMembers(rows, a);
    if g in FirstSeen(RowsOf(rows, a)) {
      var b :| JoinRow(b, g) in RowsOf(rows, a);
      var i :| 0 <= i < |rows| && rows[i] == JoinRow(b, g);
    }
  }

  /** The first row of a group that has one stays first when a row is added. */
  lemma FirstRowBefore(rest: seq<JoinRow>, last: JoinRow, g: int64, p: nat)
    requires FirstRowOf(rest + [last], g, p)
    ensures (exists i :: 0 <= i < |rest| && rest[i].group == g) ==> FirstRowOf(rest, g, p)
  {
    var rows := rest + [last];
    assert forall i :: 0 <= i < |rest| ==> rows[i] == rest[i];
  }

  // ------------------------------------------------------- parents and children

  /** The IN filters of the loaders' queries. */
  datatype Filter = IdIn(ids: seq<int64>) | KeyIn(col: ForeignKey, ids: seq<int64>) {
    predicate Passes(r: Node) {
      match this
      case IdIn(ids) => r.id in ids
      case KeyIn(col, ids) => col in r.keys && r.keys[col] in ids
    }
  }

  function Where(table: seq<Node>, f: Filter): seq<Node> {
    if table == [] then [] else
      var last := table[|table| - 1];
      Where(table[..|table| - 1], f) + if f.Passes(last) then [last] else []
  }

  lemma {:induction false} WhereMembers(table: seq<Node>, f: Filter)
    ensures forall i :: 0 <= i < |Where(table, f)| ==> Where(table, f)[i] in table && f.Passes(Where(table, f)[i])
    ensures forall k :: 0 <= k < |table| && f.Passes(table[k]) ==> table[k] in Where(table, f)
    decreases |table|
  {
    if table != [] {
      var rest, last := table[..|table| - 1], table[|table| - 1];
      WhereMembers(rest, f);
      assert table == rest + [last];
    } else {
      assert Where(table, f) == [];
    }
  }

  lemma {:induction false} WhereDistinct(table: seq<Node>, f: Filter)
    requires DistinctIds(table)
    ensures DistinctIds(Where(table, f))
    decreases |table|
  {
    if table != [] {
      var rest, last := table[..|table| - 1], table[|table| - 1];
      WhereDistinct(rest, f);
      WhereMembers(rest, f);
      var l := Where(rest, f);
      forall i | 0 <= i < |l| ensures l[i].id != last.id {
        var k :| 0 <= k < |rest| && rest[k] == l[i];
      }
    } else {
      assert Where(table, f) == [];
    }
  }

  /** The rows the children query of `nodes` returns, and the parent query. */
  function ChildRows(table: seq<Node>, nodes: seq<Node>): seq<Node> {
    Where(table, KeyIn(ParentAccountId, Ids(nodes)))
  }

  function ParentRows(table: seq<Node>, nodes: seq<Node>): seq<Node> {
    Where(table, IdIn(KeysOf(nodes, ParentAccountId)))
  }

  /** Rows that pass the loaders' own filters never end a loader early. */
  lemma FilteredRowsBelong(table: seq<Node>, nodes: seq<Node>, col: ForeignKey)
    ensures forall r :: r in Where(table, KeyIn(col, Ids(nodes))) ==> Belongs(r, nodes, col)
    ensures forall r :: r in Where(table, IdIn(KeysOf(nodes, col))) ==> r.id in KeysOf(nodes, col)
  {
    WhereMembers(table, KeyIn(col, Ids(nodes)));
    WhereMembers(table, IdIn(KeysOf(nodes, col)));
    forall r | r in Where(table, KeyIn(col, Ids(nodes))) ensures Belongs(r, nodes, col) {
      var i :| 0 <= i < |nodes| && Ids(nodes)[i] == r.keys[col];
      assert nodes[i] in nodes && HasKey(r, col, nodes[i].id);
    }
  }

  /** Two entities fetched from one row: different objects, same id and keys. */
  predicate SameRow(n: Node, m: Node) {
    n.id == m.id && n.keys == m.keys
  }

  /** The same table fetched twice. */
  ghost predicate SameRows(table: seq<Node>, again: seq<Node>) {
    |table| == |again| && forall i :: 0 <= i < |table| ==> SameRow(table[i], again[i])
  }

  /** `n` was fetched from a row of the table. */
  ghost predicate FetchedFrom(n: Node, table: seq<Node>) {
    exists i :: 0 <= i < |table| && SameRow(table[i], n)
  }

  lemma ParentIsFound(table: seq<Node>, nodes: seq<Node>, n: Node, m: Node)
    requires DistinctIds(table) && n in nodes && m in nodes && FetchedFrom(n, table)
    ensures (ParentAccountId in m.keys && m.keys[ParentAccountId] == n.id) <==>
            (ParentAccountId in m.keys &&
             var p := RowWithId(ParentRows(table, nodes), m.keys[ParentAccountId]); p.Some? && p.value.id == n.id)
  {
    var keys := KeysOf(nodes, ParentAccountId);
    WhereMembers(table, IdIn(keys));
    WhereDistinct(table, IdIn(keys));
    KeysOfExact(nodes, ParentAccountId);
    if ParentAccountId in m.keys {
      RowWithIdExact(ParentRows(table, nodes), m.keys[ParentAccountId]);
      assert HasKey(m, ParentAccountId, m.keys[ParentAccountId]);
      var i :| 0 <= i < |table| && SameRow(table[i], n);
      assert m.keys[ParentAccountId] == n.id ==> table[i] in ParentRows(table, nodes);
    }
  }

  lemma ChildIsFound(table: seq<Node>, nodes: seq<Node>, n: Node, m: Node)
    requires DistinctIds(table) && n in nodes && FetchedFrom(m, table)
    ensures m.id in Ids(KeyedBy(ChildRows(table, nodes), ParentAccountId, n.id)) <==> HasKey(m, ParentAccountId, n.id)
  {
    var rows := ChildRows(table, nodes);
    var children := KeyedBy(rows, ParentAccountId, n.id);
    WhereMembers(table, KeyIn(ParentAccountId, Ids(nodes)));
    KeyedByMembers(rows, ParentAccountId, n.id);
    var k :| 0 <= k < |nodes| && nodes[k] == n;
    assert Ids(nodes)[k] == n.id;
    var i :| 0 <= i < |table| && SameRow(table[i], m);
    if m.id in Ids(children) {
      var c :| 0 <= c < |children| && Ids(children)[c] == m.id;
      assert children[c] in rows;
      var r :| 0 <= r < |rows| && rows[r] == children[c];
      assert rows[r] in table;
      assert HasKey(table[i], ParentAccountId, n.id);
    }
    if HasKey(m, ParentAccountId, n.id) {
      assert table[i] in rows && table[i] in children;
      var c :| 0 <= c < |children| && children[c] == table[i];
      assert Ids(children)[c] == m.id;
    }
  }

  /** loadChildren and loadParent are inverse by id over one table of accounts,
      fetched anew by either: when both ends are loaded, an entity with the one's
      id is among the other's children exactly when the one's parent has the
      other's id. */
  lemma ParentInvertsChildren(table: seq<Node>, again: seq<Node>, nodes: seq<Node>, n: Node, m: Node)
    requires DistinctIds(table) && SameRows(table, again)
    requires n in nodes && m in nodes && FetchedFrom(n, table) && FetchedFrom(m, table)
    ensures m.id in Ids(KeyedBy(ChildRows(table, nodes), ParentAccountId, n.id)) <==>
            (ParentAccountId in m.keys &&
             var p := RowWithId(ParentRows(again, nodes), m.keys[ParentAccountId]); p.Some? && p.value.id == n.id)
  {
    var i :| 0 <= i < |table| && SameRow(table[i], n);
    assert SameRow(again[i], n);
    ChildIsFound(table, nodes, n, m);
    ParentIsFound(again, nodes, n, m);
  }
}
