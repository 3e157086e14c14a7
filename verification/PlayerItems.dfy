/**
 Player items as database rows: a breadth-first flattening of an item forest into (pid, sid)
 rows and its rebuild from a map (server/src/iologindata.cpp). A row's parent id is the running
 id of the row of its container, or a slot or depot number below 100.
 */
module PlayerItems {
  import opened Basics
  import opened Containment

  datatype Row = Row(pid: int, sid: int, cell: Cell)

  /** An item with everything inside it, as a value. */
  datatype Tree = Tree(cell: Cell, kids: seq<Tree>)

  ghost function TreeOf(s: State, cell: map<Item, Cell>, i: Item): Tree
    requires Forest(s) && s.parent.Keys == cell.Keys && i in s.parent
    decreases s.rank[i]
  {
    Tree(cell[i], seq(|s.list[i]|, k requires 0 <= k < |s.list[i]| =>
      (assert s.list[i][k] in s.list[i] && s.parent[s.list[i][k]] == i; TreeOf(s, cell, s.list[i][k]))))
  }

  /** The rows that name `p` as their parent, in order. */
  function KidRows(rows: seq<Row>, p: int): seq<Row>
  {
    if rows == [] then []
    else (if rows[0].pid == p then [rows[0]] else []) + KidRows(rows[1..], p)
  }

  lemma {:induction false} KidRowsAppend(rows: seq<Row>, r: Row, p: int)
    ensures KidRows(rows + [r], p) == KidRows(rows, p) + if r.pid == p then [r] else []
  {
    if rows == [] {
      assert rows + [r] == [r];
    } else {
      assert (rows + [r])[1..] == rows[1..] + [r] && (rows + [r])[0] == rows[0];
      KidRowsAppend(rows[1..], r, p);
      Assoc(if rows[0].pid == p then [rows[0]] else [], KidRows(rows[1..], p), if r.pid == p then [r] else []);
    }
  }

  lemma {:induction false} KidRowsIn(rows: seq<Row>, p: int)
    ensures forall r <- KidRows(rows, p) :: r in rows && r.pid == p
  {
    if rows != [] {
      KidRowsIn(rows[1..], p);
    }
  }

  // ----- IOLoginData::saveItems -----

  const FIRST_SID: int := 101

  /** Row `k` carries running id 101 + k and the data of `nodes[k]`. */
  ghost predicate Numbered(cell: map<Item, Cell>, rows: seq<Row>, nodes: seq<Item>)
  {
    && |rows| == |nodes|
    && forall k {:trigger rows[k]} | 0 <= k < |rows| ::
         rows[k].sid == FIRST_SID + k && rows[k].pid < rows[k].sid && nodes[k] in cell && rows[k].cell == cell[nodes[k]]
  }

  function Nodes(rows: seq<Row>, nodes: seq<Item>): (r: seq<Item>)
    requires forall r <- rows :: FIRST_SID <= r.sid < FIRST_SID + |nodes|
    ensures |r| == |rows|
  {
    seq(|rows|, k requires 0 <= k < |rows| => (assert rows[k] in rows; nodes[rows[k].sid - FIRST_SID]))
  }

  /** The nodes whose rows name `p` as their parent, in order. */
  ghost function Kids(cell: map<Item, Cell>, rows: seq<Row>, nodes: seq<Item>, p: int): seq<Item>
    requires Numbered(cell, rows, nodes)
  {
    KidRowsIn(rows, p);
    Nodes(KidRows(rows, p), nodes)
  }

  lemma KidsAppend(cell: map<Item, Cell>, rows: seq<Row>, nodes: seq<Item>, r: Row, i: Item, p: int)
    requires Numbered(cell, rows, nodes) && i in cell
    requires r.sid == FIRST_SID + |rows| && r.pid < r.sid && r.cell == cell[i]
    ensures Numbered(cell, rows + [r], nodes + [i])
    ensures Kids(cell, rows + [r], nodes + [i], p) == Kids(cell, rows, nodes, p) + if r.pid == p then [i] else []
  {
    NumberedMore(cell, rows, nodes, r, i);
    KidRowsAppend(rows, r, p);
    KidRowsIn(rows, p);
    forall q | q in KidRows(rows, p) ensures FIRST_SID <= q.sid < FIRST_SID + |nodes| {
      assert q in rows;
    }
    NodesAppend(KidRows(rows, p), nodes, i);
    if r.pid == p {
      NodesLast(KidRows(rows, p), r, nodes, i);
    } else {
      assert KidRows(rows, p) + [] == KidRows(rows, p);
    }
  }

  lemma NumberedMore(cell: map<Item, Cell>, rows: seq<Row>, nodes: seq<Item>, r: Row, i: Item)
    requires Numbered(cell, rows, nodes) && i in cell
    requires r.sid == FIRST_SID + |rows| && r.pid < r.sid && r.cell == cell[i]
    ensures Numbered(cell, rows + [r], nodes + [i])
  {
    var rows', nodes' := rows + [r], nodes + [i];
    forall k | 0 <= k < |rows'|
      ensures rows'[k].sid == FIRST_SID + k && rows'[k].pid < rows'[k].sid && nodes'[k] in cell
              && rows'[k].cell == cell[nodes'[k]]
    {
      if k < |rows| {
        assert rows'[k] == rows[k] && nodes'[k] == nodes[k];
      } else {
        assert rows'[k] == r && nodes'[k] == i;
      }
    }
  }

  lemma NodesAppend(rows: seq<Row>, nodes: seq<Item>, i: Item)
    requires forall r <- rows :: FIRST_SID <= r.sid < FIRST_SID + |nodes|
    ensures Nodes(rows, nodes + [i]) == Nodes(rows, nodes)
  {
    forall k | 0 <= k < |rows| ensures Nodes(rows, nodes + [i])[k] == Nodes(rows, nodes)[k] {
      assert rows[k] in rows;
    }
  }

  lemma NodesLast(rows: seq<Row>, r: Row, nodes: seq<Item>, i: Item)
    requires forall q <- rows :: FIRST_SID <= q.sid < FIRST_SID + |nodes|
    requires r.sid == FIRST_SID + |nodes|
    ensures forall q <- rows + [r] :: FIRST_SID <= q.sid < FIRST_SID + |nodes + [i]|
    ensures Nodes(rows + [r], nodes + [i]) == Nodes(rows, nodes) + [i]
  {
    NodesAppend(rows, nodes, i);
    forall k | 0 <= k < |rows| ensures Nodes(rows + [r], nodes + [i])[k] == Nodes(rows, nodes)[k] {
      assert (rows + [r])[k] == rows[k] && rows[k] in rows;
    }
    assert (rows + [r])[|rows|] == r && (nodes + [i])[|nodes|] == i;
  }

  /** The items listed under slot or depot `p`, in order. */
  function RootsWith(roots: seq<(int, Item)>, p: int): seq<Item>
  {
    if roots == [] then []
    else
      var last := roots[|roots| - 1];
      RootsWith(roots[..|roots| - 1], p) + if last.0 == p then [last.1] else []
  }

  /** What the rows of a whole save say: every container's rows are its contents, in order. */
  ghost predicate Encodes(
      s: State, cell: map<Item, Cell>, roots: seq<(int, Item)>, rows: seq<Row>, nodes: seq<Item>)
  {
    && Numbered(cell, rows, nodes)
    && (forall i <- nodes :: i in s.list)
    && (forall p | p < FIRST_SID :: Kids(cell, rows, nodes, p) == RootsWith(roots, p))
    && (forall k {:trigger nodes[k]} | 0 <= k < |nodes| :: Kids(cell, rows, nodes, FIRST_SID + k) == s.list[nodes[k]])
  }

  /** An upper bound for the rows still to be written for what lies in `list`. */
  ghost function Volume(s: State, i: Item): nat
    requires Forest(s) && i in s.parent
    decreases s.rank[i], |s.list[i]| + 1
  {
    VolumeOf(s, i, s.list[i])
  }

  ghost function VolumeOf(s: State, i: Item, list: seq<Item>): nat
    requires Forest(s) && i in s.parent && forall j <- list :: j in s.list[i]
    decreases s.rank[i], |list|
  {
    if list == [] then 0
    else
      var j := list[0];
      assert j in s.list[i] && s.parent[j] == i;
      1 + Volume(s, j) + VolumeOf(s, i, list[1..])
  }

  ghost function Pending(s: State, queue: seq<(Item, int)>): nat
    requires Forest(s) && forall b <- queue :: b.0 in s.parent
  {
    if queue == [] then 0 else Pending(s, queue[..|queue| - 1]) + 1 + Volume(s, queue[|queue| - 1].0)
  }

  lemma {:induction false} PendingFront(s: State, queue: seq<(Item, int)>)
    requires Forest(s) && queue != [] && forall b <- queue :: b.0 in s.parent
    ensures Pending(s, queue) == 1 + Volume(s, queue[0].0) + Pending(s, queue[1..])
  {
    if |queue| > 1 {
      var last := queue[|queue| - 1];
      PendingFront(s, queue[..|queue| - 1]);
      assert queue[1..][..|queue| - 2] == queue[..|queue| - 1][1..];
    }
  }

  /** The queue of containers: each with its running id, in increasing order, and none missing. */
  ghost predicate Queued(s: State, nodes: seq<Item>, containers: seq<(Item, int)>)
  {
    && (forall q {:trigger containers[q]} | 0 <= q < |containers| ::
          && containers[q].0 in s.list && FIRST_SID <= containers[q].1 < FIRST_SID + |nodes|
          && nodes[containers[q].1 - FIRST_SID] == containers[q].0)
    && (forall q, r | 0 <= q < r < |containers| :: containers[q].1 < containers[r].1)
    && (forall k {:trigger nodes[k]} | 0 <= k < |nodes| ::
          && nodes[k] in s.list
          && (nodes[k].isContainer ==> exists q :: 0 <= q < |containers| && containers[q].1 == FIRST_SID + k))
  }

  /**
   The rows of the first `i` queued containers are complete, `pid` has the rows of `done`, and
   no other running id is named as a parent yet.
   */
  ghost predicate Expanded(
      s: State, cell: map<Item, Cell>, rows: seq<Row>, nodes: seq<Item>, containers: seq<(Item, int)>,
      i: nat, pid: int, done: seq<Item>)
    requires Numbered(cell, rows, nodes) && Queued(s, nodes, containers) && i <= |containers|
  {
    && (forall q {:trigger containers[q]} | 0 <= q < i ::
          containers[q].1 != pid && Kids(cell, rows, nodes, containers[q].1) == s.list[containers[q].0])
    && (forall p {:trigger Kids(cell, rows, nodes, p)} | p >= FIRST_SID :: 
          (exists q :: 0 <= q < i && containers[q].1 == p)
          || Kids(cell, rows, nodes, p) == if p == pid then done else [])
  }

  function Queue(containers: seq<(Item, int)>, item: Item, sid: int): seq<(Item, int)>
  {
    containers + if item.isContainer then [(item, sid)] else []
  }

  lemma QueueRow(s: State, nodes: seq<Item>, containers: seq<(Item, int)>, item: Item)
    requires Queued(s, nodes, containers) && item in s.list
    ensures Queued(s, nodes + [item], Queue(containers, item, FIRST_SID + |nodes|))
  {
    var nodes', containers' := nodes + [item], Queue(containers, item, FIRST_SID + |nodes|);
    forall k | 0 <= k < |nodes'|
      ensures nodes'[k] in s.list
      ensures nodes'[k].isContainer ==> exists q :: 0 <= q < |containers'| && containers'[q].1 == FIRST_SID + k
    {
      if k < |nodes| && nodes[k].isContainer {
        var q :| 0 <= q < |containers| && containers[q].1 == FIRST_SID + k;
        assert containers'[q].1 == FIRST_SID + k;
      } else if k == |nodes| && item.isContainer {
        assert containers'[|containers|].1 == FIRST_SID + k;
      }
    }
    forall q | 0 <= q < |containers'|
      ensures containers'[q].0 in s.list && FIRST_SID <= containers'[q].1 < FIRST_SID + |nodes'|
      ensures nodes'[containers'[q].1 - FIRST_SID] == containers'[q].0
    {
      assert q < |containers| ==> containers'[q] == containers[q];
    }
  }

  /** The rows after writing `item` under parent id `pid`. */
  function NextRow(cell: map<Item, Cell>, rows: seq<Row>, pid: int, item: Item): Row
    requires item in cell
  {
    Row(pid, FIRST_SID + |rows|, cell[item])
  }

  lemma WriteRow(cell: map<Item, Cell>, rows: seq<Row>, nodes: seq<Item>, pid: int, item: Item)
    requires Numbered(cell, rows, nodes) && item in cell && pid < FIRST_SID + |rows|
    ensures Numbered(cell, rows + [NextRow(cell, rows, pid, item)], nodes + [item])
    ensures forall p {:trigger Kids(cell, rows + [NextRow(cell, rows, pid, item)], nodes + [item], p)} ::
              Kids(cell, rows + [NextRow(cell, rows, pid, item)], nodes + [item], p)
              == Kids(cell, rows, nodes, p) + if p == pid then [item] else []
  {
    KidsAppend(cell, rows, nodes, NextRow(cell, rows, pid, item), item, pid);
    forall p
      ensures Kids(cell, rows + [NextRow(cell, rows, pid, item)], nodes + [item], p)
           == Kids(cell, rows, nodes, p) + if p == pid then [item] else []
    {
      KidsAppend(cell, rows, nodes, NextRow(cell, rows, pid, item), item, p);
    }
  }

  lemma ExpandRow(
      s: State, cell: map<Item, Cell>, rows: seq<Row>, nodes: seq<Item>, containers: seq<(Item, int)>,
      i: nat, pid: int, done: seq<Item>, item: Item)
    requires Numbered(cell, rows, nodes) && Queued(s, nodes, containers) && i <= |containers|
    requires Expanded(s, cell, rows, nodes, containers, i, pid, done)
    requires item in cell && item in s.list && pid < FIRST_SID + |rows|
    ensures var rows', nodes' := rows + [NextRow(cell, rows, pid, item)], nodes + [item];
            var containers' := Queue(containers, item, FIRST_SID + |nodes|);
            && Numbered(cell, rows', nodes') && Queued(s, nodes', containers') && i <= |containers'|
            && Expanded(s, cell, rows', nodes', containers', i, pid, done + [item])
  {
    hide Numbered, Kids, Queued;
    var rows', nodes' := rows + [NextRow(cell, rows, pid, item)], nodes + [item];
    var containers' := Queue(containers, item, FIRST_SID + |nodes|);
    WriteRow(cell, rows, nodes, pid, item);
    QueueRow(s, nodes, containers, item);
    forall p | p >= FIRST_SID
      ensures (exists q :: 0 <= q < i && containers'[q].1 == p)
              || Kids(cell, rows', nodes', p) == if p == pid then done + [item] else []
    {
      if q :| 0 <= q < i && containers[q].1 == p {
        assert containers'[q].1 == p;
      } else {
        assert Kids(cell, rows, nodes, p) == if p == pid then done else [];
      }
    }
  }

  lemma QueuedAt(s: State, nodes: seq<Item>, containers: seq<(Item, int)>, i: nat)
    requires Queued(s, nodes, containers) && i < |containers|
    ensures containers[i].0 in s.list && FIRST_SID <= containers[i].1 < FIRST_SID + |nodes|
  {
  }

  lemma StartContainer(
      s: State, cell: map<Item, Cell>, rows: seq<Row>, nodes: seq<Item>, containers: seq<(Item, int)>, i: nat)
    requires Numbered(cell, rows, nodes) && Queued(s, nodes, containers) && i < |containers|
    requires Expanded(s, cell, rows, nodes, containers, i, -1, [])
    ensures |rows| == |nodes| && Expanded(s, cell, rows, nodes, containers, i, containers[i].1, [])
  {
    hide Kids;
  }

  lemma FinishContainer(
      s: State, cell: map<Item, Cell>, rows: seq<Row>, nodes: seq<Item>, containers: seq<(Item, int)>, i: nat)
    requires Numbered(cell, rows, nodes) && Queued(s, nodes, containers) && i < |containers|
    requires containers[i].0 in s.list
    requires Expanded(s, cell, rows, nodes, containers, i, containers[i].1, s.list[containers[i].0])
    ensures Expanded(s, cell, rows, nodes, containers, i + 1, -1, [])
  {
    hide Numbered, Kids, Queued;
    QueuedAt(s, nodes, containers, i);
    assert Kids(cell, rows, nodes, containers[i].1) == s.list[containers[i].0];
    forall q | 0 <= q < i + 1
      ensures containers[q].1 != -1 && containers[q].0 in s.list
      ensures Kids(cell, rows, nodes, containers[q].1) == s.list[containers[q].0]
    {
      QueuedAt(s, nodes, containers, q);
    }
    forall p | p >= FIRST_SID
      ensures (exists q :: 0 <= q < i + 1 && containers[q].1 == p) || Kids(cell, rows, nodes, p) == []
    {
      if p == containers[i].1 {
        assert containers[i].1 == p;
      } else if q :| 0 <= q < i && containers[q].1 == p {
        assert containers[q].1 == p;
      }
    }
  }

  lemma PendingAppend(s: State, containers: seq<(Item, int)>, i: nat, item: Item, sid: int)
    requires Forest(s) && i <= |containers| && (forall b <- containers :: b.0 in s.parent) && item in s.parent
    ensures forall b <- Queue(containers, item, sid) :: b.0 in s.parent
    ensures Pending(s, Queue(containers, item, sid)[i..])
         == Pending(s, containers[i..]) + if item.isContainer then 1 + Volume(s, item) else 0
  {
    if item.isContainer {
      assert Queue(containers, item, sid)[i..] == containers[i..] + [(item, sid)];
      assert (containers[i..] + [(item, sid)])[..|containers| - i] == containers[i..];
    } else {
      assert Queue(containers, item, sid) == containers;
    }
  }

  lemma ListLive(s: State, c: Item, t: nat)
    requires Forest(s) && c in s.parent && t < |s.list[c]|
    ensures s.list[c][t] in s.parent && s.list[c][t] in s.list
    ensures VolumeOf(s, c, s.list[c][t..]) == 1 + Volume(s, s.list[c][t]) + VolumeOf(s, c, s.list[c][t + 1..])
  {
    assert s.list[c][t] in s.list[c];
    assert s.list[c][t..][1..] == s.list[c][t + 1..];
  }

  /** The inner loop of saveItems: the contents of the container queued at position `i`. */
  method SaveContainer(
      rows0: seq<Row>, ghost nodes0: seq<Item>, containers0: seq<(Item, int)>, i: nat, runningId0: int, w: World)
    returns (rows: seq<Row>, ghost nodes: seq<Item>, containers: seq<(Item, int)>, runningId: int)
    requires w.Valid() && Numbered(w.cell, rows0, nodes0) && Queued(w.heap, nodes0, containers0) && i < |containers0|
    requires Expanded(w.heap, w.cell, rows0, nodes0, containers0, i, -1, []) && runningId0 == 100 + |rows0|
    requires forall b <- containers0 :: b.0 in w.heap.parent
    ensures runningId == 100 + |rows|
    ensures Numbered(w.cell, rows, nodes) && Queued(w.heap, nodes, containers) && i < |containers|
    ensures Expanded(w.heap, w.cell, rows, nodes, containers, i + 1, -1, [])
    ensures forall p | p < FIRST_SID :: Kids(w.cell, rows, nodes, p) == Kids(w.cell, rows0, nodes0, p)
    ensures forall b <- containers :: b.0 in w.heap.parent
    ensures Pending(w.heap, containers[i + 1..]) < Pending(w.heap, containers0[i..])
  {
    hide Forest, Ledger, World.ShapeLinked, World.CellsLinked, World.OwnLinked, World.TotalLinked,
         Expanded, Numbered, Queued, Kids;
    ghost var s, cell := w.heap, w.cell;
    var (container, parentId) := containers0[i];
    assert containers0[i] in containers0;
    w.LinkAt(container);
    QueuedAt(s, nodes0, containers0, i);
    StartContainer(s, cell, rows0, nodes0, containers0, i);
    rows, nodes, containers, runningId := rows0, nodes0, containers0, runningId0;
    var t := 0;
    while t < |container.itemlist|
      invariant t <= |container.itemlist| && runningId == 100 + |rows| && parentId < FIRST_SID + |rows|
      invariant Numbered(cell, rows, nodes) && Queued(s, nodes, containers) && i < |containers|
      invariant |nodes| == |rows|
      invariant containers[i] == containers0[i]
      invariant Expanded(s, cell, rows, nodes, containers, i, parentId, container.itemlist[..t])
      invariant forall p | p < FIRST_SID :: Kids(cell, rows, nodes, p) == Kids(cell, rows0, nodes0, p)
      invariant forall b <- containers :: b.0 in s.parent
      invariant Pending(s, containers[i + 1..]) + VolumeOf(s, container, container.itemlist[t..])
             <= Pending(s, containers0[i + 1..]) + Volume(s, container)
    {
      var item := container.itemlist[t];
      ListLive(s, container, t);
      w.LinkAt(item);
      ExpandRow(s, cell, rows, nodes, containers, i, parentId, container.itemlist[..t], item);
      WriteRow(cell, rows, nodes, parentId, item);
      PendingAppend(s, containers, i + 1, item, FIRST_SID + |nodes|);
      assert container.itemlist[..t + 1] == container.itemlist[..t] + [item];
      runningId := runningId + 1;
      containers := Queue(containers, item, runningId);
      nodes := nodes + [item];
      rows := rows + [Row(parentId, runningId, item.CellOf())];
      t := t + 1;
    }
    assert container.itemlist[..t] == container.itemlist;
    FinishContainer(s, cell, rows, nodes, containers, i);
    PendingFront(s, containers0[i..]);
  }

  /** Running ids count up, and every parent is numbered before its children. */
  lemma RowsAscend(cell: map<Item, Cell>, rows: seq<Row>, nodes: seq<Item>)
    requires Numbered(cell, rows, nodes)
    ensures Increasing(rows) && forall k | 0 <= k < |rows| :: rows[k].sid == FIRST_SID + k && rows[k].pid < rows[k].sid
  {
  }

  method SaveItems(itemList: seq<(int, Item)>, w: World) returns (rows: seq<Row>, ghost nodes: seq<Item>)
    requires w.Valid() && forall b <- itemList :: b.0 < FIRST_SID && b.1 in w.heap.parent
    ensures Encodes(w.heap, w.cell, itemList, rows, nodes)
    ensures Increasing(rows) && forall k | 0 <= k < |rows| :: rows[k].sid == FIRST_SID + k && rows[k].pid < rows[k].sid
  {
    hide Forest, Ledger, World.ShapeLinked, World.CellsLinked, World.OwnLinked, World.TotalLinked,
         Expanded, Numbered, Queued, Kids;
    ghost var s, cell := w.heap, w.cell;
    rows, nodes := [], [];
    var containers: seq<(Item, int)> := [];
    var runningId := 100;
    NothingWritten(s, cell);
    var j := 0;
    while j < |itemList|
      invariant j <= |itemList| && runningId == 100 + |rows| && |nodes| == |rows|
      invariant Numbered(cell, rows, nodes) && Queued(s, nodes, containers)
      invariant Expanded(s, cell, rows, nodes, containers, 0, -1, [])
      invariant forall p | p < FIRST_SID :: Kids(cell, rows, nodes, p) == RootsWith(itemList[..j], p)
      invariant forall b <- containers :: b.0 in s.parent
    {
      var (pid, item) := itemList[j];
      assert itemList[j] in itemList;
      w.LinkAt(item);
      RootRow(s, cell, rows, nodes, containers, pid, item);
      WriteRow(cell, rows, nodes, pid, item);
      assert itemList[..j + 1][..j] == itemList[..j];
      runningId := runningId + 1;
      containers := Queue(containers, item, runningId);
      nodes := nodes + [item];
      rows := rows + [Row(pid, runningId, item.CellOf())];
      j := j + 1;
    }
    assert itemList[..j] == itemList;
    var i := 0;
    while i < |containers|
      invariant i <= |containers| && runningId == 100 + |rows|
      invariant Numbered(cell, rows, nodes) && Queued(s, nodes, containers)
      invariant Expanded(s, cell, rows, nodes, containers, i, -1, [])
      invariant forall p | p < FIRST_SID :: Kids(cell, rows, nodes, p) == RootsWith(itemList, p)
      invariant forall b <- containers :: b.0 in s.parent
      decreases Pending(s, containers[i..])
    {
      rows, nodes, containers, runningId := SaveContainer(rows, nodes, containers, i, runningId, w);
      i := i + 1;
    }
    RowsAscend(cell, rows, nodes);
    AllExpanded(s, cell, itemList, rows, nodes, containers);
  }

  lemma NothingWritten(s: State, cell: map<Item, Cell>)
    ensures Numbered(cell, [], []) && Queued(s, [], []) && Expanded(s, cell, [], [], [], 0, -1, [])
    ensures forall p :: Kids(cell, [], [], p) == []
  {
  }

  lemma RootRow(
      s: State, cell: map<Item, Cell>, rows: seq<Row>, nodes: seq<Item>, containers: seq<(Item, int)>,
      pid: int, item: Item)
    requires Numbered(cell, rows, nodes) && Queued(s, nodes, containers)
    requires Expanded(s, cell, rows, nodes, containers, 0, -1, [])
    requires item in cell && item in s.list && pid < FIRST_SID
    ensures var rows', nodes' := rows + [NextRow(cell, rows, pid, item)], nodes + [item];
            var containers' := Queue(containers, item, FIRST_SID + |nodes|);
            && Numbered(cell, rows', nodes') && Queued(s, nodes', containers')
            && Expanded(s, cell, rows', nodes', containers', 0, -1, [])
  {
    hide Numbered, Kids, Queued;
    assert Expanded(s, cell, rows, nodes, containers, 0, pid, []);
    ExpandRow(s, cell, rows, nodes, containers, 0, pid, [], item);
  }

  lemma AllExpanded(
      s: State, cell: map<Item, Cell>, itemList: seq<(int, Item)>, rows: seq<Row>, nodes: seq<Item>,
      containers: seq<(Item, int)>)
    requires Forest(s) && Numbered(cell, rows, nodes) && Queued(s, nodes, containers)
    requires Expanded(s, cell, rows, nodes, containers, |containers|, -1, [])
    requires forall p | p < FIRST_SID :: Kids(cell, rows, nodes, p) == RootsWith(itemList, p)
    ensures Encodes(s, cell, itemList, rows, nodes)
  {
    hide Kids;
    forall k | 0 <= k < |nodes| ensures Kids(cell, rows, nodes, FIRST_SID + k) == s.list[nodes[k]] {
      if q :| 0 <= q < |containers| && containers[q].1 == FIRST_SID + k {
        assert nodes[containers[q].1 - FIRST_SID] == containers[q].0;
      } else {
        assert !nodes[k].isContainer;
      }
    }
  }

  // ----- IOLoginData::loadItems and the rebuild loops of loadPlayer -----

  function Objs(objs: map<int, Item>, rows: seq<Row>): (r: seq<Item>)
    requires forall r <- rows :: r.sid in objs
    ensures |r| == |rows|
  {
    seq(|rows|, k requires 0 <= k < |rows| => (assert rows[k] in rows; objs[rows[k].sid]))
  }

  ghost function KidObjs(objs: map<int, Item>, rows: seq<Row>, p: int): seq<Item>
    requires forall r <- rows :: r.sid in objs
  {
    KidRowsIn(rows, p);
    Objs(objs, KidRows(rows, p))
  }

  ghost predicate OneEach(objs: map<int, Item>)
  {
    forall p, q | p in objs && q in objs && p != q :: objs[p] != objs[q]
  }

  /**
   Every loaded container holds, in order, the objects of the rows in `order` that name it; the
   objects of the rows in `waiting` are still detached.
   */
  ghost predicate Rebuilt(s: State, objs: map<int, Item>, order: seq<Row>, waiting: seq<Row>)
  {
    && OneEach(objs)
    && (forall r <- order :: r.sid in objs)
    && (forall p {:trigger objs[p]} :: p in objs ==>
          && objs[p] in s.list && objs[p] in s.parent
          && s.list[objs[p]] == if objs[p].isContainer then KidObjs(objs, order, p) else [])
    && (forall r <- waiting :: r.sid in objs && objs[r.sid] in s.parent && s.parent[objs[r.sid]] == null)
  }

  ghost predicate Increasing(rows: seq<Row>)
  {
    forall j, k | 0 <= j < k < |rows| :: rows[j].sid < rows[k].sid
  }

  /** Two listings by increasing running id of the same rows are the same listing. */
  lemma {:induction false} IncreasingIsUnique(a: seq<Row>, b: seq<Row>)
    requires Increasing(a) && Increasing(b) && forall r :: r in a <==> r in b
    ensures a == b
    decreases |a|
  {
    if b != [] {
      assert b[0] in b;
    }
    if a != [] {
      assert a[0] in b;
      var j :| 0 <= j < |a| && a[j] == b[0];
      var k :| 0 <= k < |b| && b[k] == a[0];
      assert a[0] == b[0];
      forall r ensures r in a[1..] <==> r in b[1..] {
        assert r in a <==> r == a[0] || r in a[1..];
        assert r in b <==> r == b[0] || r in b[1..];
        if r in a[1..] {
          var l :| 0 <= l < |a[1..]| && a[1..][l] == r;
          assert a[l + 1].sid > a[0].sid;
        }
        if r in b[1..] {
          var l :| 0 <= l < |b[1..]| && b[1..][l] == r;
          assert b[l + 1].sid > b[0].sid;
        }
      }
      IncreasingIsUnique(a[1..], b[1..]);
    }
  }

  /** The next row, of a smaller running id, pushed to the front of its container. */
  lemma AttachRow(s: State, objs: map<int, Item>, order: seq<Row>, waiting: seq<Row>, r: Row, q: Row)
    requires Forest(s) && Rebuilt(s, objs, order, waiting + [r])
    requires q in waiting && q.sid == r.pid && objs[r.pid].isContainer
    requires forall u <- waiting :: u.sid != r.sid
    ensures CanAttach(s, objs[r.pid], objs[r.sid])
    ensures Rebuilt(Attached(s, objs[r.pid], objs[r.sid], 0), objs, [r] + order, waiting)
  {
    assert q in waiting + [r] && r in waiting + [r];
    assert OneEach(objs);
    Alone(s, objs[r.pid], objs[r.sid]);
    AttachedRow(s, objs, order, waiting, r);
  }

  /** Two detached items: neither is above the other. */
  lemma Alone(s: State, c: Item, x: Item)
    requires Forest(s) && c in s.parent && x in s.parent && c != x && c.isContainer
    requires s.parent[c] == null && s.parent[x] == null
    ensures CanAttach(s, c, x)
  {
  }

  lemma AttachedRow(s: State, objs: map<int, Item>, order: seq<Row>, waiting: seq<Row>, r: Row)
    requires Rebuilt(s, objs, order, waiting + [r]) && r.pid in objs && r.sid in objs && objs[r.pid].isContainer
    requires objs[r.pid] in s.list && objs[r.sid] in s.rank
    requires forall u <- waiting :: u.sid != r.sid
    ensures Rebuilt(Attached(s, objs[r.pid], objs[r.sid], 0), objs, [r] + order, waiting)
  {
    hide KidObjs, Ancestry;
    var t := Attached(s, objs[r.pid], objs[r.sid], 0);
    assert forall u <- waiting :: u in waiting + [r];
    forall p | p in objs
      ensures objs[p] in t.list && objs[p] in t.parent
      ensures t.list[objs[p]] == if objs[p].isContainer then KidObjs(objs, [r] + order, p) else []
    {
      KidObjsGrow(objs, order, r, p);
    }
  }

  /** A row whose parent is not a container here leaves the containers as they are. */
  lemma SkipRow(s: State, objs: map<int, Item>, order: seq<Row>, waiting: seq<Row>, r: Row)
    requires Rebuilt(s, objs, order, waiting + [r]) && (r.pid in objs ==> !objs[r.pid].isContainer)
    ensures Rebuilt(s, objs, [r] + order, waiting)
  {
    assert forall u <- waiting :: u in waiting + [r];
    assert r in waiting + [r];
    forall p | p in objs
      ensures s.list[objs[p]] == if objs[p].isContainer then KidObjs(objs, [r] + order, p) else []
    {
      KidObjsGrow(objs, order, r, p);
    }
  }

  lemma NoKidObjs(objs: map<int, Item>)
    ensures forall p :: KidObjs(objs, [], p) == []
  {
  }

  lemma KidObjsGrow(objs: map<int, Item>, order: seq<Row>, r: Row, p: int)
    requires (forall q <- order :: q.sid in objs) && r.sid in objs
    ensures KidObjs(objs, [r] + order, p) == (if r.pid == p then [objs[r.sid]] else []) + KidObjs(objs, order, p)
  {
    assert ([r] + order)[1..] == order;
    KidRowsIn([r] + order, p);
    KidRowsIn(order, p);
  }

  /** `objs` holds a copy of node `j`: the same data, and a container stays a container. */
  ghost predicate CopyAt(
      cell: map<Item, Cell>, nodes: seq<Item>, cell': map<Item, Cell>, objs: map<int, Item>, j: nat)
    requires j < |nodes|
  {
    && FIRST_SID + j in objs && objs[FIRST_SID + j] in cell' && nodes[j] in cell
    && cell'[objs[FIRST_SID + j]] == cell[nodes[j]]
    && (nodes[j].isContainer ==> objs[FIRST_SID + j].isContainer)
  }

  ghost predicate Copies(
      cell: map<Item, Cell>, rows: seq<Row>, nodes: seq<Item>, cell': map<Item, Cell>, objs: map<int, Item>)
  {
    Numbered(cell, rows, nodes) && forall j | 0 <= j < |nodes| :: CopyAt(cell, nodes, cell', objs, j)
  }

  /** Saved and rebuilt, every item has the same tree of contents, in the same order. */
  lemma {:induction false} RebuiltTree(
      s: State, cell: map<Item, Cell>, roots: seq<(int, Item)>, rows: seq<Row>, nodes: seq<Item>,
      s': State, cell': map<Item, Cell>, objs: map<int, Item>, k: nat)
    requires Forest(s) && s.parent.Keys == cell.Keys && Forest(s') && s'.parent.Keys == cell'.Keys
    requires Encodes(s, cell, roots, rows, nodes) && Rebuilt(s', objs, rows, [])
    requires Copies(cell, rows, nodes, cell', objs)
    requires k < |nodes|
    ensures nodes[k] in s.rank && nodes[k] in s.parent && FIRST_SID + k in objs && objs[FIRST_SID + k] in s'.parent
    ensures TreeOf(s', cell', objs[FIRST_SID + k]) == TreeOf(s, cell, nodes[k])
    decreases if nodes[k] in s.rank then s.rank[nodes[k]] else 0
  {
    hide Forest, Encodes, Rebuilt, Copies;
    CopyOf(s, cell, roots, rows, nodes, s', cell', objs, k);
    var i, x := nodes[k], objs[FIRST_SID + k];
    forall t | 0 <= t < |s.list[i]|
      ensures s'.list[x][t] in s'.parent && s.list[i][t] in s.parent
      ensures TreeOf(s', cell', s'.list[x][t]) == TreeOf(s, cell, s.list[i][t])
    {
      var l := KidAt(s, cell, roots, rows, nodes, s', cell', objs, k, t);
      RebuiltTree(s, cell, roots, rows, nodes, s', cell', objs, l);
    }
    assert TreeOf(s', cell', x).kids == TreeOf(s, cell, i).kids;
  }

  lemma CopyOf(
      s: State, cell: map<Item, Cell>, roots: seq<(int, Item)>, rows: seq<Row>, nodes: seq<Item>,
      s': State, cell': map<Item, Cell>, objs: map<int, Item>, k: nat)
    requires Forest(s) && Forest(s') && s.parent.Keys == cell.Keys && s'.parent.Keys == cell'.Keys
    requires Encodes(s, cell, roots, rows, nodes) && Rebuilt(s', objs, rows, [])
    requires Copies(cell, rows, nodes, cell', objs) && k < |nodes|
    ensures nodes[k] in s.rank && nodes[k] in s.parent && nodes[k] in s.list && FIRST_SID + k in objs
    ensures objs[FIRST_SID + k] in s'.parent && objs[FIRST_SID + k] in s'.list
    ensures cell'[objs[FIRST_SID + k]] == cell[nodes[k]]
    ensures |s'.list[objs[FIRST_SID + k]]| == |s.list[nodes[k]]|
    ensures KidRowsFit(rows, FIRST_SID + k, objs, |nodes|)
    ensures s.list[nodes[k]] == Nodes(KidRows(rows, FIRST_SID + k), nodes)
    ensures nodes[k].isContainer ==> s'.list[objs[FIRST_SID + k]] == Objs(objs, KidRows(rows, FIRST_SID + k))
  {
    assert CopyAt(cell, nodes, cell', objs, k);
    KidRowsIn(rows, FIRST_SID + k);
    assert Kids(cell, rows, nodes, FIRST_SID + k) == s.list[nodes[k]];
  }

  ghost predicate KidRowsFit(rows: seq<Row>, p: int, objs: map<int, Item>, n: nat)
  {
    forall r <- KidRows(rows, p) :: r.sid in objs && FIRST_SID <= r.sid < FIRST_SID + n
  }

  /** The `t`-th content of a node and of its copy come from the same row. */
  lemma KidAt(
      s: State, cell: map<Item, Cell>, roots: seq<(int, Item)>, rows: seq<Row>, nodes: seq<Item>,
      s': State, cell': map<Item, Cell>, objs: map<int, Item>, k: nat, t: nat)
    returns (l: nat)
    requires Forest(s) && Forest(s') && s.parent.Keys == cell.Keys && s'.parent.Keys == cell'.Keys
    requires Encodes(s, cell, roots, rows, nodes) && Rebuilt(s', objs, rows, [])
    requires Copies(cell, rows, nodes, cell', objs) && k < |nodes|
    requires nodes[k] in s.list && t < |s.list[nodes[k]]|
    ensures l < |nodes| && s.list[nodes[k]][t] == nodes[l] && FIRST_SID + l in objs
    ensures FIRST_SID + k in objs && objs[FIRST_SID + k] in s'.list && t < |s'.list[objs[FIRST_SID + k]]|
    ensures s'.list[objs[FIRST_SID + k]][t] == objs[FIRST_SID + l]
    ensures nodes[k] in s.rank && nodes[l] in s.rank && s.rank[nodes[l]] < s.rank[nodes[k]]
  {
    hide Encodes, Rebuilt, Copies;
    CopyOf(s, cell, roots, rows, nodes, s', cell', objs, k);
    var kids := KidRows(rows, FIRST_SID + k);
    assert kids[t] in kids;
    l := kids[t].sid - FIRST_SID;
    assert s.list[nodes[k]][t] in s.list[nodes[k]];
    assert s.parent[nodes[l]] == nodes[k];
  }

  /** The map of loaded items: each row's item, with the row's data, under the row's running id. */
  ghost predicate Loaded(
      cell: map<Item, Cell>, objs: map<int, Item>, pids: map<int, int>, rows: seq<Row>, isBox: nat -> bool)
  {
    && objs.Keys == pids.Keys
    && (forall p :: p in objs ==> exists r <- rows :: r.sid == p)
    && (forall r <- rows ::
          && r.sid in objs && pids[r.sid] == r.pid && objs[r.sid] in cell && cell[objs[r.sid]] == r.cell
          && (objs[r.sid].isContainer <==> isBox(r.cell.id)))
  }

  lemma AdoptRow(
      cell: map<Item, Cell>, objs: map<int, Item>, pids: map<int, int>, rows: seq<Row>, rows': seq<Row>,
      isBox: nat -> bool, r: Row, x: Item)
    requires Loaded(cell, objs, pids, rows, isBox) && x !in cell && (x.isContainer <==> isBox(r.cell.id))
    requires forall q <- rows :: q.sid != r.sid
    requires forall q :: q in rows' <==> q == r || q in rows
    ensures Loaded(cell[x := r.cell], objs[r.sid := x], pids[r.sid := r.pid], rows', isBox)
  {
    var objs' := objs[r.sid := x];
    forall p | p in objs' ensures exists q <- rows' :: q.sid == p {
      if p == r.sid {
        assert r in rows';
      } else {
        var q :| q in rows && q.sid == p;
        assert q in rows';
      }
    }
  }

  lemma AdoptDetached(
      s: State, objs: map<int, Item>, rows: seq<Row>, rows': seq<Row>, r: Row, x: Item)
    requires Rebuilt(s, objs, [], rows) && x !in s.parent
    requires forall q <- rows :: q.sid != r.sid
    requires forall q :: q in rows' <==> q == r || q in rows
    ensures Rebuilt(WithNew(s, x), objs[r.sid := x], [], rows')
  {
  }

  /** Where a running id belongs among increasing ones, as std::map keeps its keys. */
  method FindPlace(keys: seq<int>, sid: int) returns (k: nat)
    requires forall i, j | 0 <= i < j < |keys| :: keys[i] < keys[j]
    ensures k <= |keys|
    ensures forall i | 0 <= i < k :: keys[i] < sid
    ensures forall i | k <= i < |keys| :: sid <= keys[i]
  {
    k := 0;
    while k < |keys| && keys[k] < sid
      invariant k <= |keys| && forall i | 0 <= i < k :: keys[i] < sid
    {
      k := k + 1;
    }
  }

  ghost predicate Keyed(keys: seq<int>, rows: seq<Row>)
  {
    |keys| == |rows| && Increasing(rows) && forall k | 0 <= k < |rows| :: keys[k] == rows[k].sid
  }

  lemma InsertRow(keys: seq<int>, rows: seq<Row>, r: Row, k: nat)
    requires Keyed(keys, rows) && k <= |rows| && forall q <- rows :: q.sid != r.sid
    requires (forall i | 0 <= i < k :: keys[i] < r.sid) && (forall i | k <= i < |keys| :: r.sid <= keys[i])
    ensures Keyed(Insert(keys, k, r.sid), Insert(rows, k, r))
    ensures forall q :: q in Insert(rows, k, r) <==> q == r || q in rows
  {
    var rows' := Insert(rows, k, r);
    forall i | k <= i < |rows| ensures r.sid < rows[i].sid {
      assert rows[i] in rows && keys[i] == rows[i].sid;
    }
    forall i | 0 <= i < k ensures rows[i].sid < r.sid {
      assert keys[i] == rows[i].sid;
    }
    forall q | q in rows ensures q in rows' {
      var i :| 0 <= i < |rows| && rows[i] == q;
      assert rows'[if i < k then i else i + 1] == q;
    }
    assert rows'[k] == r;
  }

  /** IOLoginData::loadItems: one detached item per row, in a map ordered by running id. */
  method CreateItems(result: seq<Row>, isBox: nat -> bool, maxItems: nat -> nat, w: World)
    returns (keys: seq<int>, objs: map<int, Item>, pids: map<int, int>, ghost rows: seq<Row>)
    requires w.Valid() && forall j, k | 0 <= j < k < |result| :: result[j].sid != result[k].sid
    modifies w`items, w`heap, w`cell, w`own, w`total
    ensures w.Valid() && Keyed(keys, rows) && forall r :: r in rows <==> r in result
    ensures Loaded(w.cell, objs, pids, rows, isBox) && Rebuilt(w.heap, objs, [], rows)
    ensures fresh(w.items - old(w.items))
  {
    hide Forest, Ledger, World.ShapeLinked, World.CellsLinked, World.OwnLinked, World.TotalLinked, Rebuilt, Loaded;
    keys, objs, pids, rows := [], map[], map[], [];
    NothingLoaded(w.heap, w.cell, isBox);
    var j := 0;
    while j < |result|
      invariant j <= |result| && w.Valid() && fresh(w.items - old(w.items))
      invariant Keyed(keys, rows) && forall r :: r in rows <==> r in result[..j]
      invariant Loaded(w.cell, objs, pids, rows, isBox) && Rebuilt(w.heap, objs, [], rows)
    {
      var r := result[j];
      assert result[..j + 1] == result[..j] + [r];
      forall q | q in rows ensures q.sid != r.sid {
        var i :| 0 <= i < j && result[i] == q;
      }
      var x := new Item(isBox(r.cell.id), maxItems(r.cell.id), r.cell.id, r.cell.count, r.cell.attrs);
      var k := FindPlace(keys, r.sid);
      InsertRow(keys, rows, r, k);
      w.LinkKeys();
      AdoptRow(w.cell, objs, pids, rows, Insert(rows, k, r), isBox, r, x);
      AdoptDetached(w.heap, objs, rows, Insert(rows, k, r), r, x);
      w.Adopt(x);
      keys, objs, pids := Insert(keys, k, r.sid), objs[r.sid := x], pids[r.sid := r.pid];
      rows := Insert(rows, k, r);
      j := j + 1;
    }
    assert result[..j] == result;
  }

  lemma NothingLoaded(s: State, cell: map<Item, Cell>, isBox: nat -> bool)
    ensures Loaded(cell, map[], map[], [], isBox) && Rebuilt(s, map[], [], [])
  {
  }

  function Slot(slots: map<int, seq<Item>>, p: int): seq<Item>
  {
    if p in slots then slots[p] else []
  }

  lemma RowAt(
      cell: map<Item, Cell>, objs: map<int, Item>, pids: map<int, int>, rows: seq<Row>, isBox: nat -> bool, r: Row)
    requires Loaded(cell, objs, pids, rows, isBox) && r in rows
    ensures r.sid in objs && r.sid in pids && pids[r.sid] == r.pid
    ensures objs[r.sid] in cell && cell[objs[r.sid]] == r.cell && (objs[r.sid].isContainer <==> isBox(r.cell.id))
  {
  }

  lemma SlotsGrow(objs: map<int, Item>, order: seq<Row>, r: Row, slots: map<int, seq<Item>>, lo: int, hi: int)
    requires (forall q <- order :: q.sid in objs) && r.sid in objs
    requires forall p | lo <= p <= hi :: Slot(slots, p) == KidObjs(objs, order, p)
    ensures forall p | lo <= p <= hi ::
              KidObjs(objs, [r] + order, p) == (if r.pid == p then [objs[r.sid]] else []) + Slot(slots, p)
  {
    forall p | lo <= p <= hi
      ensures KidObjs(objs, [r] + order, p) == (if r.pid == p then [objs[r.sid]] else []) + Slot(slots, p)
    {
      KidObjsGrow(objs, order, r, p);
    }
  }

  /** A row's container has a smaller running id, so it is still detached when the row is handled. */
  lemma ParentWaits(
      cell: map<Item, Cell>, objs: map<int, Item>, pids: map<int, int>, rows: seq<Row>, isBox: nat -> bool, i: nat)
    returns (q: Row)
    requires Loaded(cell, objs, pids, rows, isBox) && Increasing(rows) && i < |rows|
    requires rows[i].pid < rows[i].sid && rows[i].pid in objs
    ensures q in rows[..i] && q.sid == rows[i].pid
    ensures forall u <- rows[..i] :: u.sid != rows[i].sid
  {
    q :| q in rows && q.sid == rows[i].pid;
    var j :| 0 <= j < |rows| && rows[j] == q;
    assert j < i;
    assert rows[..i][j] == q;
  }

  /**
   The rebuild loops of loadPlayer: the loaded items from the largest running id down, each put
   at the front of its slot or depot (parent ids `lo` to `hi`) or of the container it names.
   */
  method Rebuild(result: seq<Row>, lo: int, hi: int, isBox: nat -> bool, maxItems: nat -> nat, w: World)
    returns (slots: map<int, seq<Item>>, objs: map<int, Item>, ghost rows: seq<Row>)
    requires w.Valid() && forall j, k | 0 <= j < k < |result| :: result[j].sid != result[k].sid
    requires forall r <- result :: r.pid < r.sid && hi < r.sid
    modifies w`items, w`heap, w`cell, w`own, w`total, w.items
    ensures w.Valid()
    ensures Increasing(rows) && forall r :: r in rows <==> r in result
    ensures Rebuilt(w.heap, objs, rows, [])
    ensures forall r <- result :: r.sid in objs && objs[r.sid] in w.cell && w.cell[objs[r.sid]] == r.cell
              && (objs[r.sid].isContainer <==> isBox(r.cell.id))
    ensures forall p | lo <= p <= hi :: Slot(slots, p) == KidObjs(objs, rows, p)
  {
    hide Forest, Ledger, World.ShapeLinked, World.CellsLinked, World.OwnLinked, World.TotalLinked, Rebuilt, Loaded,
         KidObjs, KidRows, Objs;
    var keys, pids;
    keys, objs, pids, rows := CreateItems(result, isBox, maxItems, w);
    slots := map[];
    var i := |keys|;
    assert rows[..i] == rows && rows[i..] == [];
    NoKidObjs(objs);
    while i > 0
      invariant i <= |keys| && w.Valid() && fresh(w.items - old(w.items))
      invariant Loaded(w.cell, objs, pids, rows, isBox) && Rebuilt(w.heap, objs, rows[i..], rows[..i])
      invariant forall r <- rows[i..] :: r.sid in objs
      invariant forall p | lo <= p <= hi :: Slot(slots, p) == KidObjs(objs, rows[i..], p)
    {
      i := i - 1;
      ghost var r := rows[i];
      RowAt(w.cell, objs, pids, rows, isBox, r);
      assert rows[..i + 1] == rows[..i] + [r] && rows[i..] == [r] + rows[i + 1..];
      SlotsGrow(objs, rows[i + 1..], r, slots, lo, hi);
      var pid := pids[keys[i]];
      if lo <= pid <= hi {
        slots := slots[pid := [objs[keys[i]]] + Slot(slots, pid)];
        NotAKey(w.cell, objs, pids, rows, isBox, pid);
        SkipRow(w.heap, objs, rows[i + 1..], rows[..i], r);
      } else if pid in objs && objs[pid].isContainer {
        PutInto(objs, pids, rows, i, isBox, keys[i], pid, w);
      } else {
        SkipRow(w.heap, objs, rows[i + 1..], rows[..i], r);
      }
    }
    assert rows[0..] == rows && rows[..0] == [];
    forall r | r in result
      ensures r.sid in objs && objs[r.sid] in w.cell && w.cell[objs[r.sid]] == r.cell
      ensures objs[r.sid].isContainer <==> isBox(r.cell.id)
    {
      RowAt(w.cell, objs, pids, rows, isBox, r);
    }
  }

  lemma NotAKey(
      cell: map<Item, Cell>, objs: map<int, Item>, pids: map<int, int>, rows: seq<Row>, isBox: nat -> bool, p: int)
    requires Loaded(cell, objs, pids, rows, isBox) && forall r <- rows :: p < r.sid
    ensures p !in objs
  {
  }

  /** container->internalAddThing(item) for the row at position `i`. */
  method PutInto(
      objs: map<int, Item>, ghost pids: map<int, int>, ghost rows: seq<Row>, ghost i: nat, ghost isBox: nat -> bool,
      sid: int, pid: int, w: World)
    requires w.Valid() && Increasing(rows) && i < |rows| && rows[i].sid == sid && rows[i].pid == pid && pid < sid
    requires Loaded(w.cell, objs, pids, rows, isBox) && Rebuilt(w.heap, objs, rows[i + 1..], rows[..i + 1])
    requires pid in objs && sid in objs && objs[pid].isContainer
    modifies w`heap, w`total, w.items
    ensures w.Valid() && Rebuilt(w.heap, objs, rows[i..], rows[..i])
  {
    hide Forest, Ledger, World.ShapeLinked, World.CellsLinked, World.OwnLinked, World.TotalLinked, Rebuilt, Loaded;
    ghost var q := ParentWaits(w.cell, objs, pids, rows, isBox, i);
    assert rows[..i + 1] == rows[..i] + [rows[i]] && rows[i..] == [rows[i]] + rows[i + 1..];
    AttachRow(w.heap, objs, rows[i + 1..], rows[..i], rows[i], q);
    w.LinkAt(objs[pid]);
    w.LinkAt(objs[sid]);
    objs[pid].InternalAddThing(objs[sid], w);
  }

  ghost function Trees(s: State, cell: map<Item, Cell>, list: seq<Item>): seq<Tree>
    requires Forest(s) && s.parent.Keys == cell.Keys && forall i <- list :: i in s.parent
  {
    seq(|list|, k requires 0 <= k < |list| => (assert list[k] in list; TreeOf(s, cell, list[k])))
  }

  /** What loadItems knows of the rows: an object for each, of the container kind its id calls for. */
  ghost predicate Made(cell: map<Item, Cell>, objs: map<int, Item>, rows: seq<Row>, isBox: nat -> bool)
  {
    forall r <- rows :: r.sid in objs && objs[r.sid] in cell && cell[objs[r.sid]] == r.cell
                        && (objs[r.sid].isContainer <==> isBox(r.cell.id))
  }

  lemma MadeCopies(
      s: State, cell: map<Item, Cell>, roots: seq<(int, Item)>, rows: seq<Row>, nodes: seq<Item>,
      cell': map<Item, Cell>, objs: map<int, Item>, isBox: nat -> bool)
    requires Encodes(s, cell, roots, rows, nodes) && Made(cell', objs, rows, isBox)
    requires forall i <- nodes :: i in cell && (i.isContainer ==> isBox(cell[i].id))
    ensures Increasing(rows) && Copies(cell, rows, nodes, cell', objs)
  {
    hide Kids, Made;
    assert Numbered(cell, rows, nodes);
    forall j | 0 <= j < |nodes| ensures CopyAt(cell, nodes, cell', objs, j) {
      NumberedAt(cell, rows, nodes, j);
      MadeAt(cell', objs, rows, isBox, rows[j]);
      assert nodes[j] in nodes;
    }
    forall j, k | 0 <= j < k < |rows| ensures rows[j].sid < rows[k].sid {
      NumberedAt(cell, rows, nodes, j);
      NumberedAt(cell, rows, nodes, k);
    }
  }

  lemma NumberedAt(cell: map<Item, Cell>, rows: seq<Row>, nodes: seq<Item>, j: nat)
    requires Numbered(cell, rows, nodes) && j < |nodes|
    ensures |rows| == |nodes| && rows[j].sid == FIRST_SID + j && nodes[j] in cell && rows[j].cell == cell[nodes[j]]
  {
  }

  lemma MadeAt(cell: map<Item, Cell>, objs: map<int, Item>, rows: seq<Row>, isBox: nat -> bool, r: Row)
    requires Made(cell, objs, rows, isBox) && r in rows
    ensures r.sid in objs && objs[r.sid] in cell && cell[objs[r.sid]] == r.cell
    ensures objs[r.sid].isContainer <==> isBox(r.cell.id)
  {
  }

  /** The rows of slot or depot `p` are its items, in order, on either side. */
  lemma RootKids(
      s: State, cell: map<Item, Cell>, roots: seq<(int, Item)>, rows: seq<Row>, nodes: seq<Item>,
      s': State, objs: map<int, Item>, p: int)
    requires Encodes(s, cell, roots, rows, nodes) && Rebuilt(s', objs, rows, []) && p < FIRST_SID
    ensures KidRowsFit(rows, p, objs, |nodes|)
    ensures RootsWith(roots, p) == Nodes(KidRows(rows, p), nodes)
    ensures forall r <- rows :: r.sid in objs
    ensures KidObjs(objs, rows, p) == Objs(objs, KidRows(rows, p))
  {
    KidRowsIn(rows, p);
    assert Kids(cell, rows, nodes, p) == RootsWith(roots, p);
  }

  /**
   Saving any forest and rebuilding it from its rows, handed back in whatever order, gives every
   slot and depot the same items, with the same contents at every depth, in the same order.
   */
  lemma {:induction false} ForestRoundTrip(
      s: State, cell: map<Item, Cell>, roots: seq<(int, Item)>, rows: seq<Row>, nodes: seq<Item>,
      s': State, cell': map<Item, Cell>, objs: map<int, Item>, rows': seq<Row>, isBox: nat -> bool, p: int)
    requires Forest(s) && s.parent.Keys == cell.Keys && Forest(s') && s'.parent.Keys == cell'.Keys
    requires Encodes(s, cell, roots, rows, nodes) && forall b <- RootsWith(roots, p) :: b in s.parent
    requires Increasing(rows') && forall r :: r in rows' <==> r in rows
    requires Rebuilt(s', objs, rows', []) && Made(cell', objs, rows, isBox)
    requires forall i <- nodes :: i in cell && (i.isContainer ==> isBox(cell[i].id))
    requires p < FIRST_SID
    ensures rows' == rows
    ensures forall b <- KidObjs(objs, rows', p) :: b in s'.parent
    ensures Trees(s', cell', KidObjs(objs, rows', p)) == Trees(s, cell, RootsWith(roots, p))
  {
    hide Forest, Encodes, Rebuilt, Made, Copies, Kids, RootsWith, KidRows;
    MadeCopies(s, cell, roots, rows, nodes, cell', objs, isBox);
    IncreasingIsUnique(rows', rows);
    RootKids(s, cell, roots, rows, nodes, s', objs, p);
    var kids, roots', objs' := KidRows(rows, p), RootsWith(roots, p), KidObjs(objs, rows, p);
    forall t | 0 <= t < |kids|
      ensures objs'[t] in s'.parent && roots'[t] in s.parent
      ensures TreeOf(s', cell', objs'[t]) == TreeOf(s, cell, roots'[t])
    {
      assert kids[t] in kids;
      RebuiltTree(s, cell, roots, rows, nodes, s', cell', objs, kids[t].sid - FIRST_SID);
    }
  }

  /** A save followed by a load into another world. */
  method SaveAndReload(
      itemList: seq<(int, Item)>, w: World, lo: int, hi: int, isBox: nat -> bool, maxItems: nat -> nat, w': World)
    returns (slots: map<int, seq<Item>>)
    requires w.Valid() && (forall b <- itemList :: b.0 < FIRST_SID && b.1 in w.heap.parent) && hi < FIRST_SID
    requires forall i <- w.items :: i.isContainer ==> isBox(i.id)
    requires w'.Valid() && w' != w && w.items !! w'.items
    modifies w'`items, w'`heap, w'`cell, w'`own, w'`total, w'.items
    ensures w.Valid() && w'.Valid()
    ensures forall p, b | lo <= p <= hi && b in RootsWith(itemList, p) :: b in w.heap.parent
    ensures forall p, b | lo <= p <= hi && b in Slot(slots, p) :: b in w'.heap.parent
    ensures w.heap.parent.Keys == w.cell.Keys && w'.heap.parent.Keys == w'.cell.Keys
    ensures forall p | lo <= p <= hi ::
              Trees(w'.heap, w'.cell, Slot(slots, p)) == Trees(w.heap, w.cell, RootsWith(itemList, p))
  {
    hide Forest, Ledger, World.ShapeLinked, World.CellsLinked, World.OwnLinked, World.TotalLinked,
         Rebuilt, KidObjs, Trees;
    ghost var s, cell := w.heap, w.cell;
    var rows;
    ghost var nodes;
    rows, nodes := SaveItems(itemList, w);
    BoxesAreBoxes(w, itemList, rows, nodes, isBox);
    var objs;
    ghost var order;
    slots, objs, order := Rebuild(rows, lo, hi, isBox, maxItems, w');
    w.LinkKeys();
    w'.LinkKeys();
    forall p | lo <= p <= hi
      ensures forall b <- RootsWith(itemList, p) :: b in w.heap.parent
      ensures forall b <- Slot(slots, p) :: b in w'.heap.parent
      ensures Trees(w'.heap, w'.cell, Slot(slots, p)) == Trees(w.heap, w.cell, RootsWith(itemList, p))
    {
      RootsLive(s, itemList, p);
      ForestRoundTrip(s, cell, itemList, rows, nodes, w'.heap, w'.cell, objs, order, isBox, p);
    }
  }

  lemma {:induction false} RootsLive(s: State, roots: seq<(int, Item)>, p: int)
    requires forall b <- roots :: b.1 in s.parent
    ensures forall i <- RootsWith(roots, p) :: i in s.parent
  {
    if roots != [] {
      RootsLive(s, roots[..|roots| - 1], p);
    }
  }

  lemma BoxesAreBoxes(
      w: World, roots: seq<(int, Item)>, rows: seq<Row>, nodes: seq<Item>, isBox: nat -> bool)
    requires w.Valid() && Encodes(w.heap, w.cell, roots, rows, nodes)
    requires forall i <- w.items :: i.isContainer ==> isBox(i.id)
    ensures forall i <- nodes :: i in w.cell && (i.isContainer ==> isBox(w.cell[i].id))
    ensures forall j, k | 0 <= j < k < |rows| :: rows[j].sid != rows[k].sid
    ensures forall r <- rows :: r.pid < r.sid && FIRST_SID <= r.sid
  {
    hide Forest, Ledger, Kids;
  }
}
