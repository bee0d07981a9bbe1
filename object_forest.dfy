/** `ObjectsTree.get_nodes` (tasks/services/tree_nodes/tree_nodes.py): the
    rows (id, name, parent) are indexed by id, every row is listed under its
    parent when the parent is among the rows, and the forest is grown from
    the rows without a parent.

    The recursion of `transform` is modelled along an ancestor chain: a
    chain is a sequence of ids starting at a row without a parent, each
    next id a child of the previous one. Every node the forest holds is the
    end of exactly one chain, which is what makes the recursion finite and
    the ids distinct; rows whose ancestry never reaches a root (a missing
    ancestor, a cycle) are not emitted. */
module ObjectForest {
  import opened Wrappers
  import opened Seqs
  import opened TreeBase

  type Id = nat

  /** One row of `Object.objects.values("id", "name", "parent")`. */
  datatype ObjRow = ObjRow(id: Id, name: string, parent: Option<Id>)

  function Ids(rows: seq<ObjRow>): (ids: seq<Id>)
    ensures |ids| == |rows|
    ensures forall i :: 0 <= i < |rows| ==> ids[i] == rows[i].id
  {
    seq(|rows|, i requires 0 <= i < |rows| => rows[i].id)
  }

  /** `{obj["id"]: obj for obj in objects_qs}`: a later row with the same id
      replaces an earlier one. */
  function Index(rows: seq<ObjRow>): (m: map<Id, ObjRow>)
    ensures forall r :: r in rows ==> r.id in m
    ensures forall id :: id in m ==> m[id].id == id && m[id] in rows
  {
    if |rows| == 0 then map[]
    else
      var last := rows[|rows| - 1];
      assert rows == rows[..|rows| - 1] + [last];
      Index(rows[..|rows| - 1])[last.id := last]
  }

  /** c is listed as a child of p: both are rows and p is c's parent
      (`parent is not None and objects.get(parent)`). */
  predicate IsChildOf(index: map<Id, ObjRow>, c: Id, p: Id) {
    c in index && p in index && index[c].parent == Some(p)
  }

  /** The ids of the rows that are children of p, in row order, repeats
      included. */
  function ChildIds(rows: seq<ObjRow>, index: map<Id, ObjRow>, p: Id): (r: seq<Id>)
    ensures forall c :: c in r <==> c in Ids(rows) && IsChildOf(index, c, p)
  {
    if |rows| == 0 then []
    else
      var c := rows[|rows| - 1].id;
      assert Ids(rows) == Ids(rows[..|rows| - 1]) + [c];
      ChildIds(rows[..|rows| - 1], index, p) + (if IsChildOf(index, c, p) then [c] else [])
  }

  /** The children list the loop gives p: each child once, in the order of
      its first row. */
  function Kids(rows: seq<ObjRow>, index: map<Id, ObjRow>, p: Id): seq<Id> {
    Dedup(ChildIds(rows, index, p))
  }

  /** One more row either appends its id to its parent's list (when not
      there yet) or changes nothing. */
  lemma KidsStep(rows: seq<ObjRow>, index: map<Id, ObjRow>, i: nat, p: Id)
    requires i < |rows|
    ensures var c := rows[i].id;
      Kids(rows[..i + 1], index, p) ==
        if IsChildOf(index, c, p) && c !in Kids(rows[..i], index, p)
        then Kids(rows[..i], index, p) + [c]
        else Kids(rows[..i], index, p)
  {
    var c := rows[i].id;
    assert rows[..i + 1][..i] == rows[..i];
    var before := ChildIds(rows[..i], index, p);
    var after := ChildIds(rows[..i + 1], index, p);
    if IsChildOf(index, c, p) {
      assert after == before + [c];
      assert after[..|after| - 1] == before;
    } else {
      assert after == before;
    }
  }

  /** The children lists: only parents with at least one child have one. */
  function ChildMap(rows: seq<ObjRow>, index: map<Id, ObjRow>): map<Id, seq<Id>> {
    map p | p in index && |Kids(rows, index, p)| > 0 :: Kids(rows, index, p)
  }

  /** The loop body on the children lists built so far: the row's id is
      appended to its parent's list (created when missing) unless it is
      already there. */
  function StepChildren(before: map<Id, seq<Id>>, index: map<Id, ObjRow>, c: Id): map<Id, seq<Id>>
    requires c in index
  {
    var parent := index[c].parent;
    if parent.Some? && parent.value in index then
      var siblings := if parent.value in before then before[parent.value] else [];
      if c in siblings then before else before[parent.value := siblings + [c]]
    else before
  }

  lemma ChildMapStepAt(rows: seq<ObjRow>, index: map<Id, ObjRow>, i: nat, p: Id)
    requires i < |rows| && rows[i].id in index
    ensures var after := ChildMap(rows[..i + 1], index);
      var expected := StepChildren(ChildMap(rows[..i], index), index, rows[i].id);
      (p in after <==> p in expected) && (p in after ==> after[p] == expected[p])
  {
    var c := rows[i].id;
    var before := ChildMap(rows[..i], index);
    var after := ChildMap(rows[..i + 1], index);
    KidsStep(rows, index, i, p);
    var kb := Kids(rows[..i], index, p);
    var ka := Kids(rows[..i + 1], index, p);
    assert p in before <==> p in index && |kb| > 0;
    assert p in before ==> before[p] == kb;
    assert p in after <==> p in index && |ka| > 0;
    assert p in after ==> after[p] == ka;
    StepChildrenAt(before, index, c, p, kb);
  }

  /** The loop body at one parent p whose list so far is kb. */
  lemma StepChildrenAt(before: map<Id, seq<Id>>, index: map<Id, ObjRow>, c: Id, p: Id, kb: seq<Id>)
    requires c in index
    requires (p in before <==> p in index && |kb| > 0) && (p in before ==> before[p] == kb)
    ensures var e := StepChildren(before, index, c);
      var ka := if IsChildOf(index, c, p) && c !in kb then kb + [c] else kb;
      (p in e <==> p in index && |ka| > 0) && (p in e ==> e[p] == ka)
  {
    var e := StepChildren(before, index, c);
    if IsChildOf(index, c, p) {
      var siblings := if p in before then before[p] else [];
      assert siblings == kb;
    } else {
      assert p in e <==> p in before;
      assert p in e ==> e[p] == before[p];
    }
  }

  lemma ChildMapStep(rows: seq<ObjRow>, index: map<Id, ObjRow>, i: nat)
    requires i < |rows| && rows[i].id in index
    ensures ChildMap(rows[..i + 1], index) == StepChildren(ChildMap(rows[..i], index), index, rows[i].id)
  {
    var after := ChildMap(rows[..i + 1], index);
    var expected := StepChildren(ChildMap(rows[..i], index), index, rows[i].id);
    forall p ensures (p in after <==> p in expected) && (p in after ==> after[p] == expected[p]) {
      ChildMapStepAt(rows, index, i, p);
    }
    MapsAgree(after, expected);
  }

  lemma MapsAgree<K, V>(a: map<K, V>, b: map<K, V>)
    requires forall k :: (k in a <==> k in b) && (k in a ==> a[k] == b[k])
    ensures a == b
  {
  }

  /** Every list belongs to a row, is non-empty, has no repeats and holds
      only that row's children. */
  predicate WellFormed(index: map<Id, ObjRow>, children: map<Id, seq<Id>>) {
    forall p :: p in children ==>
      p in index && |children[p]| > 0 && NoDup(children[p])
      && forall c :: c in children[p] ==> IsChildOf(index, c, p)
  }

  /** Every child of a row is in that row's list. */
  ghost predicate Complete(index: map<Id, ObjRow>, children: map<Id, seq<Id>>) {
    forall c, p :: IsChildOf(index, c, p) ==> p in children && c in children[p]
  }

  lemma ChildMapShape(rows: seq<ObjRow>)
    ensures WellFormed(Index(rows), ChildMap(rows, Index(rows)))
    ensures Complete(Index(rows), ChildMap(rows, Index(rows)))
  {
    var index := Index(rows);
    forall c, p | IsChildOf(index, c, p)
      ensures p in ChildMap(rows, index) && c in ChildMap(rows, index)[p]
    {
      var k :| 0 <= k < |rows| && rows[k] == index[c];
      assert Ids(rows)[k] == c;
      assert c in ChildIds(rows, index, p);
    }
  }

  /** The parent a child of the chain's end must have: None for the roots,
      else the end of the chain. */
  function ParentOf(path: seq<Id>): Option<Id> {
    if |path| == 0 then None else Some(path[|path| - 1])
  }

  /** A chain of rows from a root down, each the child of the one before. */
  predicate Chain(index: map<Id, ObjRow>, path: seq<Id>) {
    forall k :: 0 <= k < |path| ==>
      path[k] in index && index[path[k]].parent == ParentOf(path[..k])
  }

  lemma ChainPrefix(index: map<Id, ObjRow>, path: seq<Id>, n: nat)
    requires Chain(index, path) && n <= |path|
    ensures Chain(index, path[..n])
  {
    forall k | 0 <= k < n ensures path[..n][..k] == path[..k] { }
  }

  lemma ChainExtend(index: map<Id, ObjRow>, path: seq<Id>, c: Id)
    requires Chain(index, path)
    requires c in index && index[c].parent == ParentOf(path)
    ensures Chain(index, path + [c])
  {
    var q := path + [c];
    forall k | 0 <= k < |q| ensures q[k] in index && index[q[k]].parent == ParentOf(q[..k]) {
      if k < |path| {
        assert q[..k] == path[..k];
      } else {
        assert q[..k] == path;
      }
    }
  }

  /** No id occurs twice on a chain. */
  lemma {:induction false} ChainDistinctAt(index: map<Id, ObjRow>, path: seq<Id>, i: nat, j: nat)
    requires Chain(index, path) && i < j < |path|
    ensures path[i] != path[j]
    decreases i
  {
    assert path[..j][j - 1] == path[j - 1];
    if i == 0 {
      assert index[path[0]].parent == None;
      assert index[path[j]].parent == Some(path[j - 1]);
    } else {
      assert path[..i][i - 1] == path[i - 1];
      ChainDistinctAt(index, path, i - 1, j - 1);
      assert index[path[i]].parent == Some(path[i - 1]);
      assert index[path[j]].parent == Some(path[j - 1]);
    }
  }

  lemma ChainDistinct(index: map<Id, ObjRow>, path: seq<Id>)
    requires Chain(index, path)
    ensures NoDup(path)
  {
    forall i, j | 0 <= i < j < |path| ensures path[i] != path[j] {
      ChainDistinctAt(index, path, i, j);
    }
  }

  /** A chain is never longer than the number of rows. */
  lemma ChainBound(index: map<Id, ObjRow>, path: seq<Id>)
    requires Chain(index, path)
    ensures |path| <= |index.Keys|
  {
    ChainDistinct(index, path);
    NoDupBound(path, index.Keys);
  }

  /** Two chains ending at the same id are the same chain. */
  lemma {:induction false} ChainUnique(index: map<Id, ObjRow>, a: seq<Id>, b: seq<Id>)
    requires Chain(index, a) && Chain(index, b)
    requires |a| > 0 && |b| > 0 && a[|a| - 1] == b[|b| - 1]
    ensures a == b
    decreases |a|
  {
    var x := a[|a| - 1];
    assert index[x].parent == ParentOf(a[..|a| - 1]);
    assert index[x].parent == ParentOf(b[..|b| - 1]);
    if |a| == 1 {
      assert |b| == 1;
    } else {
      assert |b| > 1;
      assert a[|a| - 2] == b[|b| - 2];
      ChainPrefix(index, a, |a| - 1);
      ChainPrefix(index, b, |b| - 1);
      ChainUnique(index, a[..|a| - 1], b[..|b| - 1]);
      assert a == a[..|a| - 1] + [x];
      assert b == b[..|b| - 1] + [x];
    }
  }

  /** Children of the end of `path` (or roots, when `path` is empty). */
  predicate Extends(index: map<Id, ObjRow>, path: seq<Id>, kids: seq<Id>) {
    forall k :: k in kids ==> k in index && index[k].parent == ParentOf(path)
  }

  /** A node of the forest: its row's id and name, and when it has children
      (never an empty list) each of them is a row whose parent it is. */
  predicate Shaped(index: map<Id, ObjRow>, n: Node)
    decreases n
  {
    n.id.IntId? && n.id.n in index && n.caption == index[n.id.n].name
    && (n.WithChildren? ==>
         |n.children| > 0
         && forall i :: 0 <= i < |n.children| ==>
              n.children[i].id.IntId? && n.children[i].id.n in index
              && index[n.children[i].id.n].parent == Some(n.id.n)
              && Shaped(index, n.children[i]))
  }

  /** `transform(path[-1])`. */
  function Transform(index: map<Id, ObjRow>, children: map<Id, seq<Id>>, path: seq<Id>): (n: Node)
    requires WellFormed(index, children) && Chain(index, path) && |path| > 0
    ensures n.id == IntId(path[|path| - 1])
    ensures Shaped(index, n)
    decreases |index.Keys| - |path|, 1, 0
  {
    ChainBound(index, path);
    var id := path[|path| - 1];
    assert path[..|path| - 1] + [id] == path;
    if id in children then
      WithChildren(IntId(id), index[id].name, TransformList(index, children, path, children[id]))
    else Plain(IntId(id), index[id].name)
  }

  /** `[transform(child) for child in kids]`. */
  function TransformList(index: map<Id, ObjRow>, children: map<Id, seq<Id>>, path: seq<Id>, kids: seq<Id>)
    : (ns: seq<Node>)
    requires WellFormed(index, children) && Chain(index, path) && Extends(index, path, kids)
    ensures |ns| == |kids|
    ensures forall i :: 0 <= i < |ns| ==> ns[i].id == IntId(kids[i]) && Shaped(index, ns[i])
    decreases |index.Keys| - |path|, 0, |kids|
  {
    if |kids| == 0 then []
    else
      ChainExtend(index, path, kids[0]);
      ChainBound(index, path + [kids[0]]);
      [Transform(index, children, path + [kids[0]])] + TransformList(index, children, path, kids[1..])
  }

  /** The ids of a node and of everything below it, in pre-order. */
  function NodeIds(n: Node): seq<NodeId>
    decreases n, 1
  {
    if n.WithChildren? then [n.id] + ForestIds(n.children) else [n.id]
  }

  function ForestIds(ns: seq<Node>): seq<NodeId>
    decreases ns, 0
  {
    if |ns| == 0 then [] else NodeIds(ns[0]) + ForestIds(ns[1..])
  }

  /** The rows without a parent, in the order of the dict's keys. */
  function Roots(rows: seq<ObjRow>): (r: seq<Id>)
    ensures NoDup(r)
    ensures Extends(Index(rows), [], r)
    ensures forall x :: x in r <==> x in Index(rows) && Index(rows)[x].parent == None
  {
    var index := Index(rows);
    var order := Dedup(Ids(rows));
    forall x | x in index ensures x in order {
      var k :| 0 <= k < |rows| && rows[k] == index[x];
      assert Ids(rows)[k] == x;
    }
    WhereNoDup(order, (x: Id) => x in index && index[x].parent == None);
    Where(order, (x: Id) => x in index && index[x].parent == None)
  }

  /** The whole result of `get_nodes` on the rows. */
  function Forest(rows: seq<ObjRow>): (ns: seq<Node>)
    ensures |ns| == |Roots(rows)|
    ensures forall i :: 0 <= i < |ns| ==>
      ns[i].id == IntId(Roots(rows)[i]) && Index(rows)[Roots(rows)[i]].parent == None
      && Shaped(Index(rows), ns[i])
  {
    ChildMapShape(rows);
    TransformList(Index(rows), ChildMap(rows, Index(rows)), [], Roots(rows))
  }

  /** `get_nodes` itself: the index, then the loop that fills in the
      children lists, then the roots transformed. */
  method GetNodes(rows: seq<ObjRow>) returns (nodes: seq<Node>)
    ensures nodes == Forest(rows)
  {
    var objects := Index(rows);
    var children: map<Id, seq<Id>> := map[];
    assert children == ChildMap(rows[..0], objects);
    for i := 0 to |rows|
      invariant children == ChildMap(rows[..i], objects)
    {
      var objId := rows[i].id;
      var parent := objects[objId].parent;
      ChildMapStep(rows, objects, i);
      if parent.Some? && parent.value in objects {
        var siblings := if parent.value in children then children[parent.value] else [];
        if objId !in siblings {
          children := children[parent.value := siblings + [objId]];
        }
      }
    }
    assert rows[..|rows|] == rows;
    ChildMapShape(rows);
    nodes := TransformList(objects, children, [], Roots(rows));
  }

  /** x is the end of a chain: a row all of whose ancestors are rows,
      up to one without a parent. */
  ghost predicate Reachable(index: map<Id, ObjRow>, x: Id) {
    exists c :: Chain(index, c) && |c| > 0 && c[|c| - 1] == x
  }

  /** The chains below `path` through one of `kids` that end at x. */
  ghost predicate Below(index: map<Id, ObjRow>, path: seq<Id>, kids: seq<Id>, x: Id) {
    exists c :: Chain(index, c) && |c| > |path| && c[..|path|] == path && c[|path|] in kids
      && c[|c| - 1] == x
  }

  /** Every id a subtree emits ends a chain through its own root. */
  lemma {:induction false} TreeIdsSound(index: map<Id, ObjRow>, children: map<Id, seq<Id>>, path: seq<Id>)
    requires WellFormed(index, children) && Chain(index, path) && |path| > 0
    ensures forall x :: x in NodeIds(Transform(index, children, path)) ==>
      x.IntId? && Below(index, path[..|path| - 1], [path[|path| - 1]], x.n)
    decreases |index.Keys| - |path|, 1, 0
  {
    ChainBound(index, path);
    var id := path[|path| - 1];
    var up := path[..|path| - 1];
    assert up + [id] == path;
    assert path[..|up|] == up;
    var n := Transform(index, children, path);
    if id in children {
      var ns := TransformList(index, children, path, children[id]);
      ListIdsSound(index, children, path, children[id]);
      forall x | x in ForestIds(ns) ensures x.IntId? && Below(index, up, [id], x.n) {
        BelowLifts(index, path, children[id], x.n);
      }
    }
    forall x | x in NodeIds(n) ensures x.IntId? && Below(index, up, [id], x.n) {
      if x == n.id {
        assert path[..|up|] == up && path[|up|] in [id];
      }
    }
  }

  /** What is below a chain's children is below the chain's last node. */
  lemma BelowLifts(index: map<Id, ObjRow>, path: seq<Id>, kids: seq<Id>, x: Id)
    requires |path| > 0 && Below(index, path, kids, x)
    ensures Below(index, path[..|path| - 1], [path[|path| - 1]], x)
  {
    var up := path[..|path| - 1];
    var c :| Chain(index, c) && |c| > |path| && c[..|path|] == path && c[|path|] in kids && c[|c| - 1] == x;
    assert c[..|up|] == path[..|up|] == up;
    assert c[|up|] == path[|up|];
  }

  lemma {:induction false} ListIdsSound(index: map<Id, ObjRow>, children: map<Id, seq<Id>>, path: seq<Id>, kids: seq<Id>)
    requires WellFormed(index, children) && Chain(index, path) && Extends(index, path, kids)
    ensures forall x :: x in ForestIds(TransformList(index, children, path, kids)) ==>
      x.IntId? && Below(index, path, kids, x.n)
    decreases |index.Keys| - |path|, 0, |kids|
  {
    if |kids| > 0 {
      ChainExtend(index, path, kids[0]);
      ChainBound(index, path + [kids[0]]);
      var q := path + [kids[0]];
      assert q[..|q| - 1] == path;
      TreeIdsSound(index, children, q);
      ListIdsSound(index, children, path, kids[1..]);
      var ns := TransformList(index, children, path, kids);
      assert ns[1..] == TransformList(index, children, path, kids[1..]);
      forall x | x in ForestIds(ns) ensures x.IntId? && Below(index, path, kids, x.n) {
        if x in NodeIds(ns[0]) {
          var c :| Chain(index, c) && |c| > |path| && c[..|path|] == path && c[|path|] in [kids[0]]
            && c[|c| - 1] == x.n;
        } else {
          var c :| Chain(index, c) && |c| > |path| && c[..|path|] == path && c[|path|] in kids[1..]
            && c[|c| - 1] == x.n;
        }
      }
    }
  }

  /** No id is emitted twice: two emitted copies would end two different
      chains at the same row. */
  lemma {:induction false} TreeNoDup(index: map<Id, ObjRow>, children: map<Id, seq<Id>>, path: seq<Id>)
    requires WellFormed(index, children) && Chain(index, path) && |path| > 0
    ensures NoDup(NodeIds(Transform(index, children, path)))
    decreases |index.Keys| - |path|, 1, 0
  {
    ChainBound(index, path);
    var id := path[|path| - 1];
    var n := Transform(index, children, path);
    if id in children {
      var ns := TransformList(index, children, path, children[id]);
      ListNoDup(index, children, path, children[id]);
      ListIdsSound(index, children, path, children[id]);
      forall x | x in ForestIds(ns) ensures x != IntId(id) {
        BelowNotLast(index, path, children[id], x.n);
      }
      NoDupCons(IntId(id), ForestIds(ns));
    }
  }

  /** Nothing below a chain is the chain's own last node. */
  lemma BelowNotLast(index: map<Id, ObjRow>, path: seq<Id>, kids: seq<Id>, x: Id)
    requires Chain(index, path) && |path| > 0 && Below(index, path, kids, x)
    ensures x != path[|path| - 1]
  {
    var c :| Chain(index, c) && |c| > |path| && c[..|path|] == path && c[|path|] in kids && c[|c| - 1] == x;
    ChainDistinctAt(index, c, |path| - 1, |c| - 1);
    assert c[|path| - 1] == path[|path| - 1];
  }

  lemma {:induction false} ListNoDup(index: map<Id, ObjRow>, children: map<Id, seq<Id>>, path: seq<Id>, kids: seq<Id>)
    requires WellFormed(index, children) && Chain(index, path) && Extends(index, path, kids)
    requires NoDup(kids)
    ensures NoDup(ForestIds(TransformList(index, children, path, kids)))
    decreases |index.Keys| - |path|, 0, |kids|
  {
    if |kids| > 0 {
      ChainExtend(index, path, kids[0]);
      ChainBound(index, path + [kids[0]]);
      var q := path + [kids[0]];
      assert q[..|q| - 1] == path;
      var ns := TransformList(index, children, path, kids);
      assert ns[1..] == TransformList(index, children, path, kids[1..]);
      TreeNoDup(index, children, q);
      TreeIdsSound(index, children, q);
      ListNoDup(index, children, path, kids[1..]);
      ListIdsSound(index, children, path, kids[1..]);
      assert kids[0] !in kids[1..] by {
        forall j | 0 <= j < |kids[1..]| ensures kids[1..][j] != kids[0] {
          assert kids[1..][j] == kids[j + 1];
        }
      }
      forall x | x in NodeIds(ns[0]) ensures x !in ForestIds(ns[1..]) {
        BelowApart(index, path, kids[0], kids[1..], x.n);
      }
      NoDupAppend(NodeIds(ns[0]), ForestIds(ns[1..]));
    }
  }

  /** Chains through two different children of a chain never end at the
      same row. */
  lemma BelowApart(index: map<Id, ObjRow>, path: seq<Id>, a: Id, rest: seq<Id>, x: Id)
    requires a !in rest && Below(index, path, [a], x)
    ensures !Below(index, path, rest, x)
  {
    var c :| Chain(index, c) && |c| > |path| && c[..|path|] == path && c[|path|] in [a] && c[|c| - 1] == x;
    if Below(index, path, rest, x) {
      var d :| Chain(index, d) && |d| > |path| && d[..|path|] == path && d[|path|] in rest && d[|d| - 1] == x;
      ChainUnique(index, c, d);
      assert false;
    }
  }

  /** Every chain through `path` ends at an id the subtree emits. */
  lemma {:induction false} TreeCovers(index: map<Id, ObjRow>, children: map<Id, seq<Id>>, path: seq<Id>, c: seq<Id>)
    requires WellFormed(index, children) && Complete(index, children)
    requires Chain(index, path) && |path| > 0
    requires Chain(index, c) && |c| >= |path| && c[..|path|] == path
    ensures IntId(c[|c| - 1]) in NodeIds(Transform(index, children, path))
    decreases |index.Keys| - |path|, 1, 0
  {
    ChainBound(index, path);
    ChainBound(index, c);
    var id := path[|path| - 1];
    if |c| > |path| {
      var k := c[|path|];
      assert c[..|path| + 1][..|path|] == path;
      assert IsChildOf(index, k, id) by {
        assert c[..|path|] == path;
      }
      ListCovers(index, children, path, children[id], c);
    } else {
      assert c == path;
    }
  }

  lemma {:induction false} ListCovers(index: map<Id, ObjRow>, children: map<Id, seq<Id>>, path: seq<Id>, kids: seq<Id>, c: seq<Id>)
    requires WellFormed(index, children) && Complete(index, children)
    requires Chain(index, path) && Extends(index, path, kids)
    requires Chain(index, c) && |c| > |path| && c[..|path|] == path && c[|path|] in kids
    ensures IntId(c[|c| - 1]) in ForestIds(TransformList(index, children, path, kids))
    decreases |index.Keys| - |path|, 0, |kids|
  {
    ChainExtend(index, path, kids[0]);
    ChainBound(index, path + [kids[0]]);
    var ns := TransformList(index, children, path, kids);
    assert ns[1..] == TransformList(index, children, path, kids[1..]);
    if c[|path|] == kids[0] {
      var q := path + [kids[0]];
      assert c[..|q|] == q;
      TreeCovers(index, children, q, c);
    } else {
      ListCovers(index, children, path, kids[1..], c);
    }
  }

  /** The forest holds exactly the rows whose ancestry reaches a root,
      every id once. */
  lemma ForestIdsExact(rows: seq<ObjRow>)
    ensures NoDup(ForestIds(Forest(rows)))
    ensures forall x :: x in ForestIds(Forest(rows)) <==> x.IntId? && Reachable(Index(rows), x.n)
  {
    var index := Index(rows);
    var children := ChildMap(rows, index);
    ChildMapShape(rows);
    var roots := Roots(rows);
    assert Chain(index, []);
    ListNoDup(index, children, [], roots);
    ListIdsSound(index, children, [], roots);
    forall x: NodeId | x.IntId? && Reachable(index, x.n) ensures x in ForestIds(Forest(rows)) {
      var c :| Chain(index, c) && |c| > 0 && c[|c| - 1] == x.n;
      assert c[..0] == [];
      assert c[0] in roots;
      ListCovers(index, children, [], roots, c);
    }
  }
}
