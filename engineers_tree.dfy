/** `EngineersTree.get_nodes` (tasks/services/tree_nodes/tree_nodes.py):
    engineers grouped under their departments, departments in the order
    they first occur, engineers without a department after them. The tree
    does not depend on the context's user. */
module EngineersTree {
  import opened Wrappers
  import opened Seqs
  import opened Text
  import opened Domain
  import opened TreeBase

  /** One row of `Engineer.objects.values("id", "first_name",
      "second_name", "department", "department__name")`. */
  datatype EngRow = EngRow(id: Id, firstName: string, secondName: string, department: Option<Id>, departmentName: string)

  /** The query over the engineers table, in table order. */
  function Rows(db: Db): (rows: seq<EngRow>)
    ensures |rows| == |db.engineers|
    ensures forall i :: 0 <= i < |rows| ==>
      rows[i].id == db.engineers[i].id && rows[i].department == db.engineers[i].department
  {
    seq(|db.engineers|, i requires 0 <= i < |db.engineers| =>
      var e := db.engineers[i];
      var name := if e.department.Some? && FindDepartment(db, e.department.value).Some?
        then FindDepartment(db, e.department.value).value.name else "";
      EngRow(e.id, e.firstName, e.secondName, e.department, name))
  }

  function Label(r: EngRow): string {
    r.firstName + " " + r.secondName
  }

  /** f"eng_{id}" */
  function EngineerKey(id: Id): string {
    "eng_" + NatToString(id)
  }

  /** f"dep_{id}" */
  function DepartmentKey(id: Id): string {
    "dep_" + NatToString(id)
  }

  /** An engineer under a department: with an empty "children" list. */
  function Member(r: EngRow): Node {
    WithChildren(StrId(EngineerKey(r.id)), Label(r), [])
  }

  /** An engineer without a department: no "children" key. */
  function Loner(r: EngRow): Node {
    Plain(StrId(EngineerKey(r.id)), Label(r))
  }

  function Members(rs: seq<EngRow>): (ns: seq<Node>)
    ensures |ns| == |rs| && forall i :: 0 <= i < |rs| ==> ns[i] == Member(rs[i])
  {
    seq(|rs|, i requires 0 <= i < |rs| => Member(rs[i]))
  }

  function Loners(rs: seq<EngRow>): (ns: seq<Node>)
    ensures |ns| == |rs| && forall i :: 0 <= i < |rs| ==> ns[i] == Loner(rs[i])
  {
    seq(|rs|, i requires 0 <= i < |rs| => Loner(rs[i]))
  }

  predicate HasDepartment(r: EngRow, d: Id) {
    r.department == Some(d)
  }

  /** The rows of department d, in row order. */
  function InDepartment(rows: seq<EngRow>, d: Id): seq<EngRow> {
    if |rows| == 0 then []
    else
      var last := rows[|rows| - 1];
      InDepartment(rows[..|rows| - 1], d) + (if HasDepartment(last, d) then [last] else [])
  }

  function WithoutDepartment(rows: seq<EngRow>): seq<EngRow> {
    if |rows| == 0 then []
    else
      var last := rows[|rows| - 1];
      WithoutDepartment(rows[..|rows| - 1]) + (if last.department.None? then [last] else [])
  }

  lemma {:induction false} InDepartmentMembers(rows: seq<EngRow>, d: Id)
    ensures forall x :: x in InDepartment(rows, d) <==> x in rows && HasDepartment(x, d)
  {
    if |rows| > 0 {
      InDepartmentMembers(rows[..|rows| - 1], d);
      assert rows == rows[..|rows| - 1] + [rows[|rows| - 1]];
    }
  }

  lemma {:induction false} WithoutDepartmentMembers(rows: seq<EngRow>)
    ensures forall x :: x in WithoutDepartment(rows) <==> x in rows && x.department.None?
  {
    if |rows| > 0 {
      WithoutDepartmentMembers(rows[..|rows| - 1]);
      assert rows == rows[..|rows| - 1] + [rows[|rows| - 1]];
    }
  }

  /** The departments in the order they first occur. */
  function DepartmentOrder(rows: seq<EngRow>): (r: seq<Id>)
    ensures NoDup(r)
  {
    if |rows| == 0 then []
    else
      var before := DepartmentOrder(rows[..|rows| - 1]);
      var last := rows[|rows| - 1];
      if last.department.Some? && last.department.value !in before then
        NoDupAppend(before, [last.department.value]);
        before + [last.department.value]
      else before
  }

  /** A department is in the order exactly when it has a row. */
  lemma {:induction false} OrderMembers(rows: seq<EngRow>, d: Id)
    ensures d in DepartmentOrder(rows) <==> |InDepartment(rows, d)| > 0
  {
    if |rows| > 0 {
      OrderMembers(rows[..|rows| - 1], d);
    }
  }

  /** A department's node: labelled with the department name of its first
      row, its engineers as children. */
  function DepartmentNode(rows: seq<EngRow>, d: Id): Node {
    var members := InDepartment(rows, d);
    WithChildren(StrId(DepartmentKey(d)), if |members| > 0 then members[0].departmentName else "",
      Members(members))
  }

  /** The whole tree: one node per department, then the engineers without
      one. */
  function Tree(rows: seq<EngRow>): (ns: seq<Node>)
    ensures |ns| == |DepartmentOrder(rows)| + |WithoutDepartment(rows)|
    ensures forall j :: 0 <= j < |DepartmentOrder(rows)| ==>
      ns[j] == DepartmentNode(rows, DepartmentOrder(rows)[j])
    ensures ns[|DepartmentOrder(rows)|..] == Loners(WithoutDepartment(rows))
  {
    var order := DepartmentOrder(rows);
    seq(|order|, j requires 0 <= j < |order| => DepartmentNode(rows, order[j]))
      + Loners(WithoutDepartment(rows))
  }

  /** A row without a department only lengthens the list of loners. */
  lemma NoDepartmentStep(rows: seq<EngRow>, i: nat)
    requires i < |rows| && rows[i].department.None?
    ensures DepartmentOrder(rows[..i + 1]) == DepartmentOrder(rows[..i])
    ensures forall d :: DepartmentNode(rows[..i + 1], d) == DepartmentNode(rows[..i], d)
    ensures Loners(WithoutDepartment(rows[..i + 1])) == Loners(WithoutDepartment(rows[..i])) + [Loner(rows[i])]
  {
    assert rows[..i + 1][..i] == rows[..i];
    var w := WithoutDepartment(rows[..i]);
    assert Loners(w + [rows[i]]) == Loners(w) + [Loner(rows[i])];
  }

  /** A row of department d: d joins the order if new, and d's node gains
      the row's member at the end (a new node takes the row's department
      name); nothing else changes. */
  lemma DepartmentStep(rows: seq<EngRow>, i: nat, d: Id)
    requires i < |rows| && HasDepartment(rows[i], d)
    ensures DepartmentOrder(rows[..i + 1]) ==
      if d in DepartmentOrder(rows[..i]) then DepartmentOrder(rows[..i]) else DepartmentOrder(rows[..i]) + [d]
    ensures forall d' :: d' != d ==> DepartmentNode(rows[..i + 1], d') == DepartmentNode(rows[..i], d')
    ensures Loners(WithoutDepartment(rows[..i + 1])) == Loners(WithoutDepartment(rows[..i]))
    ensures var n := DepartmentNode(rows[..i], d);
      DepartmentNode(rows[..i + 1], d) ==
        if d in DepartmentOrder(rows[..i]) then WithChildren(n.id, n.caption, n.children + [Member(rows[i])])
        else WithChildren(StrId(DepartmentKey(d)), rows[i].departmentName, [Member(rows[i])])
  {
    assert rows[..i + 1][..i] == rows[..i];
    OwnNodeStep(rows, i, d);
  }

  lemma OwnNodeStep(rows: seq<EngRow>, i: nat, d: Id)
    requires i < |rows| && HasDepartment(rows[i], d)
    ensures var n := DepartmentNode(rows[..i], d);
      DepartmentNode(rows[..i + 1], d) ==
        if d in DepartmentOrder(rows[..i]) then WithChildren(n.id, n.caption, n.children + [Member(rows[i])])
        else WithChildren(StrId(DepartmentKey(d)), rows[i].departmentName, [Member(rows[i])])
  {
    assert rows[..i + 1][..i] == rows[..i];
    var before := InDepartment(rows[..i], d);
    assert InDepartment(rows[..i + 1], d) == before + [rows[i]];
    OrderMembers(rows[..i], d);
    assert Members(before + [rows[i]]) == Members(before) + [Member(rows[i])];
    if |before| > 0 {
      assert (before + [rows[i]])[0] == before[0];
    }
  }

  /** Storing the grown node of d keeps the map of department nodes exact. */
  lemma NodesStep(nodes: map<Id, Node>, rows: seq<EngRow>, i: nat, d: Id)
    requires i < |rows| && HasDepartment(rows[i], d)
    requires forall x :: x in nodes <==> x in DepartmentOrder(rows[..i])
    requires forall x :: x in nodes ==> nodes[x] == DepartmentNode(rows[..i], x)
    ensures var after := nodes[d := DepartmentNode(rows[..i + 1], d)];
      (forall x :: x in after <==> x in DepartmentOrder(rows[..i + 1]))
      && forall x :: x in after ==> after[x] == DepartmentNode(rows[..i + 1], x)
  {
    DepartmentStep(rows, i, d);
  }

  /** `get_nodes`. */
  method GetNodes(rows: seq<EngRow>) returns (tree: seq<Node>)
    ensures tree == Tree(rows)
  {
    var departments: map<Id, Node> := map[];
    var order: seq<Id> := [];
    var noDepartment: seq<Node> := [];
    for i := 0 to |rows|
      invariant order == DepartmentOrder(rows[..i])
      invariant forall d :: d in departments <==> d in order
      invariant forall d :: d in departments ==> departments[d] == DepartmentNode(rows[..i], d)
      invariant noDepartment == Loners(WithoutDepartment(rows[..i]))
    {
      var e := rows[i];
      var caption := e.firstName + " " + e.secondName;
      if e.department.None? {
        NoDepartmentStep(rows, i);
        noDepartment := noDepartment + [Plain(StrId("eng_" + NatToString(e.id)), caption)];
      } else {
        var d := e.department.value;
        DepartmentStep(rows, i, d);
        NodesStep(departments, rows, i, d);
        var node := if d in departments then departments[d]
          else WithChildren(StrId("dep_" + NatToString(d)), e.departmentName, []);
        if d !in departments {
          order := order + [d];
        }
        var joined := WithChildren(node.id, node.caption,
          node.children + [WithChildren(StrId("eng_" + NatToString(e.id)), caption, [])]);
        assert joined == DepartmentNode(rows[..i + 1], d);
        departments := departments[d := joined];
      }
    }
    assert rows[..|rows|] == rows;
    tree := seq(|order|, j requires 0 <= j < |order| => departments[order[j]]) + noDepartment;
  }

  /** Every engineer is in the tree: under the node of their department,
      or at the top level when they have none. */
  lemma EngineerPlaced(rows: seq<EngRow>, r: EngRow)
    requires r in rows
    ensures r.department.None? ==> Loner(r) in Tree(rows)
    ensures r.department.Some? ==>
      var d := r.department.value;
      DepartmentNode(rows, d) in Tree(rows) && Member(r) in DepartmentNode(rows, d).children
  {
    var order := DepartmentOrder(rows);
    var t := Tree(rows);
    if r.department.None? {
      var w := WithoutDepartment(rows);
      WithoutDepartmentMembers(rows);
      var k :| 0 <= k < |w| && w[k] == r;
      assert t[|order|..][k] == Loner(r);
    } else {
      var d := r.department.value;
      var m := InDepartment(rows, d);
      InDepartmentMembers(rows, d);
      assert r in m;
      OrderMembers(rows, d);
      var j :| 0 <= j < |order| && order[j] == d;
      assert t[j] == DepartmentNode(rows, d);
      var k :| 0 <= k < |m| && m[k] == r;
      assert DepartmentNode(rows, d).children[k] == Member(r);
    }
  }

  /** A department is in the tree exactly when an engineer belongs to it
      (once, the order having no repeats); its children are exactly its
      engineers. */
  lemma DepartmentsExact(rows: seq<EngRow>, d: Id)
    ensures d in DepartmentOrder(rows) <==> exists x :: x in rows && HasDepartment(x, d)
    ensures forall c :: c in DepartmentNode(rows, d).children <==>
      exists x :: x in rows && HasDepartment(x, d) && c == Member(x)
  {
    var m := InDepartment(rows, d);
    InDepartmentMembers(rows, d);
    OrderMembers(rows, d);
    NoMemberEmpty(m);
    if |m| > 0 {
      assert m[0] in m;
    }
    forall c ensures c in DepartmentNode(rows, d).children <==>
      exists x :: x in rows && HasDepartment(x, d) && c == Member(x)
    {
      if c in DepartmentNode(rows, d).children {
        var k :| 0 <= k < |m| && Members(m)[k] == c;
        assert m[k] in m;
      }
      if exists x :: x in rows && HasDepartment(x, d) && c == Member(x) {
        var x :| x in rows && HasDepartment(x, d) && c == Member(x);
        assert x in m;
        var k :| 0 <= k < |m| && m[k] == x;
        assert Members(m)[k] == c;
      }
    }
  }

  /** Distinct departments get distinct node ids. */
  lemma DepartmentKeysDistinct(a: Id, b: Id)
    ensures DepartmentKey(a) == DepartmentKey(b) <==> a == b
  {
    NatToStringInjective(a, b);
    assert DepartmentKey(a)[4..] == NatToString(a);
    assert DepartmentKey(b)[4..] == NatToString(b);
  }
}
