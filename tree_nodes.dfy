/** The querysets behind the trees of tasks/services/tree_nodes/tree_nodes.py:
    which tags, groups and objects a user is shown. The context's "user"
    decides everything; an anonymous context (no user, or None) is shown
    nothing, and `ObjectsTree` fails outright on it. */
module TreeNodes {
  import opened Wrappers
  import opened Seqs
  import opened Domain
  import opened TreeBase
  import ObjectForest

  /** `ObjectsTree` reads `is_superuser` of a missing user (0 or None). */
  datatype TreeError = AttributeError

  /** `[{"id": tag.id, "label": tag.tag_name} for tag in qs]`. */
  function TagNodes(tags: seq<Tag>): (ns: seq<Node>)
    ensures |ns| == |tags|
    ensures forall i :: 0 <= i < |tags| ==> ns[i] == Plain(IntId(tags[i].id), tags[i].name)
  {
    seq(|tags|, i requires 0 <= i < |tags| => Plain(IntId(tags[i].id), tags[i].name))
  }

  function GroupNodes(groups: seq<Group>): (ns: seq<Node>)
    ensures |ns| == |groups|
    ensures forall i :: 0 <= i < |groups| ==> ns[i] == Plain(IntId(groups[i].id), groups[i].name)
  {
    seq(|groups|, i requires 0 <= i < |groups| => Plain(IntId(groups[i].id), groups[i].name))
  }

  /** The tag is on an object the user may see: any object for a superuser,
      else an object of one of the user's groups. */
  predicate TagOnVisibleObject(db: Db, t: Tag, u: User) {
    exists o :: o in db.objects && t.id in o.tags && (u.isSuperuser || ObjectInUserGroup(db, o, u.id))
  }

  /** `ObjectsTagsTree._get_queryset`. */
  function ObjectsTags(db: Db, ctx: ContextUser): (r: seq<Tag>)
    ensures UserOrNone(ctx).None? ==> r == []
    ensures ctx.SomeUser? ==>
      forall t :: t in r <==> t in db.tags && TagOnVisibleObject(db, t, ctx.user)
  {
    match UserOrNone(ctx)
    case None => []
    case Some(u) => Where(db.tags, (t: Tag) => TagOnVisibleObject(db, t, u))
  }

  /** A user outside every group, and not a superuser, sees no object tag. */
  lemma NoGroupNoObjectTags(db: Db, u: User)
    requires !u.isSuperuser
    requires forall g :: g in db.groups ==> u.id !in g.users
    ensures ObjectsTags(db, SomeUser(u)) == []
  {
    NoMemberEmpty(ObjectsTags(db, SomeUser(u)));
  }

  /** A superuser sees every tag a user sees. */
  lemma SuperuserSeesAllObjectTags(db: Db, u: User, admin: User)
    requires admin.isSuperuser
    ensures forall t :: t in ObjectsTags(db, SomeUser(u)) ==> t in ObjectsTags(db, SomeUser(admin))
  {
  }

  /** The filter `TasksTagsTree` puts on the task a tag is attached to. */
  predicate TaskShownInTagTree(db: Db, t: Task, e: Engineer) {
    if e.headOfDepartment then
      TaskInDepartment(t, e.department) || TaskHasEngineerInDepartment(db, t, e.department)
    else
      e.id in t.engineers || TaskInDepartment(t, e.department)
  }

  /** `TasksTagsTree._get_queryset`: the tags of tasks (deleted ones
      included) of the user's department or, for an ordinary engineer, of
      the engineer; every task tag for a superuser without an engineer
      record; nothing for anyone else. */
  function TasksTags(db: Db, ctx: ContextUser): (r: seq<Tag>)
    ensures UserOrNone(ctx).None? ==> r == []
    ensures ctx.SomeUser? ==> var e := EngineerOfUser(db, ctx.user.id);
      (e.None? && !ctx.user.isSuperuser ==> r == [])
      && (e.None? && ctx.user.isSuperuser ==>
            forall t :: t in r <==> t in db.tags && exists k :: k in db.tasks && t.id in k.tags)
      && (e.Some? ==>
            forall t :: t in r <==> (t in db.tags
              && exists k :: k in db.tasks && t.id in k.tags && TaskShownInTagTree(db, k, e.value)))
  {
    match UserOrNone(ctx)
    case None => []
    case Some(u) =>
      var e := EngineerOfUser(db, u.id);
      if e.Some? then
        Where(db.tags, (t: Tag) => exists k :: k in db.tasks && t.id in k.tags && TaskShownInTagTree(db, k, e.value))
      else if !u.isSuperuser then []
      else Where(db.tags, (t: Tag) => exists k :: k in db.tasks && t.id in k.tags)
  }

  /** A head of department sees the tags of every task assigned to an
      engineer of the department. */
  lemma HeadSeesDepartmentTaskTags(db: Db, u: User, t: Tag, k: Task, eid: Id)
    requires EngineerOfUser(db, u.id).Some? && EngineerOfUser(db, u.id).value.headOfDepartment
    requires t in db.tags && k in db.tasks && t.id in k.tags
    requires eid in k.engineers && DepartmentOfEngineer(db, eid) == EngineerOfUser(db, u.id).value.department
    ensures t in TasksTags(db, SomeUser(u))
  {
    assert TaskHasEngineerInDepartment(db, k, EngineerOfUser(db, u.id).value.department);
  }

  /** An ordinary engineer sees the tags of every task assigned to them. */
  lemma EngineerSeesOwnTaskTags(db: Db, u: User, t: Tag, k: Task)
    requires EngineerOfUser(db, u.id).Some? && !EngineerOfUser(db, u.id).value.headOfDepartment
    requires t in db.tags && k in db.tasks && t.id in k.tags
    requires EngineerOfUser(db, u.id).value.id in k.engineers
    ensures t in TasksTags(db, SomeUser(u))
  {
  }

  /** `GroupsTree._get_queryset`: groups that have an object, and for a
      user who is not a superuser only the groups they belong to. */
  function Groups(db: Db, ctx: ContextUser): (r: seq<Group>)
    ensures UserOrNone(ctx).None? ==> r == []
    ensures ctx.SomeUser? ==>
      forall g :: g in r <==> (g in db.groups && (exists o :: o in db.objects && g.id in o.groups)
        && (ctx.user.isSuperuser || ctx.user.id in g.users))
  {
    match UserOrNone(ctx)
    case None => []
    case Some(u) =>
      Where(db.groups, (g: Group) =>
        (exists o :: o in db.objects && g.id in o.groups) && (u.isSuperuser || u.id in g.users))
  }

  /** One `values("id", "name", "parent")` row of an object. */
  function RowOf(o: Obj): ObjectForest.ObjRow {
    ObjectForest.ObjRow(o.id, o.name, o.parent)
  }

  /** The object may be shown to the user. */
  predicate ObjectVisible(db: Db, o: Obj, u: User) {
    u.isSuperuser || ObjectInUserGroup(db, o, u.id)
  }

  /** The groups through which the join `groups__users=user` reaches o. */
  function JoinGroups(db: Db, o: Obj, u: User): (r: seq<Group>)
    ensures |r| > 0 <==> ObjectInUserGroup(db, o, u.id)
  {
    var r := Where(db.groups, (g: Group) => g.id in o.groups && u.id in g.users);
    assert |r| > 0 ==> r[0] in r;
    r
  }

  /** The rows of `objs` the query yields: one per object for a superuser;
      otherwise one per group of the object the user belongs to, so an
      object reached through two groups comes twice. */
  function VisibleRows(db: Db, objs: seq<Obj>, u: User): (r: seq<ObjectForest.ObjRow>)
    ensures forall row :: row in r <==> exists o :: o in objs && row == RowOf(o) && ObjectVisible(db, o, u)
  {
    if |objs| == 0 then []
    else
      var o := objs[0];
      var copies := if u.isSuperuser then 1 else |JoinGroups(db, o, u)|;
      var mine := Repeat(RowOf(o), copies);
      assert forall x :: x in objs <==> x == o || x in objs[1..] by {
        assert objs == [o] + objs[1..];
      }
      mine + VisibleRows(db, objs[1..], u)
  }

  /** `ObjectsTree._get_queryset`. */
  function ObjectRows(db: Db, ctx: ContextUser): (r: Result<seq<ObjectForest.ObjRow>, TreeError>)
    ensures r.Ok? <==> ctx.SomeUser?
    ensures r.Ok? ==> forall row :: row in r.value <==>
      exists o :: o in db.objects && row == RowOf(o) && ObjectVisible(db, o, ctx.user)
  {
    if ctx.SomeUser? then Ok(VisibleRows(db, db.objects, ctx.user)) else Err(AttributeError)
  }

  /** `ObjectsTree.get_nodes`: the forest of the rows the user may see. */
  method ObjectsTreeNodes(db: Db, ctx: ContextUser) returns (r: Result<seq<Node>, TreeError>)
    ensures r.Ok? <==> ctx.SomeUser?
    ensures r.Ok? ==> r.value == ObjectForest.Forest(ObjectRows(db, ctx).value)
    ensures r.Err? ==> r.error == AttributeError
  {
    var rows := ObjectRows(db, ctx);
    if rows.Err? {
      return Err(rows.error);
    }
    var nodes := ObjectForest.GetNodes(rows.value);
    return Ok(nodes);
  }

  /** Every id in a user's object tree is that of an object the user may
      see, and each appears once. */
  lemma ObjectsTreeShowsVisibleOnly(db: Db, u: User)
    ensures var f := ObjectForest.Forest(ObjectRows(db, SomeUser(u)).value);
      NoDup(ObjectForest.ForestIds(f))
      && forall x :: x in ObjectForest.ForestIds(f) ==>
           x.IntId? && exists o :: o in db.objects && o.id == x.n && ObjectVisible(db, o, u)
  {
    var rows := ObjectRows(db, SomeUser(u)).value;
    var index := ObjectForest.Index(rows);
    ObjectForest.ForestIdsExact(rows);
    forall x | x in ObjectForest.ForestIds(ObjectForest.Forest(rows))
      ensures x.IntId? && exists o :: o in db.objects && o.id == x.n && ObjectVisible(db, o, u)
    {
      var c :| ObjectForest.Chain(index, c) && |c| > 0 && c[|c| - 1] == x.n;
      assert index[x.n] in rows;
    }
  }

  /** A user who is not a superuser and belongs to no group gets an empty
      object tree. */
  lemma NoGroupEmptyObjectsTree(db: Db, u: User)
    requires !u.isSuperuser
    requires forall g :: g in db.groups ==> u.id !in g.users
    ensures ObjectForest.Forest(ObjectRows(db, SomeUser(u)).value) == []
  {
    var rows := ObjectRows(db, SomeUser(u)).value;
    assert forall o :: o in db.objects ==> !ObjectVisible(db, o, u);
    NoMemberEmpty(rows);
    assert ObjectForest.Roots(rows) == [];
  }
}
