/** tasks/filters.py: the task filter set behind the task list (its
    defaults, its form fields, the engineer/department token decoder, the
    sort order and the "my tasks" switch), the active/done toggle, the
    counters and URL helpers the templates use, and the filter components
    cached per page and user under a versioned namespace.

    A filter set runs the filters of the fields its form validated, in the
    order of its fields; a field that does not validate is skipped, and a
    filter whose value is empty ("" or None) leaves the tasks as they are. */
module Filters {
  import opened Wrappers
  import opened Text
  import opened Seqs
  import opened Sorting
  import opened Domain
  import opened Calendar
  import opened QueryParams
  import opened TaskQuery
  import opened CacheStore
  import opened CacheVersions
  import opened TreeBase
  import TreeNodes
  import ObjectForest
  import EngineersTree
  import Service

  /** `self.request.user` with no request. */
  datatype FilterError = AttributeError

  // -------------------------------------------------------------- fields

  /** `NullBooleanSelect`: what a boolean filter's field reads from the raw
      value; None (no filtering) for anything it does not recognise. */
  function NullBool(raw: Option<string>): Option<bool> {
    if raw == Some("True") || raw == Some("true") || raw == Some("2") then Some(true)
    else if raw == Some("False") || raw == Some("false") || raw == Some("3") then Some(false)
    else None
  }

  /** The words the application itself writes are read as meant. */
  lemma NullBoolWords()
    ensures NullBool(Some("true")) == Some(true)
    ensures NullBool(Some("false")) == Some(false)
    ensures NullBool(None) == None
  {
    assert |"false"| == 5 && |"True"| == 4 && |"true"| == 4 && |"2"| == 1;
  }

  /** A `CharField`'s cleaned value: the last value, stripped; "" when
      absent. */
  function CharValue(data: Query, key: string): string {
    Strip(QueryParams.GetOr(data, key, ""))
  }

  /** The primary key a submitted choice names: only the exact decimal
      rendering of a key is accepted. */
  function PkOf(v: string): (r: Option<Id>)
    ensures r.Some? ==> NatToString(r.value) == v
  {
    if IsDigits(v) && NatToString(DigitsValue(v)) == v then Some(DigitsValue(v)) else None
  }

  /** A choice is accepted exactly when it is the rendering of a key. */
  lemma PkOfExact(v: string, n: Id)
    ensures PkOf(v) == Some(n) <==> v == NatToString(n)
  {
    if v == NatToString(n) {
      DigitsValueOfNatToString(n);
    }
  }

  /** `ModelMultipleChoiceField.clean`: the keys named by the submitted
      values when every one of them names an existing row; None (the field
      does not validate) otherwise. */
  function ChosenIds(values: seq<string>, existing: seq<Id>): (r: Option<seq<Id>>)
    ensures r.Some? ==> |r.value| == |values|
    ensures r.Some? ==> forall i :: 0 <= i < |values| ==>
      r.value[i] in existing && values[i] == NatToString(r.value[i])
    ensures r.None? ==> exists i :: 0 <= i < |values| && forall id :: id in existing ==> values[i] != NatToString(id)
  {
    if |values| == 0 then Some([])
    else
      var pk := PkOf(values[0]);
      var rest := ChosenIds(values[1..], existing);
      if pk.None? || pk.value !in existing then
        assert forall id :: id in existing ==> values[0] != NatToString(id) by {
          forall id | id in existing ensures values[0] != NatToString(id) {
            PkOfExact(values[0], id);
          }
        }
        None
      else if rest.None? then
        var i :| 0 <= i < |values[1..]| && forall id :: id in existing ==> values[1..][i] != NatToString(id);
        assert values[i + 1] == values[1..][i];
        None
      else
        Some([pk.value] + rest.value)
  }

  function TagIds(tags: seq<Tag>): (r: seq<Id>)
    ensures forall id :: id in r <==> exists t :: t in tags && t.id == id
  {
    if |tags| == 0 then []
    else
      assert forall t :: t in tags <==> t == tags[0] || t in tags[1..] by {
        assert tags == [tags[0]] + tags[1..];
      }
      [tags[0].id] + TagIds(tags[1..])
  }

  function ObjectIds(objs: seq<Obj>): (r: seq<Id>)
    ensures forall id :: id in r <==> exists o :: o in objs && o.id == id
  {
    if |objs| == 0 then []
    else
      assert forall o :: o in objs <==> o == objs[0] || o in objs[1..] by {
        assert objs == [objs[0]] + objs[1..];
      }
      [objs[0].id] + ObjectIds(objs[1..])
  }

  /** The values `Task.priority` may take. */
  const Priorities: seq<string> := ["CRITICAL", "HIGH", "MEDIUM", "LOW"]

  // --------------------------------------------------- the token decoder

  /** What one token of the engineers field selects: "eng_<n>" the tasks
      of engineer n, "dep_<n>" those with an engineer of department n or
      assigned to department n; any other token nothing. */
  function TokenClause(v: string): Option<Cond> {
    var typeId := Split(v, '_');
    if |typeId| != 2 || !IsDigits(typeId[1]) then None
    else
      var id := DigitsValue(typeId[1]);
      if typeId[0] == "eng" then Some(HasEngineer(id))
      else if typeId[0] == "dep" then Some(Or(EngineerInDepartment(Some(id)), InDepartment(Some(id))))
      else None
  }

  /** The clauses of a list of tokens, in order. */
  function TokenClauses(values: seq<string>): (cs: seq<Cond>)
    ensures |cs| <= |values|
  {
    if |values| == 0 then []
    else
      var init := values[..|values| - 1];
      var c := TokenClause(values[|values| - 1]);
      TokenClauses(init) + (if c.Some? then [c.value] else [])
  }

  /** `Q() | c1 | c2 | ...`. */
  function AnyOf(cs: seq<Cond>): Cond {
    if |cs| == 0 then Nothing
    else Or(AnyOf(cs[..|cs| - 1]), cs[|cs| - 1])
  }

  predicate AllEmpty(values: seq<string>) {
    forall i :: 0 <= i < |values| ==> values[i] == ""
  }

  /** What `dep_to_engineers` computes from the raw value: nothing to do
      when every comma-separated part is empty or no token decodes (an
      empty `Q()` matches every task), otherwise the tasks matching any
      decoded token. */
  function DepToEngineersSpec(db: Db, raw: string, ts: seq<Task>): seq<Task> {
    var values := Split(raw, ',');
    if AllEmpty(values) then ts
    else
      var cs := TokenClauses(values);
      if |cs| == 0 then ts else Select(db, ts, AnyOf(cs))
  }

  /** The meaning of one token on one task. */
  predicate TokenSelects(db: Db, t: Task, v: string) {
    var c := TokenClause(v);
    c.Some? && Holds(db, t, c.value)
  }

  /** Some token of the list selects the task. */
  predicate SomeTokenSelects(db: Db, t: Task, values: seq<string>) {
    exists i :: 0 <= i < |values| && TokenSelects(db, t, values[i])
  }

  lemma SomeTokenSelectsSnoc(db: Db, t: Task, values: seq<string>)
    requires |values| > 0
    ensures SomeTokenSelects(db, t, values) <==>
      SomeTokenSelects(db, t, values[..|values| - 1]) || TokenSelects(db, t, values[|values| - 1])
  {
    var init := values[..|values| - 1];
    if SomeTokenSelects(db, t, values) {
      var i :| 0 <= i < |values| && TokenSelects(db, t, values[i]);
      if i < |values| - 1 {
        assert init[i] == values[i];
      }
    }
    if SomeTokenSelects(db, t, init) {
      var i :| 0 <= i < |init| && TokenSelects(db, t, init[i]);
      assert values[i] == init[i];
    }
  }

  /** One more token adds its clause, if it decodes, to the disjunction. */
  lemma TokenClausesSnoc(db: Db, t: Task, values: seq<string>)
    requires |values| > 0
    ensures Holds(db, t, AnyOf(TokenClauses(values))) <==>
      Holds(db, t, AnyOf(TokenClauses(values[..|values| - 1]))) || TokenSelects(db, t, values[|values| - 1])
  {
    var cs := TokenClauses(values[..|values| - 1]);
    var c := TokenClause(values[|values| - 1]);
    assert TokenClauses(values) == cs + (if c.Some? then [c.value] else []);
    if c.Some? {
      var all := cs + [c.value];
      assert all[..|all| - 1] == cs;
      assert TokenClauses(values) == all;
      assert AnyOf(all) == Or(AnyOf(cs), c.value);
      assert Holds(db, t, Or(AnyOf(cs), c.value)) <==> Holds(db, t, AnyOf(cs)) || Holds(db, t, c.value);
    } else {
      assert TokenClauses(values) == cs;
    }
  }

  /** A task matches the decoded tokens exactly when one of the tokens
      selects it. */
  lemma {:induction false} TokenClausesMeaning(db: Db, t: Task, values: seq<string>)
    ensures Holds(db, t, AnyOf(TokenClauses(values))) <==> SomeTokenSelects(db, t, values)
  {
    if |values| > 0 {
      TokenClausesMeaning(db, t, values[..|values| - 1]);
      SomeTokenSelectsSnoc(db, t, values);
      TokenClausesSnoc(db, t, values);
    }
  }

  /** No clause at all exactly when no token decodes. */
  lemma {:induction false} NoClauses(values: seq<string>)
    ensures |TokenClauses(values)| == 0 <==> forall i :: 0 <= i < |values| ==> TokenClause(values[i]).None?
  {
    if |values| > 0 {
      var init := values[..|values| - 1];
      NoClauses(init);
      assert forall i :: 0 <= i < |init| ==> init[i] == values[i];
    }
  }

  /** `dep_to_engineers`, with the loop that accumulates the query. */
  method DepToEngineers(db: Db, data: Query, ts: seq<Task>) returns (r: seq<Task>)
    ensures r == DepToEngineersSpec(db, QueryParams.GetOr(data, "engineers", ""), ts)
  {
    var values := Split(QueryParams.GetOr(data, "engineers", ""), ',');
    if AllEmpty(values) {
      return ts;
    }
    var clauses: seq<Cond> := [];
    for i := 0 to |values|
      invariant clauses == TokenClauses(values[..i])
    {
      assert values[..i + 1][..i] == values[..i];
      var typeId := Split(values[i], '_');
      if |typeId| != 2 {
        continue;
      }
      if !IsDigits(typeId[1]) {
        continue;
      }
      var id := DigitsValue(typeId[1]);
      if typeId[0] == "eng" {
        clauses := clauses + [HasEngineer(id)];
      } else if typeId[0] == "dep" {
        clauses := clauses + [Or(EngineerInDepartment(Some(id)), InDepartment(Some(id)))];
      }
    }
    assert values[..|values|] == values;
    if |clauses| == 0 {
      return ts;
    }
    r := Select(db, ts, AnyOf(clauses));
  }

  /** The decoder keeps exactly the tasks one of the tokens selects, and
      leaves the tasks alone when no token decodes. */
  lemma DepToEngineersMeaning(db: Db, raw: string, ts: seq<Task>, t: Task)
    ensures var values := Split(raw, ',');
      (AllEmpty(values) || forall i :: 0 <= i < |values| ==> TokenClause(values[i]).None?)
        ==> DepToEngineersSpec(db, raw, ts) == ts
    ensures var values := Split(raw, ',');
      !AllEmpty(values) && (exists i :: 0 <= i < |values| && TokenClause(values[i]).Some?) ==>
        (t in DepToEngineersSpec(db, raw, ts) <==> t in ts && SomeTokenSelects(db, t, values))
  {
    var values := Split(raw, ',');
    NoClauses(values);
    TokenClausesMeaning(db, t, values);
  }

  // ------------------------------------------------------- the filter set

  /** `search`: header or text contains the stripped value, ignoring
      case. */
  function SearchStep(db: Db, data: Query, ts: seq<Task>): (r: seq<Task>)
    ensures var v := CharValue(data, "search");
      forall t :: t in r <==> (t in ts && (v == "" || IContains(t.header, v) || IContains(t.text, v)))
  {
    var v := CharValue(data, "search");
    if v == "" then ts else Select(db, ts, Search(v))
  }

  /** `tags`: tasks with any of the chosen tags. */
  function TagsStep(db: Db, data: Query, ts: seq<Task>): (r: seq<Task>)
    ensures var ids := ChosenIds(GetList(data, "tags"), TagIds(db.tags));
      forall t :: t in r <==> (t in ts
        && (ids.None? || |ids.value| == 0 || exists id :: id in ids.value && id in t.tags))
  {
    WithTags(db, ts, ChosenIds(GetList(data, "tags"), TagIds(db.tags)))
  }

  /** The tasks with any of the tags ids, when ids were chosen. */
  function WithTags(db: Db, ts: seq<Task>, ids: Option<seq<Id>>): (r: seq<Task>)
    ensures forall t :: t in r <==> (t in ts
      && (ids.None? || |ids.value| == 0 || exists id :: id in ids.value && id in t.tags))
  {
    if ids.None? || |ids.value| == 0 then ts else Select(db, ts, AnyTag(ids.value))
  }

  /** `engineers`: the token decoder, run when the stripped value is not
      empty. */
  function EngineersStep(db: Db, data: Query, ts: seq<Task>): (r: seq<Task>)
    ensures forall t :: t in r ==> t in ts
    ensures CharValue(data, "engineers") == "" ==> r == ts
  {
    if CharValue(data, "engineers") == "" then ts
    else DepToEngineersSpec(db, QueryParams.GetOr(data, "engineers", ""), ts)
  }

  /** `priority`: one of the four choices, taken as given. */
  function PriorityStep(db: Db, data: Query, ts: seq<Task>): (r: seq<Task>)
    ensures var v := QueryParams.GetOr(data, "priority", "");
      forall t :: t in r <==> (t in ts && (v !in Priorities || t.priority == v))
  {
    var v := QueryParams.GetOr(data, "priority", "");
    if v == "" || v !in Priorities then ts else Select(db, ts, PriorityIs(v))
  }

  /** `objects_set`: tasks linked to any of the chosen objects. */
  function ObjectsStep(db: Db, data: Query, ts: seq<Task>): (r: seq<Task>)
    ensures var ids := ChosenIds(GetList(data, "objects_set"), ObjectIds(db.objects));
      forall t :: t in r <==> (t in ts
        && (ids.None? || |ids.value| == 0
            || exists o :: o in db.objects && o.id in ids.value && TaskOnObject(t, o)))
  {
    OnObjects(db, ts, ChosenIds(GetList(data, "objects_set"), ObjectIds(db.objects)))
  }

  /** The tasks linked to any of the objects ids, when ids were chosen. */
  function OnObjects(db: Db, ts: seq<Task>, ids: Option<seq<Id>>): (r: seq<Task>)
    ensures forall t :: t in r <==> (t in ts
      && (ids.None? || |ids.value| == 0
          || exists o :: o in db.objects && o.id in ids.value && TaskOnObject(t, o)))
  {
    if ids.None? || |ids.value| == 0 then ts else Select(db, ts, AnyObject(ids.value))
  }

  /** `completion_time_after` / `completion_time_before`: due on or
      after, on or before, the given date. */
  function DueStep(db: Db, data: Query, ts: seq<Task>): (r: seq<Task>)
    ensures var after := ParseDateInput(QueryParams.GetOr(data, "completion_time_after", ""));
      var before := ParseDateInput(QueryParams.GetOr(data, "completion_time_before", ""));
      forall t :: t in r <==> (t in ts && DueWithin(t, after, before))
  {
    DueBetween(db, ts,
      ParseDateInput(QueryParams.GetOr(data, "completion_time_after", "")),
      ParseDateInput(QueryParams.GetOr(data, "completion_time_before", "")))
  }

  /** Due on or after `after` and on or before `before`, where given. */
  predicate DueWithin(t: Task, after: Option<Date>, before: Option<Date>) {
    && (after.Some? ==> DayOf(t.completionTime) >= DayNumber(after.value))
    && (before.Some? ==> DayOf(t.completionTime) <= DayNumber(before.value))
  }

  /** A task due at 22:30 UTC on 1 May 2024 is due on 2 May in Moscow, so
      the bound "02.05.2024", as the date widget writes it, keeps it. */
  lemma MoscowDayBoundKeeps(t: Task)
    requires t.completionTime == 19844 * SecondsPerDay + 22 * 3600 + 30 * 60
    ensures DueWithin(t, ParseDateInput("02.05.2024"), None)
  {
    SecondOfMayInput();
    SecondOfMayDayNumber();
    LateEveningIsNextMoscowDay(19844, 22 * 3600 + 30 * 60);
  }

  /** The two date filters applied one after the other. */
  function DueBetween(db: Db, ts: seq<Task>, after: Option<Date>, before: Option<Date>): (r: seq<Task>)
    ensures forall t :: t in r <==> (t in ts && DueWithin(t, after, before))
  {
    var s := if after.Some? then Select(db, ts, DueFrom(DayNumber(after.value))) else ts;
    if before.Some? then Select(db, s, DueUntil(DayNumber(before.value))) else s
  }

  /** `filter_sort_order`: "asc" orders by due time then creation time,
      both ascending; any other non-empty value orders both descending. */
  function SortStep(data: Query, ts: seq<Task>): (r: seq<Task>)
    ensures forall t :: t in r <==> t in ts
  {
    var v := CharValue(data, "sort_order");
    if v == "" then ts
    else if v == "asc" then (SortKeepsTasks(ts, DueAscKey); SortBy(ts, DueAscKey))
    else (SortKeepsTasks(ts, DueDescKey); SortBy(ts, DueDescKey))
  }

  /** `filter_show_my_tasks_only`: with a value, it reads the request's
      user (failing without a request) and narrows to that user's engineer
      when there is one and the value is true. */
  function MineStep(db: Db, request: Option<User>, data: Query, ts: seq<Task>): (r: Result<seq<Task>, FilterError>)
    ensures r.Ok? ==> forall t :: t in r.value ==> t in ts
  {
    var value := NullBool(Get(data, "show_my_tasks_only"));
    if value.None? then Ok(ts)
    else if request.None? then Err(AttributeError)
    else
      var e := EngineerOfUser(db, request.value.id);
      if e.Some? && value.value then Ok(Select(db, ts, HasEngineer(e.value.id))) else Ok(ts)
  }

  /** `TaskFilter(data, queryset=ts, request=request).qs`. */
  function FilterTasks(db: Db, request: Option<User>, data: Query, ts: seq<Task>): Result<seq<Task>, FilterError> {
    MineStep(db, request, data, Steps(db, data, ts))
  }

  /** The data a `TaskFilter` works on: `show_my_tasks_only` defaults to
      "false" and `sort_order` to "desc". */
  function TaskDefaults(data: Query): Query {
    SetDefault(SetDefault(data, "show_my_tasks_only", "false"), "sort_order", "desc")
  }

  lemma TaskDefaultsValues(data: Query)
    ensures Get(TaskDefaults(data), "show_my_tasks_only") == Some(Get(data, "show_my_tasks_only").GetOr("false"))
    ensures Get(TaskDefaults(data), "sort_order") == Some(Get(data, "sort_order").GetOr("desc"))
    ensures forall k :: k != "show_my_tasks_only" && k != "sort_order" ==>
      Get(TaskDefaults(data), k) == Get(data, k) && GetList(TaskDefaults(data), k) == GetList(data, k)
  {
  }

  class TaskFilter {
    var data: Query
    const request: Option<User>

    /** `TaskFilter.__init__`. */
    constructor(data: Query, request: Option<User>)
      ensures this.data == TaskDefaults(data) && this.request == request
    {
      this.data := data;
      this.request := request;
      new;
      if Get(this.data, "show_my_tasks_only").None? {
        this.data := this.data + [("show_my_tasks_only", "false")];
      }
      if Get(this.data, "sort_order").None? {
        this.data := this.data + [("sort_order", "desc")];
      }
    }

    /** `.qs`. */
    method Qs(db: Db, queryset: seq<Task>) returns (r: Result<seq<Task>, FilterError>)
      ensures r == FilterTasks(db, request, data, queryset)
    {
      var s := SearchStep(db, data, queryset);
      s := TagsStep(db, data, s);
      if CharValue(data, "engineers") != "" {
        s := DepToEngineers(db, data, s);
      }
      s := PriorityStep(db, data, s);
      s := ObjectsStep(db, data, s);
      s := DueStep(db, data, s);
      s := SortStep(data, s);
      r := MineStep(db, request, data, s);
    }

    /** `applied_filters_count_taks`. */
    function AppliedFiltersCountTaks(): int
      reads this
    {
      AppliedCountTaks(data)
    }
  }

  /** The filter only ever removes tasks, keeps them distinct, and fails
      only without a request, when the "my tasks" value is readable. */
  lemma FilterTasksNarrows(db: Db, request: Option<User>, data: Query, ts: seq<Task>)
    requires NoDup(ts)
    ensures var r := FilterTasks(db, request, data, ts);
      (r.Err? <==> request.None? && NullBool(Get(data, "show_my_tasks_only")).Some?)
      && (r.Ok? ==> NoDup(r.value) && forall t :: t in r.value ==> t in ts)
  {
    var s := Steps(db, data, ts);
    StepsNarrow(db, data, ts);
    MineStepNarrows(db, request, data, s);
  }

  /** The filtering fields in declaration order, then the ordering. */
  function Steps(db: Db, data: Query, ts: seq<Task>): seq<Task> {
    SortStep(data, DueStep(db, data, ObjectsStep(db, data, PriorityStep(db, data,
      EngineersStep(db, data, TagsStep(db, data, SearchStep(db, data, ts)))))))
  }

  lemma StepsNarrow(db: Db, data: Query, ts: seq<Task>)
    requires NoDup(ts)
    ensures NoDup(Steps(db, data, ts)) && forall t :: t in Steps(db, data, ts) ==> t in ts
  {
    var s1 := SearchStep(db, data, ts);
    var s6 := DueStep(db, data, ObjectsStep(db, data, PriorityStep(db, data,
      EngineersStep(db, data, TagsStep(db, data, s1)))));
    SelectNoDup(db, ts, Search(CharValue(data, "search")));
    assert NoDup(s1);
    NoDupSteps(db, data, s1);
    if CharValue(data, "sort_order") == "asc" {
      SortNoDup(s6, DueAscKey);
    } else if CharValue(data, "sort_order") != "" {
      SortNoDup(s6, DueDescKey);
    }
  }

  lemma MineStepNarrows(db: Db, request: Option<User>, data: Query, s: seq<Task>)
    requires NoDup(s)
    ensures var r := MineStep(db, request, data, s);
      (r.Err? <==> request.None? && NullBool(Get(data, "show_my_tasks_only")).Some?)
      && (r.Ok? ==> NoDup(r.value) && forall t :: t in r.value ==> t in s)
  {
    var r := MineStep(db, request, data, s);
    if r.Ok? && request.Some? {
      var e := EngineerOfUser(db, request.value.id);
      if e.Some? {
        SelectNoDup(db, s, HasEngineer(e.value.id));
      }
    }
  }

  lemma NoDupSteps(db: Db, data: Query, s1: seq<Task>)
    requires NoDup(s1)
    ensures NoDup(DueStep(db, data, ObjectsStep(db, data, PriorityStep(db, data,
      EngineersStep(db, data, TagsStep(db, data, s1))))))
  {
    var s2 := TagsStep(db, data, s1);
    var ids := ChosenIds(GetList(data, "tags"), TagIds(db.tags));
    if ids.Some? && |ids.value| > 0 {
      SelectNoDup(db, s1, AnyTag(ids.value));
    }
    var s3 := EngineersStep(db, data, s2);
    var values := Split(QueryParams.GetOr(data, "engineers", ""), ',');
    if |TokenClauses(values)| > 0 {
      SelectNoDup(db, s2, AnyOf(TokenClauses(values)));
    }
    var s4 := PriorityStep(db, data, s3);
    SelectNoDup(db, s3, PriorityIs(QueryParams.GetOr(data, "priority", "")));
    var s5 := ObjectsStep(db, data, s4);
    var oids := ChosenIds(GetList(data, "objects_set"), ObjectIds(db.objects));
    if oids.Some? && |oids.value| > 0 {
      SelectNoDup(db, s4, AnyObject(oids.value));
    }
    var after := ParseDateInput(QueryParams.GetOr(data, "completion_time_after", ""));
    var before := ParseDateInput(QueryParams.GetOr(data, "completion_time_before", ""));
    if after.Some? {
      SelectNoDup(db, s5, DueFrom(DayNumber(after.value)));
    }
    var s := if after.Some? then Select(db, s5, DueFrom(DayNumber(after.value))) else s5;
    if before.Some? {
      SelectNoDup(db, s, DueUntil(DayNumber(before.value)));
    }
  }

  /** A sort order makes the result sorted by due time: ascending for
      "asc", descending for any other value. */
  lemma FilterTasksOrder(db: Db, request: Option<User>, data: Query, ts: seq<Task>)
    requires FilterTasks(db, request, data, ts).Ok?
    ensures CharValue(data, "sort_order") == "asc" ==> SortedBy(FilterTasks(db, request, data, ts).value, DueAscKey)
    ensures CharValue(data, "sort_order") !in {"", "asc"} ==>
      SortedBy(FilterTasks(db, request, data, ts).value, DueDescKey)
  {
    var s := DueStep(db, data, ObjectsStep(db, data, PriorityStep(db, data,
      EngineersStep(db, data, TagsStep(db, data, SearchStep(db, data, ts))))));
    var sorted := SortStep(data, s);
    var v := NullBool(Get(data, "show_my_tasks_only"));
    if v.Some? && request.Some? {
      var e := EngineerOfUser(db, request.value.id);
      if e.Some? {
        if CharValue(data, "sort_order") == "asc" {
          SelectSorted(db, sorted, HasEngineer(e.value.id), DueAscKey);
        } else if CharValue(data, "sort_order") != "" {
          SelectSorted(db, sorted, HasEngineer(e.value.id), DueDescKey);
        }
      }
    }
  }

  /** "My tasks" with a true value narrows to the request user's engineer;
      a user without an engineer record is left with every task. */
  lemma FilterTasksMine(db: Db, u: User, data: Query, ts: seq<Task>)
    requires NullBool(Get(data, "show_my_tasks_only")) == Some(true)
    ensures FilterTasks(db, Some(u), data, ts).Ok?
    ensures EngineerOfUser(db, u.id).Some? ==>
      forall t :: t in FilterTasks(db, Some(u), data, ts).value ==> EngineerOfUser(db, u.id).value.id in t.engineers
  {
    MineOnly(db, u, data, Steps(db, data, ts));
  }

  lemma MineOnly(db: Db, u: User, data: Query, s: seq<Task>)
    requires NullBool(Get(data, "show_my_tasks_only")) == Some(true)
    ensures MineStep(db, Some(u), data, s).Ok?
    ensures EngineerOfUser(db, u.id).Some? ==>
      forall t :: t in MineStep(db, Some(u), data, s).value ==> EngineerOfUser(db, u.id).value.id in t.engineers
  {
    var e := EngineerOfUser(db, u.id);
    if e.Some? {
      var r := Select(db, s, HasEngineer(e.value.id));
      forall t | t in r ensures e.value.id in t.engineers {
        assert Holds(db, t, HasEngineer(e.value.id));
      }
    }
  }

  /** With only the defaults, a task filter orders every task by due time,
      latest first, and removes none. */
  lemma DefaultFilterOnlySorts(db: Db, u: User, ts: seq<Task>)
    ensures FilterTasks(db, Some(u), TaskDefaults([]), ts) == Ok(SortBy(ts, DueDescKey))
  {
    var data := TaskDefaults([]);
    DefaultsAbsent("search");
    DefaultsAbsent("engineers");
    DefaultsAbsent("priority");
    DefaultsAbsent("tags");
    DefaultsAbsent("objects_set");
    DefaultsAbsent("completion_time_after");
    DefaultsAbsent("completion_time_before");
    DefaultsPresent();
    OnlySorts(db, u, data, ts);
  }

  /** The defaults alone ask for the descending order and not for "my
      tasks". */
  lemma DefaultsPresent()
    ensures CharValue(TaskDefaults([]), "sort_order") == "desc"
    ensures NullBool(Get(TaskDefaults([]), "show_my_tasks_only")) == Some(false)
  {
    TaskDefaultsValues([]);
    assert Get(TaskDefaults([]), "sort_order") == Some("desc");
    assert Strip("desc") == "desc" by {
      assert !IsSpace('d') && !IsSpace('c');
    }
    NullBoolWords();
  }

  /** The defaults alone hold no other key. */
  lemma DefaultsAbsent(k: string)
    requires |k| != |"show_my_tasks_only"| && |k| != |"sort_order"|
    ensures Get(TaskDefaults([]), k).None? && GetList(TaskDefaults([]), k) == []
  {
    assert k != "show_my_tasks_only" && k != "sort_order";
    TaskDefaultsValues([]);
    assert Get([], k).None? && GetList([], k) == [];
  }

  lemma OnlySorts(db: Db, u: User, data: Query, ts: seq<Task>)
    requires Get(data, "search").None? && Get(data, "engineers").None? && Get(data, "priority").None?
    requires GetList(data, "tags") == [] && GetList(data, "objects_set") == []
    requires Get(data, "completion_time_after").None? && Get(data, "completion_time_before").None?
    requires CharValue(data, "sort_order") == "desc"
    requires NullBool(Get(data, "show_my_tasks_only")) == Some(false)
    ensures FilterTasks(db, Some(u), data, ts) == Ok(SortBy(ts, DueDescKey))
  {
    NoFieldsKeepsAll(db, data, ts);
    DescSortThenNotMine(db, u, data, ts);
  }

  /** Without any of the filtering fields, no task is removed. */
  lemma NoFieldsKeepsAll(db: Db, data: Query, ts: seq<Task>)
    requires Get(data, "search").None? && Get(data, "engineers").None? && Get(data, "priority").None?
    requires GetList(data, "tags") == [] && GetList(data, "objects_set") == []
    requires Get(data, "completion_time_after").None? && Get(data, "completion_time_before").None?
    ensures DueStep(db, data, ObjectsStep(db, data, PriorityStep(db, data,
      EngineersStep(db, data, TagsStep(db, data, SearchStep(db, data, ts)))))) == ts
  {
    assert Strip("") == "";
    assert SearchStep(db, data, ts) == ts;
    assert TagsStep(db, data, ts) == ts;
    assert EngineersStep(db, data, ts) == ts;
    assert PriorityStep(db, data, ts) == ts;
    assert ObjectsStep(db, data, ts) == ts;
    assert ParseDateInput("") == None by {
      assert Split("", '-') == [""];
    }
  }

  lemma DescSortThenNotMine(db: Db, u: User, data: Query, ts: seq<Task>)
    requires CharValue(data, "sort_order") == "desc"
    requires NullBool(Get(data, "show_my_tasks_only")) == Some(false)
    ensures MineStep(db, Some(u), data, SortStep(data, ts)) == Ok(SortBy(ts, DueDescKey))
  {
    assert "desc" != "asc";
  }

  // --------------------------------------------------- the active/done toggle

  /** `filter_tasks`: what the toggle keeps, read from the raw values. */
  function Toggle(db: Db, data: Query, ts: seq<Task>): seq<Task> {
    var active := Get(data, "show_active_task") == Some("true");
    var done := Get(data, "show_done_task") == Some("true");
    if active && done then Select(db, ts, Everything)
    else if active then Select(db, ts, Done(false))
    else if done then Select(db, ts, Done(true))
    else Select(db, ts, Nothing)
  }

  /** The four states of the toggle. */
  lemma ToggleMeaning(db: Db, data: Query, ts: seq<Task>, t: Task)
    ensures var active := Get(data, "show_active_task") == Some("true");
      var done := Get(data, "show_done_task") == Some("true");
      t in Toggle(db, data, ts) <==>
        t in ts && ((active && done) || (active && !done && !t.isDone) || (!active && done && t.isDone))
  {
  }

  /** Applying the toggle twice is applying it once. */
  lemma ToggleIdempotent(db: Db, data: Query, ts: seq<Task>)
    ensures Toggle(db, data, Toggle(db, data, ts)) == Toggle(db, data, ts)
  {
    var active := Get(data, "show_active_task") == Some("true");
    var done := Get(data, "show_done_task") == Some("true");
    var c := if active && done then Everything else if active then Done(false) else if done then Done(true) else Nothing;
    assert Toggle(db, data, ts) == Select(db, ts, c);
    SelectIdempotent(db, ts, c);
  }

  /** `TaskFilterByDone(data, queryset=ts).qs`: the toggle is attached to
      both fields, and runs once for each field whose value is readable. */
  function FilterByDone(db: Db, data: Query, ts: seq<Task>): seq<Task> {
    var runs := (if NullBool(Get(data, "show_active_task")).Some? then 1 else 0)
      + (if NullBool(Get(data, "show_done_task")).Some? then 1 else 0);
    if runs == 0 then ts
    else if runs == 1 then Toggle(db, data, ts)
    else Toggle(db, data, Toggle(db, data, ts))
  }

  /** The data a `TaskFilterByDone` works on: active tasks shown and done
      ones hidden unless the request says otherwise. */
  function DoneDefaults(data: Query): Query {
    SetDefault(SetDefault(data, "show_active_task", "true"), "show_done_task", "false")
  }

  /** Once the defaults are in place the filter is exactly the toggle,
      whatever the number of fields that trigger it. */
  lemma FilterByDoneIsToggle(db: Db, data: Query, ts: seq<Task>)
    requires NullBool(Get(data, "show_active_task")).Some? || NullBool(Get(data, "show_done_task")).Some?
    ensures FilterByDone(db, data, ts) == Toggle(db, data, ts)
  {
    ToggleIdempotent(db, data, ts);
  }

  /** With no toggle in the request, only tasks that are not done are
      shown. */
  lemma DefaultToggleShowsActive(db: Db, data: Query, ts: seq<Task>, t: Task)
    requires Get(data, "show_active_task").None? && Get(data, "show_done_task").None?
    ensures t in FilterByDone(db, DoneDefaults(data), ts) <==> t in ts && !t.isDone
  {
    var d := DoneDefaults(data);
    DoneDefaultsValues(data);
    ActiveOnly(db, d, ts, t);
  }

  lemma DoneDefaultsValues(data: Query)
    requires Get(data, "show_active_task").None? && Get(data, "show_done_task").None?
    ensures Get(DoneDefaults(data), "show_active_task") == Some("true")
    ensures Get(DoneDefaults(data), "show_done_task") == Some("false")
  {
    assert |"show_active_task"| != |"show_done_task"|;
  }

  /** The toggle set to active only, by both fields. */
  lemma ActiveOnly(db: Db, d: Query, ts: seq<Task>, t: Task)
    requires Get(d, "show_active_task") == Some("true") && Get(d, "show_done_task") == Some("false")
    ensures t in FilterByDone(db, d, ts) <==> t in ts && !t.isDone
  {
    NullBoolWords();
    assert NullBool(Some("true")) == Some(true);
    FilterByDoneIsToggle(db, d, ts);
    assert "false" != "true";
    ToggleMeaning(db, d, ts, t);
  }

  /** The active/done filter only removes tasks, and keeps them
      distinct. */
  lemma FilterByDoneNarrows(db: Db, data: Query, ts: seq<Task>)
    ensures |FilterByDone(db, data, ts)| <= |ts|
    ensures forall t :: t in FilterByDone(db, data, ts) ==> t in ts
    ensures NoDup(ts) ==> NoDup(FilterByDone(db, data, ts))
  {
    ToggleNarrows(db, data, ts);
    ToggleNarrows(db, data, Toggle(db, data, ts));
  }

  lemma ToggleNarrows(db: Db, data: Query, ts: seq<Task>)
    ensures |Toggle(db, data, ts)| <= |ts|
    ensures forall t :: t in Toggle(db, data, ts) ==> t in ts
    ensures NoDup(ts) ==> NoDup(Toggle(db, data, ts))
  {
    if NoDup(ts) {
      SelectNoDup(db, ts, Everything);
      SelectNoDup(db, ts, Done(false));
      SelectNoDup(db, ts, Done(true));
      SelectNoDup(db, ts, Nothing);
    }
  }

  class TaskFilterByDone {
    var data: Query

    /** `TaskFilterByDone.__init__`. */
    constructor(data: Query)
      ensures this.data == DoneDefaults(data)
    {
      this.data := data;
      new;
      if Get(this.data, "show_active_task").None? {
        this.data := this.data + [("show_active_task", "true")];
      }
      if Get(this.data, "show_done_task").None? {
        this.data := this.data + [("show_done_task", "false")];
      }
    }

    /** `.qs`: the queryset run through the filter methods of the flags
        that are set, which, when either flag reads as a boolean, is one
        application of the toggle `ToggleMeaning` describes. */
    function Qs(db: Db, queryset: seq<Task>): (r: seq<Task>)
      reads this
      ensures r == FilterByDone(db, data, queryset)
      ensures (NullBool(Get(data, "show_active_task")).Some? || NullBool(Get(data, "show_done_task")).Some?) ==>
        r == Toggle(db, data, queryset)
      ensures forall t :: t in r ==> t in queryset
    {
      FilterByDoneNarrows(db, data, queryset);
      if NullBool(Get(data, "show_active_task")).Some? || NullBool(Get(data, "show_done_task")).Some? then
        FilterByDoneIsToggle(db, data, queryset);
        FilterByDone(db, data, queryset)
      else FilterByDone(db, data, queryset)
    }
  }

  // ------------------------------------------------------------- counters

  /** The keys of `items` whose value is not empty and which are not
      excluded. */
  function AppliedKeys(q: Query, keys: seq<string>, excluded: seq<string>): (r: seq<string>)
    ensures |r| <= |keys|
    ensures forall k :: k in r <==> k in keys && k !in excluded && Get(q, k).Some? && Get(q, k).value != ""
  {
    if |keys| == 0 then []
    else
      var k := keys[0];
      assert forall x :: x in keys <==> x == k || x in keys[1..] by {
        assert keys == [k] + keys[1..];
      }
      (if k !in excluded && Get(q, k).Some? && Get(q, k).value != "" then [k] else [])
      + AppliedKeys(q, keys[1..], excluded)
  }

  /** The parameters `applied_filters_count_taks` does not count. */
  const NotCountedTaks: seq<string> :=
    ["show_my_tasks_only", "sort_order", "page", "show_active_task", "show_done_task", "per_page"]

  /** `applied_filters_count_taks` on the filter's data: the non-empty,
      counted parameters, with the two due-date bounds counted once. */
  function AppliedCountTaks(data: Query): int {
    var n := |AppliedKeys(data, Keys(data), NotCountedTaks)|;
    var both := Get(data, "completion_time_after").Some? && Get(data, "completion_time_after").value != ""
      && Get(data, "completion_time_before").Some? && Get(data, "completion_time_before").value != "";
    if both then n - 1 else n
  }

  /** The count is never negative, and is at most the number of distinct
      parameters. */
  lemma AppliedCountTaksBounds(data: Query)
    ensures 0 <= AppliedCountTaks(data) <= |Keys(data)|
  {
    var ks := AppliedKeys(data, Keys(data), NotCountedTaks);
    if Get(data, "completion_time_after").Some? && Get(data, "completion_time_after").value != "" {
      assert "completion_time_after" in ks;
    }
  }

  /** The defaults a task filter adds are never counted as filters. */
  lemma DefaultsNotCounted(data: Query)
    ensures AppliedCountTaks(TaskDefaults(data)) == AppliedCountTaks(data)
  {
    var d := TaskDefaults(data);
    TaskDefaultsValues(data);
    assert forall k :: k !in NotCountedTaks ==> Get(data, k) == Get(d, k) by {
      forall k | k !in NotCountedTaks ensures Get(data, k) == Get(d, k) {
        assert k != "show_my_tasks_only" && k != "sort_order";
      }
    }
    AppliedCountSame(data, d);
  }

  /** Queries that agree on every counted key count the same. */
  lemma AppliedCountSame(a: Query, b: Query)
    requires forall k :: k !in NotCountedTaks ==> Get(a, k) == Get(b, k)
    ensures AppliedCountTaks(a) == AppliedCountTaks(b)
  {
    AppliedKeysSame(a, b, Keys(a), Keys(b));
    DueKeysCounted();
  }

  lemma DueKeysCounted()
    ensures "completion_time_after" !in NotCountedTaks
    ensures "completion_time_before" !in NotCountedTaks
  {
    var after, before := "completion_time_after", "completion_time_before";
    assert |after| == 21 && |before| == 22;
    forall k | k in NotCountedTaks ensures |k| <= 18 { }
  }

  /** Two queries that agree on every counted key count the same. */
  lemma AppliedKeysSame(a: Query, b: Query, ka: seq<string>, kb: seq<string>)
    requires NoDup(ka) && NoDup(kb)
    requires forall k :: k !in NotCountedTaks ==> Get(a, k) == Get(b, k)
    requires forall k :: k in ka <==> Get(a, k).Some?
    requires forall k :: k in kb <==> Get(b, k).Some?
    ensures |AppliedKeys(a, ka, NotCountedTaks)| == |AppliedKeys(b, kb, NotCountedTaks)|
  {
    var ra := AppliedKeys(a, ka, NotCountedTaks);
    var rb := AppliedKeys(b, kb, NotCountedTaks);
    AppliedKeysNoDup(a, ka, NotCountedTaks);
    AppliedKeysNoDup(b, kb, NotCountedTaks);
    SameMembersSameLength(ra, rb);
  }

  lemma {:induction false} AppliedKeysNoDup(q: Query, keys: seq<string>, excluded: seq<string>)
    requires NoDup(keys)
    ensures NoDup(AppliedKeys(q, keys, excluded))
  {
    if |keys| > 0 {
      var k := keys[0];
      assert NoDup(keys[1..]) by {
        assert forall i :: 0 <= i < |keys[1..]| ==> keys[1..][i] == keys[i + 1];
      }
      AppliedKeysNoDup(q, keys[1..], excluded);
      assert k !in keys[1..] by {
        assert forall i :: 0 <= i < |keys[1..]| ==> keys[1..][i] == keys[i + 1];
      }
      NoDupCons(k, AppliedKeys(q, keys[1..], excluded));
    }
  }

  /** Two duplicate-free sequences with the same members have the same
      length. */
  lemma SameMembersSameLength(a: seq<string>, b: seq<string>)
    requires NoDup(a) && NoDup(b)
    requires forall x :: x in a <==> x in b
    ensures |a| == |b|
  {
    NoDupCard(a);
    NoDupCard(b);
    assert (set x | x in a) == (set x | x in b);
  }

  /** `applied_filters_count`: the request's non-empty parameters other
      than the page and the page size. */
  function AppliedFiltersCount(get: Query): (n: nat)
    ensures n <= |Keys(get)|
    ensures forall k :: k in Keys(get) && k != "page" && k != "per_page" && Get(get, k).value != "" ==>
      k in AppliedKeys(get, Keys(get), ["page", "per_page"])
  {
    |AppliedKeys(get, Keys(get), ["page", "per_page"])|
  }

  /** Parameters with an empty value, and the paging ones, never count. */
  lemma AppliedFiltersCountIgnoresEmpty(get: Query, k: string)
    requires k !in Keys(get)
    ensures AppliedFiltersCount(get + [(k, "")]) == AppliedFiltersCount(get)
  {
    var g := get + [(k, "")];
    assert Get(g, k) == Some("");
    assert forall x :: x != k ==> Get(g, x) == Get(get, x) by {
      forall x | x != k ensures Get(g, x) == Get(get, x) {
        assert g[..|g| - 1] == get;
      }
    }
    var a := AppliedKeys(get, Keys(get), ["page", "per_page"]);
    var b := AppliedKeys(g, Keys(g), ["page", "per_page"]);
    AppliedKeysNoDup(get, Keys(get), ["page", "per_page"]);
    AppliedKeysNoDup(g, Keys(g), ["page", "per_page"]);
    SameMembersSameLength(a, b);
  }

  // ------------------------------------------------------------- filter_url

  /** `filter_url`: the request's parameters (each once, last value) except
      "page", with `objects_set` set to the object's id when an object is
      given. The URL encoding of the result is not modelled. */
  function FilterUrl(get: Query, obj: Option<Obj>): (r: Query)
    ensures forall i :: 0 <= i < |r| ==> r[i].0 != "page"
    ensures obj.Some? ==> Get(r, "objects_set") == Some(NatToString(obj.value.id))
    ensures forall k :: k != "page" && (obj.Some? ==> k != "objects_set") ==> Get(r, k) == Get(get, k)
  {
    var items := Items(get, Keys(get));
    assert forall k :: Get(items, k) == Get(get, k) by {
      forall k ensures Get(items, k) == Get(get, k) {
        ItemsGet(get, Keys(get), k);
      }
    }
    var kept := WithoutKey(items, "page");
    if obj.Some? then SetItem(kept, "objects_set", NatToString(obj.value.id)) else kept
  }

  /** `items()` restricted to the given keys: one pair per key, with its
      last value. */
  function Items(q: Query, keys: seq<string>): (r: Query)
    requires forall i :: 0 <= i < |keys| ==> Get(q, keys[i]).Some?
    ensures |r| == |keys|
  {
    if |keys| == 0 then []
    else
      var init := keys[..|keys| - 1];
      Items(q, init) + [(keys[|keys| - 1], Get(q, keys[|keys| - 1]).value)]
  }

  /** Each listed key keeps its last value, and no other key appears. */
  lemma {:induction false} ItemsGet(q: Query, keys: seq<string>, k: string)
    requires forall i :: 0 <= i < |keys| ==> Get(q, keys[i]).Some?
    ensures Get(Items(q, keys), k) == if k in keys then Get(q, k) else None
    decreases |keys|
  {
    if |keys| > 0 {
      var init := keys[..|keys| - 1];
      var last := keys[|keys| - 1];
      var r := Items(q, keys);
      ItemsGet(q, init, k);
      LastSplit(keys);
      assert k in keys <==> k in init || k == last;
      assert r[..|r| - 1] == Items(q, init);
    }
  }

  /** The pairs whose key is not k. */
  function WithoutKey(q: Query, k: string): (r: Query)
    ensures forall i :: 0 <= i < |r| ==> r[i].0 != k
    ensures Get(r, k).None?
    ensures forall x :: x != k ==> Get(r, x) == Get(q, x)
  {
    if |q| == 0 then []
    else
      var init := q[..|q| - 1];
      var last := q[|q| - 1];
      if last.0 == k then WithoutKey(init, k)
      else
        var r := WithoutKey(init, k) + [last];
        assert r[..|r| - 1] == WithoutKey(init, k);
        r
  }

  /** `d[k] = v` on a dict: an existing key keeps its place and takes the
      new value, a new one goes last. */
  function SetItem(q: Query, k: string, v: string): (r: Query)
    ensures Get(r, k) == Some(v)
    ensures forall x :: x != k ==> Get(r, x) == Get(q, x)
    ensures forall i :: 0 <= i < |r| ==> r[i].0 == k || r[i] in q
  {
    if k in PairKeys(q) then Replace(q, k, v) else q + [(k, v)]
  }

  function Replace(q: Query, k: string, v: string): (r: Query)
    requires k in PairKeys(q)
    ensures Get(r, k) == Some(v)
    ensures forall x :: x != k ==> Get(r, x) == Get(q, x)
    ensures forall i :: 0 <= i < |r| ==> r[i].0 == k || r[i] in q
  {
    var init := q[..|q| - 1];
    var last := q[|q| - 1];
    assert forall p :: p in q <==> p in init || p == last by {
      LastSplit(q);
    }
    var front := if last.0 == k then (if k in PairKeys(init) then Replace(init, k, v) else init)
      else Replace(init, k, v);
    var r := front + [if last.0 == k then (k, v) else last];
    SnocPrefix(front, if last.0 == k then (k, v) else last);
    r
  }

  // -------------------------------------------------- current filter params

  datatype PageError = UnknownPage

  /** What `get_current_filter_params` returns for each page. */
  datatype CurrentParams =
    | ObjectsParams(currentTags: seq<string>, currentGroups: seq<string>)
    | TasksParams(currentTags: seq<string>, currentEngineers: seq<string>, currentObjects: seq<string>)

  /** `get_current_filter_params`. */
  function GetCurrentFilterParams(get: Query, page: string): (r: Result<CurrentParams, PageError>)
    ensures r.Err? <==> page != "objects" && page != "tasks"
    ensures page == "objects" ==> r == Ok(ObjectsParams(GetList(get, "tags"), GetList(get, "groups")))
    ensures page == "tasks" ==>
      && r.Ok? && r.value.TasksParams?
      && (forall v :: v in r.value.currentEngineers <==> ("engineers", v) in get)
      && (forall v :: v in r.value.currentObjects <==> ("objects_set", v) in get)
      && r.value.currentTags == GetList(get, "tags")
  {
    if page == "objects" then Ok(ObjectsParams(GetList(get, "tags"), GetList(get, "groups")))
    else if page == "tasks" then
      Ok(TasksParams(GetList(get, "tags"), GetList(get, "engineers"), GetList(get, "objects_set")))
    else Err(UnknownPage)
  }

  // ------------------------------------------------ cached filter components

  /** The trees (and, for tasks, the defaults of the date fields) the filter
      panel of a page shows. */
  datatype FilterFields =
    | ObjectsFields(tags: seq<Node>, groups: seq<Node>, objects: seq<Node>)
    | TasksFields(tags: seq<Node>, engineers: seq<Node>, objects: seq<Node>, defaultDate: string, defaultTime: string)

  /** An unknown page raises ValueError; `default_date` can raise
      OverflowError on the last day Python knows. */
  datatype FieldsError = FieldsUnknownPage | DateOverflow

  const DefaultTime: string := "17:30"

  function FieldsKey(page: string, user: User): string {
    "filter_components:" + page + ":" + user.username
  }

  function FieldsVersionKey(page: string): string {
    "filter_components_cache_version_" + page
  }

  /** What `get_fields_for_filter` builds on a miss. The tag tree comes
      from the caller: the tag tree class it names is not part of this
      model. */
  function BuildFields(db: Db, user: User, page: string, now: DateTime, allTags: seq<Node>)
    : (r: Result<FilterFields, FieldsError>)
    requires ValidDateTime(now)
    ensures r.Err? <==> (page != "objects" && page != "tasks") || (page == "tasks" && Service.DefaultDate(now).None?)
    ensures r.Ok? ==>
      && r.value.tags == allTags
      && r.value.objects == ObjectForest.Forest(TreeNodes.ObjectRows(db, SomeUser(user)).value)
    ensures r.Ok? && page == "tasks" ==>
      && r.value.TasksFields? && r.value.defaultTime == "17:30"
      && r.value.engineers == EngineersTree.Tree(EngineersTree.Rows(db))
  {
    var objects := ObjectForest.Forest(TreeNodes.ObjectRows(db, SomeUser(user)).value);
    if page == "objects" then
      Ok(ObjectsFields(allTags, TreeNodes.GroupNodes(TreeNodes.Groups(db, SomeUser(user))), objects))
    else if page == "tasks" then
      var date := Service.DefaultDate(now);
      if date.None? then Err(DateOverflow)
      else Ok(TasksFields(allTags, EngineersTree.Tree(EngineersTree.Rows(db)), objects, date.value, DefaultTime))
    else Err(FieldsUnknownPage)
  }

  /** `get_fields_for_filter`: reads (and creates) the page's version
      first, returns a stored entry whatever the page, and otherwise builds
      the components and stores them under the current version. */
  method GetFieldsForFilter(db: Db, user: User, page: string, now: DateTime, allTags: seq<Node>,
                            counters: Counters, cache: Cache<FilterFields>)
    returns (r: Result<FilterFields, FieldsError>)
    requires ValidDateTime(now)
    modifies counters, cache
    ensures counters.values == AfterRead(old(counters.values), FieldsVersionKey(page))
    ensures var a := Address(FieldsKey(page, user), ReadVersion(old(counters.values), FieldsVersionKey(page)));
      && (a in old(cache.entries) ==> r == Ok(old(cache.entries)[a]) && cache.entries == old(cache.entries))
      && (a !in old(cache.entries) ==>
            && r == BuildFields(db, user, page, now, allTags)
            && cache.entries == if r.Ok? then old(cache.entries)[a := r.value] else old(cache.entries))
  {
    var version := new CacheVersion(FieldsVersionKey(page));
    var v := version.GetCacheVersion(counters);
    var cached := cache.Get(FieldsKey(page, user), v);
    if cached.Some? {
      return Ok(cached.value);
    }
    var content: FilterFields;
    if page == "objects" {
      var objects := TreeNodes.ObjectsTreeNodes(db, SomeUser(user));
      content := ObjectsFields(allTags, TreeNodes.GroupNodes(TreeNodes.Groups(db, SomeUser(user))), objects.value);
    } else if page == "tasks" {
      var engineers := EngineersTree.GetNodes(EngineersTree.Rows(db));
      var objects := TreeNodes.ObjectsTreeNodes(db, SomeUser(user));
      var date := Service.DefaultDate(now);
      if date.None? {
        return Err(DateOverflow);
      }
      content := TasksFields(allTags, engineers, objects.value, date.value, DefaultTime);
    } else {
      return Err(FieldsUnknownPage);
    }
    cache.Set(FieldsKey(page, user), v, content);
    r := Ok(content);
  }

  /** Every stored component entry of the page is at a version no newer
      than the page's current version. */
  predicate FieldsCoherent(m: map<string, int>, entries: map<Address, FilterFields>, page: string) {
    forall a :: a in entries && StartsWith(a.key, "filter_components:" + page + ":") ==>
      a.version <= ReadVersion(m, FieldsVersionKey(page))
  }

  /** Reading the components keeps both pages' entries coherent. */
  lemma GetFieldsKeepsCoherent(m: map<string, int>, entries: map<Address, FilterFields>,
                               page: string, user: User, f: FilterFields, p: string)
    requires p == "objects" || p == "tasks"
    requires page == "objects" || page == "tasks"
    requires FieldsCoherent(m, entries, p)
    ensures FieldsCoherent(AfterRead(m, FieldsVersionKey(page)),
      entries[Address(FieldsKey(page, user), ReadVersion(m, FieldsVersionKey(page))) := f], p)
  {
    var m2 := AfterRead(m, FieldsVersionKey(page));
    var key := FieldsKey(page, user);
    assert ReadVersion(m2, FieldsVersionKey(p)) == ReadVersion(m, FieldsVersionKey(p));
    if page != p {
      var prefix := "filter_components:" + p + ":";
      assert !StartsWith(key, prefix) by {
        assert key[18] == page[0];
        assert prefix[18] == p[0];
      }
    }
  }

  /** After the page's version is raised (the model signals do this), no
      user's stored components of that page are read again. */
  lemma BumpHidesFields(m: map<string, int>, entries: map<Address, FilterFields>, page: string, user: User)
    requires FieldsCoherent(m, entries, page)
    ensures Address(FieldsKey(page, user), ReadVersion(AfterIncrement(m, FieldsVersionKey(page)), FieldsVersionKey(page)))
      !in entries
  {
    var key := FieldsKey(page, user);
    assert StartsWith(key, "filter_components:" + page + ":") by {
      assert key[..|"filter_components:" + page + ":"|] == "filter_components:" + page + ":";
    }
  }
}
