/** tasks/forms.py: the task and object model forms.

    The engineer field of the task forms offers one choice per engineer
    ("eng_<id>") followed by one per department ("dep_<id>"); `save` reads
    the chosen values back, sorts their ids into engineers and departments
    and then sets or clears the task's many-to-many relations. The saved
    row is a `TaskInstance` (an `ObjectInstance` for the object forms) whose
    fields the methods update in place. The two views that call the task
    forms run inside one transaction, so a `save` that raises leaves the
    stored row as it was. */
module Forms {
  import opened Wrappers
  import opened Text
  import opened Seqs
  import opened Calendar
  import opened Domain

  /** The exceptions `save` can raise. */
  datatype FormError = IndexError | ValueError

  /** What one submitted engineer value stands for. */
  datatype Token = EngineerToken(id: int) | DepartmentToken(id: int) | OtherToken

  /** The choice offered for an engineer: "eng_<id>" labelled with the name. */
  function EngineerChoice(e: Engineer): (string, string) {
    ("eng_" + NatToString(e.id), e.firstName + " " + e.secondName)
  }

  /** The choice offered for a department: "dep_<id>" labelled with the name. */
  function DepartmentChoice(d: Department): (string, string) {
    ("dep_" + NatToString(d.id), d.name)
  }

  /** The choices both task forms build in `__init__`: every engineer in
      table order, then every department in table order. */
  function Choices(db: Db): (r: seq<(string, string)>)
    ensures |r| == |db.engineers| + |db.departments|
    ensures forall i :: 0 <= i < |db.engineers| ==> r[i] == EngineerChoice(db.engineers[i])
    ensures forall i :: 0 <= i < |db.departments| ==>
      r[|db.engineers| + i] == DepartmentChoice(db.departments[i])
  {
    seq(|db.engineers|, i requires 0 <= i < |db.engineers| => EngineerChoice(db.engineers[i]))
    + seq(|db.departments|, i requires 0 <= i < |db.departments| => DepartmentChoice(db.departments[i]))
  }

  /** One value of the loop: split at '_', the id is `int()` of the second
      part (read before the prefix is looked at), and the first part
      decides where it goes; a value without '_' has no second part. */
  function DecodeToken(val: string): Result<Token, FormError> {
    var parts := Split(val, '_');
    if |parts| < 2 then Err(IndexError)
    else
      match PyInt(parts[1])
      case None => Err(ValueError)
      case Some(id) =>
        if parts[0] == "eng" then Ok(EngineerToken(id))
        else if parts[0] == "dep" then Ok(DepartmentToken(id))
        else Ok(OtherToken)
  }

  /** The ids the loop collects, in the order of the values. */
  datatype Picked = Picked(engineers: seq<int>, departments: seq<int>)

  /** Every value decoded on its own. */
  function DecodeAll(vals: seq<string>): seq<Result<Token, FormError>> {
    if |vals| == 0 then [] else DecodeAll(vals[..|vals| - 1]) + [DecodeToken(vals[|vals| - 1])]
  }

  /** The i-th decoded value is the i-th value decoded. */
  lemma {:induction false} DecodeAllAt(vals: seq<string>)
    ensures |DecodeAll(vals)| == |vals|
    ensures forall i :: 0 <= i < |vals| ==> DecodeAll(vals)[i] == DecodeToken(vals[i])
    decreases |vals|
  {
    if |vals| > 0 {
      var front := vals[..|vals| - 1];
      DecodeAllAt(front);
      assert forall i :: 0 <= i < |front| ==> front[i] == vals[i];
    }
  }

  /** The loop over decoded values as a function: the ids in order, or the
      exception of the first value that raises. */
  function Collect(ts: seq<Result<Token, FormError>>): Result<Picked, FormError> {
    if |ts| == 0 then Ok(Picked([], []))
    else
      match Collect(ts[..|ts| - 1])
      case Err(e) => Err(e)
      case Ok(p) =>
        match ts[|ts| - 1]
        case Err(e) => Err(e)
        case Ok(EngineerToken(id)) => Ok(Picked(p.engineers + [id], p.departments))
        case Ok(DepartmentToken(id)) => Ok(Picked(p.engineers, p.departments + [id]))
        case Ok(OtherToken) => Ok(p)
  }

  /** What the loop over the submitted values leaves. */
  function Pick(vals: seq<string>): Result<Picked, FormError> {
    Collect(DecodeAll(vals))
  }

  /** Lines 66-81 (and 156-171): walks the values once, appending each id to
      its list. */
  method PickTokens(vals: seq<string>) returns (r: Result<Picked, FormError>)
    ensures r == Pick(vals)
  {
    var engineers: seq<int> := [];
    var departments: seq<int> := [];
    ghost var ts := DecodeAll(vals);
    DecodeAllAt(vals);
    var i := 0;
    while i < |vals|
      invariant 0 <= i <= |vals|
      invariant Collect(ts[..i]) == Ok(Picked(engineers, departments))
    {
      assert ts[..i + 1][..i] == ts[..i];
      var t := DecodeToken(vals[i]);
      if t.Err? {
        CollectStopsAtError(ts, i + 1);
        return Err(t.error);
      }
      match t.value {
        case EngineerToken(id) => engineers := engineers + [id];
        case DepartmentToken(id) => departments := departments + [id];
        case OtherToken =>
      }
      i := i + 1;
    }
    assert ts[..i] == ts;
    r := Ok(Picked(engineers, departments));
  }

  /** Once a prefix raises, so does every longer prefix, with the same
      exception. */
  lemma {:induction false} CollectStopsAtError(ts: seq<Result<Token, FormError>>, n: nat)
    requires 0 < n <= |ts| && (Collect(ts[..n - 1]).Err? || ts[n - 1].Err?)
    ensures Collect(ts) == Collect(ts[..n])
    ensures Collect(ts).Err?
    decreases |ts|
  {
    assert ts[..n][..n - 1] == ts[..n - 1];
    if n < |ts| {
      var front := ts[..|ts| - 1];
      assert front[..n] == ts[..n];
      assert front[..n - 1] == ts[..n - 1];
      CollectStopsAtError(front, n);
    } else {
      assert ts[..n] == ts;
    }
  }

  /** Collecting succeeds exactly when every value decoded; then an id is
      among the engineers iff some value was an engineer token for it,
      among the departments iff some value was a department token for it,
      and other tokens add nothing. */
  lemma {:induction false} CollectContents(ts: seq<Result<Token, FormError>>)
    ensures Collect(ts).Ok? <==> forall i :: 0 <= i < |ts| ==> ts[i].Ok?
    ensures Collect(ts).Ok? ==> forall n: int ::
      (n in Collect(ts).value.engineers <==> exists i :: 0 <= i < |ts| && ts[i] == Ok(EngineerToken(n)))
    ensures Collect(ts).Ok? ==> forall n: int ::
      (n in Collect(ts).value.departments <==> exists i :: 0 <= i < |ts| && ts[i] == Ok(DepartmentToken(n)))
    ensures Collect(ts).Ok? ==> |Collect(ts).value.engineers| + |Collect(ts).value.departments| <= |ts|
    decreases |ts|
  {
    if |ts| > 0 {
      var front := ts[..|ts| - 1];
      var last := ts[|ts| - 1];
      CollectContents(front);
      assert forall i :: 0 <= i < |front| ==> front[i] == ts[i];
      if Collect(front).Err? {
        var i :| 0 <= i < |front| && !front[i].Ok?;
        assert !ts[i].Ok?;
      } else if last.Ok? {
        var r := Collect(ts).value;
        forall n: int
          ensures n in r.engineers <==> exists i :: 0 <= i < |ts| && ts[i] == Ok(EngineerToken(n))
          ensures n in r.departments <==> exists i :: 0 <= i < |ts| && ts[i] == Ok(DepartmentToken(n))
        {
          if exists i :: 0 <= i < |ts| && ts[i] == Ok(EngineerToken(n)) {
            var i :| 0 <= i < |ts| && ts[i] == Ok(EngineerToken(n));
            if i < |front| { assert front[i] == Ok(EngineerToken(n)); }
          }
          if exists i :: 0 <= i < |ts| && ts[i] == Ok(DepartmentToken(n)) {
            var i :| 0 <= i < |ts| && ts[i] == Ok(DepartmentToken(n));
            if i < |front| { assert front[i] == Ok(DepartmentToken(n)); }
          }
        }
      }
    }
  }

  /** The loop succeeds exactly when every value decodes; then an id is
      among the engineers iff some value is "eng_<id>", among the
      departments iff some value is "dep_<id>", and values with any other
      prefix add nothing. */
  lemma PickContents(vals: seq<string>)
    ensures Pick(vals).Ok? <==> forall i :: 0 <= i < |vals| ==> DecodeToken(vals[i]).Ok?
    ensures Pick(vals).Ok? ==> forall n: int ::
      (n in Pick(vals).value.engineers <==> exists i :: 0 <= i < |vals| && DecodeToken(vals[i]) == Ok(EngineerToken(n)))
    ensures Pick(vals).Ok? ==> forall n: int ::
      (n in Pick(vals).value.departments <==> exists i :: 0 <= i < |vals| && DecodeToken(vals[i]) == Ok(DepartmentToken(n)))
    ensures Pick(vals).Ok? ==> |Pick(vals).value.engineers| + |Pick(vals).value.departments| <= |vals|
  {
    DecodeAllAt(vals);
    CollectContents(DecodeAll(vals));
  }

  /** Splitting "<p>_<n>" at '_' gives the prefix and the digits back. */
  lemma SplitToken(p: string, n: nat)
    requires '_' !in p
    ensures Split(p + "_" + NatToString(n), '_') == [p, NatToString(n)]
  {
    var d := NatToString(n);
    assert '_' !in d by {
      forall k | 0 <= k < |d| ensures d[k] != '_' {
        assert IsDigit(d[k]);
      }
    }
    SplitJoin([p, d], '_');
    assert Join([p, d], "_") == p + "_" + Join([d], "_");
  }

  /** "eng_<n>" decodes to the engineer n. */
  lemma EngineerTokenDecodes(n: nat)
    ensures DecodeToken("eng_" + NatToString(n)) == Ok(EngineerToken(n))
  {
    SplitToken("eng", n);
    assert "eng" + "_" + NatToString(n) == "eng_" + NatToString(n);
    PyIntOfNatToString(n);
  }

  /** "dep_<n>" decodes to the department n. */
  lemma DepartmentTokenDecodes(n: nat)
    ensures DecodeToken("dep_" + NatToString(n)) == Ok(DepartmentToken(n))
  {
    SplitToken("dep", n);
    assert "dep" + "_" + NatToString(n) == "dep_" + NatToString(n);
    PyIntOfNatToString(n);
  }

  /** The token an offered choice stands for. */
  function ChoiceToken(db: Db, i: nat): Token
    requires i < |db.engineers| + |db.departments|
  {
    if i < |db.engineers| then EngineerToken(db.engineers[i].id)
    else DepartmentToken(db.departments[i - |db.engineers|].id)
  }

  /** Every offered choice decodes to the engineer or department it
      stands for. */
  lemma ChoiceDecodes(db: Db, i: nat)
    requires i < |Choices(db)|
    ensures DecodeToken(Choices(db)[i].0) == Ok(ChoiceToken(db, i))
  {
    if i < |db.engineers| {
      EngineerTokenDecodes(db.engineers[i].id);
    } else {
      var k := i - |db.engineers|;
      assert Choices(db)[|db.engineers| + k] == DepartmentChoice(db.departments[k]);
      DepartmentTokenDecodes(db.departments[k].id);
    }
  }

  /** Any selection of offered choices decodes without error, and picks
      exactly the selected engineers and departments. */
  lemma PickChoices(db: Db, vals: seq<string>)
    requires forall v :: v in vals ==> exists i :: 0 <= i < |Choices(db)| && Choices(db)[i].0 == v
    ensures Pick(vals).Ok?
    ensures forall e :: e in db.engineers && EngineerChoice(e).0 in vals ==> e.id in Pick(vals).value.engineers
    ensures forall d :: d in db.departments && DepartmentChoice(d).0 in vals ==> d.id in Pick(vals).value.departments
  {
    var c := Choices(db);
    var ts := DecodeAll(vals);
    DecodeAllAt(vals);
    CollectContents(ts);
    forall j | 0 <= j < |vals| ensures ts[j].Ok? {
      assert vals[j] in vals;
      var i :| 0 <= i < |c| && c[i].0 == vals[j];
      ChoiceDecodes(db, i);
    }
    forall e | e in db.engineers && EngineerChoice(e).0 in vals
      ensures e.id in Pick(vals).value.engineers
    {
      var j :| 0 <= j < |vals| && vals[j] == EngineerChoice(e).0;
      EngineerTokenDecodes(e.id);
      assert ts[j] == DecodeToken(vals[j]) == Ok(EngineerToken(e.id));
    }
    forall d | d in db.departments && DepartmentChoice(d).0 in vals
      ensures d.id in Pick(vals).value.departments
    {
      var j :| 0 <= j < |vals| && vals[j] == DepartmentChoice(d).0;
      DepartmentTokenDecodes(d.id);
      assert ts[j] == DecodeToken(vals[j]) == Ok(DepartmentToken(d.id));
    }
  }

  /** A time of day as `TimeField` cleans it. */
  datatype Clock = Clock(hour: int, minute: int, second: int, micro: int)

  /** `datetime.strptime(f"{date} {time}", "%Y-%m-%d %H:%M:%S")`: `str(time)`
      carries ".ffffff" when the microseconds are not zero, which the
      format does not accept, so such a time raises ValueError; otherwise
      the date and the time are read back unchanged. */
  function CompletionTime(d: Date, t: Clock): (r: Result<DateTime, FormError>)
    ensures r.Ok? <==> t.micro == 0
    ensures r.Ok? ==> (r.value.date == d && r.value.hour == t.hour && r.value.minute == t.minute
                       && r.value.second == t.second && r.value.micro == 0)
  {
    if t.micro != 0 then Err(ValueError) else Ok(DateTime(d, t.hour, t.minute, t.second, 0))
  }

  /** The cleaned data of a valid task form. `text` is "text" for the add
      form and "text_edit" for the edit form; the engineer values are the
      chosen tokens. */
  datatype TaskData = TaskData(
    header: string,
    priority: string,
    isDone: bool,
    date: Date,
    time: Clock,
    text: string,
    engineerValues: seq<string>,
    tags: seq<Id>,
    objects: seq<Id>)

  /** A stored task row with its many-to-many relations (`objects` is the
      reverse `objects_set`). */
  class TaskInstance {
    var header: string
    var priority: string
    var isDone: bool
    var text: string
    var completionTime: DateTime
    var deleted: bool
    var engineers: set<int>
    var departments: set<int>
    var tags: set<Id>
    var objects: set<Id>
    var files: set<Id>

    /** `Task(creator=...)`: a new task, not deleted, with no relations. */
    constructor(completionTime: DateTime)
      ensures this.completionTime == completionTime
      ensures header == "" && priority == "" && !isDone && text == "" && !deleted
      ensures engineers == {} && departments == {} && tags == {} && objects == {} && files == {}
    {
      header, priority, isDone, text := "", "", false, "";
      this.completionTime := completionTime;
      deleted := false;
      engineers, departments, tags, objects, files := {}, {}, {}, {}, {};
    }

    /** The scalar fields both forms write: the model fields of the cleaned
        data, the combined completion time and `deleted = False`. */
    method WriteScalars(data: TaskData, completion: DateTime, text: string)
      modifies this
      ensures header == data.header && priority == data.priority && isDone == data.isDone
      ensures this.text == text && completionTime == completion && !deleted
      ensures engineers == old(engineers) && departments == old(departments)
      ensures tags == old(tags) && objects == old(objects) && files == old(files)
    {
      header, priority, isDone := data.header, data.priority, data.isDone;
      this.text := text;
      completionTime := completion;
      deleted := false;
    }

    /** `AddTaskForm.save` (lines 51-99): every relation is set only when
        something was chosen for it; the files field is never written,
        since `save_m2m` is not called. */
    method SaveAdd(data: TaskData) returns (r: Result<(), FormError>)
      modifies this
      ensures r.Ok? <==> CompletionTime(data.date, data.time).Ok? && Pick(data.engineerValues).Ok?
      ensures r.Err? ==> unchanged(this)
      ensures r.Ok? ==> header == data.header && priority == data.priority && isDone == data.isDone
      ensures r.Ok? ==> text == data.text && !deleted
      ensures r.Ok? ==> completionTime == CompletionTime(data.date, data.time).value
      ensures r.Ok? ==> engineers == if Pick(data.engineerValues).value.engineers != [] then Elements(Pick(data.engineerValues).value.engineers) else old(engineers)
      ensures r.Ok? ==> departments == if Pick(data.engineerValues).value.departments != [] then Elements(Pick(data.engineerValues).value.departments) else old(departments)
      ensures r.Ok? ==> tags == if data.tags != [] then Elements(data.tags) else old(tags)
      ensures r.Ok? ==> objects == if data.objects != [] then Elements(data.objects) else old(objects)
      ensures files == old(files)
    {
      var completion := CompletionTime(data.date, data.time);
      if completion.Err? {
        return Err(completion.error);
      }
      var picked := PickTokens(data.engineerValues);
      if picked.Err? {
        return Err(picked.error);
      }
      WriteScalars(data, completion.value, data.text);
      var p := picked.value;
      engineers := if p.engineers != [] then Elements(p.engineers) else engineers;
      departments := if p.departments != [] then Elements(p.departments) else departments;
      tags := if data.tags != [] then Elements(data.tags) else tags;
      objects := if data.objects != [] then Elements(data.objects) else objects;
      r := Ok(());
    }

    /** `EditTaskForm.save` (lines 140-193): `text` comes from "text_edit";
        engineers and departments are cleared when none of that kind was
        chosen, while empty tags and objects leave those relations alone. */
    method SaveEdit(data: TaskData) returns (r: Result<(), FormError>)
      modifies this
      ensures r.Ok? <==> CompletionTime(data.date, data.time).Ok? && Pick(data.engineerValues).Ok?
      ensures r.Err? ==> unchanged(this)
      ensures r.Ok? ==> header == data.header && priority == data.priority && isDone == data.isDone
      ensures r.Ok? ==> text == data.text && !deleted
      ensures r.Ok? ==> completionTime == CompletionTime(data.date, data.time).value
      ensures r.Ok? ==> engineers == Elements(Pick(data.engineerValues).value.engineers)
      ensures r.Ok? ==> departments == Elements(Pick(data.engineerValues).value.departments)
      ensures r.Ok? ==> tags == if data.tags != [] then Elements(data.tags) else old(tags)
      ensures r.Ok? ==> objects == if data.objects != [] then Elements(data.objects) else old(objects)
      ensures files == old(files)
    {
      var completion := CompletionTime(data.date, data.time);
      if completion.Err? {
        return Err(completion.error);
      }
      var picked := PickTokens(data.engineerValues);
      if picked.Err? {
        return Err(picked.error);
      }
      WriteScalars(data, completion.value, data.text);
      var p := picked.value;
      engineers := if p.engineers != [] then Elements(p.engineers) else {};
      departments := if p.departments != [] then Elements(p.departments) else {};
      tags := if data.tags != [] then Elements(data.tags) else tags;
      objects := if data.objects != [] then Elements(data.objects) else objects;
      r := Ok(());
    }
  }

  /** The set of ids a many-to-many `set(ids)` leaves. */
  function Elements<T(!new)>(s: seq<T>): (r: set<T>)
    ensures forall x :: x in r <==> x in s
    ensures s == [] <==> r == {}
  {
    if s == [] then {} else assert s[0] in set x | x in s; set x | x in s
  }

  /** The cleaned data of a valid object form; `groups` and `tags` are
      None when the key is missing from the cleaned data. */
  datatype ObjectData = ObjectData(
    name: string,
    priority: string,
    description: string,
    zabbixLink: string,
    ecstasyLink: string,
    notesLink: string,
    anotherLink: string,
    groups: Option<seq<Id>>,
    tags: Option<seq<Id>>)

  /** A stored object row with the relations the object forms write. */
  class ObjectInstance {
    var name: string
    var priority: string
    var description: string
    var zabbixLink: string
    var ecstasyLink: string
    var notesLink: string
    var anotherLink: string
    var groups: set<Id>
    var tags: set<Id>
    var files: set<Id>

    constructor(name: string)
      ensures this.name == name && priority == "" && description == ""
      ensures zabbixLink == "" && ecstasyLink == "" && notesLink == "" && anotherLink == ""
      ensures groups == {} && tags == {} && files == {}
    {
      this.name := name;
      priority, description := "", "";
      zabbixLink, ecstasyLink, notesLink, anotherLink := "", "", "", "";
      groups, tags, files := {}, {}, {};
    }

    /** `ObjectForm.save` and `ObjectCreateForm.save` (lines 216-234 and
        273-291): the groups are replaced by a non-empty submitted set and
        cleared otherwise; the tags are replaced by the submitted set,
        empty or not, and cleared when the key is missing; the files field
        is never written. */
    method Save(data: ObjectData)
      modifies this
      ensures name == data.name && priority == data.priority && description == data.description
      ensures zabbixLink == data.zabbixLink && ecstasyLink == data.ecstasyLink
      ensures notesLink == data.notesLink && anotherLink == data.anotherLink
      ensures groups == (if data.groups.Some? && data.groups.value != [] then Elements(data.groups.value) else {})
      ensures tags == (if data.tags.Some? then Elements(data.tags.value) else {})
      ensures files == old(files)
    {
      name, priority, description := data.name, data.priority, data.description;
      zabbixLink, ecstasyLink := data.zabbixLink, data.ecstasyLink;
      notesLink, anotherLink := data.notesLink, data.anotherLink;
      if data.groups.Some? && data.groups.value != [] {
        groups := Elements(data.groups.value);
      } else {
        groups := {};
      }
      if data.tags.Some? {
        tags := Elements(data.tags.value);
      } else {
        tags := {};
      }
    }
  }
}
