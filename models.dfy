/** tasks/models.py: the write-time check that an object's new parent does
    not close a cycle, the derived fields and stored path of an attached
    file, the one-line rendering of an address, and the signal receivers
    that raise cache versions when rows are saved or deleted. */
module Models {
  import opened Wrappers
  import opened Text
  import opened Seqs
  import opened Calendar
  import CacheStore
  import opened CacheVersions
  import Domain
  import Filters

  // ------------------------------------------------------- Object.clean

  /** The stored parent links of the objects table: id to parent id. */
  type ParentStore = map<Domain.Id, Option<Domain.Id>>

  /** `obj.parent` read from the table; None past the end of a chain. */
  function Parent(m: ParentStore, id: Domain.Id): Option<Domain.Id> {
    if id in m then m[id] else None
  }

  /** The n-th link of the chain that starts at id: id itself for n = 0,
      None once the chain has ended. */
  function Ancestor(m: ParentStore, id: Domain.Id, n: nat): Option<Domain.Id> {
    if n == 0 then Some(id)
    else match Ancestor(m, id, n - 1)
      case None => None
      case Some(x) => Parent(m, x)
  }

  /** The chain from id ends after finitely many links. */
  ghost predicate Ends(m: ParentStore, id: Domain.Id) {
    exists n: nat :: Ancestor(m, id, n).None?
  }

  /** No chain of parent links runs round a cycle. */
  ghost predicate Acyclic(m: ParentStore) {
    forall id :: Ends(m, id)
  }

  /** "Рекурсия" and the descendant-parent message. */
  datatype CleanError = Recursion | DescendantParent

  /** What `Object.clean` decides for an object with primary key `me`
      (None while unsaved) and the chosen parent: the object cannot be its
      own parent, nor can it lie anywhere on the chosen parent's chain. */
  ghost function CleanVerdict(m: ParentStore, me: Option<Domain.Id>, proposed: Option<Domain.Id>): Result<(), CleanError> {
    if proposed.None? then Ok(())
    else if proposed == me then Err(Recursion)
    else if me.Some? && exists k :: Ancestor(m, proposed.value, k) == me then Err(DescendantParent)
    else Ok(())
  }

  /** A chain that has ended stays ended. */
  lemma {:induction false} EndedStaysEnded(m: ParentStore, id: Domain.Id, a: nat, b: nat)
    requires Ancestor(m, id, a).None? && a <= b
    ensures Ancestor(m, id, b).None?
    decreases b - a
  {
    if a < b {
      EndedStaysEnded(m, id, a + 1, b);
    }
  }

  /** `Object.clean`: walks the chosen parent's chain through the stored
      links until it ends, failing when it meets the object itself. The
      walk ends only because the stored links have no cycle. */
  method Clean(m: ParentStore, me: Option<Domain.Id>, proposed: Option<Domain.Id>) returns (r: Result<(), CleanError>)
    requires Acyclic(m)
    ensures r == CleanVerdict(m, me, proposed)
  {
    if proposed.Some? && proposed == me {
      return Err(Recursion);
    }
    if proposed.Some? {
      var p := proposed.value;
      assert Ends(m, p);
      ghost var n: nat :| Ancestor(m, p, n).None?;
      var current := Some(p);
      ghost var steps: nat := 0;
      while current.Some?
        invariant current == Ancestor(m, p, steps)
        invariant steps <= n
        invariant forall k :: 0 <= k < steps ==> Ancestor(m, p, k).Some? && Ancestor(m, p, k) != me
        decreases n - steps
      {
        if current == me {
          return Err(DescendantParent);
        }
        current := Parent(m, current.value);
        steps := steps + 1;
      }
      forall k | steps <= k ensures Ancestor(m, p, k).None? {
        EndedStaysEnded(m, p, steps, k);
      }
    }
    r := Ok(());
  }

  /** The chains agree with those of the table where the object's link is
      replaced, up to the first time they reach the object. */
  lemma {:induction false} ChainsAgree(m: ParentStore, me: Domain.Id, v: Option<Domain.Id>, id: Domain.Id, n: nat)
    requires forall k :: 0 <= k < n ==> Ancestor(m, id, k) != Some(me)
    ensures Ancestor(m[me := v], id, n) == Ancestor(m, id, n)
  {
    if n > 0 {
      ChainsAgree(m, me, v, id, n - 1);
    }
  }

  /** Following j links and then k more is following j + k links. */
  lemma {:induction false} ChainsCompose(m: ParentStore, id: Domain.Id, j: nat, x: Domain.Id, k: nat)
    requires Ancestor(m, id, j) == Some(x)
    ensures Ancestor(m, id, j + k) == Ancestor(m, x, k)
  {
    if k > 0 {
      ChainsCompose(m, id, j, x, k - 1);
    }
  }

  /** The first link of a chain that reaches a given object. */
  lemma {:induction false} FirstHit(m: ParentStore, id: Domain.Id, me: Domain.Id, a0: nat) returns (a: nat)
    requires Ancestor(m, id, a0) == Some(me)
    ensures a <= a0 && Ancestor(m, id, a) == Some(me)
    ensures forall k :: 0 <= k < a ==> Ancestor(m, id, k) != Some(me)
    decreases a0
  {
    if k :| 0 <= k < a0 && Ancestor(m, id, k) == Some(me) {
      a := FirstHit(m, id, me, k);
    } else {
      a := a0;
    }
  }

  /** On a table without cycles, storing a parent that `clean` accepts
      keeps the table without cycles. */
  lemma CleanKeepsAcyclic(m: ParentStore, me: Domain.Id, p: Option<Domain.Id>)
    requires Acyclic(m)
    requires CleanVerdict(m, Some(me), p).Ok?
    ensures Acyclic(m[me := p])
  {
    var m' := m[me := p];
    forall id ensures Ends(m', id) {
      StillEnds(m, me, p, id);
    }
  }

  lemma StillEnds(m: ParentStore, me: Domain.Id, p: Option<Domain.Id>, id: Domain.Id)
    requires Acyclic(m)
    requires CleanVerdict(m, Some(me), p).Ok?
    ensures Ends(m[me := p], id)
  {
    var m' := m[me := p];
    assert Ends(m, id);
    var n0 :| Ancestor(m, id, n0).None?;
    if a0 :| 0 <= a0 <= n0 && Ancestor(m, id, a0) == Some(me) {
      var a := FirstHit(m, id, me, a0);
      ChainsAgree(m, me, p, id, a);
      assert Ancestor(m', id, a + 1) == p;
      if p.None? {
        assert Ancestor(m', id, a + 1).None?;
      } else {
        var q := p.value;
        assert Ends(m, q);
        var b :| Ancestor(m, q, b).None?;
        assert forall k :: Ancestor(m, q, k) != Some(me);
        ChainsAgree(m, me, p, q, b);
        ChainsCompose(m', id, a + 1, q, b);
        assert Ancestor(m', id, a + 1 + b).None?;
      }
    } else {
      ChainsAgree(m, me, p, id, n0);
      assert Ancestor(m', id, n0).None?;
    }
  }

  /** Conversely, every parent `clean` rejects would put the object on a
      cycle: its own chain would never end. */
  lemma CleanRejectsCycles(m: ParentStore, me: Domain.Id, p: Option<Domain.Id>)
    requires CleanVerdict(m, Some(me), p).Err?
    ensures !Ends(m[me := p], me)
  {
    var m' := m[me := p];
    var q := p.value;
    assert Ancestor(m', me, 1) == Some(q);
    var period: nat;
    if q == me {
      period := 1;
    } else {
      var k :| Ancestor(m, q, k) == Some(me);
      var a := FirstHit(m, q, me, k);
      ChainsAgree(m, me, p, q, a);
      ChainsCompose(m', me, 1, q, a);
      period := 1 + a;
    }
    assert Ancestor(m', me, period) == Some(me);
    forall n: nat ensures Ancestor(m', me, n).Some? {
      GoesOnForever(m', me, period, n);
    }
  }

  lemma {:induction false} GoesOnForever(m: ParentStore, me: Domain.Id, period: nat, n: nat)
    requires period >= 1 && Ancestor(m, me, period) == Some(me)
    ensures Ancestor(m, me, n).Some?
    decreases n
  {
    if n < period {
      if Ancestor(m, me, n).None? {
        EndedStaysEnded(m, me, n, period);
      }
    } else {
      ChainsCompose(m, me, period, me, n - period);
      GoesOnForever(m, me, period, n - period);
    }
  }

  // ------------------------------------------------------ attached files

  /** The last position of c in s. */
  function LastIndex(s: string, c: char): (r: Option<nat>)
    ensures r.Some? ==> r.value < |s| && s[r.value] == c && forall j :: r.value < j < |s| ==> s[j] != c
    ensures r.None? ==> c !in s
  {
    if |s| == 0 then None
    else if s[|s| - 1] == c then Some(|s| - 1)
    else
      var r := LastIndex(s[..|s| - 1], c);
      assert forall j :: 0 <= j < |s| - 1 ==> s[..|s| - 1][j] == s[j];
      r
  }

  /** `os.path.splitext(name)[1]`: from the last '.' of the last path
      component, unless only dots precede it in that component. */
  function Suffix(name: string): (ext: string)
    ensures |ext| <= |name| && name[|name| - |ext|..] == ext
    ensures ext == "" || (ext[0] == '.' && '/' !in ext && '.' !in ext[1..])
  {
    var dot := LastIndex(name, '.');
    var sep := LastIndex(name, '/');
    var start := if sep.Some? then sep.value + 1 else 0;
    if dot.Some? && dot.value >= start && exists j :: start <= j < dot.value && name[j] != '.' then
      var ext := name[dot.value..];
      assert forall j :: 0 <= j < |ext| ==> ext[j] == name[dot.value + j];
      ext
    else ""
  }

  const ImageExtensions: seq<string> := [".jpeg", ".jpg", ".png"]

  /** An `AttachedFile` row: the stored file name ("" when no file is
      set), the lower-cased extension and the image flag. */
  class AttachedFile {
    var name: string
    var extension: string
    var isImage: bool

    constructor(name: string, extension: string, isImage: bool)
      ensures this.name == name && this.extension == extension && this.isImage == isImage
    {
      this.name := name;
      this.extension := extension;
      this.isImage := isImage;
    }

    /** `save`: with a file, the extension becomes the name's lower-cased
        suffix and the image flag says whether it is one of the three image
        extensions; without a file neither changes. */
    method Save()
      modifies this
      ensures name == old(name)
      ensures old(name) == "" ==> extension == old(extension) && isImage == old(isImage)
      ensures old(name) != "" ==> extension == LowerStr(Suffix(name)) && (isImage <==> extension in ImageExtensions)
    {
      if name != "" {
        extension := LowerStr(Suffix(name));
        isImage := extension in ImageExtensions;
      }
    }
  }

  /** `AttachedFile.objects.create(file=file)` for an upload named
      `filename`: `save` runs while the file still carries the bare upload
      name, so the extension and image flag come from that name; only then
      does the storage give the file its path under `upload_directory_path`
      (the upload date and a fresh UUID are parameters). */
  method CreateUploaded(today: Date, uuid: string, filename: string) returns (f: AttachedFile)
    requires ValidDate(today)
    ensures fresh(f)
    ensures f.name == UploadDirectoryPath(today, uuid, filename)
    ensures f.extension == LowerStr(Suffix(filename))
    ensures f.isImage <==> f.extension in ImageExtensions
  {
    f := new AttachedFile(filename, "", false);
    f.Save();
    f.name := UploadDirectoryPath(today, uuid, filename);
  }

  /** A saved extension is empty or one dot followed by no dot, slash or
      upper-case letter. */
  lemma SavedExtensionShape(name: string)
    ensures var e := LowerStr(Suffix(name));
      e == "" || (e[0] == '.' && '/' !in e && '.' !in e[1..]
        && forall i :: 0 <= i < |e| ==> !IsUpper(e[i]))
  {
    var s := Suffix(name);
    var e := LowerStr(s);
    if s != "" {
      forall i | 0 <= i < |e| ensures e[i] != '/' && (i > 0 ==> e[i] != '.') && !IsUpper(e[i]) {
        assert e[i] == Lower(s[i]);
        assert s[i] != '/' by {
          assert s[i] in s;
        }
        if i > 0 {
          assert s[i] != '.' by {
            assert s[1..][i - 1] == s[i];
          }
        }
      }
      assert '/' !in e;
      assert '.' !in e[1..] by {
        forall j | 0 <= j < |e[1..]| ensures e[1..][j] != '.' {
          assert e[1..][j] == e[j + 1];
        }
      }
    }
  }

  /** The canonical text of a UUID: 32 lower-case hex digits in groups of
      8, 4, 4, 4 and 12 joined by '-'. */
  predicate IsUuid(u: string) {
    |u| == 36
    && forall i :: 0 <= i < 36 ==>
      if i in {8, 13, 18, 23} then u[i] == '-' else ('0' <= u[i] <= '9' || 'a' <= u[i] <= 'f')
  }

  /** "uploads/<year>/<month>/<day>/", month and day padded to two
      digits. */
  function UploadDir(today: Date): (r: string)
    requires ValidDate(today)
    ensures |r| >= 9 && r[|r| - 1] == '/' && '\n' !in r
  {
    var y := NatToString(today.year);
    var mo := Pad2(today.month);
    var d := Pad2(today.day);
    var r := "uploads/" + y + "/" + mo + "/" + d + "/";
    assert '\n' !in y && '\n' !in mo && '\n' !in d by {
      assert forall i :: 0 <= i < |y| ==> IsDigit(y[i]);
      assert forall i :: 0 <= i < |mo| ==> IsDigit(mo[i]);
      assert forall i :: 0 <= i < |d| ==> IsDigit(d[i]);
    }
    assert '\n' !in "uploads/";
    r
  }

  /** `upload_directory_path`: the day's directory, then the UUID, "_._"
      and the file name. The date and the UUID, which the source takes
      from the clock and `uuid4()`, are parameters. */
  function UploadDirectoryPath(today: Date, uuid: string, filename: string): (r: string)
    requires ValidDate(today)
  {
    UploadDir(today) + uuid + "_._" + filename
  }

  /** The slash before the UUID is the last one of a stored path. */
  lemma UploadPathLayout(today: Date, uuid: string, filename: string)
    requires ValidDate(today) && IsUuid(uuid) && '/' !in filename
    ensures var path := UploadDirectoryPath(today, uuid, filename);
      var i0 := |UploadDir(today)| - 1;
      && path == UploadDir(today) + (uuid + "_._" + filename)
      && i0 + 40 <= |path| && path[i0] == '/'
      && path[i0 + 1..] == uuid + "_._" + filename
      && (forall j :: i0 < j < |path| ==> path[j] != '/')
      && LastIndex(path, '/') == Some(i0)
  {
    var dir := UploadDir(today);
    var tail := uuid + "_._" + filename;
    var path := UploadDirectoryPath(today, uuid, filename);
    var i0 := |dir| - 1;
    assert path == dir + tail;
    assert path[i0 + 1..] == tail;
    forall j | i0 < j < |path| ensures path[j] != '/' {
      assert path[j] == tail[j - i0 - 1];
      if j - i0 - 1 < 36 {
        assert tail[j - i0 - 1] == uuid[j - i0 - 1];
      } else if j - i0 - 1 < 39 {
        assert tail[j - i0 - 1] == "_._"[j - i0 - 37];
      } else {
        assert tail[j - i0 - 1] == filename[j - i0 - 40];
      }
    }
  }

  /** Characters in [i, i + n) are none of them whitespace (`\S{n}`). */
  predicate NonSpaceRun(s: string, i: nat, n: nat)
    requires i + n <= |s|
  {
    forall j :: i <= j < i + n ==> !IsSpace(s[j])
  }

  /** The pattern `/\S{8}-\S{4}-\S{4}-\S{4}-\S{12}_\._(.+)` matches with its
      slash at position i, after at least one character. */
  predicate MatchAt(s: string, i: nat) {
    1 <= i && i + 41 <= |s| && s[i] == '/'
    && NonSpaceRun(s, i + 1, 8) && s[i + 9] == '-' && NonSpaceRun(s, i + 10, 4) && s[i + 14] == '-'
    && NonSpaceRun(s, i + 15, 4) && s[i + 19] == '-' && NonSpaceRun(s, i + 20, 4) && s[i + 24] == '-'
    && NonSpaceRun(s, i + 25, 12) && s[i + 37..i + 40] == "_._"
  }

  /** The greedy leading `.+`: the last slash below i where the rest of the
      pattern matches. */
  function LastMatch(s: string, i: nat): (r: Option<nat>)
    requires i <= |s|
    ensures r.Some? ==> r.value < i && MatchAt(s, r.value) && forall j :: r.value < j < i ==> !MatchAt(s, j)
    ensures r.None? ==> forall j :: 0 <= j < i ==> !MatchAt(s, j)
  {
    if i == 0 then None
    else if MatchAt(s, i - 1) then Some(i - 1)
    else LastMatch(s, i - 1)
  }

  /** `clear_file_name`: the text after the UUID part of the stored name;
      None where `re.search` finds nothing and `.group` fails. Stored names
      hold no line break, which keeps `.` and `.+` to the whole name. */
  function ClearFileName(name: string): (r: Option<string>)
    requires '\n' !in name
    ensures r.Some? ==> |r.value| > 0 && exists i :: MatchAt(name, i) && r.value == name[i + 40..]
  {
    var i := LastMatch(name, |name|);
    if i.Some? then Some(name[i.value + 40..]) else None
  }

  /** The file name is read back from the path it was stored under. */
  lemma ClearFileNameOfUploadPath(today: Date, uuid: string, filename: string)
    requires ValidDate(today) && IsUuid(uuid)
    requires |filename| > 0 && '/' !in filename && '\n' !in filename
    ensures var path := UploadDirectoryPath(today, uuid, filename);
      '\n' !in path && ClearFileName(path) == Some(filename)
  {
    var dir := UploadDir(today);
    var path := UploadDirectoryPath(today, uuid, filename);
    UploadPathLayout(today, uuid, filename);
    TailHasNoBreak(uuid, filename);
    assert '\n' !in path;
    ClearAfterUuid(path, |dir| - 1, uuid, filename);
  }

  lemma TailHasNoBreak(uuid: string, filename: string)
    requires IsUuid(uuid) && '\n' !in filename
    ensures '\n' !in uuid + "_._" + filename
  {
    forall j | 0 <= j < 36 ensures uuid[j] != '\n' { }
  }

  /** The name is read back from a path whose last component is a UUID,
      "_._" and the name. */
  lemma ClearAfterUuid(path: string, i0: nat, uuid: string, filename: string)
    requires IsUuid(uuid) && |filename| > 0 && '\n' !in path
    requires 1 <= i0 < |path| && path[i0] == '/' && path[i0 + 1..] == uuid + "_._" + filename
    requires forall j :: i0 < j < |path| ==> path[j] != '/'
    ensures ClearFileName(path) == Some(filename)
  {
    var tail := uuid + "_._" + filename;
    UuidMatches(path, i0, uuid, filename);
    LastMatchIs(path, |path|, i0);
    assert path[i0 + 40..] == tail[39..] == filename;
  }

  /** A slash followed by a UUID, "_._" and a non-empty name matches the
      pattern there. */
  lemma UuidMatches(s: string, i: nat, uuid: string, rest: string)
    requires 1 <= i < |s| && s[i] == '/' && IsUuid(uuid) && |rest| > 0
    requires s[i + 1..] == uuid + "_._" + rest
    ensures MatchAt(s, i)
  {
    var tail := s[i + 1..];
    forall j | 0 <= j < 36 ensures s[i + 1 + j] == uuid[j] && !IsSpace(s[i + 1 + j]) {
      assert s[i + 1 + j] == tail[j];
    }
    assert s[i + 37..i + 40] == tail[36..39] == "_._";
  }

  /** The search below i finds k when k matches and nothing above it does. */
  lemma {:induction false} LastMatchIs(s: string, i: nat, k: nat)
    requires k < i <= |s| && MatchAt(s, k)
    requires forall j :: k < j < i ==> !MatchAt(s, j)
    ensures LastMatch(s, i) == Some(k)
    decreases i
  {
    if i - 1 != k {
      LastMatchIs(s, i - 1, k);
    }
  }

  /** The suffix of an uploaded file's stored path, which is what a later
      `save` of the same row would record as its extension: the file name's
      own suffix when the name has a dot, and otherwise "._" followed by the
      whole name, since the last dot is then the one the path puts after the
      UUID. */
  lemma UploadedSuffix(today: Date, uuid: string, filename: string)
    requires ValidDate(today) && IsUuid(uuid) && '/' !in filename
    ensures var path := UploadDirectoryPath(today, uuid, filename);
      Suffix(path) == if '.' in filename then filename[LastIndex(filename, '.').value..] else "._" + filename
  {
    var path := UploadDirectoryPath(today, uuid, filename);
    UploadPathLayout(today, uuid, filename);
    SuffixAfterUuid(path, |UploadDir(today)| - 1, uuid, filename);
  }

  /** An upload named without a dot is created with an empty extension,
      while its stored path ends in "._" and the name, so the extension
      recorded at creation is not the suffix of the stored path. */
  lemma DotlessUploadExtension(today: Date, uuid: string, filename: string)
    requires ValidDate(today) && IsUuid(uuid) && '/' !in filename && '.' !in filename
    ensures LowerStr(Suffix(filename)) == ""
    ensures Suffix(UploadDirectoryPath(today, uuid, filename)) == "._" + filename
  {
    UploadedSuffix(today, uuid, filename);
    assert LastIndex(filename, '.').None?;
  }

  /** The suffix of a name whose last component is a UUID, "_._" and the
      file name. */
  lemma SuffixAfterUuid(path: string, i0: nat, uuid: string, filename: string)
    requires IsUuid(uuid)
    requires i0 < |path| && path[i0 + 1..] == uuid + "_._" + filename
    requires LastIndex(path, '/') == Some(i0)
    ensures Suffix(path) == if '.' in filename then filename[LastIndex(filename, '.').value..] else "._" + filename
  {
    var tail := uuid + "_._" + filename;
    var dot := LastDotOfTail(uuid, filename);
    var k := i0 + 1 + dot;
    forall j | k < j < |path| ensures path[j] != '.' {
      assert path[j] == tail[j - i0 - 1];
    }
    assert path[k] == tail[dot];
    LastIndexIs(path, '.', k);
    assert path[k..] == tail[dot..];
    assert path[i0 + 1] == uuid[0] && uuid[0] != '.';
    SuffixAt(path, i0, k);
  }

  /** The last c of s is at k when s[k] is c and none follows. */
  lemma {:induction false} LastIndexIs(s: string, c: char, k: nat)
    requires k < |s| && s[k] == c
    requires forall j :: k < j < |s| ==> s[j] != c
    ensures LastIndex(s, c) == Some(k)
    decreases |s|
  {
    if |s| - 1 != k {
      var s' := s[..|s| - 1];
      assert forall j :: k < j < |s'| ==> s'[j] != c;
      LastIndexIs(s', c, k);
    }
  }

  /** The suffix of a name whose last component starts with something
      other than a dot. */
  lemma SuffixAt(name: string, sep: nat, dot: nat)
    requires LastIndex(name, '/') == Some(sep) && LastIndex(name, '.') == Some(dot)
    requires sep + 1 < dot && name[sep + 1] != '.'
    ensures Suffix(name) == name[dot..]
  {
  }

  /** Where the last dot of "<uuid>_._<filename>" lies, and what follows
      it. */
  lemma LastDotOfTail(uuid: string, filename: string) returns (dot: nat)
    requires IsUuid(uuid)
    ensures var tail := uuid + "_._" + filename;
      && 37 <= dot < |tail| && tail[dot] == '.' && (forall j :: dot < j < |tail| ==> tail[j] != '.')
      && tail[dot..] == if '.' in filename then filename[LastIndex(filename, '.').value..] else "._" + filename
  {
    var tail := uuid + "_._" + filename;
    assert forall j :: 39 <= j < |tail| ==> tail[j] == filename[j - 39];
    if '.' in filename {
      var d := LastIndex(filename, '.').value;
      dot := 39 + d;
      assert tail[dot..] == filename[d..];
    } else {
      dot := 37;
      assert tail[37..] == "._" + filename;
    }
  }

  // ------------------------------------------------------------ addresses

  /** An `Address` row; None for a NULL column. */
  datatype Address = Address(
    region: string,
    settlement: string,
    planStructure: Option<string>,
    street: Option<string>,
    house: string,
    block: Option<nat>,
    floor: Option<int>,
    apartment: Option<nat>)

  const Sevastopol: string := "СЕВАСТОПОЛЬ"

  /** The street types the address line writes in lower case. */
  const StreetTypes: seq<string> := ["Улица", "Проспект", "площадь", "Проезд", "Бульвар", "Шоссе", "Переулок", "Тупик"]

  /** The first street type that starts s, if any: the regular expression
      tries its alternatives in this order. */
  function StreetTypeAt(s: string): (r: Option<string>)
    ensures r.Some? ==> r.value in StreetTypes && |r.value| > 0 && StartsWith(s, r.value)
  {
    FirstPrefix(s, StreetTypes)
  }

  function FirstPrefix(s: string, words: seq<string>): (r: Option<string>)
    requires forall w :: w in words ==> |w| > 0
    ensures r.Some? ==> r.value in words && |r.value| > 0 && StartsWith(s, r.value)
    ensures r.None? ==> forall w :: w in words ==> !StartsWith(s, w)
  {
    if |words| == 0 then None
    else if StartsWith(s, words[0]) then Some(words[0])
    else FirstPrefix(s, words[1..])
  }

  /** `re.sub(<street types>, lambda x: x.group(0).lower(), s)`: every
      occurrence, scanned left to right, is written in lower case. */
  function LowerStreetTypes(s: string): (r: string)
    ensures |r| == |s|
    decreases |s|
  {
    if |s| == 0 then ""
    else
      var w := StreetTypeAt(s);
      if w.Some? then LowerStr(w.value) + LowerStreetTypes(s[|w.value|..])
      else [s[0]] + LowerStreetTypes(s[1..])
  }

  /** The substitution only changes letter case. */
  lemma {:induction false} LowerStreetTypesOnlyCase(s: string)
    ensures forall i :: 0 <= i < |s| ==> Lower(LowerStreetTypes(s)[i]) == Lower(s[i])
    decreases |s|
  {
    if |s| > 0 {
      var r := LowerStreetTypes(s);
      var w := StreetTypeAt(s);
      if w.Some? {
        var n := |w.value|;
        var rest := LowerStreetTypes(s[n..]);
        LowerStreetTypesOnlyCase(s[n..]);
        assert r == LowerStr(w.value) + rest;
        forall i | 0 <= i < |s| ensures Lower(r[i]) == Lower(s[i]) {
          if i < n {
            assert s[i] == w.value[i];
            LowerIdempotent(s[i]);
          } else {
            assert r[i] == rest[i - n] && s[i] == s[n..][i - n];
          }
        }
      } else {
        var rest := LowerStreetTypes(s[1..]);
        LowerStreetTypesOnlyCase(s[1..]);
        assert r == [s[0]] + rest;
        forall i | 1 <= i < |s| ensures Lower(r[i]) == Lower(s[i]) {
          assert r[i] == rest[i - 1] && s[i] == s[1..][i - 1];
        }
      }
    }
  }

  /** `str(n)` for any int. */
  function IntToString(n: int): string {
    if n < 0 then "-" + NatToString(-n) else NatToString(n)
  }

  function RegionPart(a: Address): string {
    if a.region != Sevastopol then LowerStr(a.region) + ", " else ""
  }

  function SettlementPart(a: Address): string {
    if a.settlement != Sevastopol then LowerStr(a.settlement) + ", " else ""
  }

  function PlanPart(a: Address): string {
    if a.planStructure.Some? && |a.planStructure.value| > 0 then "СНТ " + Title(a.planStructure.value) + ", " else ""
  }

  function StreetPart(a: Address): string {
    if a.street.Some? && |a.street.value| > 0 then LowerStreetTypes(Title(a.street.value)) + ", " else ""
  }

  function BlockPart(a: Address): string {
    if a.block.Some? && a.block.value != 0 then "/" + NatToString(a.block.value) else ""
  }

  function FloorPart(a: Address): string {
    if a.floor.Some? && a.floor.value != 0 then " " + IntToString(a.floor.value) + " этаж" else ""
  }

  function RoomPart(a: Address): string {
    if a.apartment.Some? && a.apartment.value != 0 then " кв. " + NatToString(a.apartment.value) else ""
  }

  /** The part of the line before the house: region and settlement in
      lower case unless written exactly "СЕВАСТОПОЛЬ", then the garden
      partnership and the street when they are set and non-empty. */
  function Place(a: Address): string {
    RegionPart(a) + SettlementPart(a) + PlanPart(a) + StreetPart(a)
  }

  /** The part after the house: block, floor and room, each only when set
      and non-zero. */
  function Details(a: Address): string {
    BlockPart(a) + FloorPart(a) + RoomPart(a)
  }

  function AddressLine(a: Address): string {
    Place(a) + ("д. " + a.house) + Details(a)
  }

  /** `Address.verbose`. */
  method Verbose(a: Address) returns (s: string)
    ensures s == AddressLine(a)
  {
    s := "";
    if a.region != Sevastopol {
      s := s + (LowerStr(a.region) + ", ");
    }
    assert s == RegionPart(a);
    if a.settlement != Sevastopol {
      s := s + (LowerStr(a.settlement) + ", ");
    }
    assert s == RegionPart(a) + SettlementPart(a);
    if a.planStructure.Some? && |a.planStructure.value| > 0 {
      s := s + ("СНТ " + Title(a.planStructure.value) + ", ");
    }
    assert s == RegionPart(a) + SettlementPart(a) + PlanPart(a);
    if a.street.Some? && |a.street.value| > 0 {
      var street := LowerStreetTypes(Title(a.street.value));
      s := s + (street + ", ");
    }
    assert s == Place(a);
    s := s + ("д. " + a.house);
    ghost var head := s;
    if a.block.Some? && a.block.value != 0 {
      s := s + ("/" + NatToString(a.block.value));
    }
    assert s == head + BlockPart(a);
    if a.floor.Some? && a.floor.value != 0 {
      s := s + (" " + IntToString(a.floor.value) + " этаж");
    }
    assert s == head + BlockPart(a) + FloorPart(a);
    ghost var before := s;
    if a.apartment.Some? && a.apartment.value != 0 {
      s := s + (" кв. " + NatToString(a.apartment.value));
    }
    assert s == before + RoomPart(a);
    AppendAssoc(head, BlockPart(a), FloorPart(a));
    AppendAssoc(head, BlockPart(a) + FloorPart(a), RoomPart(a));
  }

  lemma AppendAssoc(x: string, y: string, z: string)
    ensures x + y + z == x + (y + z)
  {
  }

  lemma StartsWithAppend(x: string, y: string)
    ensures StartsWith(x + y, x)
  {
    assert (x + y)[..|x|] == x;
  }

  /** The line always holds "д. <house>" right after the place part, and
      ends with the room when one is set. */
  lemma AddressLineHouse(a: Address)
    ensures var line := AddressLine(a);
      var i := |Place(a)|;
      i + 3 + |a.house| <= |line| && line[i..i + 3 + |a.house|] == "д. " + a.house
    ensures a.apartment.Some? && a.apartment.value != 0 ==>
      var tail := " кв. " + NatToString(a.apartment.value);
      |tail| <= |AddressLine(a)| && AddressLine(a)[|AddressLine(a)| - |tail|..] == tail
  {
    var line := AddressLine(a);
    var i := |Place(a)|;
    var house := "д. " + a.house;
    var ph := Place(a) + house;
    assert line == ph + Details(a);
    assert line[..|ph|] == ph;
    assert ph[i..] == house;
    assert line[i..i + |house|] == house by {
      assert line[i..i + |house|] == line[..|ph|][i..];
    }
    var bf := BlockPart(a) + FloorPart(a);
    AppendAssoc(ph, bf, RoomPart(a));
    assert line == (ph + bf) + RoomPart(a);
    assert line[|ph + bf|..] == RoomPart(a);
  }

  /** A floor of 0 is written like no floor at all. */
  lemma ZeroFloorOmitted(a: Address)
    ensures AddressLine(a.(floor := Some(0))) == AddressLine(a.(floor := None))
  {
    assert FloorPart(a.(floor := Some(0))) == FloorPart(a.(floor := None));
  }

  /** A region or settlement other than the exact upper-case name is
      written in lower case at the start of the line; the default
      "Севастополь" is such a value. */
  lemma RegionWritten(a: Address)
    ensures a.region != Sevastopol ==> StartsWith(AddressLine(a), LowerStr(a.region) + ", ")
    ensures a.region == Sevastopol && a.settlement != Sevastopol ==>
      StartsWith(AddressLine(a), LowerStr(a.settlement) + ", ")
    ensures a.region == Sevastopol && a.settlement == Sevastopol ==>
      AddressLine(a) == PlanPart(a) + StreetPart(a) + ("д. " + a.house) + Details(a)
  {
    var r, st, p, str, h, d := RegionPart(a), SettlementPart(a), PlanPart(a), StreetPart(a), "д. " + a.house, Details(a);
    var rest := p + str + h + d;
    AppendAssoc(r + st, p, str);
    AppendAssoc(r + st, p + str, h);
    AppendAssoc(r + st, p + str + h, d);
    assert AddressLine(a) == r + st + rest;
    AppendAssoc(r, st, rest);
    if a.region != Sevastopol {
      StartsWithAppend(r, st + rest);
    } else if a.settlement != Sevastopol {
      StartsWithAppend(st, rest);
    }
  }

  /** The field default "Севастополь" differs from the upper-case name the
      line leaves out, so a default region is written. */
  lemma DefaultRegionWritten(a: Address)
    requires a.region == "Севастополь"
    ensures RegionPart(a) == LowerStr("Севастополь") + ", "
  {
    assert "Севастополь"[1] != Sevastopol[1];
  }

  // ------------------------------------------------------ signal receivers

  /** The models whose `post_save` and `post_delete` receivers bump cache
      versions. */
  datatype Sender = TaskSender | ObjectSender | TagSender | GroupSender | EngineerSender | DepartmentSender

  datatype Signal = PostSave | PostDelete

  /** The namespaces a model's receivers raise, in call order; saving and
      deleting raise the same ones. */
  function Namespaces(sender: Sender): (ns: seq<string>)
    ensures 1 <= |ns| <= 2
  {
    match sender
    case TaskSender => ["tasks_page_version_cache"]
    case ObjectSender => ["objects_page_cache_version", "filter_components_cache_version_tasks"]
    case TagSender => ["filter_components_cache_version_objects", "filter_components_cache_version_tasks"]
    case GroupSender => ["filter_components_cache_version_objects"]
    case EngineerSender => ["filter_components_cache_version_tasks"]
    case DepartmentSender => ["filter_components_cache_version_tasks"]
  }

  /** The counters after incrementing each namespace of ns in turn. */
  function BumpAll(m: map<string, int>, ns: seq<string>): map<string, int>
    decreases |ns|
  {
    if |ns| == 0 then m else BumpAll(AfterIncrement(m, ns[0]), ns[1..])
  }

  /** The receivers of one model for one signal. */
  method Receive(sender: Sender, signal: Signal, store: CacheStore.Counters)
    modifies store
    ensures store.values == BumpAll(old(store.values), Namespaces(sender))
  {
    ghost var m0 := store.values;
    var ns := Namespaces(sender);
    var first := new CacheVersion(ns[0]);
    var _ := first.IncrementCacheVersion(store);
    ghost var m1 := store.values;
    assert m1 == AfterIncrement(m0, ns[0]);
    assert BumpAll(m0, ns) == BumpAll(m1, ns[1..]);
    if |ns| == 2 {
      var second := new CacheVersion(ns[1]);
      var _ := second.IncrementCacheVersion(store);
      assert ns[1..][0] == ns[1] && ns[1..][1..] == [];
      assert BumpAll(m1, ns[1..]) == BumpAll(AfterIncrement(m1, ns[1]), []);
    } else {
      assert ns[1..] == [];
    }
  }

  /** Incrementing distinct namespaces raises each of them by exactly one
      and leaves every other counter as it was. */
  lemma {:induction false} BumpAllByOne(m: map<string, int>, ns: seq<string>, k: string)
    requires NoDup(ns)
    ensures ReadVersion(BumpAll(m, ns), k) == ReadVersion(m, k) + (if k in ns then 1 else 0)
    ensures k in ns ==> k in BumpAll(m, ns)
    ensures k !in ns ==> CacheStore.Lookup(BumpAll(m, ns), k) == CacheStore.Lookup(m, k)
    decreases |ns|
  {
    if |ns| > 0 {
      var m1 := AfterIncrement(m, ns[0]);
      assert NoDup(ns[1..]) by {
        forall i, j | 0 <= i < j < |ns[1..]| ensures ns[1..][i] != ns[1..][j] {
          assert ns[1..][i] == ns[i + 1] && ns[1..][j] == ns[j + 1];
        }
      }
      BumpAllByOne(m1, ns[1..], k);
      assert k in ns <==> k == ns[0] || k in ns[1..] by {
        assert ns == [ns[0]] + ns[1..];
      }
      if k == ns[0] {
        assert k !in ns[1..] by {
          forall i | 0 <= i < |ns[1..]| ensures ns[1..][i] != k {
            assert ns[1..][i] == ns[i + 1];
          }
        }
      }
    }
  }

  /** Each save or delete raises every namespace of its model by exactly
      one and no other counter changes. */
  lemma SignalBumpsByOne(sender: Sender, m: map<string, int>, k: string)
    ensures var after := BumpAll(m, Namespaces(sender));
      && ReadVersion(after, k) == ReadVersion(m, k) + (if k in Namespaces(sender) then 1 else 0)
      && (k !in Namespaces(sender) ==> CacheStore.Lookup(after, k) == CacheStore.Lookup(m, k))
  {
    var ns := Namespaces(sender);
    if |ns| == 2 {
      assert ns[0][0] != ns[1][0] || ns[0][18] != ns[1][18] || ns[0][32] != ns[1][32];
    }
    BumpAllByOne(m, ns, k);
  }

  /** A saved or deleted task raises a counter that no read-through of
      the filter components consults. */
  lemma TaskSignalLeavesFieldVersions(m: map<string, int>, page: string)
    ensures ReadVersion(BumpAll(m, Namespaces(TaskSender)), Filters.FieldsVersionKey(page))
      == ReadVersion(m, Filters.FieldsVersionKey(page))
  {
    assert Filters.FieldsVersionKey(page)[0] == 'f';
    SignalBumpsByOne(TaskSender, m, Filters.FieldsVersionKey(page));
  }

  /** After a model's receivers raise a page's filter-component version,
      no user's stored components of that page are read again. */
  lemma SignalHidesFields(sender: Sender, m: map<string, int>, entries: map<CacheStore.Address, Filters.FilterFields>,
                          page: string, user: Domain.User)
    requires Filters.FieldsVersionKey(page) in Namespaces(sender)
    requires Filters.FieldsCoherent(m, entries, page)
    ensures CacheStore.Address(Filters.FieldsKey(page, user),
        ReadVersion(BumpAll(m, Namespaces(sender)), Filters.FieldsVersionKey(page))) !in entries
  {
    var key := Filters.FieldsVersionKey(page);
    SignalBumpsByOne(sender, m, key);
    IncrementExceedsRead(m, key);
    Filters.BumpHidesFields(m, entries, page, user);
  }
}
