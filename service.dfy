/** tasks/services/service.py: the pagination flags around Django's
    `Paginator`, the default due date offered by the task form, Russian to
    Latin transliteration, and detaching the attachments a form no longer
    lists. */
module Service {
  import opened Wrappers
  import opened Text
  import opened Seqs
  import opened Calendar
  import Domain

  // ---------------------------------------------------------------- paging

  /** What the template reads from the `Paginator`. */
  datatype PaginatorInfo = PaginatorInfo(count: nat, perPage: nat, numPages: nat)

  /** `paginator.get_page(n)`: the page's rows and its 1-based number. */
  datatype Page<T> = Page(items: seq<T>, number: nat)

  /** The four flags that decide which links and ellipses the page bar
      shows. */
  datatype PageFlags = PageFlags(
    endShowEllipsis: bool,
    endShowLastPageLink: bool,
    startShowEllipsis: bool,
    startShowFirstPageLink: bool)

  /** The dict `paginate_queryset` returns. */
  datatype Pagination<T> = Pagination(
    paginator: PaginatorInfo,
    page: Page<T>,
    flags: PageFlags,
    lastPageNumber: nat,
    perPage: nat)

  /** `Paginator.num_pages` (no orphans, an empty first page allowed): at
      least one page, and just enough pages for every row. */
  function NumPages(count: nat, perPage: nat): (n: nat)
    requires perPage >= 1
    ensures n >= 1
    ensures count <= n * perPage
    ensures n == 1 || (n - 1) * perPage < count
  {
    var hits := if count == 0 then 1 else count;
    var n := (hits + perPage - 1) / perPage;
    DivBounds(hits + perPage - 1, perPage);
    assert (n - 1) * perPage == n * perPage - perPage;
    n
  }

  /** The quotient times the divisor is at most the dividend and a divisor
      more is above it. */
  lemma DivBounds(a: nat, b: nat)
    requires b >= 1
    ensures (a / b) * b <= a < (a / b) * b + b
  {
    assert a == (a / b) * b + a % b;
  }

  /** `get_page(raw)`: a number outside 1..num_pages gives the last page, and
      a value `int()` cannot read gives the first. */
  function PageNumber(raw: string, numPages: nat): (n: nat)
    requires numPages >= 1
    ensures 1 <= n <= numPages
    ensures PyInt(raw).None? ==> n == 1
    ensures PyInt(raw).Some? && 1 <= PyInt(raw).value <= numPages ==> n == PyInt(raw).value
    ensures PyInt(raw).Some? && !(1 <= PyInt(raw).value <= numPages) ==> n == numPages
  {
    var v := PyInt(raw);
    if v.None? then 1
    else if v.value < 1 || v.value > numPages then numPages
    else v.value
  }

  /** The rows of page `number`. */
  function PageItems<T>(items: seq<T>, perPage: nat, number: nat): (r: seq<T>)
    requires perPage >= 1 && 1 <= number
    ensures |r| <= perPage
    ensures (number - 1) * perPage < |items| ==> |r| > 0
    ensures forall j :: 0 <= j < |r| ==> (number - 1) * perPage + j < |items| && r[j] == items[(number - 1) * perPage + j]
  {
    var bottom := (number - 1) * perPage;
    var top := if bottom + perPage >= |items| then |items| else bottom + perPage;
    if bottom >= |items| then [] else items[bottom..top]
  }

  /** The flags for page `current` of `total`: each ellipsis is shown only
      together with the link beside it. */
  function Flags(current: int, total: int): (f: PageFlags)
    ensures f.endShowEllipsis ==> f.endShowLastPageLink
    ensures f.startShowEllipsis ==> f.startShowFirstPageLink
    ensures f.endShowLastPageLink <==> total - current >= 3
    ensures f.startShowFirstPageLink <==> current >= 4
  {
    PageFlags(current < total - 3, current <= total - 3, current > 4, current >= 4)
  }

  /** `paginate_queryset`. */
  function PaginateQueryset<T>(items: seq<T>, pageNumber: string, perPage: nat): (r: Pagination<T>)
    requires perPage >= 1
    ensures 1 <= r.page.number <= r.lastPageNumber
    ensures r.lastPageNumber == NumPages(|items|, perPage) == r.paginator.numPages
    ensures |items| > 0 ==> |r.page.items| > 0
    ensures r.flags == Flags(r.page.number, r.lastPageNumber)
  {
    var total := NumPages(|items|, perPage);
    var current := PageNumber(pageNumber, total);
    var page := Page(PageItems(items, perPage, current), current);
    if |items| > 0 then
      LastPageStart(|items|, perPage, current);
      Pagination(PaginatorInfo(|items|, perPage, total), page, Flags(current, total), total, perPage)
    else
      Pagination(PaginatorInfo(|items|, perPage, total), page, Flags(current, total), total, perPage)
  }

  /** Every page up to the last one starts inside the rows. */
  lemma LastPageStart(count: nat, perPage: nat, current: nat)
    requires perPage >= 1 && count > 0
    requires 1 <= current <= NumPages(count, perPage)
    ensures (current - 1) * perPage < count
  {
    var total := NumPages(count, perPage);
    if total == 1 {
      assert current - 1 == 0;
    } else {
      MulMono(current - 1, total - 1, perPage);
      assert (total - 1) * perPage < count;
    }
  }

  lemma MulMono(a: nat, b: nat, c: nat)
    requires a <= b
    ensures a * c <= b * c
  {
  }

  /** Row i is shown, at position i % perPage, on page i / perPage + 1. */
  lemma ItemOnItsPage<T>(items: seq<T>, perPage: nat, i: nat)
    requires perPage >= 1 && i < |items|
    ensures var n := i / perPage + 1;
      n <= NumPages(|items|, perPage)
      && i % perPage < |PageItems(items, perPage, n)|
      && PageItems(items, perPage, n)[i % perPage] == items[i]
  {
    var q := i / perPage;
    var j := i % perPage;
    assert q * perPage + j == i;
    QuotientBelow(i, perPage, NumPages(|items|, perPage));
    RowOnPage(items, perPage, q, j);
  }

  lemma QuotientBelow(i: nat, perPage: nat, total: nat)
    requires perPage >= 1 && i < total * perPage
    ensures i / perPage < total
  {
    var q := i / perPage;
    assert q * perPage <= i;
    if total <= q {
      MulMono(total, q, perPage);
    }
  }

  lemma RowOnPage<T>(items: seq<T>, perPage: nat, q: nat, j: nat)
    requires perPage >= 1 && j < perPage && q * perPage + j < |items|
    ensures j < |PageItems(items, perPage, q + 1)|
    ensures PageItems(items, perPage, q + 1)[j] == items[q * perPage + j]
  {
    assert (q + 1 - 1) * perPage == q * perPage;
  }

  // ---------------------------------------------------------- default date

  /** Strictly later in the day than 17:00:00.000000. */
  predicate AfterFivePm(now: DateTime) {
    now.hour > 17 || (now.hour == 17 && (now.minute > 0 || now.second > 0 || now.micro > 0))
  }

  /** `default_date`: tomorrow after 17:00, else today, as "YYYY-MM-DD";
      None where Python's date arithmetic overflows (after 17:00 on the last
      day of year 9999). */
  function DefaultDate(now: DateTime): (r: Option<string>)
    requires ValidDateTime(now)
    ensures r.None? <==> AfterFivePm(now) && now.date == Date(9999, 12, 31)
    ensures r.Some? ==>
      ParseIsoDate(r.value) == (if AfterFivePm(now) then NextDay(now.date) else now.date)
  {
    if !AfterFivePm(now) then
      IsoDateRoundTrip(now.date);
      Some(IsoDate(now.date))
    else if now.date == Date(9999, 12, 31) then None
    else
      IsoDateRoundTrip(NextDay(now.date));
      Some(IsoDate(NextDay(now.date)))
  }

  // ------------------------------------------------------- transliteration

  /** The table of `transliterate`: every Russian letter, lower and upper
      case; the hard and soft signs map to "". */
  function LatinOf(c: char): (r: Option<string>)
    ensures r.Some? <==> IsRussianLetter(c)
    ensures r.Some? ==> forall i :: 0 <= i < |r.value| ==> 'A' <= r.value[i] <= 'z'
  {
    match c
    case 'а' => Some("a")    case 'б' => Some("b")   case 'в' => Some("v")
    case 'г' => Some("g")    case 'д' => Some("d")   case 'е' => Some("e")
    case 'ё' => Some("yo")   case 'ж' => Some("zh")  case 'з' => Some("z")
    case 'и' => Some("i")    case 'й' => Some("y")   case 'к' => Some("k")
    case 'л' => Some("l")    case 'м' => Some("m")   case 'н' => Some("n")
    case 'о' => Some("o")    case 'п' => Some("p")   case 'р' => Some("r")
    case 'с' => Some("s")    case 'т' => Some("t")   case 'у' => Some("u")
    case 'ф' => Some("f")    case 'х' => Some("kh")  case 'ц' => Some("ts")
    case 'ч' => Some("ch")   case 'ш' => Some("sh")  case 'щ' => Some("shch")
    case 'ъ' => Some("")     case 'ы' => Some("y")   case 'ь' => Some("")
    case 'э' => Some("e")    case 'ю' => Some("yu")  case 'я' => Some("ya")
    case 'А' => Some("A")    case 'Б' => Some("B")   case 'В' => Some("V")
    case 'Г' => Some("G")    case 'Д' => Some("D")   case 'Е' => Some("E")
    case 'Ё' => Some("Yo")   case 'Ж' => Some("Zh")  case 'З' => Some("Z")
    case 'И' => Some("I")    case 'Й' => Some("Y")   case 'К' => Some("K")
    case 'Л' => Some("L")    case 'М' => Some("M")   case 'Н' => Some("N")
    case 'О' => Some("O")    case 'П' => Some("P")   case 'Р' => Some("R")
    case 'С' => Some("S")    case 'Т' => Some("T")   case 'У' => Some("U")
    case 'Ф' => Some("F")    case 'Х' => Some("Kh")  case 'Ц' => Some("Ts")
    case 'Ч' => Some("Ch")   case 'Ш' => Some("Sh")  case 'Щ' => Some("Shch")
    case 'Ъ' => Some("")     case 'Ы' => Some("Y")   case 'Ь' => Some("")
    case 'Э' => Some("E")    case 'Ю' => Some("Yu")  case 'Я' => Some("Ya")
    case _ => None
  }

  /** The 33 letters of the Russian alphabet, in both cases. */
  predicate IsRussianLetter(c: char) {
    ('А' <= c <= 'я') || c == 'ё' || c == 'Ё'
  }

  /** `cyrillic_to_latin.get(char, char)`. */
  function TransliterateChar(c: char): (r: string)
    ensures !IsRussianLetter(c) ==> r == [c]
    ensures forall i :: 0 <= i < |r| ==> !IsRussianLetter(r[i])
  {
    LatinOf(c).GetOr([c])
  }

  /** No character of s is one the table maps. */
  predicate NoRussian(s: string) {
    forall i :: 0 <= i < |s| ==> !IsRussianLetter(s[i])
  }

  /** `transliterate`: each character through the table; characters outside
      it are kept. Nothing the table maps survives. */
  function Transliterate(s: string): (r: string)
    ensures NoRussian(s) ==> r == s
    ensures NoRussian(r)
  {
    if |s| == 0 then ""
    else
      var head := TransliterateChar(s[0]);
      var tail := Transliterate(s[1..]);
      NoRussianSplit(s);
      NoRussianJoin(head, tail);
      head + tail
  }

  lemma NoRussianSplit(s: string)
    requires |s| > 0
    ensures NoRussian(s) <==> !IsRussianLetter(s[0]) && NoRussian(s[1..])
    ensures s == [s[0]] + s[1..]
  {
    if NoRussian(s[1..]) && !IsRussianLetter(s[0]) {
      forall i | 0 < i < |s| ensures !IsRussianLetter(s[i]) {
        assert s[i] == s[1..][i - 1];
      }
    }
  }

  lemma NoRussianJoin(a: string, b: string)
    requires NoRussian(a) && NoRussian(b)
    ensures NoRussian(a + b)
  {
    forall i | 0 <= i < |a + b| ensures !IsRussianLetter((a + b)[i]) {
      if i >= |a| {
        assert (a + b)[i] == b[i - |a|];
      }
    }
  }

  /** Transliteration works character by character, so it distributes over
      concatenation. */
  lemma {:induction false} TransliterateAppend(a: string, b: string)
    ensures Transliterate(a + b) == Transliterate(a) + Transliterate(b)
  {
    if |a| == 0 {
      assert a + b == b;
    } else {
      TransliterateAppend(a[1..], b);
      TransliterateCons(a, b);
      AppendAssoc(TransliterateChar(a[0]), Transliterate(a[1..]), Transliterate(b));
    }
  }

  lemma TransliterateCons(a: string, b: string)
    requires |a| > 0
    ensures Transliterate(a + b) == TransliterateChar(a[0]) + Transliterate(a[1..] + b)
  {
    assert (a + b)[1..] == a[1..] + b;
    assert (a + b)[0] == a[0];
  }

  /** Transliterating twice is transliterating once. */
  lemma TransliterateIdempotent(s: string)
    ensures Transliterate(Transliterate(s)) == Transliterate(s)
  {
  }

  // ------------------------------------------------- detaching attachments

  /** A value as `json.loads` returns it. Numbers are kept as integers (their
      value plays no part here); an object keeps its members in text order. */
  datatype Json =
    | JNull
    | JBool(b: bool)
    | JNumber(n: int)
    | JString(s: string)
    | JArray(items: seq<Json>)
    | JObject(members: seq<(string, Json)>)

  /** The value of a member of an object, the last one written when the
      name repeats, as the decoded dict keeps it. */
  function MemberValue(members: seq<(string, Json)>, name: string): (r: Option<Json>)
    ensures r.Some? <==> exists i :: 0 <= i < |members| && members[i].0 == name
    ensures r.Some? ==> exists i :: (0 <= i < |members| && members[i] == (name, r.value)
      && forall j :: i < j < |members| ==> members[j].0 != name)
  {
    if |members| == 0 then None
    else if members[|members| - 1].0 == name then Some(members[|members| - 1].1)
    else
      var r := MemberValue(members[..|members| - 1], name);
      assert forall i :: 0 <= i < |members| - 1 ==> members[..|members| - 1][i] == members[i];
      r
  }

  /** `f["file"]` fails on an entry unless it is an object with a "file"
      member (a list, a string, a number, a boolean or `None` raises
      TypeError, an object without the member KeyError). */
  predicate EntryFails(e: Json) {
    !e.JObject? || MemberValue(e.members, "file").None?
  }

  /** The URL an entry lists: its "file" member when that is a string. A
      member of any other type never equals a file's URL, so it lists
      nothing. */
  function EntryUrls(e: Json): (r: seq<string>)
    ensures |r| <= 1
    ensures forall u :: u in r <==> e.JObject? && MemberValue(e.members, "file") == Some(JString(u))
  {
    if e.JObject? && MemberValue(e.members, "file").Some? && MemberValue(e.members, "file").value.JString?
    then [MemberValue(e.members, "file").value.s]
    else []
  }

  /** The URLs of the entries, in order. */
  function EntriesUrls(items: seq<Json>): (r: seq<string>)
    ensures forall u :: u in r <==> exists i :: 0 <= i < |items| && u in EntryUrls(items[i])
  {
    if |items| == 0 then []
    else
      var r := EntriesUrls(items[..|items| - 1]) + EntryUrls(items[|items| - 1]);
      assert forall i :: 0 <= i < |items| - 1 ==> items[..|items| - 1][i] == items[i];
      r
  }

  /** What the uploader's data comes to once `json.loads` has read it:
      not JSON at all, `null`, the URLs the comprehension
      `[f["file"] for f in ...]` collects, or a value it raises on. */
  datatype UploaderData = NotJson | JsonNull | FileEntries(urls: seq<string>) | OtherJson

  /** The comprehension over the decoded value (`None` when `json.loads`
      raised JSONDecodeError). Iterating an empty string or an empty object
      yields nothing, so they list no file; a non-empty string yields
      characters and a non-empty object yields its names, and indexing a
      string with "file" raises; numbers and booleans are not iterable. */
  function UploaderDataOf(loaded: Option<Json>): (d: UploaderData)
    ensures d.NotJson? <==> loaded.None?
    ensures d.JsonNull? <==> loaded == Some(JNull)
    ensures loaded == Some(JString("")) || loaded == Some(JObject([])) ==> d == FileEntries([])
    ensures loaded.Some? && loaded.value.JArray? ==>
      (d.FileEntries? <==> forall i :: 0 <= i < |loaded.value.items| ==> !EntryFails(loaded.value.items[i]))
    ensures loaded.Some? && loaded.value.JArray? && d.FileEntries? ==> d.urls == EntriesUrls(loaded.value.items)
    ensures loaded.Some? && (loaded.value.JNumber? || loaded.value.JBool?) ==> d == OtherJson
    ensures loaded.Some? && loaded.value.JString? && loaded.value.s != "" ==> d == OtherJson
    ensures loaded.Some? && loaded.value.JObject? && loaded.value.members != [] ==> d == OtherJson
  {
    match loaded
    case None => NotJson
    case Some(v) =>
      match v
      case JNull => JsonNull
      case JBool(_) => OtherJson
      case JNumber(_) => OtherJson
      case JString(s) => if s == "" then FileEntries([]) else OtherJson
      case JObject(ms) => if ms == [] then FileEntries([]) else OtherJson
      case JArray(items) =>
        if forall i :: 0 <= i < |items| ==> !EntryFails(items[i]) then FileEntries(EntriesUrls(items))
        else OtherJson
  }

  /** TypeError or KeyError from reading the entries. */
  datatype DetachError = EntryError

  /** The `files` relation of a task or an object. */
  class FileOwner {
    var files: seq<Domain.AttachedFile>

    constructor(files: seq<Domain.AttachedFile>)
      ensures this.files == files
    {
      this.files := files;
    }
  }

  /** The attached-files table and the files kept in storage (by URL). */
  class FileStore {
    var rows: seq<Domain.AttachedFile>
    var stored: set<string>

    constructor(rows: seq<Domain.AttachedFile>, stored: set<string>)
      ensures this.rows == rows && this.stored == stored
    {
      this.rows := rows;
      this.stored := stored;
    }
  }

  /** The files whose URL is listed, in order. */
  function Listed(fs: seq<Domain.AttachedFile>, urls: seq<string>): (r: seq<Domain.AttachedFile>)
    ensures forall f :: f in r <==> f in fs && f.url in urls
  {
    if |fs| == 0 then []
    else
      var init := fs[..|fs| - 1];
      var last := fs[|fs| - 1];
      assert forall f :: f in fs <==> f in init || f == last by {
        assert fs == init + [last];
      }
      Listed(init, urls) + (if last.url in urls then [last] else [])
  }

  /** The files whose URL is not listed, in order. */
  function Unlisted(fs: seq<Domain.AttachedFile>, urls: seq<string>): (r: seq<Domain.AttachedFile>)
    ensures forall f :: f in r <==> f in fs && f.url !in urls
  {
    if |fs| == 0 then []
    else
      var init := fs[..|fs| - 1];
      var last := fs[|fs| - 1];
      assert forall f :: f in fs <==> f in init || f == last by {
        assert fs == init + [last];
      }
      Unlisted(init, urls) + (if last.url !in urls then [last] else [])
  }

  /** Every file is either kept or detached, never both. */
  lemma {:induction false} ListedUnlistedPartition(fs: seq<Domain.AttachedFile>, urls: seq<string>)
    ensures multiset(Listed(fs, urls)) + multiset(Unlisted(fs, urls)) == multiset(fs)
  {
    if |fs| > 0 {
      ListedUnlistedPartition(fs[..|fs| - 1], urls);
      assert fs == fs[..|fs| - 1] + [fs[|fs| - 1]];
    }
  }

  /** A relation whose files are all listed is left as it is. */
  lemma {:induction false} ListedAll(fs: seq<Domain.AttachedFile>, urls: seq<string>)
    requires forall i :: 0 <= i < |fs| ==> fs[i].url in urls
    ensures Listed(fs, urls) == fs
  {
    if |fs| > 0 {
      var init := fs[..|fs| - 1];
      ListedAll(init, urls);
      assert fs == init + [fs[|fs| - 1]];
    }
  }

  /** Detaching again with the same list detaches nothing more. */
  lemma ListedIdempotent(fs: seq<Domain.AttachedFile>, urls: seq<string>)
    ensures Listed(Listed(fs, urls), urls) == Listed(fs, urls)
  {
    var l := Listed(fs, urls);
    assert forall i :: 0 <= i < |l| ==> l[i] in l;
    ListedAll(l, urls);
  }

  /** Every occurrence of x removed. */
  function Remove<T(==,!new)>(s: seq<T>, x: T): (r: seq<T>)
    ensures forall y :: y in r <==> y in s && y != x
  {
    if |s| == 0 then []
    else (if s[0] == x then [] else [s[0]]) + Remove(s[1..], x)
  }

  lemma {:induction false} RemoveAbsent<T(!new)>(s: seq<T>, x: T)
    requires x !in s
    ensures Remove(s, x) == s
  {
    if |s| > 0 {
      RemoveAbsent(s[1..], x);
      assert s == [s[0]] + s[1..];
    }
  }

  lemma {:induction false} RemoveAppend<T(!new)>(a: seq<T>, b: seq<T>, x: T)
    ensures Remove(a + b, x) == Remove(a, x) + Remove(b, x)
  {
    if |a| == 0 {
      assert a + b == b;
    } else {
      RemoveAppend(a[1..], b, x);
      assert (a + b)[1..] == a[1..] + b;
      assert (a + b)[0] == a[0];
      var h := if a[0] == x then [] else [a[0]];
      assert Remove(a + b, x) == h + Remove(a[1..] + b, x);
      assert Remove(a, x) == h + Remove(a[1..], x);
      AppendAssoc(h, Remove(a[1..], x), Remove(b, x));
    }
  }

  /** The rows whose id is not `id`: `AttachedFile.delete()` on that row. */
  function WithoutId(rows: seq<Domain.AttachedFile>, id: Domain.Id): (r: seq<Domain.AttachedFile>)
    ensures forall f :: f in r <==> f in rows && f.id != id
  {
    if |rows| == 0 then []
    else (if rows[0].id == id then [] else [rows[0]]) + WithoutId(rows[1..], id)
  }

  /** The rows left after deleting the row of every dropped file. */
  function DeleteRows(rows: seq<Domain.AttachedFile>, dropped: seq<Domain.AttachedFile>): (r: seq<Domain.AttachedFile>)
    ensures forall f :: f in r <==> f in rows && forall d :: d in dropped ==> d.id != f.id
  {
    if |dropped| == 0 then rows
    else
      var init := dropped[..|dropped| - 1];
      var last := dropped[|dropped| - 1];
      assert forall d :: d in dropped <==> d in init || d == last by {
        assert dropped == init + [last];
      }
      WithoutId(DeleteRows(rows, init), last.id)
  }

  /** The URLs of the files. */
  function UrlSet(fs: seq<Domain.AttachedFile>): (r: set<string>)
    ensures forall u :: u in r <==> exists f :: f in fs && f.url == u
  {
    set f | f in fs :: f.url
  }

  /** `remove_unused_attached_files`: detaches every file of the owner whose
      URL the uploader no longer lists, and with `delete_orphan_files` also
      deletes it from storage and from the table. `loaded` is what
      `json.loads` made of the uploader's string (`None` for
      JSONDecodeError). Data that is not JSON, or is `null`, detaches
      nothing; a value the comprehension raises on fails before anything
      changes; an empty string or object lists no file, so every file is
      detached. */
  method RemoveUnusedAttachedFiles(loaded: Option<Json>, owner: FileOwner, store: FileStore, deleteOrphanFiles: bool)
    returns (r: Result<(), DetachError>)
    requires NoDup(owner.files)
    modifies owner, store
    ensures r.Err? <==> UploaderDataOf(loaded).OtherJson?
    ensures !UploaderDataOf(loaded).FileEntries? ==>
      owner.files == old(owner.files) && store.rows == old(store.rows) && store.stored == old(store.stored)
    ensures var data := UploaderDataOf(loaded);
      data.FileEntries? ==> owner.files == Listed(old(owner.files), data.urls)
    ensures var data := UploaderDataOf(loaded);
      data.FileEntries? && deleteOrphanFiles ==>
        store.rows == DeleteRows(old(store.rows), Unlisted(old(owner.files), data.urls))
        && store.stored == old(store.stored) - UrlSet(Unlisted(old(owner.files), data.urls))
    ensures UploaderDataOf(loaded).FileEntries? && !deleteOrphanFiles ==>
      store.rows == old(store.rows) && store.stored == old(store.stored)
  {
    var data := UploaderDataOf(loaded);
    if data.OtherJson? {
      return Err(EntryError);
    }
    r := Ok(());
    if !data.FileEntries? {
      return;
    }
    var files, rows, stored := DetachUnlisted(owner.files, data.urls, store.rows, store.stored, deleteOrphanFiles);
    owner.files := files;
    store.rows := rows;
    store.stored := stored;
  }

  /** An empty string or an empty object from the uploader lists no file:
      the clean-up keeps none of the owner's files and, with
      `delete_orphan_files`, deletes all of them. */
  lemma EmptyUploaderDataDetachesAll(v: Json, fs: seq<Domain.AttachedFile>)
    requires v == JString("") || v == JObject([])
    ensures UploaderDataOf(Some(v)) == FileEntries([])
    ensures Listed(fs, []) == [] && Unlisted(fs, []) == fs
  {
    ListedNothing(fs);
  }

  /** Listing no URL keeps no file and leaves every file unlisted. */
  lemma {:induction false} ListedNothing(fs: seq<Domain.AttachedFile>)
    ensures Listed(fs, []) == [] && Unlisted(fs, []) == fs
  {
    if |fs| > 0 {
      ListedNothing(fs[..|fs| - 1]);
      assert fs == fs[..|fs| - 1] + [fs[|fs| - 1]];
    }
  }

  /** A list of entries with a string "file" member each keeps exactly the
      files those strings name. */
  lemma EntriesListTheirFiles(items: seq<Json>, fs: seq<Domain.AttachedFile>)
    requires forall i :: 0 <= i < |items| ==> !EntryFails(items[i])
    ensures UploaderDataOf(Some(JArray(items))).FileEntries?
    ensures forall f :: f in Listed(fs, UploaderDataOf(Some(JArray(items))).urls) <==>
      (f in fs && exists i :: 0 <= i < |items| && MemberValue(items[i].members, "file") == Some(JString(f.url)))
  {
    var urls := UploaderDataOf(Some(JArray(items))).urls;
    assert urls == EntriesUrls(items);
    forall f | f in fs
      ensures f.url in urls <==> exists i :: 0 <= i < |items| && MemberValue(items[i].members, "file") == Some(JString(f.url))
    {
      if f.url in urls {
        var i :| 0 <= i < |items| && f.url in EntryUrls(items[i]);
      }
      if exists i :: 0 <= i < |items| && MemberValue(items[i].members, "file") == Some(JString(f.url)) {
        var i :| 0 <= i < |items| && MemberValue(items[i].members, "file") == Some(JString(f.url));
        assert f.url in EntryUrls(items[i]);
      }
    }
  }

  /** The loop of `remove_unused_attached_files` over the owner's files,
      on the relation, the table and the storage as values. */
  method DetachUnlisted(before: seq<Domain.AttachedFile>, urls: seq<string>, rows0: seq<Domain.AttachedFile>,
                        stored0: set<string>, deleteOrphanFiles: bool)
    returns (files: seq<Domain.AttachedFile>, rows: seq<Domain.AttachedFile>, stored: set<string>)
    requires NoDup(before)
    ensures files == Listed(before, urls)
    ensures rows == if deleteOrphanFiles then DeleteRows(rows0, Unlisted(before, urls)) else rows0
    ensures stored == if deleteOrphanFiles then stored0 - UrlSet(Unlisted(before, urls)) else stored0
  {
    files, rows, stored := before, rows0, stored0;
    for i := 0 to |before|
      invariant files == Listed(before[..i], urls) + before[i..]
      invariant rows == if deleteOrphanFiles then DeleteRows(rows0, Unlisted(before[..i], urls)) else rows0
      invariant stored == if deleteOrphanFiles then stored0 - UrlSet(Unlisted(before[..i], urls)) else stored0
    {
      var f := before[i];
      FilesStep(before, urls, i);
      RowsStep(rows0, before, urls, i);
      if f.url !in urls {
        files := Remove(files, f);
        if deleteOrphanFiles {
          stored := stored - {f.url};
          rows := WithoutId(rows, f.id);
        }
      }
    }
    assert before[..|before|] == before;
  }

  /** One step of the loop on the owner's relation. */
  lemma FilesStep(before: seq<Domain.AttachedFile>, urls: seq<string>, i: nat)
    requires NoDup(before) && i < |before|
    ensures var cur := Listed(before[..i], urls) + before[i..];
      Listed(before[..i + 1], urls) + before[i + 1..]
      == if before[i].url in urls then cur else Remove(cur, before[i])
  {
    assert before[..i + 1][..i] == before[..i];
    assert before[..i + 1][i] == before[i];
    if before[i].url in urls {
      assert before[i..] == [before[i]] + before[i + 1..];
    } else {
      DetachStep(before, urls, i);
    }
  }

  /** One step of the loop on the table and the storage. */
  lemma RowsStep(rows: seq<Domain.AttachedFile>, before: seq<Domain.AttachedFile>, urls: seq<string>, i: nat)
    requires i < |before|
    ensures var u := Unlisted(before[..i], urls);
      var f := before[i];
      DeleteRows(rows, Unlisted(before[..i + 1], urls))
        == (if f.url in urls then DeleteRows(rows, u) else WithoutId(DeleteRows(rows, u), f.id))
      && UrlSet(Unlisted(before[..i + 1], urls))
        == (if f.url in urls then UrlSet(u) else UrlSet(u) + {f.url})
  {
    assert before[..i + 1][..i] == before[..i];
    var u := Unlisted(before[..i], urls);
    var v := Unlisted(before[..i + 1], urls);
    if before[i].url !in urls {
      assert v == u + [before[i]];
      assert v[..|v| - 1] == u;
    } else {
      assert v == u;
    }
  }

  /** Removing the i-th file from the relation in the loop's state leaves
      the next state. */
  lemma DetachStep(before: seq<Domain.AttachedFile>, urls: seq<string>, i: nat)
    requires NoDup(before) && i < |before|
    ensures Remove(Listed(before[..i], urls) + before[i..], before[i]) == Listed(before[..i], urls) + before[i + 1..]
  {
    var f := before[i];
    var kept := Listed(before[..i], urls);
    assert f !in before[..i] by {
      assert forall k :: 0 <= k < i ==> before[k] != before[i];
    }
    assert f !in before[i + 1..] by {
      assert forall k :: i < k < |before| ==> before[k] != before[i];
    }
    RemoveAppend(kept, before[i..], f);
    RemoveAbsent(kept, f);
    RemoveHead(f, before[i + 1..]);
    assert before[i..] == [f] + before[i + 1..];
  }

  lemma RemoveHead<T(!new)>(x: T, s: seq<T>)
    requires x !in s
    ensures Remove([x] + s, x) == s
  {
    assert ([x] + s)[1..] == s;
    RemoveAbsent(s, x);
  }
}
