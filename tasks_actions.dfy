/** tasks/services/tasks_actions.py: the task actions behind the views.

    - `auto_resize_pic` rewrites the style of the first image of a rich
      text so that it takes the full width and loses its height. The HTML
      parser and serialiser are parameters (`HtmlCodec`); the model keeps
      the style rewrite and which image it touches.
    - `create_tags` replaces the tag names a form submitted by tag ids,
      creating the tags it does not know.
    - `add_event_log` appends a signed, dated line to a task's completion
      text, and `take_task`, `delete_task`, `reopen_task` and
      `comment_task` change a task and log it.
    - `print_tasks` orders the tasks to print and builds one row each. */
module TasksActions {
  import opened Wrappers
  import opened Text
  import opened Seqs
  import opened Sorting
  import opened Domain
  import opened QueryParams
  import opened TaskQuery
  import opened Calendar

  // ------------------------------------------------------------ auto_resize_pic

  const FullWidth: string := "width:100%"

  /** A declaration of the style attribute that sets the width. */
  predicate IsWidthDecl(decl: string) {
    StartsWith(Strip(decl), "width")
  }

  /** How many declarations of the style set the width. */
  function WidthCount(style: string): nat {
    |Where(Split(style, ';'), IsWidthDecl)|
  }

  /** `s.lstrip(chars)`. */
  function StripLeft(s: string, chars: set<char>): (r: string)
    ensures |r| <= |s| && r == s[|s| - |r|..]
    ensures |r| > 0 ==> r[0] !in chars
    ensures (|s| == 0 || s[0] !in chars) ==> r == s
    decreases |s|
  {
    if |s| > 0 && s[0] in chars then StripLeft(s[1..], chars) else s
  }

  /** `s.rstrip(chars)`. */
  function StripRight(s: string, chars: set<char>): (r: string)
    ensures |r| <= |s| && r == s[..|r|]
    ensures |r| > 0 ==> r[|r| - 1] !in chars
    ensures (|s| == 0 || s[|s| - 1] !in chars) ==> r == s
    decreases |s|
  {
    if |s| > 0 && s[|s| - 1] in chars then StripRight(s[..|s| - 1], chars) else s
  }

  /** `s.strip(chars)`. */
  function StripChars(s: string, chars: set<char>): (r: string)
    ensures |r| > 0 ==> r[0] !in chars && r[|r| - 1] !in chars
  {
    StripRight(StripLeft(s, chars), chars)
  }

  lemma {:induction false} RepeatSnoc<T(!new)>(x: T, n: nat)
    ensures Repeat(x, n + 1) == Repeat(x, n) + [x]
  {
    var a := Repeat(x, n + 1);
    var b := Repeat(x, n) + [x];
    forall i | 0 <= i < n + 1 ensures a[i] == b[i] {
      assert a[i] in a;
      if i < n { assert b[i] in Repeat(x, n); }
    }
  }

  /** Joined full-width declarations begin with 'w' and end with '%'. */
  lemma {:induction false} JoinedWidthsEnds(n: nat)
    requires n > 0
    ensures var j := Join(Repeat(FullWidth, n), "; ");
      |j| > 0 && j[0] == 'w' && j[|j| - 1] == '%'
  {
    var parts := Repeat(FullWidth, n);
    if n > 1 {
      JoinedWidthsEnds(n - 1);
      assert parts[1..] == Repeat(FullWidth, n - 1);
    }
  }

  /** The loop of lines 34-38: one "width:100%" per width declaration,
      every other declaration dropped. */
  method NewStyles(styles: seq<string>) returns (newStyles: seq<string>)
    ensures newStyles == Repeat(FullWidth, |Where(styles, IsWidthDecl)|)
  {
    newStyles := [];
    for i := 0 to |styles|
      invariant newStyles == Repeat(FullWidth, |Where(styles[..i], IsWidthDecl)|)
    {
      WhereSnocCount(styles, i, IsWidthDecl);
      if IsWidthDecl(styles[i]) {
        RepeatSnoc(FullWidth, |newStyles|);
        newStyles := newStyles + [FullWidth];
      }
    }
    assert styles[..|styles|] == styles;
  }

  lemma WhereSnocCount<T(!new)>(s: seq<T>, i: nat, p: T -> bool)
    requires i < |s|
    ensures |Where(s[..i + 1], p)| == |Where(s[..i], p)| + if p(s[i]) then 1 else 0
  {
    TakeSnoc(s, i);
    WhereSnoc(s[..i], s[i], p);
  }

  /** Stripping "; " off the joined declarations removes nothing. */
  lemma StripJoinedWidths(n: nat)
    ensures StripChars(Join(Repeat(FullWidth, n), "; "), {';', ' '}) == Join(Repeat(FullWidth, n), "; ")
  {
    var j := Join(Repeat(FullWidth, n), "; ");
    var chars := {';', ' '};
    if n == 0 {
      assert j == "";
    } else {
      JoinedWidthsEnds(n);
      assert j[0] !in chars && j[|j| - 1] !in chars;
      assert StripLeft(j, chars) == j;
      assert StripRight(j, chars) == j;
    }
  }

  /** The style rewrite of lines 32-41: the declarations kept, joined by
      "; " and stripped of separators at both ends. */
  method ResizeStyle(style: string) returns (r: string)
    ensures r == Join(Repeat(FullWidth, WidthCount(style)), "; ")
    ensures r == "" <==> WidthCount(style) == 0
  {
    var styles := Split(style, ';');
    var newStyles := NewStyles(styles);
    StripJoinedWidths(|newStyles|);
    r := StripChars(Join(newStyles, "; "), {';', ' '});
    if |newStyles| > 0 {
      JoinedWidthsEnds(|newStyles|);
    }
  }

  /** What the parser yields that the rewrite looks at: the attributes of
      every `<img>` in document order, and the rest of the document. */
  datatype Soup = Soup(images: seq<map<string, string>>, rest: string)

  /** BeautifulSoup's parser and `str(soup)`. */
  datatype HtmlCodec = HtmlCodec(parse: string -> Soup, render: Soup -> string)

  function ResizedStyle(style: string): string {
    Join(Repeat(FullWidth, WidthCount(style)), "; ")
  }

  /** The parsed document after the rewrite: the first image's style, if
      it has one, is rewritten and nothing else changes. */
  function Resized(s: Soup): (r: Soup)
    requires |s.images| > 0
    ensures |r.images| == |s.images| && r.images[1..] == s.images[1..] && r.rest == s.rest
    ensures r.images[0].Keys == s.images[0].Keys
    ensures forall k :: k in s.images[0] && k != "style" ==> r.images[0][k] == s.images[0][k]
    ensures "style" in s.images[0] ==> r.images[0]["style"] == ResizedStyle(s.images[0]["style"])
    ensures "style" !in s.images[0] ==> r == s
  {
    var img := s.images[0];
    if "style" in img then
      Soup([img["style" := ResizedStyle(img["style"])]] + s.images[1..], s.rest)
    else s
  }

  /** What `auto_resize_pic` returns for a text. */
  function ResizedHtml(html: Option<string>, codec: HtmlCodec): string {
    if html.None? || html.value == "" then ""
    else
      var soup := codec.parse(html.value);
      if |soup.images| == 0 then html.value else codec.render(Resized(soup))
  }

  /** `auto_resize_pic`: "" for a missing or empty text, the text itself
      when it has no image, else the document with its first image's
      style rewritten. */
  method AutoResizePic(html: Option<string>, codec: HtmlCodec) returns (r: string)
    ensures r == ResizedHtml(html, codec)
    ensures html.None? || html.value == "" ==> r == ""
    ensures html.Some? && html.value != "" && |codec.parse(html.value).images| == 0 ==> r == html.value
    ensures html.Some? && html.value != "" && |codec.parse(html.value).images| > 0 ==>
      r == codec.render(Resized(codec.parse(html.value)))
  {
    if html.None? || html.value == "" {
      return "";
    }
    var soup := codec.parse(html.value);
    if |soup.images| == 0 {
      return html.value;
    }
    var img := soup.images[0];
    if "style" in img {
      var style := ResizeStyle(img["style"]);
      soup := Soup([img["style" := style]] + soup.images[1..], soup.rest);
    }
    r := codec.render(soup);
  }

  /** Rewriting a rewritten style changes nothing. */
  lemma ResizedStyleStable(style: string)
    ensures ResizedStyle(ResizedStyle(style)) == ResizedStyle(style)
  {
    var n := WidthCount(style);
    WidthsCount(n);
  }

  /** Splitting n joined full-width declarations at ';' gives n width
      declarations. */
  lemma {:induction false} WidthsCount(n: nat)
    ensures WidthCount(Join(Repeat(FullWidth, n), "; ")) == n
  {
    if n == 0 {
      assert Split("", ';') == [""];
      assert Where([""], IsWidthDecl) == [];
    } else {
      var parts := WidthParts(n);
      JoinWidthParts(n);
      SplitWidthParts(n);
      forall i | 0 <= i < |parts| ensures IsWidthDecl(parts[i]) {
        if i > 0 { SpacedWidthDecl(); } else { BareWidthDecl(); }
      }
      WhereAll(parts, IsWidthDecl);
    }
  }

  lemma SplitWidthParts(n: nat)
    requires n > 0
    ensures Split(Join(WidthParts(n), ";"), ';') == WidthParts(n)
  {
    var parts := WidthParts(n);
    forall i | 0 <= i < |parts| ensures ';' !in parts[i] {
      assert parts[i] == FullWidth || parts[i] == " " + FullWidth;
    }
    SplitJoin(parts, ';');
  }

  lemma BareWidthDecl()
    ensures IsWidthDecl(FullWidth)
  {
    var s := FullWidth;
    assert |s| == 10 && s[0] == 'w' && s[9] == '%';
    assert !IsSpace(s[0]) && !IsSpace(s[9]);
    assert Strip(s) == s;
    assert s[..5] == "width";
  }

  lemma SpacedWidthDecl()
    ensures IsWidthDecl(" " + FullWidth)
  {
    var s := " " + FullWidth;
    assert IsSpace(s[0]) && !IsSpace(FullWidth[0]) && !IsSpace(FullWidth[|FullWidth| - 1]);
    assert s[1..] == FullWidth;
    assert LeadingSpace(FullWidth) == 0;
    assert LeadingSpace(s) == 1;
    assert TrailingSpace(FullWidth) == 0;
    assert Strip(s) == FullWidth[..|FullWidth|];
    BareWidthDecl();
  }

  /** The declarations of the joined style as ';' splits them: the first
      bare, every other after the space of the separator. */
  function WidthParts(n: nat): (r: seq<string>)
    requires n > 0
    ensures |r| == n && r[0] == FullWidth
    ensures forall i :: 0 < i < n ==> r[i] == " " + FullWidth
  {
    [FullWidth] + seq(n - 1, _ => " " + FullWidth)
  }

  lemma {:induction false} JoinWidthParts(n: nat)
    requires n > 0
    ensures Join(WidthParts(n), ";") == Join(Repeat(FullWidth, n), "; ")
  {
    if n > 1 {
      JoinWidthParts(n - 1);
      var p := WidthParts(n);
      var q := WidthParts(n - 1);
      assert Repeat(FullWidth, n)[1..] == Repeat(FullWidth, n - 1);
      assert p[1..] == [" " + FullWidth] + q[1..];
      JoinSpaced(q);
    }
  }

  /** Moving the space of "; " into the next part. */
  lemma JoinSpaced(q: seq<string>)
    requires |q| > 0 && q[0] == FullWidth
    ensures Join([" " + FullWidth] + q[1..], ";") == " " + Join(q, ";")
  {
    if |q| > 1 {
      assert ([" " + FullWidth] + q[1..])[1..] == q[1..];
    }
  }

  // ------------------------------------------------------------ create_tags

  datatype TagError = IntegrityError

  /** `post.setlist(key, values)`: the key's values replaced, every other
      key's kept. */
  function SetList(q: Query, key: string, values: seq<string>): (r: Query)
    ensures GetList(r, key) == values
    ensures forall k :: k != key ==> GetList(r, k) == GetList(q, k)
  {
    var others := Where(q, (p: Pair) => p.0 != key);
    var added := Pairs(key, values);
    assert forall k :: GetList(others + added, k) == if k == key then values else GetList(q, k) by {
      forall k ensures GetList(others + added, k) == if k == key then values else GetList(q, k) {
        OthersGetList(q, key, k);
        AddedGetList(key, values, k);
        GetListAppend(others, added, k);
      }
    }
    others + added
  }

  /** The pairs `setlist` stores: the key with each value, in order. */
  function Pairs(key: string, values: seq<string>): (r: Query)
    ensures |r| == |values|
  {
    if |values| == 0 then [] else Pairs(key, values[..|values| - 1]) + [(key, values[|values| - 1])]
  }




  lemma {:induction false} AddedGetList(key: string, values: seq<string>, k: string)
    ensures GetList(Pairs(key, values), k) == if k == key then values else []
    decreases |values|
  {
    if |values| > 0 {
      var init := values[..|values| - 1];
      var last := values[|values| - 1];
      AddedGetList(key, init, k);
      GetListSnoc(Pairs(key, init), (key, last), k);
      LastSplit(values);
    }
  }

  /** The lower-cased names of the tags, fixed before the loop. */
  function LowerNames(tags: seq<Tag>): set<string> {
    set t | t in tags :: LowerStr(t.name)
  }

  /** A name unknown to the table, ignoring case. */
  predicate IsNewName(lower: set<string>, name: string) {
    LowerStr(name) !in lower
  }

  function NewNameTest(lower: set<string>): string -> bool {
    (n: string) => IsNewName(lower, n)
  }

  /** `Tag.objects.get(tag_name=name)`: the tag with exactly that name. */
  function TagNamed(tags: seq<Tag>, name: string): (r: Option<Tag>)
    ensures r.Some? ==> r.value in tags && r.value.name == name
    ensures r.None? ==> forall t :: t in tags ==> t.name != name
  {
    if |tags| == 0 then None
    else if tags[0].name == name then Some(tags[0])
    else
      assert forall t :: t in tags ==> t == tags[0] || t in tags[1..];
      TagNamed(tags[1..], name)
  }

  lemma {:induction false} TagNamedAppend(tags: seq<Tag>, t: Tag, name: string)
    ensures TagNamed(tags + [t], name) ==
      if TagNamed(tags, name).Some? then TagNamed(tags, name)
      else if t.name == name then Some(t) else None
  {
    if |tags| > 0 {
      assert (tags + [t])[1..] == tags[1..] + [t];
      TagNamedAppend(tags[1..], t, name);
    }
  }

  /** Where the loop stands: the ids collected, the tag table and the next
      primary key. */
  datatype TagsState = TagsState(ids: seq<string>, tags: seq<Tag>, nextId: nat)

  /** One name of lines 65-80: a name new to the table ignoring case is
      created (failing if this call created it already), a known name
      spelt exactly as stored gives its id, and a known name in another
      case finds no tag and is dropped. */
  function CreateStep(lower: set<string>, s: TagsState, name: string): Result<TagsState, TagError> {
    if IsNewName(lower, name) then
      if TagNamed(s.tags, name).Some? then Err(IntegrityError)
      else Ok(TagsState(s.ids + [NatToString(s.nextId)], s.tags + [Tag(s.nextId, name)], s.nextId + 1))
    else
      var found := TagNamed(s.tags, name);
      Ok(if found.Some? then s.(ids := s.ids + [NatToString(found.value.id)]) else s)
  }

  function CreateRun(lower: set<string>, start: TagsState, names: seq<string>): Result<TagsState, TagError>
    decreases |names|
  {
    if |names| == 0 then Ok(start)
    else
      var p := CreateRun(lower, start, names[..|names| - 1]);
      if p.Err? then p else CreateStep(lower, p.value, names[|names| - 1])
  }

  /** The tags created for the names ns, with consecutive keys from next. */
  function NewTags(next: nat, ns: seq<string>): (r: seq<Tag>)
    ensures |r| == |ns|
    ensures forall i :: 0 <= i < |ns| ==> r[i] == Tag(next + i, ns[i])
  {
    seq(|ns|, i requires 0 <= i < |ns| => Tag(next + i, ns[i]))
  }

  /** Creating the next tag extends the created tags by one. */
  lemma FreshTagsStep(tags0: seq<Tag>, next0: nat, created: seq<string>, n: string, tags: seq<Tag>, next: nat)
    requires tags == tags0 + NewTags(next0, created) && next == next0 + |created|
    ensures tags + [Tag(next, n)] == tags0 + NewTags(next0, created + [n])
  {
    var nt := NewTags(next0, created);
    NewTagsSnoc(next0, created, n);
    assert tags0 + (nt + [Tag(next, n)]) == (tags0 + nt) + [Tag(next, n)];
  }

  lemma NewTagsSnoc(next: nat, ns: seq<string>, n: string)
    ensures NewTags(next, ns + [n]) == NewTags(next, ns) + [Tag(next + |ns|, n)]
  {
    var a := NewTags(next, ns + [n]);
    var b := NewTags(next, ns) + [Tag(next + |ns|, n)];
    assert |a| == |b|;
    forall i | 0 <= i < |a| ensures a[i] == b[i] {
      if i < |ns| {
        assert (ns + [n])[i] == ns[i];
      }
    }
  }

  /** Each name replaced by the id of the tag with exactly that name, in
      order; names no tag has are dropped. */
  function Resolved(tags: seq<Tag>, names: seq<string>): seq<string>
    decreases |names|
  {
    if |names| == 0 then []
    else
      var n := names[|names| - 1];
      var t := TagNamed(tags, n);
      Resolved(tags, names[..|names| - 1]) + (if t.Some? then [NatToString(t.value.id)] else [])
  }

  lemma {:induction false} ResolvedAppend(tags: seq<Tag>, names: seq<string>, t: Tag)
    requires forall m :: m in names ==> m != t.name || TagNamed(tags, m).Some?
    ensures Resolved(tags + [t], names) == Resolved(tags, names)
    decreases |names|
  {
    if |names| > 0 {
      var init := names[..|names| - 1];
      assert forall m :: m in init ==> m in names;
      ResolvedAppend(tags, init, t);
      TagNamedAppend(tags, t, names[|names| - 1]);
    }
  }

  /** What `create_tags` leaves behind when it succeeds: the table grown
      by the new names in order, with consecutive keys; every new name
      present under its exact spelling; and the ids, which are the names
      looked up in the final table. */
  predicate RunOutcome(lower: set<string>, tags0: seq<Tag>, next0: nat, names: seq<string>, s: TagsState) {
    var created := Where(names, NewNameTest(lower));
    s.tags == tags0 + NewTags(next0, created)
    && s.nextId == next0 + |created|
    && (forall m :: m in names && IsNewName(lower, m) ==> TagNamed(s.tags, m).Some?)
    && s.ids == Resolved(s.tags, names)
  }

  /** A name new to the table comes twice. */
  predicate RepeatsNewName(lower: set<string>, names: seq<string>) {
    exists i, j :: 0 <= i < j < |names| && names[i] == names[j] && IsNewName(lower, names[i])
  }

  /** `create_tags` fails exactly when a name new to the table comes twice,
      and otherwise ends as `RunOutcome` says. */
  lemma {:induction false} CreateRunMeaning(tags0: seq<Tag>, next0: nat, names: seq<string>)
    ensures var lower := LowerNames(tags0);
      var r := CreateRun(lower, TagsState([], tags0, next0), names);
      (r.Err? <==> RepeatsNewName(lower, names))
      && (r.Ok? ==> RunOutcome(lower, tags0, next0, names, r.value))
    decreases |names|
  {
    var lower := LowerNames(tags0);
    var start := TagsState([], tags0, next0);
    if |names| == 0 {
      assert Where(names, NewNameTest(lower)) == [];
    } else {
      var init := names[..|names| - 1];
      var n := names[|names| - 1];
      assert names == init + [n];
      CreateRunMeaning(tags0, next0, init);
      var p := CreateRun(lower, start, init);
      if p.Err? {
        var i, j :| 0 <= i < j < |init| && init[i] == init[j] && IsNewName(lower, init[i]);
        assert names[i] == names[j];
      } else {
        assert CreateRun(lower, start, names) == CreateStep(lower, p.value, n);
        if IsNewName(lower, n) {
          CreateNew(tags0, next0, init, n, p.value);
        } else {
          CreateKnown(tags0, next0, init, n, p.value);
        }
      }
    }
  }

  lemma CreateNew(tags0: seq<Tag>, next0: nat, init: seq<string>, n: string, p: TagsState)
    requires RunOutcome(LowerNames(tags0), tags0, next0, init, p)
    requires !RepeatsNewName(LowerNames(tags0), init)
    requires IsNewName(LowerNames(tags0), n)
    ensures var lower := LowerNames(tags0);
      var r := CreateStep(lower, p, n);
      (r.Err? <==> RepeatsNewName(lower, init + [n]))
      && (r.Ok? ==> RunOutcome(lower, tags0, next0, init + [n], r.value))
  {
    var lower := LowerNames(tags0);
    var names := init + [n];
    NewTagNamed(tags0, next0, Where(init, NewNameTest(lower)), p.tags, n);
    assert TagNamed(p.tags, n).Some? <==> n in init;
    if n in init {
      var i :| 0 <= i < |init| && init[i] == n;
      assert names[i] == names[|init|];
    } else {
      CreateFresh(tags0, next0, init, n, p);
    }
  }

  lemma CreateFresh(tags0: seq<Tag>, next0: nat, init: seq<string>, n: string, p: TagsState)
    requires RunOutcome(LowerNames(tags0), tags0, next0, init, p)
    requires !RepeatsNewName(LowerNames(tags0), init)
    requires IsNewName(LowerNames(tags0), n) && n !in init
    requires TagNamed(p.tags, n).None?
    ensures var lower := LowerNames(tags0);
      var r := CreateStep(lower, p, n);
      r.Ok? && !RepeatsNewName(lower, init + [n])
      && RunOutcome(lower, tags0, next0, init + [n], r.value)
  {
    var lower := LowerNames(tags0);
    var names := init + [n];
    var test := NewNameTest(lower);
    var created := Where(init, test);
    NoRepeatAppend(lower, init, n);
    var t := Tag(p.nextId, n);
    var r := TagsState(p.ids + [NatToString(p.nextId)], p.tags + [t], p.nextId + 1);
    assert CreateStep(lower, p, n) == Ok(r);
    WhereAppend(init, [n], test);
    assert Where([n], test) == [n];
    assert Where(names, test) == created + [n];
    FreshTagsStep(tags0, next0, created, n, p.tags, p.nextId);
    assert r.ids == Resolved(r.tags, names) by {
      ResolvedAppend(p.tags, init, t);
      TagNamedAppend(p.tags, t, n);
      assert names[..|names| - 1] == init;
    }
    forall m | m in names && IsNewName(lower, m) ensures TagNamed(r.tags, m).Some? {
      TagNamedAppend(p.tags, t, m);
    }
  }

  lemma NoRepeatAppend(lower: set<string>, init: seq<string>, n: string)
    requires !RepeatsNewName(lower, init)
    requires IsNewName(lower, n) ==> n !in init
    ensures !RepeatsNewName(lower, init + [n])
  {
    var names := init + [n];
    forall i, j | 0 <= i < j < |names| && IsNewName(lower, names[i]) ensures names[i] != names[j] {
      assert names[i] == init[i];
      if j < |init| {
        assert names[j] == init[j];
      }
    }
  }

  /** A new name is stored exactly when it was among the names before. */
  lemma NewTagNamed(tags0: seq<Tag>, next0: nat, created: seq<string>, tags: seq<Tag>, n: string)
    requires tags == tags0 + NewTags(next0, created)
    requires IsNewName(LowerNames(tags0), n)
    ensures TagNamed(tags, n).Some? <==> n in created
  {
    forall t | t in tags0 ensures t.name != n {
      assert LowerStr(t.name) in LowerNames(tags0);
    }
    if TagNamed(tags, n).Some? {
      var t := TagNamed(tags, n).value;
      var k :| 0 <= k < |created| && t == NewTags(next0, created)[k];
    }
    if n in created {
      var k :| 0 <= k < |created| && created[k] == n;
      assert tags[|tags0| + k] == Tag(next0 + k, n);
    }
  }

  lemma CreateKnown(tags0: seq<Tag>, next0: nat, init: seq<string>, n: string, p: TagsState)
    requires RunOutcome(LowerNames(tags0), tags0, next0, init, p)
    requires !RepeatsNewName(LowerNames(tags0), init)
    requires !IsNewName(LowerNames(tags0), n)
    ensures var lower := LowerNames(tags0);
      var r := CreateStep(lower, p, n);
      r.Ok? && !RepeatsNewName(lower, init + [n])
      && RunOutcome(lower, tags0, next0, init + [n], r.value)
  {
    var lower := LowerNames(tags0);
    var names := init + [n];
    var test := NewNameTest(lower);
    NoRepeatAppend(lower, init, n);
    assert names[..|names| - 1] == init;
    WhereAppend(init, [n], test);
    assert Where([n], test) == [];
  }

  /** Once a name fails, the whole run fails. */
  lemma {:induction false} CreateRunFailureSticks(lower: set<string>, start: TagsState, names: seq<string>, i: nat)
    requires i <= |names| && CreateRun(lower, start, names[..i]).Err?
    ensures CreateRun(lower, start, names) == Err(IntegrityError)
    decreases |names|
  {
    if i < |names| {
      var init := names[..|names| - 1];
      assert init[..i] == names[..i];
      CreateRunFailureSticks(lower, start, init, i);
    } else {
      assert names[..i] == names;
      match CreateRun(lower, start, names).error
      case IntegrityError =>
    }
  }

  /** The tag table: `Tag.objects`, with the next primary key the database
      will hand out. */
  class TagTable {
    var tags: seq<Tag>
    var nextId: nat

    constructor(tags: seq<Tag>, nextId: nat)
      ensures this.tags == tags && this.nextId == nextId
    {
      this.tags := tags;
      this.nextId := nextId;
    }

    /** `Tag.objects.create(tag_name=name)`; the unique constraint on the
        name (case-sensitive) fails for a name already stored. */
    method Create(name: string) returns (r: Result<Id, TagError>)
      modifies this
      ensures TagNamed(old(tags), name).Some? ==>
        r == Err(IntegrityError) && tags == old(tags) && nextId == old(nextId)
      ensures TagNamed(old(tags), name).None? ==>
        r == Ok(old(nextId)) && tags == old(tags) + [Tag(old(nextId), name)] && nextId == old(nextId) + 1
    {
      if TagNamed(tags, name).Some? {
        return Err(IntegrityError);
      }
      r := Ok(nextId);
      tags := tags + [Tag(nextId, name)];
      nextId := nextId + 1;
    }

    /** `create_tags(post, key)`, atomic: when a creation fails the table
        is left as it was and the failure propagates. */
    method CreateTags(post: Query, key: string) returns (r: Result<Query, TagError>)
      modifies this
      ensures var run := CreateRun(LowerNames(old(tags)), TagsState([], old(tags), old(nextId)), GetList(post, key));
        (run.Ok? ==> r == Ok(SetList(post, key, run.value.ids)) && tags == run.value.tags && nextId == run.value.nextId)
        && (run.Err? ==> r == Err(IntegrityError) && tags == old(tags) && nextId == old(nextId))
    {
      var names := GetList(post, key);
      var lower := LowerNames(tags);
      var savedTags, savedNext := tags, nextId;
      var start := TagsState([], tags, nextId);
      var ids: seq<string> := [];
      for i := 0 to |names|
        invariant CreateRun(lower, start, names[..i]) == Ok(TagsState(ids, tags, nextId))
      {
        var name := names[i];
        assert names[..i + 1][..i] == names[..i];
        assert CreateRun(lower, start, names[..i + 1]) == CreateStep(lower, TagsState(ids, tags, nextId), name);
        if LowerStr(name) !in lower {
          var created := Create(name);
          if created.Err? {
            CreateRunFailureSticks(lower, start, names, i + 1);
            tags, nextId := savedTags, savedNext;
            return Err(created.error);
          }
          ids := ids + [NatToString(created.value)];
        } else {
          var found := TagNamed(tags, name);
          if found.Some? {
            ids := ids + [NatToString(found.value.id)];
          }
        }
      }
      assert names[..|names|] == names;
      r := Ok(SetList(post, key, ids));
    }
  }

  // ---------------------------------------------------------------------
  // The event log kept in a task's completion text (`add_event_log`).

  const CreatedText := "\U{2795} Задача создана"
  const EditedText := "\U{270F}\U{FE0F} Задача отредактирована"
  const TakenText := "\U{1F64B}\U{200D}\U{2642}\U{FE0F}Пользователь взял задачу"
  const DeletedText := "\U{1F5D1}\U{FE0F} Задача удалена"
  const ReopenedText := "\U{21A9}\U{FE0F} Задача переоткрыта"
  const ClosedText := "\U{2705} Задача закрыта"
  const AnsweredText := "\U{2934}\U{FE0F} Ответ на задачу"

  /** The name an event is signed with: the user's engineer as "first
      second", else the user name. */
  function UserName(db: Db, u: User): (r: string)
    ensures EngineerOfUser(db, u.id).None? ==> r == u.username
    ensures EngineerOfUser(db, u.id).Some? ==>
      var e := EngineerOfUser(db, u.id).value;
      e in db.engineers && e.user == Some(u.id) && r == e.firstName + " " + e.secondName
  {
    match EngineerOfUser(db, u.id)
    case Some(e) => e.firstName + " " + e.secondName
    case None => u.username
  }

  /** `strftime("%d.%m.%Y")` and Django's `format(d, "d.m.Y")`; the year is
      written as `str(year)`, four digits from the year 1000 on. */
  function DottedDate(d: Date): string {
    Pad2(if d.day < 0 then 0 else d.day) + "." + Pad2(if d.month < 0 then 0 else d.month)
    + "." + NatToString(if d.year < 0 then 0 else d.year)
  }

  /** `strftime("%d.%m.%Y %H:%M")`. */
  function Stamp(now: DateTime): (r: string)
    ensures '\n' !in r
  {
    var d := now.date;
    var dd, mm := Pad2(if d.day < 0 then 0 else d.day), Pad2(if d.month < 0 then 0 else d.month);
    var yy := NatToString(if d.year < 0 then 0 else d.year);
    var hh, mi := Pad2(if now.hour < 0 then 0 else now.hour), Pad2(if now.minute < 0 then 0 else now.minute);
    DigitsHaveNoBreak(dd);
    DigitsHaveNoBreak(mm);
    DigitsHaveNoBreak(yy);
    DigitsHaveNoBreak(hh);
    DigitsHaveNoBreak(mi);
    assert DottedDate(d) == dd + "." + mm + "." + yy;
    DottedDate(d) + " " + hh + ":" + mi
  }

  lemma DigitsHaveNoBreak(s: string)
    requires IsDigits(s)
    ensures '\n' !in s
  {
    forall i | 0 <= i < |s| ensures s[i] != '\n' {
      assert IsDigit(s[i]);
    }
  }

  /** Reads "dd.mm.YYYY HH:MM" back into day, month, year, hour and minute. */
  function ParseStamp(s: string): Option<(nat, nat, nat, nat, nat)> {
    if |s| == 16 && s[2] == '.' && s[5] == '.' && s[10] == ' ' && s[13] == ':'
      && IsDigits(s[0..2]) && IsDigits(s[3..5]) && IsDigits(s[6..10])
      && IsDigits(s[11..13]) && IsDigits(s[14..16])
    then Some((DigitsValue(s[0..2]), DigitsValue(s[3..5]), DigitsValue(s[6..10]),
               DigitsValue(s[11..13]), DigitsValue(s[14..16])))
    else None
  }

  /** A stamp of a valid date-time with a four-digit year is sixteen
      characters long and reads back as the date-time to the minute. */
  lemma StampRoundTrip(now: DateTime)
    requires ValidDateTime(now) && now.date.year >= 1000
    ensures |Stamp(now)| == 16
    ensures ParseStamp(Stamp(now)) == Some((now.date.day, now.date.month, now.date.year, now.hour, now.minute))
  {
    var dd, mm, yy := Pad2(now.date.day), Pad2(now.date.month), NatToString(now.date.year);
    var hh, mi := Pad2(now.hour), Pad2(now.minute);
    FourDigits(now.date.year);
    var s := Stamp(now);
    assert s == dd + "." + mm + "." + yy + " " + hh + ":" + mi;
    assert |s| == 16 && s[2] == '.' && s[5] == '.' && s[10] == ' ' && s[13] == ':';
    assert s[0..2] == dd && s[3..5] == mm && s[6..10] == yy && s[11..13] == hh && s[14..16] == mi;
    ParseStampOfSlices(s, dd, mm, yy, hh, mi);
    Pad2Value(now.date.day);
    Pad2Value(now.date.month);
    Pad2Value(now.hour);
    Pad2Value(now.minute);
    DigitsValueOfNatToString(now.date.year);
  }

  /** A sixteen-character string with the separators of a stamp reads as
      the values of its five digit fields. */
  lemma ParseStampOfSlices(s: string, dd: string, mm: string, yy: string, hh: string, mi: string)
    requires |s| == 16 && s[2] == '.' && s[5] == '.' && s[10] == ' ' && s[13] == ':'
    requires s[0..2] == dd && s[3..5] == mm && s[6..10] == yy && s[11..13] == hh && s[14..16] == mi
    requires IsDigits(dd) && IsDigits(mm) && IsDigits(yy) && IsDigits(hh) && IsDigits(mi)
    ensures ParseStamp(s) == Some((DigitsValue(dd), DigitsValue(mm), DigitsValue(yy), DigitsValue(hh), DigitsValue(mi)))
  {
  }

  /** `f"{text} [{name} / {stamp}]\n"`: one line that starts with the
      event's text and ends the entry. */
  function LogLine(text: string, name: string, stamp: string): (r: string)
    ensures |r| == |text| + |name| + |stamp| + 7
    ensures r[..|text|] == text && r[|r| - 2..] == "]\n"
    ensures '\n' !in text && '\n' !in name && '\n' !in stamp ==> '\n' !in r[..|r| - 1]
  {
    var r := text + " [" + name + " / " + stamp + "]\n";
    assert r[..|r| - 1] == text + " [" + name + " / " + stamp + "]";
    r
  }

  /** The task after `add_event_log`: only its completion text changes, and
      that only grows, by the signed line of the event. */
  function Logged(db: Db, u: User, t: Task, text: string, now: DateTime): (r: Task)
    ensures r == t.(completionText := r.completionText)
    ensures |r.completionText| > |t.completionText|
    ensures r.completionText[..|t.completionText|] == t.completionText
    ensures r.completionText[|t.completionText|..] == LogLine(text, UserName(db, u), Stamp(now))
  {
    t.(completionText := t.completionText + LogLine(text, UserName(db, u), Stamp(now)))
  }

  /** An event whose text and signing name hold no line break adds exactly
      one line to the log: the old log stays in front, the new line ends
      with the only line break it adds. */
  lemma EventAddsOneLine(db: Db, u: User, t: Task, text: string, now: DateTime)
    requires '\n' !in text && '\n' !in UserName(db, u)
    ensures var log := Logged(db, u, t, text, now).completionText;
      var n := |t.completionText|;
      |log| > n && log[..n] == t.completionText && log[|log| - 1] == '\n'
      && '\n' !in log[n..|log| - 1]
  {
    var line := LogLine(text, UserName(db, u), Stamp(now));
    var log := Logged(db, u, t, text, now).completionText;
    var n := |t.completionText|;
    assert log[n..] == line;
    assert log[n..|log| - 1] == line[..|line| - 1];
  }

  // ---------------------------------------------------------------------
  // The task actions: `take_task`, `delete_task`, `reopen_task` and
  // `comment_task`.

  /** `Comment(task=..., author=..., text=...)`. */
  datatype Comment = Comment(task: Id, author: Id, text: string)

  /** What a view reads of its request: the signed-in user, whether the
      method is POST, and the POST data. */
  datatype Request = Request(user: User, isPost: bool, post: Query)

  /** A redirect, or the 404 of `get_object_or_404`. */
  datatype Outcome = Redirect(to: string) | NotFound

  /** The page to go back to: the posted `from_url` (stripped), else the
      task list; a request other than POST always goes to the task list. */
  function RedirectTarget(req: Request, home: string): (r: string)
    ensures !req.isPost ==> r == home
    ensures req.isPost && Get(req.post, "from_url").Some? ==> r == Strip(Get(req.post, "from_url").value)
    ensures req.isPost && Get(req.post, "from_url").None? ==> r == Strip(home)
  {
    if req.isPost then Strip(GetOr(req.post, "from_url", home)) else home
  }

  /** `get_object_or_404(Task, pk=id)`: the position of the row with that
      primary key. */
  function TaskIndex(tasks: seq<Task>, id: Id): (r: Option<nat>)
    ensures r.Some? ==> r.value < |tasks| && tasks[r.value].id == id
    ensures r.None? ==> forall t :: t in tasks ==> t.id != id
  {
    if |tasks| == 0 then None
    else
      var init := tasks[..|tasks| - 1];
      assert forall t :: t in tasks <==> t in init || t == tasks[|tasks| - 1] by {
        assert tasks == init + [tasks[|tasks| - 1]];
      }
      match TaskIndex(init, id)
      case Some(i) => Some(i)
      case None => if tasks[|tasks| - 1].id == id then Some(|tasks| - 1) else None
  }

  /** `task.engineers.add(e)`: a many-to-many add, which never lists the
      engineer twice. */
  function AddId(ids: seq<Id>, x: Id): (r: seq<Id>)
    ensures forall y :: y in r <==> y in ids || y == x
    ensures |ids| <= |r| <= |ids| + 1 && r[..|ids|] == ids
    ensures NoDup(ids) ==> NoDup(r)
  {
    if x in ids then ids
    else
      assert NoDup(ids) ==> NoDup(ids + [x]) by {
        if NoDup(ids) {
          NoDupAppend(ids, [x]);
        }
      }
      ids + [x]
  }

  /** Staff or the task's creator may delete it. */
  predicate MayDelete(u: User, t: Task) {
    u.isStaff || u.id == t.creator
  }

  /** Primary keys are unique and no many-to-many relation of a task holds
      an id twice. */
  predicate ValidTasks(tasks: seq<Task>) {
    (forall i, j :: 0 <= i < j < |tasks| ==> tasks[i].id != tasks[j].id)
    && (forall t :: t in tasks ==> NoDup(t.engineers) && NoDup(t.departments))
  }

  /** Replacing a row by one with the same key and duplicate-free relations
      keeps the table valid. */
  lemma ValidTasksUpdate(tasks: seq<Task>, i: nat, t: Task)
    requires ValidTasks(tasks) && i < |tasks|
    requires t.id == tasks[i].id && NoDup(t.engineers) && NoDup(t.departments)
    ensures ValidTasks(tasks[i := t])
  {
    var r := tasks[i := t];
    forall u | u in r ensures NoDup(u.engineers) && NoDup(u.departments) {
      var k :| 0 <= k < |r| && r[k] == u;
      if k != i {
        assert u == tasks[k];
      }
    }
  }

  /** The tasks and comments the views change, in table order. */
  class TaskStore {
    var tasks: seq<Task>
    var comments: seq<Comment>

    /** Primary keys are unique and no many-to-many relation of a task
        holds an id twice. */
    predicate Valid()
      reads this
    {
      ValidTasks(tasks)
    }

    constructor (tasks: seq<Task>, comments: seq<Comment>)
      ensures this.tasks == tasks && this.comments == comments
    {
      this.tasks := tasks;
      this.comments := comments;
    }

    /** `add_event_log(user, task, text)` on the task at position i, signed
        at `now` (the clock is a parameter). */
    method AddEventLog(db: Db, u: User, i: nat, text: string, now: DateTime)
      requires i < |tasks|
      modifies this
      ensures tasks == old(tasks)[i := Logged(db, u, old(tasks)[i], text, now)]
      ensures comments == old(comments)
      ensures old(Valid()) ==> Valid()
    {
      var name := UserName(db, u);
      var line := LogLine(text, name, Stamp(now));
      var t := tasks[i];
      var logged := t.(completionText := t.completionText + line);
      if Valid() {
        ValidTasksUpdate(tasks, i, logged);
      }
      tasks := tasks[i := logged];
    }

    /** `take_task`: 404 for an unknown task, whatever the method; on POST a
        user with an engineer joins the task's engineers and the event is
        logged; a user without one changes nothing. */
    method TakeTask(db: Db, req: Request, id: Id, now: DateTime, home: string) returns (r: Outcome)
      modifies this
      ensures comments == old(comments)
      ensures old(Valid()) ==> Valid()
      ensures TaskIndex(old(tasks), id).None? ==> r == NotFound && tasks == old(tasks)
      ensures TaskIndex(old(tasks), id).Some? ==>
        var i := TaskIndex(old(tasks), id).value;
        var t := old(tasks)[i];
        var e := EngineerOfUser(db, req.user.id);
        r == Redirect(RedirectTarget(req, home))
        && tasks == (if req.isPost && e.Some?
                     then old(tasks)[i := Logged(db, req.user, t.(engineers := AddId(t.engineers, e.value.id)), TakenText, now)]
                     else old(tasks))
    {
      var found := TaskIndex(tasks, id);
      if found.None? {
        return NotFound;
      }
      var i := found.value;
      r := Redirect(RedirectTarget(req, home));
      if req.isPost {
        var e := EngineerOfUser(db, req.user.id);
        if e.Some? {
          var t := tasks[i];
          var joined := t.(engineers := AddId(t.engineers, e.value.id));
          if Valid() {
            assert t in tasks;
            ValidTasksUpdate(tasks, i, joined);
          }
          ghost var before := tasks;
          tasks := tasks[i := joined];
          AddEventLog(db, req.user, i, TakenText, now);
          UpdateTwice(before, i, joined, tasks[i]);
        }
      }
    }

    /** `delete_task`: on POST, 404 for an unknown task; staff or the creator
        mark it deleted and the event is logged; anyone else changes
        nothing. */
    method DeleteTask(db: Db, req: Request, id: Id, now: DateTime, home: string) returns (r: Outcome)
      modifies this
      ensures comments == old(comments)
      ensures old(Valid()) ==> Valid()
      ensures !req.isPost ==> r == Redirect(home) && tasks == old(tasks)
      ensures req.isPost && TaskIndex(old(tasks), id).None? ==> r == NotFound && tasks == old(tasks)
      ensures req.isPost && TaskIndex(old(tasks), id).Some? ==>
        var i := TaskIndex(old(tasks), id).value;
        var t := old(tasks)[i];
        r == Redirect(RedirectTarget(req, home))
        && tasks == (if MayDelete(req.user, t)
                     then old(tasks)[i := Logged(db, req.user, t.(deleted := true), DeletedText, now)]
                     else old(tasks))
    {
      if !req.isPost {
        return Redirect(home);
      }
      var found := TaskIndex(tasks, id);
      if found.None? {
        return NotFound;
      }
      var i := found.value;
      r := Redirect(RedirectTarget(req, home));
      if MayDelete(req.user, tasks[i]) {
        if Valid() {
          assert tasks[i] in tasks;
          ValidTasksUpdate(tasks, i, tasks[i].(deleted := true));
        }
        ghost var before := tasks;
        var deleted := tasks[i].(deleted := true);
        tasks := tasks[i := deleted];
        AddEventLog(db, req.user, i, DeletedText, now);
        UpdateTwice(before, i, deleted, tasks[i]);
      }
    }

    /** `reopen_task`: on POST, 404 for an unknown task, else the task is
        open again and the event is logged. */
    method ReopenTask(db: Db, req: Request, id: Id, now: DateTime, home: string) returns (r: Outcome)
      modifies this
      ensures comments == old(comments)
      ensures old(Valid()) ==> Valid()
      ensures !req.isPost ==> r == Redirect(home) && tasks == old(tasks)
      ensures req.isPost && TaskIndex(old(tasks), id).None? ==> r == NotFound && tasks == old(tasks)
      ensures req.isPost && TaskIndex(old(tasks), id).Some? ==>
        var i := TaskIndex(old(tasks), id).value;
        r == Redirect(RedirectTarget(req, home))
        && tasks == old(tasks)[i := Logged(db, req.user, old(tasks)[i].(isDone := false), ReopenedText, now)]
    {
      if !req.isPost {
        return Redirect(home);
      }
      var found := TaskIndex(tasks, id);
      if found.None? {
        return NotFound;
      }
      var i := found.value;
      r := Redirect(RedirectTarget(req, home));
      if Valid() {
        assert tasks[i] in tasks;
        ValidTasksUpdate(tasks, i, tasks[i].(isDone := false));
      }
      ghost var before := tasks;
      var reopened := tasks[i].(isDone := false);
      tasks := tasks[i := reopened];
      AddEventLog(db, req.user, i, ReopenedText, now);
      UpdateTwice(before, i, reopened, tasks[i]);
    }

    /** `comment_task`: on POST, 404 for an unknown task; a non-blank answer
        is stored, stripped and with its first picture resized, as a
        comment by the user; a posted `is_done` closes the task and logs
        the closing, otherwise the answer is logged. */
    method CommentTask(db: Db, req: Request, id: Id, codec: HtmlCodec, now: DateTime, home: string)
      returns (r: Outcome)
      modifies this
      ensures old(Valid()) ==> Valid()
      ensures !req.isPost ==> r == Redirect(home) && tasks == old(tasks) && comments == old(comments)
      ensures req.isPost && TaskIndex(old(tasks), id).None? ==>
        r == NotFound && tasks == old(tasks) && comments == old(comments)
      ensures req.isPost && TaskIndex(old(tasks), id).Some? ==>
        var i := TaskIndex(old(tasks), id).value;
        var t := old(tasks)[i];
        var answer := Strip(GetOr(req.post, "answer", ""));
        r == Redirect(RedirectTarget(req, home))
        && comments == old(comments) + (if answer == "" then [] else [Comment(id, req.user.id, ResizedHtml(Some(answer), codec))])
        && tasks == (if Get(req.post, "is_done").Some?
                     then old(tasks)[i := Logged(db, req.user, t.(isDone := true), ClosedText, now)]
                     else old(tasks)[i := Logged(db, req.user, t, AnsweredText, now)])
    {
      if !req.isPost {
        return Redirect(home);
      }
      var found := TaskIndex(tasks, id);
      if found.None? {
        return NotFound;
      }
      var i := found.value;
      var isDone := Get(req.post, "is_done").Some?;
      var answer := Strip(GetOr(req.post, "answer", ""));
      r := Redirect(RedirectTarget(req, home));
      Answer(db, req.user, i, answer, isDone, codec, now);
    }

    /** The answering part of `comment_task` on the task at position i:
        store the answer, if any, then close the task or log the answer. */
    method Answer(db: Db, u: User, i: nat, answer: string, close: bool, codec: HtmlCodec, now: DateTime)
      requires i < |tasks|
      modifies this
      ensures old(Valid()) ==> Valid()
      ensures comments == old(comments)
        + (if answer == "" then [] else [Comment(old(tasks)[i].id, u.id, ResizedHtml(Some(answer), codec))])
      ensures tasks == (if close
                        then old(tasks)[i := Logged(db, u, old(tasks)[i].(isDone := true), ClosedText, now)]
                        else old(tasks)[i := Logged(db, u, old(tasks)[i], AnsweredText, now)])
    {
      if answer != "" {
        var text := AutoResizePic(Some(answer), codec);
        comments := comments + [Comment(tasks[i].id, u.id, text)];
      }
      if close {
        if Valid() {
          assert tasks[i] in tasks;
          ValidTasksUpdate(tasks, i, tasks[i].(isDone := true));
        }
        ghost var before := tasks;
        var closed := tasks[i].(isDone := true);
        tasks := tasks[i := closed];
        AddEventLog(db, u, i, ClosedText, now);
        UpdateTwice(before, i, closed, tasks[i]);
      } else {
        AddEventLog(db, u, i, AnsweredText, now);
      }
    }
  }

  // ---------------------------------------------------------------------
  // `print_tasks`: the printable rows of a task list.

  /** One row of the printed list. */
  datatype PrintRow = PrintRow(date: string, header: string, engineers: string, isDone: bool, priority: string)

  /** The values the lookup finds, in the order of the ids; ids it does not
      find are skipped. */
  function Found<A>(ids: seq<Id>, find: Id -> Option<A>): (r: seq<A>)
    ensures |r| <= |ids|
    ensures (forall k :: 0 <= k < |ids| ==> find(ids[k]).Some?) ==>
      |r| == |ids| && forall k :: 0 <= k < |ids| ==> r[k] == find(ids[k]).value
  {
    if |ids| == 0 then []
    else
      var rest := Found(ids[1..], find);
      match find(ids[0])
      case Some(v) => [v] + rest
      case None => rest
  }

  function DepartmentNameOf(db: Db): Id -> Option<string> {
    (id: Id) => match FindDepartment(db, id) case Some(d) => Some(d.name) case None => None
  }

  function SecondNameOf(db: Db): Id -> Option<string> {
    (id: Id) => match FindEngineer(db, id) case Some(e) => Some(e.secondName) case None => None
  }

  /** The responsible column: the task's department names, then its
      engineers' second names, joined by ", ". */
  function Responsible(db: Db, t: Task): string {
    Join(Found(t.departments, DepartmentNameOf(db)) + Found(t.engineers, SecondNameOf(db)), ", ")
  }

  /** The row of one task. The completion time is never null, so the date
      is always written; it is the UTC date of the completion time, not the
      Moscow date the date filters compare. */
  function RowOf(db: Db, t: Task): PrintRow {
    PrintRow(DottedDate(UtcDate(t.completionTime)), t.header, Responsible(db, t), t.isDone, t.priority)
  }

  /** The printed date is the UTC day of the completion time; from 21:00 UTC
      on it is the day before the Moscow day that the date filters compare. */
  lemma {:induction false} PrintedDayAgainstMoscowDay(db: Db, t: Task, day: int, secondOfDay: int)
    requires t.completionTime == day * SecondsPerDay + secondOfDay
    requires 0 <= secondOfDay < SecondsPerDay
    ensures RowOf(db, t).date == DottedDate(DateOfDayNumber(day))
    ensures DayOf(t.completionTime) == (if secondOfDay < 21 * 3600 then day else day + 1)
  {
    UtcDateOfDay(t.completionTime, day, secondOfDay);
    MoscowDayOf(day, secondOfDay);
  }

  /** A task due at 22:30 UTC on 1 May 2024 is printed as "01.05.2024",
      although its Moscow date, the one the filters compare, is 2 May. */
  lemma LateEveningTaskPrintsUtcDate(db: Db, t: Task)
    requires t.completionTime == 19844 * SecondsPerDay + 22 * 3600 + 30 * 60
    ensures RowOf(db, t).date == "01.05.2024"
    ensures DayOf(t.completionTime) == DayNumber(Date(2024, 5, 2))
  {
    PrintedDayAgainstMoscowDay(db, t, 19844, 22 * 3600 + 30 * 60);
    FirstOfMayDate();
    FirstOfMayDotted();
    SecondOfMayDayNumber();
  }

  /** The tasks in the order `print_tasks` prints them. */
  function PrintOrder(tasks: seq<Task>): seq<Task> {
    SortBy(tasks, DueAscKey)
  }

  /** The rows `print_tasks` renders: the tasks sorted by
      `(completion_time or create_time, create_time)`, which, the completion
      time never being null, is the (completion, creation) order. */
  function PrintRows(db: Db, tasks: seq<Task>): seq<PrintRow> {
    var s := PrintOrder(tasks);
    seq(|s|, k requires 0 <= k < |s| => RowOf(db, s[k]))
  }

  /** Every task of the list is printed, each row is the row of a task of
      the list, and the rows follow the tasks in (completion, creation)
      order. */
  lemma PrintRowsMeaning(db: Db, tasks: seq<Task>)
    ensures var r := PrintRows(db, tasks);
      |r| == |tasks|
      && (forall t :: t in tasks ==> RowOf(db, t) in r)
      && (forall row :: row in r ==> exists t :: t in tasks && row == RowOf(db, t))
      && exists s :: SortedBy(s, DueAscKey) && multiset(s) == multiset(tasks) && |s| == |r|
           && forall k :: 0 <= k < |r| ==> r[k] == RowOf(db, s[k])
  {
    var s := PrintOrder(tasks);
    var r := PrintRows(db, tasks);
    forall t | t in tasks ensures RowOf(db, t) in r {
      SortKeepsMembers(tasks, DueAscKey, t);
      var k :| 0 <= k < |s| && s[k] == t;
      assert r[k] == RowOf(db, t);
    }
    forall row | row in r ensures exists t :: t in tasks && row == RowOf(db, t) {
      var k :| 0 <= k < |r| && r[k] == row;
      SortKeepsMembers(tasks, DueAscKey, s[k]);
    }
  }

  /** `print_tasks` over the list the task query gives, one row per task
      in the loop's order. */
  method PrintTasks(db: Db, tasks: seq<Task>) returns (rows: seq<PrintRow>)
    ensures rows == PrintRows(db, tasks)
  {
    var sorted := PrintOrder(tasks);
    ghost var expected := PrintRows(db, tasks);
    assert |expected| == |sorted|;
    rows := [];
    for k := 0 to |sorted|
      invariant rows == expected[..k]
    {
      var row := PrintRowOf(db, sorted[k]);
      assert expected[k] == RowOf(db, sorted[k]);
      TakeSnoc(expected, k);
      rows := rows + [row];
    }
    assert expected[..|sorted|] == expected;
  }

  /** The body of `print_tasks`' loop for one task. */
  method PrintRowOf(db: Db, t: Task) returns (row: PrintRow)
    ensures row == RowOf(db, t)
  {
    var departments := Found(t.departments, DepartmentNameOf(db));
    var engineers := Found(t.engineers, SecondNameOf(db));
    var responsible := Join(departments + engineers, ", ");
    row := PrintRow(DottedDate(UtcDate(t.completionTime)), t.header, responsible, t.isDone, t.priority);
  }
}
