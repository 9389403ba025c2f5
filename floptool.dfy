/** The format catalog, image identification and mounting of qfloptool's Floptool
    class. The MAME format library is outside the model: a format's identification
    score, its loader and its converters' output are parameters, and what a file
    system manager enumerates is data of its descriptor. */
module Floptool {

  import opened Wrappers
  import opened Text
  import opened Sorting

  // ---------------------------------------------------------------------------
  //  Entities
  // ---------------------------------------------------------------------------

  /** A floppy_image_format_t as the program sees it; `extensions` is a C string
      of comma-separated extensions that may be null. */
  datatype MameFormat = MameFormat(name: string, description: string, extensions: Option<string>)

  /** Floptool::FloppyFormat: a MAME format and its extension list, split. */
  datatype FloppyFormat = FloppyFormat(mameFormat: MameFormat, fileExtensions: seq<string>)

  /** One (converter, expected image size) pair reported by enumerate_f. */
  datatype FileSystemFormat = FileSystemFormat(converter: MameFormat, imageSize: nat)

  type MetaName = string

  /** Floptool::FileSystem: what the program reads off an fs::manager_t. */
  datatype FileSystem = FileSystem(
    name: string,
    description: string,
    canRead: bool,
    floppyFormats: seq<FileSystemFormat>,
    fileMetaNames: seq<MetaName>,
    directoryMetaNames: seq<MetaName>)

  /** Floptool::Category<T>: a named std::vector<T>. */
  datatype Category<T> = Category(categoryName: string, items: seq<T>)

  function CategoryName<T>(c: Category<T>): string { c.categoryName }
  function Items<T>(c: Category<T>): seq<T> { c.items }
  function FloppyFormatName(f: FloppyFormat): string { f.mameFormat.name }
  function FileSystemName(f: FileSystem): string { f.name }

  /** std::ranges::join_view over a vector of categories. */
  function Flatten<T>(cats: seq<Category<T>>): seq<T>
  {
    ConcatMap(cats, Items<T>)
  }

  lemma FlattenAppend<T>(cats: seq<Category<T>>, c: Category<T>)
    ensures Flatten(cats + [c]) == Flatten(cats) + c.items
  {
    ConcatMapConcat(cats, [c], Items<T>);
    assert ConcatMap([c], Items<T>) == c.items + ConcatMap([c][1..], Items<T>);
  }

  /** An item paired with the name of the category it sits in. */
  datatype Named<T> = Named(name: string, item: T)

  function Tag<T>(name: string): T -> seq<Named<T>>
  {
    x => [Named(name, x)]
  }

  function NamedItems<T>(c: Category<T>): seq<Named<T>>
  {
    ConcatMap(c.items, Tag(c.categoryName))
  }

  /** Every item of every category, in order, tagged with its category's name. */
  function FlattenNamed<T>(cats: seq<Category<T>>): seq<Named<T>>
  {
    ConcatMap(cats, NamedItems<T>)
  }

  lemma FlattenNamedAppend<T>(cats: seq<Category<T>>, c: Category<T>)
    ensures FlattenNamed(cats + [c]) == FlattenNamed(cats) + NamedItems(c)
  {
    ConcatMapConcat(cats, [c], NamedItems<T>);
    ConcatMapSingle(c, NamedItems<T>);
  }

  /** std::ranges::find_if by name: the first position whose name is `name`, or |s|. */
  function FindFirst<T>(s: seq<T>, nameOf: T -> string, name: string): (k: nat)
    ensures k <= |s|
    ensures k < |s| ==> nameOf(s[k]) == name
    ensures forall j :: 0 <= j < k ==> nameOf(s[j]) != name
  {
    if s == [] then 0
    else if nameOf(s[0]) == name then 0
    else 1 + FindFirst(s[1..], nameOf, name)
  }

  // ---------------------------------------------------------------------------
  //  FloppyFormat constructor: splitting the extension list
  // ---------------------------------------------------------------------------

  /** The pieces of a non-empty remainder of the list, as the constructor's loop
      produces them: up to the next comma, then whatever follows it, if anything. */
  function SplitAt(s: string): seq<string>
    requires |s| > 0
    decreases |s|
  {
    match IndexOf(s, ',', 0)
    case None => [s]
    case Some(i) => [s[..i]] + (if i + 1 == |s| then [] else SplitAt(s[i + 1..]))
  }

  /** The extensions a FloppyFormat gets from a MAME extension list. */
  function SplitExtensions(extensions: Option<string>): seq<string>
  {
    if extensions.None? || extensions.value == "" then [] else SplitAt(extensions.value)
  }

  function MakeFloppyFormat(mameFormat: MameFormat): FloppyFormat
  {
    FloppyFormat(mameFormat, SplitExtensions(mameFormat.extensions))
  }

  /** One piece off the front of a non-empty extension list: the text up to the first
      comma, then the pieces of what follows that comma. */
  lemma SplitExtensionsStep(e: string)
    requires |e| > 0
    ensures IndexOf(e, ',', 0).None? ==> SplitExtensions(Some(e)) == [e]
    ensures IndexOf(e, ',', 0).Some? ==> var c := IndexOf(e, ',', 0).value;
      SplitExtensions(Some(e)) == [e[..c]] + SplitExtensions(Some(e[c + 1..]))
  {
  }

  /** Floptool::FloppyFormat::FloppyFormat: walks the C string with strchr, pushing
      one extension per comma-separated piece. */
  method NewFloppyFormat(mameFormat: MameFormat) returns (f: FloppyFormat)
    ensures f == MakeFloppyFormat(mameFormat)
  {
    var fileExtensions: seq<string> := [];
    var extensions := mameFormat.extensions;
    while extensions.Some? && |extensions.value| > 0
      invariant fileExtensions + SplitExtensions(extensions) == SplitExtensions(mameFormat.extensions)
      decreases if extensions.Some? then |extensions.value| + 1 else 0
    {
      var s := IndexOf(extensions.value, ',', 0);
      SplitExtensionsStep(extensions.value);
      var ext := if s.Some? then extensions.value[..s.value] else extensions.value;
      fileExtensions := fileExtensions + [ext];
      extensions := if s.Some? then Some(extensions.value[s.value + 1..]) else None;
    }
    f := FloppyFormat(mameFormat, fileExtensions);
  }

  lemma {:induction false} SplitAtCommaFree(s: string)
    requires |s| > 0
    ensures forall p :: p in SplitAt(s) ==> ',' !in p
    decreases |s|
  {
    match IndexOf(s, ',', 0)
    case None =>
    case Some(i) =>
      if i + 1 < |s| {
        SplitAtCommaFree(s[i + 1..]);
      }
  }

  lemma {:induction false} JoinPrepend(x: string, rest: seq<string>, sep: string)
    requires rest != []
    ensures Join([x] + rest, sep) == x + sep + Join(rest, sep)
    decreases |rest|
  {
    if |rest| > 1 {
      var init := rest[..|rest| - 1];
      var last := rest[|rest| - 1];
      assert ([x] + rest)[..|rest|] == [x] + init;
      assert Join([x] + rest, sep) == Join([x] + init, sep) + sep + last;
      JoinPrepend(x, init, sep);
      assert Join(rest, sep) == Join(init, sep) + sep + last;
      assert x + sep + Join(init, sep) + sep + last == x + sep + (Join(init, sep) + sep + last);
    }
  }

  function TrailingComma(s: string): string
  {
    if |s| > 0 && s[|s| - 1] == ',' then "," else ""
  }

  lemma SplitAtUnfold(s: string, i: nat)
    requires i < |s| && IndexOf(s, ',', 0) == Some(i)
    ensures i + 1 == |s| ==> SplitAt(s) == [s[..i]]
    ensures i + 1 < |s| ==> SplitAt(s) == [s[..i]] + SplitAt(s[i + 1..])
  {
  }

  lemma {:induction false} SplitAtJoin(s: string)
    requires |s| > 0
    ensures |SplitAt(s)| >= 1
    ensures Join(SplitAt(s), ",") + TrailingComma(s) == s
    decreases |s|
  {
    var r := IndexOf(s, ',', 0);
    if r.None? {
      assert SplitAt(s) == [s];
      assert TrailingComma(s) == "";
    } else {
      var i := r.value;
      SplitAtUnfold(s, i);
      if i + 1 == |s| {
        SplitAtJoinLast(s, i);
      } else {
        SplitAtJoin(s[i + 1..]);
        SplitAtJoinMiddle(s, i);
      }
    }
  }

  lemma SplitAtJoinLast(s: string, i: nat)
    requires i + 1 == |s| && s[i] == ','
    requires SplitAt(s) == [s[..i]]
    ensures Join(SplitAt(s), ",") + TrailingComma(s) == s
  {
    assert s == s[..i] + ",";
  }

  lemma SplitAtJoinMiddle(s: string, i: nat)
    requires i + 1 < |s| && s[i] == ','
    requires SplitAt(s) == [s[..i]] + SplitAt(s[i + 1..])
    requires |SplitAt(s[i + 1..])| >= 1
    requires Join(SplitAt(s[i + 1..]), ",") + TrailingComma(s[i + 1..]) == s[i + 1..]
    ensures Join(SplitAt(s), ",") + TrailingComma(s) == s
  {
    var head, rest := s[..i], s[i + 1..];
    var joined, trailing := Join(SplitAt(rest), ","), TrailingComma(rest);
    JoinPrepend(head, SplitAt(rest), ",");
    assert TrailingComma(s) == trailing;
    assert [s[i]] == ",";
    SplitAround(s, i);
    calc {
      Join(SplitAt(s), ",") + TrailingComma(s);
      (head + "," + joined) + trailing;
      { AppendAssociative(head + ",", joined, trailing); }
      (head + ",") + (joined + trailing);
      head + "," + rest;
    }
  }

  /** The split pieces hold no comma; a null or empty list gives no extension; for
      any other list, joining the pieces with commas gives the list back, less the
      trailing comma if there is one (a trailing comma adds no empty piece). */
  lemma SplitExtensionsInverse(extensions: Option<string>)
    ensures forall p :: p in SplitExtensions(extensions) ==> ',' !in p
    ensures extensions.None? || extensions == Some("") ==> SplitExtensions(extensions) == []
    ensures extensions.Some? && extensions.value != "" ==>
      var s := extensions.value;
      && |SplitExtensions(extensions)| >= 1
      && Join(SplitExtensions(extensions), ",") + TrailingComma(s) == s
  {
    if extensions.Some? && extensions.value != "" {
      SplitAtCommaFree(extensions.value);
      SplitAtJoin(extensions.value);
    }
  }

  // ---------------------------------------------------------------------------
  //  Building the catalog: MameFormatsEnumeratorImpl and initializeMameFormats
  // ---------------------------------------------------------------------------

  /** MameFormatsEnumeratorImpl::add: append to the last category when it carries
      the current name, otherwise open a new category. */
  function AddToCategory<T>(cats: seq<Category<T>>, currentCategory: string, x: T): (r: seq<Category<T>>)
    ensures Flatten(r) == Flatten(cats) + [x]
    ensures FlattenNamed(r) == FlattenNamed(cats) + [Named(currentCategory, x)]
    ensures |r| > 0 && r[|r| - 1].categoryName == currentCategory
    ensures |r| == |cats| || |r| == |cats| + 1
    ensures |r| == |cats| <==> cats != [] && cats[|cats| - 1].categoryName == currentCategory
    ensures |cats| > 0 ==> r[..|cats| - 1] == cats[..|cats| - 1]
    ensures (forall c :: c in cats ==> |c.items| > 0) ==> forall c :: c in r ==> |c.items| > 0
  {
    if cats == [] || cats[|cats| - 1].categoryName != currentCategory then
      FlattenAppend(cats, Category(currentCategory, [x]));
      FlattenNamedAppend(cats, Category(currentCategory, [x]));
      ConcatMapSingle(x, Tag(currentCategory));
      cats + [Category(currentCategory, [x])]
    else
      var n := |cats| - 1;
      var last := Category(currentCategory, cats[n].items + [x]);
      assert cats == cats[..n] + [cats[n]];
      FlattenAppend(cats[..n], cats[n]);
      FlattenAppend(cats[..n], last);
      FlattenNamedAppend(cats[..n], cats[n]);
      FlattenNamedAppend(cats[..n], last);
      NamedItemsAppend(cats[n], x);
      assert cats[n := last] == cats[..n] + [last];
      cats[n := last]
  }

  /** What mame_formats_full_list reports to the enumerator, one call at a time. */
  datatype FormatsListEvent =
    | SelectCategory(name: string)
    | AddFloppy(mameFormat: MameFormat)
    | AddFileSystem(fileSystem: FileSystem)
    | AddCassettes

  datatype CatalogState = CatalogState(
    floppyFormats: seq<Category<FloppyFormat>>,
    fileSystems: seq<Category<FileSystem>>,
    currentCategory: string)

  function Step(st: CatalogState, e: FormatsListEvent): CatalogState
  {
    match e
    case SelectCategory(name) => st.(currentCategory := name)
    case AddFloppy(m) => st.(floppyFormats := AddToCategory(st.floppyFormats, st.currentCategory, MakeFloppyFormat(m)))
    case AddFileSystem(fs) => st.(fileSystems := AddToCategory(st.fileSystems, st.currentCategory, fs))
    case AddCassettes => st
  }

  /** The catalog as it stands after the enumerator has seen `events`, before sorting. */
  function Enumerate(events: seq<FormatsListEvent>): CatalogState
  {
    if events == [] then CatalogState([], [], "")
    else Step(Enumerate(events[..|events| - 1]), events[|events| - 1])
  }

  function AddedFloppies(events: seq<FormatsListEvent>): seq<FloppyFormat>
  {
    if events == [] then []
    else
      var last := events[|events| - 1];
      AddedFloppies(events[..|events| - 1]) + (if last.AddFloppy? then [MakeFloppyFormat(last.mameFormat)] else [])
  }

  function AddedFileSystems(events: seq<FormatsListEvent>): seq<FileSystem>
  {
    if events == [] then []
    else
      var last := events[|events| - 1];
      AddedFileSystems(events[..|events| - 1]) + (if last.AddFileSystem? then [last.fileSystem] else [])
  }

  /** The category the enumerator is filing under after `events`: the name of the
      last category call, and the empty name before any. */
  function SelectedCategory(events: seq<FormatsListEvent>): string
  {
    if events == [] then ""
    else if events[|events| - 1].SelectCategory? then events[|events| - 1].name
    else SelectedCategory(events[..|events| - 1])
  }

  /** The added floppy formats, each with the category selected when it was added. */
  function AddedNamedFloppies(events: seq<FormatsListEvent>): seq<Named<FloppyFormat>>
  {
    if events == [] then []
    else
      var before := events[..|events| - 1];
      var last := events[|events| - 1];
      AddedNamedFloppies(before) + (if last.AddFloppy? then [Named(SelectedCategory(before), MakeFloppyFormat(last.mameFormat))] else [])
  }

  /** The added file systems, each with the category selected when it was added. */
  function AddedNamedFileSystems(events: seq<FormatsListEvent>): seq<Named<FileSystem>>
  {
    if events == [] then []
    else
      var before := events[..|events| - 1];
      var last := events[|events| - 1];
      AddedNamedFileSystems(before) + (if last.AddFileSystem? then [Named(SelectedCategory(before), last.fileSystem)] else [])
  }

  ghost predicate NonEmptyCategories<T>(cats: seq<Category<T>>)
  {
    forall c :: c in cats ==> |c.items| > 0
  }

  /** Enumeration leaves no empty category, and flattening its categories gives the
      formats and file systems in the order they were added. */
  lemma {:induction false} EnumerateShape(events: seq<FormatsListEvent>)
    ensures NonEmptyCategories(Enumerate(events).floppyFormats)
    ensures NonEmptyCategories(Enumerate(events).fileSystems)
    ensures Flatten(Enumerate(events).floppyFormats) == AddedFloppies(events)
    ensures Flatten(Enumerate(events).fileSystems) == AddedFileSystems(events)
  {
    if events != [] {
      EnumerateShape(events[..|events| - 1]);
    }
  }

  /** Each format and file system is filed under the category that was selected when
      MAME reported it, and they stay in the order they were reported. */
  lemma {:induction false} EnumerateFilesUnderSelected(events: seq<FormatsListEvent>)
    ensures Enumerate(events).currentCategory == SelectedCategory(events)
    ensures FlattenNamed(Enumerate(events).floppyFormats) == AddedNamedFloppies(events)
    ensures FlattenNamed(Enumerate(events).fileSystems) == AddedNamedFileSystems(events)
  {
    if events != [] {
      EnumerateFilesUnderSelected(events[..|events| - 1]);
    }
  }

  predicate NameAtMost<T>(a: Category<T>, b: Category<T>)
  {
    LessOrEqual(a.categoryName, b.categoryName)
  }

  lemma NameAtMostIsTotalPreorder<T(!new)>()
    ensures TotalPreorder(NameAtMost<T>)
  {
    LessOrEqualIsTotalPreorder();
  }

  // ---------------------------------------------------------------------------
  //  Identification
  // ---------------------------------------------------------------------------

  /** floppy_image_format_t::FIFID_EXT: the score bit meaning "the extension matched". */
  const FifidExt: bv8 := 0x02

  /** The extension identify compares against: the suffix of a default-constructed
      QFileInfo, which is always empty, whatever file is being identified. */
  const FileExtension: string := ""

  /** One entry of an identification result: the score and the format it is for. */
  datatype IdentifyResult = IdentifyResult(score: bv8, format: FloppyFormat)

  /** The score identify reports for a format MAME scored `score`: the extension bit
      is added when the compared extension is one of the format's extensions. */
  function ReportedScore(f: FloppyFormat, score: bv8): (r: bv8)
    ensures r | FifidExt == score | FifidExt
    ensures r & FifidExt != 0 <==> score & FifidExt != 0 || FileExtension in f.fileExtensions
    ensures score != 0 ==> r != 0
    ensures score <= r
    ensures FileExtension !in f.fileExtensions ==> r == score
  {
    if FileExtension in f.fileExtensions then score | FifidExt else score
  }

  /** What identify reports for one catalog entry, or nothing when MAME gave it 0. */
  function HitOf(e: Named<FloppyFormat>, score: MameFormat -> bv8): seq<Named<IdentifyResult>>
  {
    var s := score(e.item.mameFormat);
    if s == 0 then [] else [Named(e.name, IdentifyResult(ReportedScore(e.item, s), e.item))]
  }

  /** The reports for a run of catalog entries, in catalog order. */
  function HitsOf(entries: seq<Named<FloppyFormat>>, score: MameFormat -> bv8): seq<Named<IdentifyResult>>
  {
    if entries == [] then []
    else HitsOf(entries[..|entries| - 1], score) + HitOf(entries[|entries| - 1], score)
  }

  lemma HitsOfAppend(entries: seq<Named<FloppyFormat>>, e: Named<FloppyFormat>, score: MameFormat -> bv8)
    ensures HitsOf(entries + [e], score) == HitsOf(entries, score) + HitOf(e, score)
  {
    assert (entries + [e])[..|entries|] == entries;
  }

  /** A format is reported, under the name of the category it is catalogued in and
      with its reported score, exactly when MAME scores it non-zero. */
  lemma {:induction false} HitsOfMember(entries: seq<Named<FloppyFormat>>, score: MameFormat -> bv8, h: Named<IdentifyResult>)
    ensures h in HitsOf(entries, score) <==>
      exists e :: e in entries && score(e.item.mameFormat) != 0
        && h == Named(e.name, IdentifyResult(ReportedScore(e.item, score(e.item.mameFormat)), e.item))
  {
    if entries != [] {
      var init, e := entries[..|entries| - 1], entries[|entries| - 1];
      HitsOfMember(init, score, h);
      assert entries == init + [e];
      if h in HitsOf(entries, score) && h !in HitsOf(init, score) {
        assert h in HitOf(e, score);
      }
    }
  }

  /** Every reported score is non-zero. */
  lemma {:induction false} HitsOfNonZero(entries: seq<Named<FloppyFormat>>, score: MameFormat -> bv8)
    ensures forall h :: h in HitsOf(entries, score) ==> h.item.score != 0
  {
    if entries != [] {
      HitsOfNonZero(entries[..|entries| - 1], score);
    }
  }

  /** The result categories after one more report: appended to the first category
      with its name, or to a new category opened at the end. */
  function GroupAdd<T>(groups: seq<Category<T>>, h: Named<T>): seq<Category<T>>
  {
    var k := FindFirst(groups, CategoryName<T>, h.name);
    if k < |groups| then groups[k := Category(h.name, groups[k].items + [h.item])]
    else groups + [Category(h.name, [h.item])]
  }

  /** The result categories built from a sequence of reports. */
  function Group<T>(hs: seq<Named<T>>): seq<Category<T>>
  {
    if hs == [] then [] else GroupAdd(Group(hs[..|hs| - 1]), hs[|hs| - 1])
  }

  lemma GroupAppend<T>(hs: seq<Named<T>>, h: Named<T>)
    ensures Group(hs + [h]) == GroupAdd(Group(hs), h)
  {
    assert (hs + [h])[..|hs|] == hs;
  }

  lemma NamedItemsAppend<T>(c: Category<T>, x: T)
    ensures NamedItems(Category(c.categoryName, c.items + [x])) == NamedItems(c) + [Named(c.categoryName, x)]
  {
    ConcatMapConcat(c.items, [x], Tag(c.categoryName));
    assert ConcatMap([x], Tag(c.categoryName)) == [Named(c.categoryName, x)] + ConcatMap([x][1..], Tag(c.categoryName));
  }

  lemma GroupAddFlatten<T>(groups: seq<Category<T>>, h: Named<T>)
    ensures multiset(FlattenNamed(GroupAdd(groups, h))) == multiset(FlattenNamed(groups)) + multiset{h}
  {
    var k := FindFirst(groups, CategoryName<T>, h.name);
    if k < |groups| {
      var c := Category(h.name, groups[k].items + [h.item]);
      NamedItemsAppend(groups[k], h.item);
      var r := groups[k := c];
      ConcatMapSplit(groups, k, NamedItems<T>);
      ConcatMapSplit(r, k, NamedItems<T>);
      assert r[..k] == groups[..k] && r[k + 1..] == groups[k + 1..];
    } else {
      var c := Category(h.name, [h.item]);
      NamedItemsAppend(Category(h.name, []), h.item);
      assert [] + [h.item] == [h.item];
      ConcatMapConcat(groups, [c], NamedItems<T>);
      ConcatMapSingle(c, NamedItems<T>);
    }
  }

  lemma GroupAddShape<T>(groups: seq<Category<T>>, h: Named<T>)
    requires KeysDistinct(groups, CategoryName<T>) && NonEmptyCategories(groups)
    ensures KeysDistinct(GroupAdd(groups, h), CategoryName<T>) && NonEmptyCategories(GroupAdd(groups, h))
  {
    var k := FindFirst(groups, CategoryName<T>, h.name);
    var r := GroupAdd(groups, h);
    if k == |groups| {
      forall i, j | 0 <= i < j < |r| ensures r[i].categoryName != r[j].categoryName {
        if j == |groups| {
          assert CategoryName(groups[i]) != h.name;
        }
      }
    } else {
      forall i, j | 0 <= i < j < |r| ensures r[i].categoryName != r[j].categoryName {
        assert CategoryName(groups[i]) != CategoryName(groups[j]);
      }
    }
  }

  /** Grouping keeps every report, opens one category per name and no empty one. */
  lemma {:induction false} GroupShape<T>(hs: seq<Named<T>>)
    ensures multiset(FlattenNamed(Group(hs))) == multiset(hs)
    ensures KeysDistinct(Group(hs), CategoryName<T>)
    ensures NonEmptyCategories(Group(hs))
  {
    if hs != [] {
      var init := hs[..|hs| - 1];
      GroupShape(init);
      GroupAddFlatten(Group(init), hs[|hs| - 1]);
      GroupAddShape(Group(init), hs[|hs| - 1]);
      assert hs == init + [hs[|hs| - 1]];
    }
  }

  /** `a` may precede `b` when results are sorted by descending score. */
  predicate ScoreAtLeast(a: IdentifyResult, b: IdentifyResult)
  {
    a.score >= b.score
  }

  /** The score of a category's first (best) result; categories are never empty. */
  function FirstScore(c: Category<IdentifyResult>): int
  {
    if c.items == [] then -1 else c.items[0].score as int
  }

  /** `a` may precede `b` when categories are sorted by descending best score. */
  predicate FirstScoreAtLeast(a: Category<IdentifyResult>, b: Category<IdentifyResult>)
  {
    FirstScore(a) >= FirstScore(b)
  }

  /** The categories of a result with each category's results sorted. */
  function SortedWithin(groups: seq<Category<IdentifyResult>>): (r: seq<Category<IdentifyResult>>)
    ensures |r| == |groups|
    ensures forall k :: 0 <= k < |r| ==> r[k].categoryName == groups[k].categoryName
  {
    seq(|groups|, k requires 0 <= k < |groups| =>
      Category(groups[k].categoryName, SortBy(groups[k].items, ScoreAtLeast)))
  }

  lemma ScoreAtLeastIsTotalPreorder()
    ensures TotalPreorder(ScoreAtLeast)
  {
  }

  lemma SortedWithinShape(groups: seq<Category<IdentifyResult>>)
    requires KeysDistinct(groups, CategoryName<IdentifyResult>) && NonEmptyCategories(groups)
    ensures multiset(FlattenNamed(SortedWithin(groups))) == multiset(FlattenNamed(groups))
    ensures KeysDistinct(SortedWithin(groups), CategoryName<IdentifyResult>)
    ensures NonEmptyCategories(SortedWithin(groups))
    ensures forall c :: c in SortedWithin(groups) ==> SortedBy(c.items, ScoreAtLeast)
  {
    SortedWithinFlatten(groups);
    var r := SortedWithin(groups);
    forall i, j | 0 <= i < j < |r| ensures CategoryName(r[i]) != CategoryName(r[j]) {
      assert CategoryName(groups[i]) != CategoryName(groups[j]);
    }
    ScoreAtLeastIsTotalPreorder();
    forall c | c in r ensures |c.items| > 0 && SortedBy(c.items, ScoreAtLeast) {
      var k :| 0 <= k < |r| && r[k] == c;
      assert groups[k] in groups;
      SortBySorted(groups[k].items, ScoreAtLeast);
    }
  }

  lemma SortedWithinFlatten(groups: seq<Category<IdentifyResult>>)
    ensures multiset(FlattenNamed(SortedWithin(groups))) == multiset(FlattenNamed(groups))
  {
    var r := SortedWithin(groups);
    forall k | 0 <= k < |groups|
      ensures multiset(NamedItems(r[k])) == multiset(NamedItems(groups[k]))
    {
      ConcatMapSortBy(groups[k].items, ScoreAtLeast, Tag(groups[k].categoryName));
    }
    ConcatMapPointwise(r, groups, NamedItems<IdentifyResult>);
  }

  /** One catalog entry more adds its report, if any, to the grouped reports. */
  lemma CollectStep(seen: seq<Named<FloppyFormat>>, e: Named<FloppyFormat>, score: MameFormat -> bv8)
    ensures var s := score(e.item.mameFormat);
      Group(HitsOf(seen + [e], score)) ==
        if s == 0 then Group(HitsOf(seen, score))
        else GroupAdd(Group(HitsOf(seen, score)), Named(e.name, IdentifyResult(ReportedScore(e.item, s), e.item)))
  {
    HitsOfAppend(seen, e, score);
    var s := score(e.item.mameFormat);
    if s != 0 {
      GroupAppend(HitsOf(seen, score), Named(e.name, IdentifyResult(ReportedScore(e.item, s), e.item)));
    } else {
      assert HitsOf(seen, score) + [] == HitsOf(seen, score);
    }
  }

  lemma TagPrefix<T>(items: seq<T>, j: nat, name: string)
    requires j < |items|
    ensures ConcatMap(items[..j + 1], Tag(name)) == ConcatMap(items[..j], Tag(name)) + [Named(name, items[j])]
  {
    assert items[..j + 1] == items[..j] + [items[j]];
    ConcatMapConcat(items[..j], [items[j]], Tag(name));
    assert ConcatMap([items[j]], Tag(name)) == [Named(name, items[j])] + ConcatMap([items[j]][1..], Tag(name));
  }

  lemma FlattenNamedPrefix<T>(cats: seq<Category<T>>, i: nat)
    requires i < |cats|
    ensures FlattenNamed(cats[..i + 1]) == FlattenNamed(cats[..i]) + ConcatMap(cats[i].items, Tag(cats[i].categoryName))
  {
    assert cats[..i + 1] == cats[..i] + [cats[i]];
    ConcatMapConcat(cats[..i], [cats[i]], NamedItems<T>);
    assert ConcatMap([cats[i]], NamedItems<T>) == NamedItems(cats[i]) + ConcatMap([cats[i]][1..], NamedItems<T>);
  }

  // ---------------------------------------------------------------------------
  //  Mounting
  // ---------------------------------------------------------------------------

  /** Floptool::Image: the sector image a file system is mounted on. */
  datatype Image = Image(format: FloppyFormat, fileSystem: FileSystem, sectorImage: seq<bv8>)

  /** The reference definition of the conversion step of mount: the output of the
      first (converter, size) pair whose converter writes exactly that many bytes. */
  function FirstFit<Flux>(formats: seq<FileSystemFormat>, flux: Flux, save: (MameFormat, Flux) -> seq<bv8>): Option<seq<bv8>>
  {
    if formats == [] then None
    else if |save(formats[0].converter, flux)| == formats[0].imageSize then Some(save(formats[0].converter, flux))
    else FirstFit(formats[1..], flux, save)
  }

  /** How many pairs the search for the first fit looks at: up to and including the
      first that fits, or all of them. */
  function PairsExamined<Flux>(formats: seq<FileSystemFormat>, flux: Flux, save: (MameFormat, Flux) -> seq<bv8>): nat
  {
    if formats == [] then 0
    else if |save(formats[0].converter, flux)| == formats[0].imageSize then 1
    else 1 + PairsExamined(formats[1..], flux, save)
  }

  /** The search stops right after the first pair that fits, and looks at every pair
      when none fits. */
  lemma {:induction false} PairsExaminedStopsAtFirstFit<Flux>(formats: seq<FileSystemFormat>, flux: Flux, save: (MameFormat, Flux) -> seq<bv8>)
    ensures var n := PairsExamined(formats, flux, save);
      n <= |formats| &&
      (FirstFit(formats, flux, save).None? ==> n == |formats|) &&
      (FirstFit(formats, flux, save).Some? ==>
        0 < n && |save(formats[n - 1].converter, flux)| == formats[n - 1].imageSize
        && FirstFit(formats, flux, save).value == save(formats[n - 1].converter, flux)
        && forall j :: 0 <= j < n - 1 ==> |save(formats[j].converter, flux)| != formats[j].imageSize)
  {
    if formats != [] && |save(formats[0].converter, flux)| != formats[0].imageSize {
      var rest := formats[1..];
      PairsExaminedStopsAtFirstFit(rest, flux, save);
      var n := PairsExamined(formats, flux, save);
      if FirstFit(formats, flux, save).Some? {
        assert formats[n - 1] == rest[n - 2];
        forall j | 0 <= j < n - 1 ensures |save(formats[j].converter, flux)| != formats[j].imageSize {
          if j > 0 {
            assert formats[j] == rest[j - 1];
          }
        }
      }
    }
  }

  /** FirstFit picks the earliest pair that fits, and finds none only when none fits. */
  lemma {:induction false} FirstFitIsFirst<Flux>(formats: seq<FileSystemFormat>, flux: Flux, save: (MameFormat, Flux) -> seq<bv8>)
    ensures FirstFit(formats, flux, save).None? <==>
      forall k :: 0 <= k < |formats| ==> |save(formats[k].converter, flux)| != formats[k].imageSize
    ensures FirstFit(formats, flux, save).Some? ==>
      exists k :: 0 <= k < |formats|
        && |save(formats[k].converter, flux)| == formats[k].imageSize
        && FirstFit(formats, flux, save).value == save(formats[k].converter, flux)
        && forall j :: 0 <= j < k ==> |save(formats[j].converter, flux)| != formats[j].imageSize
  {
    if formats != [] && |save(formats[0].converter, flux)| != formats[0].imageSize {
      FirstFitIsFirst(formats[1..], flux, save);
      if FirstFit(formats, flux, save).Some? {
        var k :| 0 <= k < |formats[1..]|
          && |save(formats[1..][k].converter, flux)| == formats[1..][k].imageSize
          && FirstFit(formats, flux, save).value == save(formats[1..][k].converter, flux)
          && forall j :: 0 <= j < k ==> |save(formats[1..][j].converter, flux)| != formats[1..][j].imageSize;
        assert formats[k + 1] == formats[1..][k];
        forall j | 0 <= j < k + 1 ensures |save(formats[j].converter, flux)| != formats[j].imageSize {
          if j > 0 {
            assert formats[j] == formats[1..][j - 1];
          }
        }
      } else {
        forall k | 0 <= k < |formats| ensures |save(formats[k].converter, flux)| != formats[k].imageSize {
          if k > 0 {
            assert formats[k] == formats[1..][k - 1];
          }
        }
      }
    }
  }

  /** The converter of pair j differs from the previous pair's, or j is the first pair. */
  predicate ConverterChangesAt(formats: seq<FileSystemFormat>, j: nat)
    requires j < |formats|
  {
    j == 0 || formats[j].converter != formats[j - 1].converter
  }

  /** `savedAt` lists exactly the pairs among the first `examined` whose converter
      changes. */
  ghost predicate SavedExactlyAt(formats: seq<FileSystemFormat>, savedAt: seq<nat>, examined: nat)
  {
    examined <= |formats| && forall j: nat :: j in savedAt <==> j < examined && ConverterChangesAt(formats, j)
  }

  /** Examining pair i adds it to the list exactly when its converter changes. */
  lemma SavedAtStep(formats: seq<FileSystemFormat>, savedAt: seq<nat>, i: nat)
    requires i < |formats| && SavedExactlyAt(formats, savedAt, i)
    ensures ConverterChangesAt(formats, i) ==> SavedExactlyAt(formats, savedAt + [i], i + 1)
    ensures !ConverterChangesAt(formats, i) ==> SavedExactlyAt(formats, savedAt, i + 1)
  {
  }

  /** Floptool::mount. `loaded` is what the format's loader made of the file (None
      when it refused it); `save(converter, flux)` is the sector image a converter
      writes. The loop saves only when the converter differs from the previous
      pair's: `savedAt` lists the pairs at which it did, and `examined` how many
      pairs it looked at. */
  method Mount<Flux>(format: FloppyFormat, fileSystem: FileSystem, loaded: Option<Flux>,
                     save: (MameFormat, Flux) -> seq<bv8>)
    returns (image: Option<Image>, ghost savedAt: seq<nat>, ghost examined: nat)
    ensures loaded.None? ==> image.None?
    ensures loaded.Some? ==>
      image == match FirstFit(fileSystem.floppyFormats, loaded.value, save)
               case None => None
               case Some(sectorImage) => Some(Image(format, fileSystem, sectorImage))
    ensures image.Some? ==> image.value.format == format && image.value.fileSystem == fileSystem
    ensures loaded.None? ==> examined == 0
    ensures loaded.Some? ==> examined == PairsExamined(fileSystem.floppyFormats, loaded.value, save)
    ensures examined <= |fileSystem.floppyFormats|
    ensures |savedAt| <= examined
    ensures SavedExactlyAt(fileSystem.floppyFormats, savedAt, examined)
  {
    savedAt, examined := [], 0;
    if loaded.None? {
      return None, savedAt, examined;
    }
    var flux := loaded.value;
    var formats := fileSystem.floppyFormats;
    var converter: Option<MameFormat> := None;
    var sectorImage: seq<bv8> := [];
    var success := false;
    var i := 0;
    while i < |formats|
      invariant 0 <= i <= |formats|
      invariant examined == i
      invariant |savedAt| <= i
      invariant FirstFit(formats, flux, save) == FirstFit(formats[i..], flux, save)
      invariant PairsExamined(formats, flux, save) == i + PairsExamined(formats[i..], flux, save)
      invariant i > 0 ==> converter == Some(formats[i - 1].converter) && sectorImage == save(formats[i - 1].converter, flux)
      invariant i == 0 ==> converter.None?
      invariant SavedExactlyAt(formats, savedAt, examined)
      invariant !success
    {
      SavedAtStep(formats, savedAt, i);
      if converter != Some(formats[i].converter) {
        converter := Some(formats[i].converter);
        sectorImage := save(formats[i].converter, flux);
        savedAt := savedAt + [i];
      }
      success := formats[i].imageSize == |sectorImage|;
      examined := i + 1;
      if success {
        break;
      }
      i := i + 1;
    }
    if !success {
      return None, savedAt, examined;
    }
    image := Some(Image(format, fileSystem, sectorImage));
  }

  /** The process-wide catalog. */
  class Floptool {
    var floppyFormats: seq<Category<FloppyFormat>>
    var fileSystems: seq<Category<FileSystem>>

    constructor ()
      ensures floppyFormats == [] && fileSystems == []
    {
      floppyFormats := [];
      fileSystems := [];
    }

    /** Floptool::initializeMameFormats: clear, let MAME enumerate its formats
        through the enumerator, then sort both lists by category name. */
    method InitializeMameFormats(formatsList: seq<FormatsListEvent>)
      modifies this
      ensures multiset(floppyFormats) == multiset(Enumerate(formatsList).floppyFormats)
      ensures multiset(fileSystems) == multiset(Enumerate(formatsList).fileSystems)
      ensures SortedBy(floppyFormats, NameAtMost<FloppyFormat>)
      ensures SortedBy(fileSystems, NameAtMost<FileSystem>)
      ensures NonEmptyCategories(floppyFormats) && NonEmptyCategories(fileSystems)
    {
      floppyFormats := [];
      fileSystems := [];
      var en := new FormatsEnumerator(this);
      for i := 0 to |formatsList|
        invariant en.host == this
        invariant CatalogState(floppyFormats, fileSystems, en.currentCategory) == Enumerate(formatsList[..i])
      {
        assert formatsList[..i + 1][..i] == formatsList[..i];
        match formatsList[i]
        case SelectCategory(name) => en.SetCategory(name);
        case AddFloppy(m) => en.AddFloppyFormat(m);
        case AddFileSystem(fs) => en.AddFileSystem(fs);
        case AddCassettes =>
      }
      assert formatsList[..|formatsList|] == formatsList;
      EnumerateShape(formatsList);
      NameAtMostIsTotalPreorder<FloppyFormat>();
      NameAtMostIsTotalPreorder<FileSystem>();
      SortBySorted(floppyFormats, NameAtMost<FloppyFormat>);
      SortBySorted(fileSystems, NameAtMost<FileSystem>);
      ghost var unsortedFloppies, unsortedFileSystems := floppyFormats, fileSystems;
      floppyFormats := SortBy(floppyFormats, NameAtMost<FloppyFormat>);
      fileSystems := SortBy(fileSystems, NameAtMost<FileSystem>);
      forall c | c in floppyFormats ensures |c.items| > 0 {
        assert c in multiset(floppyFormats);
        assert c in unsortedFloppies;
      }
      forall c | c in fileSystems ensures |c.items| > 0 {
        assert c in multiset(fileSystems);
        assert c in unsortedFileSystems;
      }
    }

    /** Floptool::identify: every catalogued format MAME scores non-zero, grouped by
        category; each category sorted by descending score, then the categories by
        descending best score. `score` is what the format's identify reports for
        the file being identified. */
    method Identify(score: MameFormat -> bv8) returns (results: seq<Category<IdentifyResult>>)
      ensures multiset(FlattenNamed(results)) == multiset(HitsOf(FlattenNamed(floppyFormats), score))
      ensures KeysDistinct(results, CategoryName<IdentifyResult>)
      ensures NonEmptyCategories(results)
      ensures forall c :: c in results ==> SortedBy(c.items, ScoreAtLeast)
      ensures SortedBy(results, FirstScoreAtLeast)
    {
      results := CollectHits(score);
      ghost var grouped := results;
      GroupShape(HitsOf(FlattenNamed(floppyFormats), score));
      results := SortEachCategory(results);
      SortedWithinShape(grouped);

      ghost var within := results;
      results := SortBy(results, FirstScoreAtLeast);
      SortBySorted(within, FirstScoreAtLeast);
      ConcatMapSortBy(within, FirstScoreAtLeast, NamedItems<IdentifyResult>);
      SortByKeepsKeysDistinct(within, FirstScoreAtLeast, CategoryName<IdentifyResult>);
      forall c | c in results ensures |c.items| > 0 && SortedBy(c.items, ScoreAtLeast) {
        assert c in multiset(results);
        assert c in within;
      }
    }

    /** The scoring loop of Floptool::identify, before the sorts: the reports grouped
        by category name in the order the categories first report. */
    method CollectHits(score: MameFormat -> bv8) returns (results: seq<Category<IdentifyResult>>)
      ensures results == Group(HitsOf(FlattenNamed(floppyFormats), score))
    {
      var catalog := floppyFormats;
      results := [];
      for i := 0 to |catalog|
        invariant results == Group(HitsOf(FlattenNamed(catalog[..i]), score))
      {
        results := CollectCategory(results, FlattenNamed(catalog[..i]), catalog[i], score);
        FlattenNamedPrefix(catalog, i);
      }
      assert catalog[..|catalog|] == catalog;
    }

    /** The inner loop of the scoring: the reports of one category's formats, added
        to the groups built from the formats scored so far. */
    static method CollectCategory(groups: seq<Category<IdentifyResult>>, ghost scored: seq<Named<FloppyFormat>>,
                                  cat: Category<FloppyFormat>, score: MameFormat -> bv8)
      returns (results: seq<Category<IdentifyResult>>)
      requires groups == Group(HitsOf(scored, score))
      ensures results == Group(HitsOf(scored + NamedItems(cat), score))
    {
      results := groups;
      ghost var seen := scored;
      assert cat.items[..0] == [];
      for j := 0 to |cat.items|
        invariant seen == scored + ConcatMap(cat.items[..j], Tag(cat.categoryName))
        invariant results == Group(HitsOf(seen, score))
      {
        var f := cat.items[j];
        ghost var entry := Named(cat.categoryName, f);
        var s := score(f.mameFormat);
        ghost var scoredAs := s;
        if s != 0 {
          if FileExtension in f.fileExtensions {
            s := s | FifidExt;
          }
          assert s == ReportedScore(f, scoredAs);
          results := GroupAdd(results, Named(cat.categoryName, IdentifyResult(s, f)));
        }
        assert results == Group(HitsOf(seen + [entry], score)) by {
          CollectStep(seen, entry, score);
        }
        assert seen + [entry] == scored + ConcatMap(cat.items[..j + 1], Tag(cat.categoryName)) by {
          TagPrefix(cat.items, j, cat.categoryName);
          AppendAssociative(scored, ConcatMap(cat.items[..j], Tag(cat.categoryName)), [entry]);
        }
        seen := seen + [entry];
      }
      assert cat.items[..|cat.items|] == cat.items;
    }

    /** Floptool::findFloppyFormat: the first format of the flattened catalog with
        that name, or null. */
    function FindFloppyFormat(name: string): (r: Option<FloppyFormat>)
      reads this
      ensures r.None? <==> forall f :: f in Flatten(floppyFormats) ==> f.mameFormat.name != name
      ensures r.Some? ==>
        exists k :: 0 <= k < |Flatten(floppyFormats)| && Flatten(floppyFormats)[k] == r.value
          && r.value.mameFormat.name == name
          && forall j :: 0 <= j < k ==> Flatten(floppyFormats)[j].mameFormat.name != name
    {
      var flat := Flatten(floppyFormats);
      var k := FindFirst(flat, FloppyFormatName, name);
      if k < |flat| then Some(flat[k]) else None
    }

    /** Floptool::findFileSystem: the first file system of the flattened catalog with
        that name, or null. */
    function FindFileSystem(name: string): (r: Option<FileSystem>)
      reads this
      ensures r.None? <==> forall f :: f in Flatten(fileSystems) ==> f.name != name
      ensures r.Some? ==>
        exists k :: 0 <= k < |Flatten(fileSystems)| && Flatten(fileSystems)[k] == r.value
          && r.value.name == name
          && forall j :: 0 <= j < k ==> Flatten(fileSystems)[j].name != name
    {
      var flat := Flatten(fileSystems);
      var k := FindFirst(flat, FileSystemName, name);
      if k < |flat| then Some(flat[k]) else None
    }
  }

  /** The first of identify's two sorts: each category's results by descending score. */
  method SortEachCategory(groups: seq<Category<IdentifyResult>>) returns (results: seq<Category<IdentifyResult>>)
    ensures results == SortedWithin(groups)
  {
    results := groups;
    for i := 0 to |results|
      invariant |results| == |groups|
      invariant forall k :: 0 <= k < i ==> results[k] == SortedWithin(groups)[k]
      invariant forall k :: i <= k < |results| ==> results[k] == groups[k]
    {
      results := results[i := Category(results[i].categoryName, SortBy(results[i].items, ScoreAtLeast))];
    }
  }

  /** Floptool::MameFormatsEnumeratorImpl: remembers the current category and adds
      formats and file systems to its host's lists. */
  class FormatsEnumerator {
    const host: Floptool
    var currentCategory: string

    constructor (host: Floptool)
      ensures this.host == host && currentCategory == ""
    {
      this.host := host;
      currentCategory := "";
    }

    /** MameFormatsEnumeratorImpl::category */
    method SetCategory(name: string)
      modifies this
      ensures currentCategory == name
    {
      currentCategory := name;
    }

    /** MameFormatsEnumeratorImpl::add(const floppy_image_format_t &) */
    method AddFloppyFormat(mameFormat: MameFormat)
      modifies host
      ensures host.floppyFormats == AddToCategory(old(host.floppyFormats), currentCategory, MakeFloppyFormat(mameFormat))
      ensures host.fileSystems == old(host.fileSystems)
    {
      var f := NewFloppyFormat(mameFormat);
      var cats := host.floppyFormats;
      if cats == [] || cats[|cats| - 1].categoryName != currentCategory {
        cats := cats + [Category(currentCategory, [])];
      }
      var n := |cats| - 1;
      assert [] + [f] == [f];
      cats := cats[n := cats[n].(items := cats[n].items + [f])];
      host.floppyFormats := cats;
    }

    /** MameFormatsEnumeratorImpl::add(const fs::manager_t &) */
    method AddFileSystem(fileSystem: FileSystem)
      modifies host
      ensures host.fileSystems == AddToCategory(old(host.fileSystems), currentCategory, fileSystem)
      ensures host.floppyFormats == old(host.floppyFormats)
    {
      var cats := host.fileSystems;
      if cats == [] || cats[|cats| - 1].categoryName != currentCategory {
        cats := cats + [Category(currentCategory, [])];
      }
      var n := |cats| - 1;
      assert [] + [fileSystem] == [fileSystem];
      cats := cats[n := cats[n].(items := cats[n].items + [fileSystem])];
      host.fileSystems := cats;
    }
  }
}
