/** qfloptool's ImageItemModel: the lazily loaded directory tree of a mounted image,
    its Qt item-model addressing, and extraction of files and directories to the
    local disk. The mounted MAME file system is data (its listings, metadata and
    file contents by path); the local disk is an object that records what was
    written to it. */
module ImageItems {

  import opened Wrappers
  import opened Qt
  import opened Floptool
  import opened Sorting

  // ---------------------------------------------------------------------------
  //  The mounted file system
  // ---------------------------------------------------------------------------

  /** fs::meta_data: metadata values by name. */
  type MetaData = map<MetaName, string>

  /** fs::dir_entry_type */
  datatype MameEntryType = MameDir | MameFile

  /** fs::dir_entry as directory_contents reports it. */
  datatype MameDirEntry = MameDirEntry(entryType: MameEntryType, name: string)

  /** The mounted fs::filesystem_t: what directory_contents, metadata and file_read
      answer for each path; a path outside `files` is a read error. */
  datatype MameFs = MameFs(
    listings: map<seq<string>, seq<MameDirEntry>>,
    metadata: map<seq<string>, MetaData>,
    files: map<seq<string>, seq<bv8>>)

  /** directory_contents(path).second: the listing, empty where there is none. */
  function Listing(fs: MameFs, path: seq<string>): seq<MameDirEntry>
  {
    if path in fs.listings then fs.listings[path] else []
  }

  /** metadata(path).second */
  function Metadata(fs: MameFs, path: seq<string>): MetaData
  {
    if path in fs.metadata then fs.metadata[path] else map[]
  }

  /** The length of the longest path that has a listing. */
  ghost function MaxPathLength(paths: set<seq<string>>): (m: nat)
    ensures forall p :: p in paths ==> |p| <= m
  {
    if paths == {} then 0
    else
      var p :| p in paths;
      var m := MaxPathLength(paths - {p});
      if |p| > m then |p| else m
  }

  ghost function Depth(fs: MameFs): nat
  {
    MaxPathLength(fs.listings.Keys)
  }

  lemma ListedPathIsShort(fs: MameFs, path: seq<string>)
    requires |Listing(fs, path)| > 0
    ensures |path| <= Depth(fs)
  {
  }

  // ---------------------------------------------------------------------------
  //  The tree
  // ---------------------------------------------------------------------------

  /** ImageItemModel::EntryType */
  datatype EntryType = Dir | File

  function KindOf(t: MameEntryType): EntryType
  {
    match t
    case MameDir => Dir
    case MameFile => File
  }

  /** ImageItemModel::DirectoryEntry; `directoryIndex` is -1 until the directory's
      own slot has been loaded. */
  datatype DirectoryEntry = DirectoryEntry(
    entryType: EntryType,
    name: string,
    directoryIndex: int,
    metadata: MetaData,
    isExpanded: bool)

  /** ImageItemModel::Directory: one slot of the tree, with the (slot, row) of the
      entry it was loaded for, or (-1, -1) for the root. */
  datatype Directory = Directory(parentIndex: int, parentEntryIndex: int, children: seq<DirectoryEntry>)

  /** Slot d names an entry of an earlier slot. */
  ghost predicate HasParent(dirs: seq<Directory>, d: int)
    requires 0 <= d < |dirs|
  {
    0 <= dirs[d].parentIndex < d && 0 <= dirs[d].parentEntryIndex < |dirs[dirs[d].parentIndex].children|
  }

  /** Every slot but the first names an entry of an earlier slot. */
  ghost predicate BackLinked(dirs: seq<Directory>)
  {
    forall d :: 0 < d < |dirs| ==> HasParent(dirs, d)
  }

  /** The path on the image of slot d: appendDirectoryPath's result. */
  function PathOf(dirs: seq<Directory>, d: int): seq<string>
    requires BackLinked(dirs) && 0 <= d < |dirs|
    decreases d
  {
    if d <= 0 then []
    else
      assert HasParent(dirs, d);
      var p := dirs[d].parentIndex;
      PathOf(dirs, p) + [dirs[p].children[dirs[d].parentEntryIndex].name]
  }

  /** The entry at (d, r) is unresolved, or it is a directory whose slot comes later
      and links back to it. */
  ghost predicate LinksForward(dirs: seq<Directory>, d: int, r: int)
    requires 0 <= d < |dirs| && 0 <= r < |dirs[d].children|
  {
    var e := dirs[d].children[r];
    e.directoryIndex == -1
    || (&& e.entryType == Dir
        && d < e.directoryIndex < |dirs|
        && dirs[e.directoryIndex].parentIndex == d
        && dirs[e.directoryIndex].parentEntryIndex == r)
  }

  /** The entry slot d was loaded for is resolved to d. */
  ghost predicate ParentPointsBack(dirs: seq<Directory>, d: int)
    requires 0 < d < |dirs| && HasParent(dirs, d)
  {
    dirs[dirs[d].parentIndex].children[dirs[d].parentEntryIndex].directoryIndex == d
  }

  /** The shape of the slot vector: the root first, back-links to earlier slots,
      and every resolved entry and the slot loaded for it pointing at each other. */
  ghost predicate WellLinked(dirs: seq<Directory>)
  {
    && |dirs| > 0
    && dirs[0].parentIndex == -1 && dirs[0].parentEntryIndex == -1
    && BackLinked(dirs)
    && (forall d :: 0 < d < |dirs| ==> ParentPointsBack(dirs, d))
    && (forall d, r :: 0 <= d < |dirs| && 0 <= r < |dirs[d].children| ==> LinksForward(dirs, d, r))
  }

  /** The entries of a slot are the image's listing of its path, in order. */
  ghost predicate Matches(children: seq<DirectoryEntry>, fs: MameFs, path: seq<string>)
  {
    var listing := Listing(fs, path);
    && |children| == |listing|
    && forall k :: 0 <= k < |children| ==>
         && children[k].entryType == KindOf(listing[k].entryType)
         && children[k].name == listing[k].name
         && children[k].metadata == Metadata(fs, path + [listing[k].name])
  }

  ghost predicate Mirrors(dirs: seq<Directory>, fs: MameFs)
    requires BackLinked(dirs)
  {
    forall d :: 0 <= d < |dirs| ==> Matches(dirs[d].children, fs, PathOf(dirs, d))
  }

  /** An entry as loadDirectory creates it. */
  function FreshEntry(fs: MameFs, path: seq<string>, c: MameDirEntry): DirectoryEntry
  {
    DirectoryEntry(KindOf(c.entryType), c.name, -1, Metadata(fs, path + [c.name]), false)
  }

  function FreshEntries(fs: MameFs, path: seq<string>): (r: seq<DirectoryEntry>)
    ensures Matches(r, fs, path)
    ensures forall k :: 0 <= k < |r| ==> r[k].directoryIndex == -1 && !r[k].isExpanded
  {
    var listing := Listing(fs, path);
    seq(|listing|, k requires 0 <= k < |listing| => FreshEntry(fs, path, listing[k]))
  }

  /** The tree with the entry at (d, r) replaced. */
  function WithEntry(dirs: seq<Directory>, d: int, r: int, e: DirectoryEntry): seq<Directory>
    requires 0 <= d < |dirs| && 0 <= r < |dirs[d].children|
  {
    dirs[d := dirs[d].(children := dirs[d].children[r := e])]
  }

  /** The entries keep their kind, name and metadata, and a resolved entry stays
      resolved to the same slot. */
  ghost predicate SameEntry(x: DirectoryEntry, y: DirectoryEntry)
  {
    && x.entryType == y.entryType && x.name == y.name && x.metadata == y.metadata
    && (x.directoryIndex >= 0 ==> y.directoryIndex == x.directoryIndex)
  }

  /** `b` is `a` with slots appended and entries resolved: nothing is removed,
      reordered or renamed. */
  ghost predicate Extends(a: seq<Directory>, b: seq<Directory>)
  {
    && |a| <= |b|
    && forall d :: 0 <= d < |a| ==>
         && b[d].parentIndex == a[d].parentIndex
         && b[d].parentEntryIndex == a[d].parentEntryIndex
         && |b[d].children| == |a[d].children|
         && forall r :: 0 <= r < |a[d].children| ==> SameEntry(a[d].children[r], b[d].children[r])
  }

  lemma ExtendsTransitive(a: seq<Directory>, b: seq<Directory>, c: seq<Directory>)
    requires Extends(a, b) && Extends(b, c)
    ensures Extends(a, c)
  {
  }

  /** A slot's path only depends on the slots before it and their entries' names. */
  lemma {:induction false} PathOfStable(a: seq<Directory>, b: seq<Directory>, d: int)
    requires BackLinked(a) && BackLinked(b) && Extends(a, b) && 0 <= d < |a|
    ensures PathOf(b, d) == PathOf(a, d)
    decreases d
  {
    if d > 0 {
      assert HasParent(a, d);
      PathOfStable(a, b, a[d].parentIndex);
    }
  }

  /** The slot loaded for a resolved entry has the entry's path. */
  lemma PathOfResolved(dirs: seq<Directory>, d: int, r: int)
    requires WellLinked(dirs) && 0 <= d < |dirs| && 0 <= r < |dirs[d].children|
    requires dirs[d].children[r].directoryIndex >= 0
    ensures d < dirs[d].children[r].directoryIndex < |dirs|
    ensures PathOf(dirs, dirs[d].children[r].directoryIndex) == PathOf(dirs, d) + [dirs[d].children[r].name]
  {
    assert LinksForward(dirs, d, r);
  }

  /** The entry at (d, r) can be given a slot of its own. */
  predicate CanLoad(dirs: seq<Directory>, d: int, r: int)
  {
    && 0 <= d < |dirs| && 0 <= r < |dirs[d].children|
    && dirs[d].children[r].entryType == Dir
    && dirs[d].children[r].directoryIndex < 0
  }

  /** What loadDirectory(p, pe) makes of the tree: one more slot, holding the listing
      of the entry's path, and the entry resolved to it. (-1, -1) loads the root. */
  function AfterLoad(dirs: seq<Directory>, fs: MameFs, p: int, pe: int): seq<Directory>
    requires (dirs == [] && p == -1 && pe == -1) || (BackLinked(dirs) && 0 <= p < |dirs| && 0 <= pe < |dirs[p].children|)
  {
    if p >= 0 && pe >= 0 then
      var e := dirs[p].children[pe];
      WithEntry(dirs, p, pe, e.(directoryIndex := |dirs|))
        + [Directory(p, pe, FreshEntries(fs, PathOf(dirs, p) + [e.name]))]
    else
      [Directory(p, pe, FreshEntries(fs, []))]
  }

  /** The slot vector with an empty slot appended for (p, pe): still back-linked, and
      the new slot has the path of the entry it is loaded for. */
  lemma PendingSlot(dirs: seq<Directory>, p: int, pe: int)
    requires (dirs == [] && p == -1 && pe == -1) || (BackLinked(dirs) && CanLoad(dirs, p, pe))
    ensures BackLinked(dirs + [Directory(p, pe, [])])
    ensures p >= 0 && pe >= 0 ==>
      PathOf(dirs + [Directory(p, pe, [])], |dirs|) == PathOf(dirs, p) + [dirs[p].children[pe].name]
    ensures p < 0 ==> PathOf(dirs + [Directory(p, pe, [])], |dirs|) == []
  {
    var b := dirs + [Directory(p, pe, [])];
    if p >= 0 {
      assert Extends(dirs, b);
      forall k | 0 < k < |b| ensures HasParent(b, k) {
        if k < |dirs| {
          assert HasParent(dirs, k);
        }
      }
      PathOfStable(dirs, b, p);
    }
  }

  lemma WithEntryAppended(dirs: seq<Directory>, x: Directory, d: int, r: int, e: DirectoryEntry)
    requires 0 <= d < |dirs| && 0 <= r < |dirs[d].children|
    ensures WithEntry(dirs + [x], d, r, e) == WithEntry(dirs, d, r, e) + [x]
  {
  }

  lemma AfterLoadRoot(fs: MameFs)
    ensures WellLinked(AfterLoad([], fs, -1, -1))
    ensures Mirrors(AfterLoad([], fs, -1, -1), fs)
  {
    var b := AfterLoad([], fs, -1, -1);
    assert PathOf(b, 0) == [];
  }

  lemma AfterLoadShape(dirs: seq<Directory>, fs: MameFs, p: int, pe: int)
    requires WellLinked(dirs) && CanLoad(dirs, p, pe)
    ensures |AfterLoad(dirs, fs, p, pe)| == |dirs| + 1
    ensures AfterLoad(dirs, fs, p, pe)[|dirs|] == Directory(p, pe, FreshEntries(fs, PathOf(dirs, p) + [dirs[p].children[pe].name]))
    ensures BackLinked(AfterLoad(dirs, fs, p, pe))
    ensures Extends(dirs, AfterLoad(dirs, fs, p, pe))
    ensures forall d, r :: 0 <= d < |dirs| && 0 <= r < |dirs[d].children| && (d != p || r != pe) ==>
      AfterLoad(dirs, fs, p, pe)[d].children[r] == dirs[d].children[r]
    ensures AfterLoad(dirs, fs, p, pe)[p].children[pe] == dirs[p].children[pe].(directoryIndex := |dirs|)
  {
    var n := |dirs|;
    var e := dirs[p].children[pe];
    var w := WithEntry(dirs, p, pe, e.(directoryIndex := n));
    var b := AfterLoad(dirs, fs, p, pe);
    assert b == w + [Directory(p, pe, FreshEntries(fs, PathOf(dirs, p) + [e.name]))];
    assert forall d :: 0 <= d < n ==> b[d] == w[d];
    assert forall d :: 0 <= d < n && d != p ==> w[d] == dirs[d];
    assert w[p].parentIndex == dirs[p].parentIndex && w[p].parentEntryIndex == dirs[p].parentEntryIndex;
    assert |w[p].children| == |dirs[p].children|;
    forall d | 0 < d < |b| ensures HasParent(b, d) {
      if d < n {
        assert HasParent(dirs, d);
      }
    }
  }

  lemma AfterLoadLinked(dirs: seq<Directory>, fs: MameFs, p: int, pe: int)
    requires WellLinked(dirs) && CanLoad(dirs, p, pe)
    ensures WellLinked(AfterLoad(dirs, fs, p, pe))
  {
    var n := |dirs|;
    var b := AfterLoad(dirs, fs, p, pe);
    AfterLoadShape(dirs, fs, p, pe);
    forall d | 0 < d < |b| ensures HasParent(b, d) && ParentPointsBack(b, d) {
      assert HasParent(b, d);
      if d < n {
        assert HasParent(dirs, d) && ParentPointsBack(dirs, d);
        if dirs[d].parentIndex == p && dirs[d].parentEntryIndex == pe {
          assert false;
        }
      }
    }
    forall d, r | 0 <= d < |b| && 0 <= r < |b[d].children| ensures LinksForward(b, d, r) {
      if d < n && !(d == p && r == pe) {
        assert LinksForward(dirs, d, r);
      }
    }
  }

  lemma AfterLoadMirrors(dirs: seq<Directory>, fs: MameFs, p: int, pe: int)
    requires WellLinked(dirs) && Mirrors(dirs, fs) && CanLoad(dirs, p, pe)
    ensures BackLinked(AfterLoad(dirs, fs, p, pe))
    ensures Mirrors(AfterLoad(dirs, fs, p, pe), fs)
    ensures PathOf(AfterLoad(dirs, fs, p, pe), |dirs|) == PathOf(dirs, p) + [dirs[p].children[pe].name]
  {
    var n := |dirs|;
    var b := AfterLoad(dirs, fs, p, pe);
    AfterLoadShape(dirs, fs, p, pe);
    PathOfStable(dirs, b, p);
    forall d | 0 <= d < |b| ensures Matches(b[d].children, fs, PathOf(b, d)) {
      if d < n {
        PathOfStable(dirs, b, d);
        assert Matches(dirs[d].children, fs, PathOf(dirs, d));
      }
    }
  }

  /** Loading keeps the tree well linked and mirroring the image, and only extends it. */
  lemma AfterLoadValid(dirs: seq<Directory>, fs: MameFs, p: int, pe: int)
    requires WellLinked(dirs) && Mirrors(dirs, fs) && CanLoad(dirs, p, pe)
    ensures WellLinked(AfterLoad(dirs, fs, p, pe))
    ensures Extends(dirs, AfterLoad(dirs, fs, p, pe))
    ensures Mirrors(AfterLoad(dirs, fs, p, pe), fs)
    ensures PathOf(AfterLoad(dirs, fs, p, pe), |dirs|) == PathOf(dirs, p) + [dirs[p].children[pe].name]
  {
    AfterLoadShape(dirs, fs, p, pe);
    AfterLoadLinked(dirs, fs, p, pe);
    AfterLoadMirrors(dirs, fs, p, pe);
  }

  /** The tree with an entry replaced by one of the same kind, name, metadata and
      slot: only `isExpanded` can differ. */
  lemma WithEntryKeepsShape(dirs: seq<Directory>, fs: MameFs, d: int, r: int, e: DirectoryEntry)
    requires WellLinked(dirs) && Mirrors(dirs, fs) && 0 <= d < |dirs| && 0 <= r < |dirs[d].children|
    requires SameEntry(dirs[d].children[r], e) && e.directoryIndex == dirs[d].children[r].directoryIndex
    ensures WellLinked(WithEntry(dirs, d, r, e)) && Mirrors(WithEntry(dirs, d, r, e), fs)
    ensures Extends(dirs, WithEntry(dirs, d, r, e)) && Extends(WithEntry(dirs, d, r, e), dirs)
  {
    WithEntryLinked(dirs, d, r, e);
    var b := WithEntry(dirs, d, r, e);
    forall k | 0 <= k < |b| ensures Matches(b[k].children, fs, PathOf(b, k)) {
      PathOfStable(dirs, b, k);
      assert Matches(dirs[k].children, fs, PathOf(dirs, k));
    }
  }

  lemma WithEntryLinked(dirs: seq<Directory>, d: int, r: int, e: DirectoryEntry)
    requires WellLinked(dirs) && 0 <= d < |dirs| && 0 <= r < |dirs[d].children|
    requires SameEntry(dirs[d].children[r], e) && e.directoryIndex == dirs[d].children[r].directoryIndex
    ensures WellLinked(WithEntry(dirs, d, r, e))
    ensures Extends(dirs, WithEntry(dirs, d, r, e)) && Extends(WithEntry(dirs, d, r, e), dirs)
  {
    var b := WithEntry(dirs, d, r, e);
    forall k | 0 < k < |b| ensures HasParent(b, k) && ParentPointsBack(b, k) {
      assert HasParent(dirs, k) && ParentPointsBack(dirs, k);
    }
    forall k, j | 0 <= k < |b| && 0 <= j < |b[k].children| ensures LinksForward(b, k, j) {
      assert LinksForward(dirs, k, j);
    }
  }

  /** What the invariants say about the entry at (d, r). */
  lemma EntryFacts(dirs: seq<Directory>, fs: MameFs, d: int, r: int)
    requires WellLinked(dirs) && Mirrors(dirs, fs) && 0 <= d < |dirs| && 0 <= r < |dirs[d].children|
    ensures var e := dirs[d].children[r];
      && e.directoryIndex >= -1
      && (e.directoryIndex >= 0 ==>
            && e.entryType == Dir && d < e.directoryIndex < |dirs|
            && PathOf(dirs, e.directoryIndex) == PathOf(dirs, d) + [e.name]
            && Matches(dirs[e.directoryIndex].children, fs, PathOf(dirs, e.directoryIndex)))
  {
    assert LinksForward(dirs, d, r);
    if dirs[d].children[r].directoryIndex >= 0 {
      PathOfResolved(dirs, d, r);
    }
  }

  /** Once the entry at (d, r) is resolved in a tree that extends `before`, its slot
      has the entry's path in `before`. */
  lemma ResolvedSlot(before: seq<Directory>, after: seq<Directory>, fs: MameFs, d: int, r: int)
    requires WellLinked(before) && WellLinked(after) && Mirrors(after, fs) && Extends(before, after)
    requires 0 <= d < |before| && 0 <= r < |before[d].children| && after[d].children[r].directoryIndex >= 0
    ensures 0 <= after[d].children[r].directoryIndex < |after|
    ensures PathOf(after, after[d].children[r].directoryIndex) == PathOf(before, d) + [before[d].children[r].name]
  {
    PathOfStable(before, after, d);
    EntryFacts(after, fs, d, r);
  }

  /** The slot an index's children live in (-1 when not loaded) mirrors the image. */
  lemma NodeFacts(dirs: seq<Directory>, fs: MameFs, parent: ModelIndex)
    requires WellLinked(dirs) && Mirrors(dirs, fs) && Addresses(dirs, parent)
    ensures var k := if parent.IsValid() then dirs[parent.internalId].children[parent.row].directoryIndex else 0;
      && -1 <= k < |dirs|
      && (k >= 0 ==> Matches(dirs[k].children, fs, PathOf(dirs, k)))
      && (!parent.IsValid() ==> PathOf(dirs, k) == [])
      && (parent.IsValid() && k >= 0 ==>
            var e := dirs[parent.internalId].children[parent.row];
            e.entryType == Dir && PathOf(dirs, k) == PathOf(dirs, parent.internalId) + [e.name])
  {
    if parent.IsValid() {
      EntryFacts(dirs, fs, parent.internalId, parent.row);
    }
  }

  /** A slot holds as many entries as the image lists at its path. */
  lemma SlotListing(dirs: seq<Directory>, fs: MameFs, slot: int)
    requires BackLinked(dirs) && Mirrors(dirs, fs) && 0 <= slot < |dirs|
    ensures |dirs[slot].children| == |Listing(fs, PathOf(dirs, slot))|
  {
    assert Matches(dirs[slot].children, fs, PathOf(dirs, slot));
  }

  /** The i-th entry of a slot is the i-th entry the image lists at its path. */
  lemma SlotEntry(dirs: seq<Directory>, fs: MameFs, slot: int, i: int)
    requires BackLinked(dirs) && Mirrors(dirs, fs) && 0 <= slot < |dirs| && 0 <= i < |dirs[slot].children|
    ensures i < |Listing(fs, PathOf(dirs, slot))|
    ensures dirs[slot].children[i].name == Listing(fs, PathOf(dirs, slot))[i].name
    ensures dirs[slot].children[i].entryType == KindOf(Listing(fs, PathOf(dirs, slot))[i].entryType)
  {
    assert Matches(dirs[slot].children, fs, PathOf(dirs, slot));
  }

  /** What the invariants say about slot k. */
  lemma SlotFacts(dirs: seq<Directory>, k: int)
    requires WellLinked(dirs) && 0 <= k < |dirs|
    ensures k == 0 ==> dirs[k].parentIndex == -1 && dirs[k].parentEntryIndex == -1
    ensures k > 0 ==> HasParent(dirs, k) && ParentPointsBack(dirs, k)
  {
  }

  /** An index addresses an existing entry when it is valid. */
  ghost predicate Addresses(dirs: seq<Directory>, index: ModelIndex)
  {
    index.IsValid() ==> index.internalId < |dirs| && index.row < |dirs[index.internalId].children|
  }

  /** What loadItem makes of the tree. */
  ghost function AfterLoadItem(dirs: seq<Directory>, fs: MameFs, index: ModelIndex): seq<Directory>
    requires WellLinked(dirs) && Addresses(dirs, index)
  {
    if index.IsValid() && CanLoad(dirs, index.internalId, index.row) then AfterLoad(dirs, fs, index.internalId, index.row)
    else dirs
  }

  /** loadItem resolves an unresolved directory entry and does nothing else: a file
      entry, a resolved entry or the root leave the tree as it is, so a second call
      changes nothing. */
  lemma LoadItemIdempotent(dirs: seq<Directory>, fs: MameFs, index: ModelIndex)
    requires WellLinked(dirs) && Mirrors(dirs, fs) && Addresses(dirs, index)
    ensures WellLinked(AfterLoadItem(dirs, fs, index)) && Addresses(AfterLoadItem(dirs, fs, index), index)
    ensures AfterLoadItem(AfterLoadItem(dirs, fs, index), fs, index) == AfterLoadItem(dirs, fs, index)
    ensures index.IsValid() && dirs[index.internalId].children[index.row].entryType == Dir ==>
      AfterLoadItem(dirs, fs, index)[index.internalId].children[index.row].directoryIndex >= 0
    ensures !index.IsValid() || dirs[index.internalId].children[index.row].entryType == File ==>
      AfterLoadItem(dirs, fs, index) == dirs
  {
    if index.IsValid() && CanLoad(dirs, index.internalId, index.row) {
      AfterLoadValid(dirs, fs, index.internalId, index.row);
      AfterLoadShape(dirs, fs, index.internalId, index.row);
    } else if index.IsValid() && dirs[index.internalId].children[index.row].entryType == Dir {
      assert LinksForward(dirs, index.internalId, index.row);
    }
  }

  /** What setExpanded makes of the tree. */
  function AfterSetExpanded(dirs: seq<Directory>, index: ModelIndex, expanded: bool): seq<Directory>
    requires Addresses(dirs, index)
  {
    if index.IsValid() && dirs[index.internalId].children[index.row].isExpanded != expanded then
      var e := dirs[index.internalId].children[index.row];
      WithEntry(dirs, index.internalId, index.row, e.(isExpanded := expanded))
    else dirs
  }

  /** setExpanded changes the addressed entry's expansion flag and nothing else: no
      slot, link or other entry, so the tree stays well formed; setting it to the
      value it already has, or twice, changes nothing more. */
  lemma SetExpandedFrame(dirs: seq<Directory>, fs: MameFs, index: ModelIndex, expanded: bool)
    requires WellLinked(dirs) && Mirrors(dirs, fs) && Addresses(dirs, index)
    ensures var b := AfterSetExpanded(dirs, index, expanded);
      && WellLinked(b) && Mirrors(b, fs) && Extends(dirs, b) && Extends(b, dirs)
      && Addresses(b, index)
      && (index.IsValid() ==> b[index.internalId].children[index.row].isExpanded == expanded)
      && (forall d, r :: 0 <= d < |dirs| && 0 <= r < |dirs[d].children| && b[d].children[r] != dirs[d].children[r] ==>
            index.IsValid() && d == index.internalId && r == index.row
            && b[d].children[r] == dirs[d].children[r].(isExpanded := expanded))
      && AfterSetExpanded(b, index, expanded) == b
  {
    if index.IsValid() && dirs[index.internalId].children[index.row].isExpanded != expanded {
      var e := dirs[index.internalId].children[index.row];
      WithEntryKeepsShape(dirs, fs, index.internalId, index.row, e.(isExpanded := expanded));
    }
  }

  /** The meta names of `names` followed by those of `extra` not already present. */
  function WithMissing(names: seq<MetaName>, extra: seq<MetaName>): seq<MetaName>
  {
    if extra == [] then names
    else
      var w := WithMissing(names, extra[..|extra| - 1]);
      var x := extra[|extra| - 1];
      if x in w then w else w + [x]
  }

  /** The column names: the file meta names as given, then each directory meta name
      that is not among them, once; a name is a column exactly when it is in either
      list. */
  lemma {:induction false} WithMissingUnion(names: seq<MetaName>, extra: seq<MetaName>)
    ensures |WithMissing(names, extra)| >= |names|
    ensures WithMissing(names, extra)[..|names|] == names
    ensures forall x :: x in WithMissing(names, extra) <==> x in names || x in extra
    ensures forall i :: |names| <= i < |WithMissing(names, extra)| ==> WithMissing(names, extra)[i] !in names
    ensures forall i, j :: |names| <= i < j < |WithMissing(names, extra)| ==>
      WithMissing(names, extra)[i] != WithMissing(names, extra)[j]
  {
    if extra != [] {
      var init := extra[..|extra| - 1];
      WithMissingUnion(names, init);
      var w := WithMissing(names, init);
      var x := extra[|extra| - 1];
      assert extra == init + [x];
      if x !in w {
        assert (w + [x])[..|names|] == w[..|names|];
      }
    }
  }

  method UnionMetaNames(fileMetaNames: seq<MetaName>, directoryMetaNames: seq<MetaName>) returns (names: seq<MetaName>)
    ensures names == WithMissing(fileMetaNames, directoryMetaNames)
  {
    names := [];
    for i := 0 to |fileMetaNames|
      invariant names == fileMetaNames[..i]
    {
      names := names + [fileMetaNames[i]];
    }
    assert fileMetaNames[..|fileMetaNames|] == fileMetaNames;
    for i := 0 to |directoryMetaNames|
      invariant names == WithMissing(fileMetaNames, directoryMetaNames[..i])
    {
      assert directoryMetaNames[..i + 1][..i] == directoryMetaNames[..i];
      if directoryMetaNames[i] !in names {
        names := names + [directoryMetaNames[i]];
      }
    }
    assert directoryMetaNames[..|directoryMetaNames|] == directoryMetaNames;
  }

  /** The internal id Qt gets for a slot number: quintptr(-1) for an unresolved entry. */
  function SlotId(slot: int): (id: nat)
    requires slot >= -1
    ensures slot >= 0 ==> id == slot
    ensures slot == -1 ==> id == QuintptrModulus - 1
  {
    if slot < 0 then ToQuintptr(slot) else slot
  }

  // ---------------------------------------------------------------------------
  //  The local disk extraction writes to
  // ---------------------------------------------------------------------------

  /** What extraction does to the local disk, in order. */
  datatype LocalWrite = MadeDirectory(path: string) | WroteFile(path: string, bytes: seq<bv8>)

  /** The local paths where QDir::mkdir and QFile::open fail. */
  datatype LocalEnv = LocalEnv(mkdirFails: set<string>, openFails: set<string>)

  /** The directories present on the local disk and what was written, in order. */
  datatype Outcome = Outcome(dirs: set<string>, log: seq<LocalWrite>)

  /** The local disk, as QDir and QFile see it. */
  class LocalDisk {
    const env: LocalEnv
    var dirs: set<string>
    var log: seq<LocalWrite>

    constructor (env: LocalEnv, dirs: set<string>)
      ensures this.env == env && this.dirs == dirs && log == []
    {
      this.env := env;
      this.dirs := dirs;
      log := [];
    }

    /** QDir(path).exists() */
    predicate Exists(path: string)
      reads this
    {
      path in dirs
    }

    /** QDir().mkdir(path) */
    method MakeDirectory(path: string) returns (ok: bool)
      modifies this
      ensures ok <==> path !in env.mkdirFails
      ensures ok ==> dirs == old(dirs) + {path} && log == old(log) + [MadeDirectory(path)]
      ensures !ok ==> dirs == old(dirs) && log == old(log)
    {
      ok := path !in env.mkdirFails;
      if ok {
        dirs := dirs + {path};
        log := log + [MadeDirectory(path)];
      }
    }

    /** QFile(path).open(QIODevice::WriteOnly), then write the bytes if it opened. */
    method WriteFile(path: string, bytes: seq<bv8>)
      modifies this
      ensures dirs == old(dirs)
      ensures path in env.openFails ==> log == old(log)
      ensures path !in env.openFails ==> log == old(log) + [WroteFile(path, bytes)]
    {
      if path !in env.openFails {
        log := log + [WroteFile(path, bytes)];
      }
    }
  }

  /** What extracting the image entry at `path`, of kind `kind`, to the local path
      `dest` does, starting from the local directories `dirs`. A file is read off the
      image (a path without contents is a read error, and nothing is written) and
      written if it can be opened; a directory is created unless it exists (giving up
      when that fails) and then each entry the image lists in it is extracted to
      `dest/name`, in listing order. */
  ghost function ExtractOutcome(fs: MameFs, path: seq<string>, kind: EntryType, dest: string, env: LocalEnv, dirs: set<string>): Outcome
    decreases Depth(fs) + 1 - |path|, |Listing(fs, path)| + 1
  {
    match kind
    case File =>
      if path in fs.files && dest !in env.openFails then Outcome(dirs, [WroteFile(dest, fs.files[path])])
      else Outcome(dirs, [])
    case Dir =>
      if dest !in dirs && dest in env.mkdirFails then Outcome(dirs, [])
      else
        var made := if dest in dirs then Outcome(dirs, []) else Outcome(dirs + {dest}, [MadeDirectory(dest)]);
        var rest := ExtractChildren(fs, path, 0, dest, env, made.dirs);
        Outcome(rest.dirs, made.log + rest.log)
  }

  /** Extracting the entries listed in the image directory `path` from the i-th on. */
  ghost function ExtractChildren(fs: MameFs, path: seq<string>, i: nat, dest: string, env: LocalEnv, dirs: set<string>): Outcome
    requires i <= |Listing(fs, path)|
    decreases Depth(fs) + 1 - |path|, |Listing(fs, path)| - i
  {
    var listing := Listing(fs, path);
    if i == |listing| then Outcome(dirs, [])
    else
      ListedPathIsShort(fs, path);
      var first := ExtractOutcome(fs, path + [listing[i].name], KindOf(listing[i].entryType), dest + "/" + listing[i].name, env, dirs);
      var rest := ExtractChildren(fs, path, i + 1, dest, env, first.dirs);
      Outcome(rest.dirs, first.log + rest.log)
  }

  lemma ExtractDirectoryUnfold(fs: MameFs, path: seq<string>, dest: string, env: LocalEnv, dirs: set<string>)
    ensures dest !in dirs && dest in env.mkdirFails ==> ExtractOutcome(fs, path, Dir, dest, env, dirs) == Outcome(dirs, [])
    ensures dest in dirs ==>
      var rest := ExtractChildren(fs, path, 0, dest, env, dirs);
      ExtractOutcome(fs, path, Dir, dest, env, dirs) == Outcome(rest.dirs, [] + rest.log)
    ensures dest !in dirs && dest !in env.mkdirFails ==>
      var rest := ExtractChildren(fs, path, 0, dest, env, dirs + {dest});
      ExtractOutcome(fs, path, Dir, dest, env, dirs) == Outcome(rest.dirs, [MadeDirectory(dest)] + rest.log)
  {
  }

  lemma ExtractChildrenUnfold(fs: MameFs, path: seq<string>, i: nat, dest: string, env: LocalEnv, dirs: set<string>)
    requires i < |Listing(fs, path)|
    ensures var c := Listing(fs, path)[i];
      var first := ExtractOutcome(fs, path + [c.name], KindOf(c.entryType), dest + "/" + c.name, env, dirs);
      var rest := ExtractChildren(fs, path, i + 1, dest, env, first.dirs);
      ExtractChildren(fs, path, i, dest, env, dirs) == Outcome(rest.dirs, first.log + rest.log)
  {
  }

  /** The local path an image path below an extracted entry lands on: "/name" per step. */
  function Slashed(s: seq<string>): string
  {
    if s == [] then "" else "/" + s[0] + Slashed(s[1..])
  }

  /** A write mirrors the image below `path` onto the local disk below `dest`: it lands
      on the local counterpart of an image path below `path`, and a file gets that
      image path's contents. */
  ghost predicate FromImage(fs: MameFs, path: seq<string>, dest: string, w: LocalWrite)
  {
    match w
    case MadeDirectory(x) => exists s :: x == dest + Slashed(s)
    case WroteFile(x, bytes) => exists s :: x == dest + Slashed(s) && path + s in fs.files && bytes == fs.files[path + s]
  }

  /** What extraction guarantees about the disk it leaves. */
  ghost predicate SoundOutcome(fs: MameFs, path: seq<string>, dest: string, env: LocalEnv, dirs: set<string>, o: Outcome)
  {
    && dirs <= o.dirs
    && (forall x :: x in o.dirs ==> x in dirs || MadeDirectory(x) in o.log)
    && (forall x :: MadeDirectory(x) in o.log ==> x !in dirs && x !in env.mkdirFails && x in o.dirs)
    && (forall w :: w in o.log ==> FromImage(fs, path, dest, w))
  }

  lemma FromImageStep(fs: MameFs, path: seq<string>, name: string, dest: string, w: LocalWrite)
    requires FromImage(fs, path + [name], dest + "/" + name, w)
    ensures FromImage(fs, path, dest, w)
  {
    match w
    case MadeDirectory(x) =>
      var s :| x == dest + "/" + name + Slashed(s);
      assert ([name] + s)[1..] == s;
      assert x == dest + Slashed([name] + s);
    case WroteFile(x, bytes) =>
      var s :| x == dest + "/" + name + Slashed(s) && path + [name] + s in fs.files && bytes == fs.files[path + [name] + s];
      assert ([name] + s)[1..] == s;
      assert path + [name] + s == path + ([name] + s);
      assert x == dest + Slashed([name] + s);
  }

  /** Extraction only creates directories that were missing and could be created,
      never removes one, and every file it writes is at the local counterpart of an
      image file below the extracted entry and holds that file's bytes. */
  lemma {:induction false} ExtractOutcomeSound(fs: MameFs, path: seq<string>, kind: EntryType, dest: string, env: LocalEnv, dirs: set<string>)
    ensures SoundOutcome(fs, path, dest, env, dirs, ExtractOutcome(fs, path, kind, dest, env, dirs))
    decreases Depth(fs) + 1 - |path|, |Listing(fs, path)| + 1
  {
    var o := ExtractOutcome(fs, path, kind, dest, env, dirs);
    match kind
    case File =>
      if path in fs.files && dest !in env.openFails {
        var here: seq<string> := [];
        assert path + here == path && Slashed(here) == "";
        assert FromImage(fs, path, dest, o.log[0]);
      }
    case Dir =>
      if !(dest !in dirs && dest in env.mkdirFails) {
        var made := if dest in dirs then Outcome(dirs, []) else Outcome(dirs + {dest}, [MadeDirectory(dest)]);
        ExtractChildrenSound(fs, path, 0, dest, env, made.dirs);
        if dest !in dirs {
          var here: seq<string> := [];
          assert Slashed(here) == "";
          assert FromImage(fs, path, dest, MadeDirectory(dest));
        }
      }
  }

  lemma {:induction false} ExtractChildrenSound(fs: MameFs, path: seq<string>, i: nat, dest: string, env: LocalEnv, dirs: set<string>)
    requires i <= |Listing(fs, path)|
    ensures SoundOutcome(fs, path, dest, env, dirs, ExtractChildren(fs, path, i, dest, env, dirs))
    decreases Depth(fs) + 1 - |path|, |Listing(fs, path)| - i
  {
    var listing := Listing(fs, path);
    if i < |listing| {
      ListedPathIsShort(fs, path);
      var name := listing[i].name;
      var first := ExtractOutcome(fs, path + [name], KindOf(listing[i].entryType), dest + "/" + name, env, dirs);
      ExtractOutcomeSound(fs, path + [name], KindOf(listing[i].entryType), dest + "/" + name, env, dirs);
      ExtractChildrenSound(fs, path, i + 1, dest, env, first.dirs);
      forall w | w in first.log ensures FromImage(fs, path, dest, w) {
        FromImageStep(fs, path, name, dest, w);
      }
    }
  }

  // ---------------------------------------------------------------------------
  //  The model
  // ---------------------------------------------------------------------------

  class ImageItemModel {
    /** The mounted file system of the image being shown. */
    const fs: MameFs
    var directories: seq<Directory>
    var metaNames: seq<MetaName>

    ghost predicate Valid()
      reads this
    {
      WellLinked(directories) && Mirrors(directories, fs)
    }

    /** ImageItemModel::ImageItemModel: load the root, then collect the columns. */
    constructor (fileSystem: FileSystem, mounted: MameFs)
      ensures Valid()
      ensures fs == mounted
      ensures directories == AfterLoad([], mounted, -1, -1)
      ensures metaNames == WithMissing(fileSystem.fileMetaNames, fileSystem.directoryMetaNames)
    {
      fs := mounted;
      directories := [];
      metaNames := [];
      new;
      var root := LoadDirectory(-1, -1);
      metaNames := UnionMetaNames(fileSystem.fileMetaNames, fileSystem.directoryMetaNames);
    }

    /** ImageItemModel::loadDirectory: append a slot for the entry (parentIndex,
        parentEntryIndex), fill it from the image's listing of its path, and resolve
        the entry to it. */
    method LoadDirectory(parentIndex: int, parentEntryIndex: int) returns (newDirectoryIndex: int)
      requires (directories == [] && parentIndex == -1 && parentEntryIndex == -1)
        || (Valid() && CanLoad(directories, parentIndex, parentEntryIndex))
      modifies this
      ensures newDirectoryIndex == old(|directories|)
      ensures directories == AfterLoad(old(directories), fs, parentIndex, parentEntryIndex)
      ensures metaNames == old(metaNames)
      ensures Valid() && Extends(old(directories), directories)
    {
      ghost var before := directories;
      newDirectoryIndex := |directories|;
      directories := directories + [Directory(parentIndex, parentEntryIndex, [])];
      PendingSlot(before, parentIndex, parentEntryIndex);
      var path := AppendDirectoryPath([], newDirectoryIndex);
      var dirContents := Listing(fs, path);
      var children: seq<DirectoryEntry> := [];
      for i := 0 to |dirContents|
        invariant |children| == i
        invariant forall k :: 0 <= k < i ==> children[k] == FreshEntry(fs, path, dirContents[k])
      {
        var mameChild := dirContents[i];
        var childPath := path + [mameChild.name];
        var metadata := Metadata(fs, childPath);
        var entryType := match mameChild.entryType
          case MameFile => File
          case MameDir => Dir;
        children := children + [DirectoryEntry(entryType, childPath[|childPath| - 1], -1, metadata, false)];
      }
      assert children == FreshEntries(fs, path);
      var filled := Directory(parentIndex, parentEntryIndex, children);
      directories := directories[newDirectoryIndex := filled];
      assert directories == before + [filled];
      if parentIndex >= 0 && parentEntryIndex >= 0 {
        assert path == PathOf(before, parentIndex) + [before[parentIndex].children[parentEntryIndex].name];
        var entry := directories[parentIndex].children[parentEntryIndex];
        directories := WithEntry(directories, parentIndex, parentEntryIndex, entry.(directoryIndex := newDirectoryIndex));
        WithEntryAppended(before, filled, parentIndex, parentEntryIndex, entry.(directoryIndex := newDirectoryIndex));
        AfterLoadValid(before, fs, parentIndex, parentEntryIndex);
      } else {
        assert path == [];
        AfterLoadRoot(fs);
      }
    }

    /** ImageItemModel::appendDirectoryPath */
    method AppendDirectoryPath(path: seq<string>, directoryIndex: int) returns (result: seq<string>)
      requires BackLinked(directories) && 0 <= directoryIndex < |directories|
      ensures result == path + PathOf(directories, directoryIndex)
      decreases directoryIndex
    {
      result := path;
      if directoryIndex > 0 {
        assert HasParent(directories, directoryIndex);
        var parentIndex := directories[directoryIndex].parentIndex;
        var parentEntryIndex := directories[directoryIndex].parentEntryIndex;
        result := AppendDirectoryPath(result, parentIndex);
        result := result + [directories[parentIndex].children[parentEntryIndex].name];
      }
    }

    /** ImageItemModel::findDirectoryEntry: the entry a valid index addresses, which
        is the image's entry at that row of that slot's directory. */
    function FindDirectoryEntry(index: ModelIndex): (r: Option<DirectoryEntry>)
      reads this
      requires Valid() && Addresses(directories, index)
      ensures r.Some? <==> index.IsValid()
      ensures r.Some? ==>
        var listing := Listing(fs, PathOf(directories, index.internalId));
        && index.row < |listing|
        && r.value.name == listing[index.row].name
        && r.value.entryType == KindOf(listing[index.row].entryType)
    {
      if index.IsValid() then
        assert Matches(directories[index.internalId].children, fs, PathOf(directories, index.internalId));
        Some(directories[index.internalId].children[index.row])
      else None
    }

    /** ImageItemModel::loadItem */
    method LoadItem(index: ModelIndex)
      requires Valid() && Addresses(directories, index)
      modifies this
      ensures directories == AfterLoadItem(old(directories), fs, index)
      ensures metaNames == old(metaNames)
      ensures Valid() && Extends(old(directories), directories)
    {
      var parentDirectoryEntry := FindDirectoryEntry(index);
      if parentDirectoryEntry.Some? && parentDirectoryEntry.value.entryType == Dir
        && parentDirectoryEntry.value.directoryIndex < 0
      {
        var n := LoadDirectory(index.internalId, index.row);
        var d, r := index.internalId, index.row;
        assert directories[d].children[r].directoryIndex == n;
        assert directories[d].children[r := directories[d].children[r].(directoryIndex := n)] == directories[d].children;
        directories := WithEntry(directories, d, r, directories[d].children[r].(directoryIndex := n));
      }
    }

    /** ImageItemModel::setExpanded */
    method SetExpanded(index: ModelIndex, expanded: bool)
      requires Valid() && Addresses(directories, index)
      modifies this
      ensures directories == AfterSetExpanded(old(directories), index, expanded)
      ensures metaNames == old(metaNames)
      ensures Valid()
    {
      SetExpandedFrame(directories, fs, index, expanded);
      var directoryEntry := FindDirectoryEntry(index);
      if directoryEntry.Some? && expanded != directoryEntry.value.isExpanded {
        directories := WithEntry(directories, index.internalId, index.row, directoryEntry.value.(isExpanded := expanded));
      }
    }

    /** ImageItemModel::index: the child (row, column) of `parent`, identified by the
        slot loaded for the parent entry (slot 0 for the root). */
    function Index(row: int, column: int, parent: ModelIndex): (r: ModelIndex)
      reads this
      requires Valid() && Addresses(directories, parent)
      ensures r.row == row && r.column == column && (r.IsValid() <==> row >= 0 && column >= 0)
      ensures !parent.IsValid() ==> r.internalId == 0
      ensures parent.IsValid() ==>
        var e := directories[parent.internalId].children[parent.row];
        && (e.directoryIndex >= 0 ==>
              && r.internalId == e.directoryIndex < |directories|
              && PathOf(directories, r.internalId) == PathOf(directories, parent.internalId) + [e.name])
        && (e.directoryIndex < 0 ==> r.internalId == QuintptrModulus - 1)
    {
      var parentDirectoryEntry := FindDirectoryEntry(parent);
      if parentDirectoryEntry.Some? then
        EntryFacts(directories, fs, parent.internalId, parent.row);
        CreateIndex(row, column, SlotId(parentDirectoryEntry.value.directoryIndex))
      else
        CreateIndex(row, column, 0)
    }

    /** ImageItemModel::parent: the entry the child's slot was loaded for, or the
        invalid index for children of the root. */
    function Parent(child: ModelIndex): (r: ModelIndex)
      reads this
      requires Valid() && child.internalId < |directories|
      ensures child.internalId == 0 ==> r == InvalidIndex
      ensures child.internalId > 0 ==>
        && r.column == child.column && (r.IsValid() <==> child.column >= 0)
        && r.internalId < child.internalId && 0 <= r.row < |directories[r.internalId].children|
        && directories[r.internalId].children[r.row].directoryIndex == child.internalId
    {
      var directory := directories[child.internalId];
      SlotFacts(directories, child.internalId);
      if directory.parentIndex >= 0 && directory.parentEntryIndex >= 0 then
        CreateIndex(directory.parentEntryIndex, child.column, directory.parentIndex)
      else
        InvalidIndex
    }

    /** ImageItemModel::rowCount: the number of entries the image lists in the
        directory `parent` stands for; 0 for a file or a directory not loaded yet. */
    function RowCount(parent: ModelIndex): (r: int)
      reads this
      requires Valid() && Addresses(directories, parent)
      ensures !parent.IsValid() ==> r == |Listing(fs, [])|
      ensures parent.IsValid() ==>
        var e := directories[parent.internalId].children[parent.row];
        && (e.directoryIndex >= 0 ==> e.entryType == Dir && r == |Listing(fs, PathOf(directories, parent.internalId) + [e.name])|)
        && (e.directoryIndex < 0 ==> r == 0)
        && (e.entryType == File ==> r == 0)
    {
      var parentDirectoryEntry := FindDirectoryEntry(parent);
      var parentDirectoryIndex := if parentDirectoryEntry.Some? then parentDirectoryEntry.value.directoryIndex else 0;
      NodeFacts(directories, fs, parent);
      if parentDirectoryIndex >= 0 then |directories[parentDirectoryIndex].children| else 0
    }

    /** ImageItemModel::columnCount */
    function ColumnCount(parent: ModelIndex): int
      reads this
    {
      |metaNames|
    }

    /** ImageItemModel::hasChildren: whether the image lists anything in the loaded
        directory `parent` stands for. */
    function HasChildren(parent: ModelIndex): (r: bool)
      reads this
      requires Valid() && Addresses(directories, parent)
      ensures !parent.IsValid() ==> (r <==> |Listing(fs, [])| > 0)
      ensures parent.IsValid() ==>
        var e := directories[parent.internalId].children[parent.row];
        r <==> e.directoryIndex >= 0 && |Listing(fs, PathOf(directories, parent.internalId) + [e.name])| > 0
    {
      RowCount(parent) > 0
    }

    /** ImageItemModel::internalExtract: extract the entry at (directoryIndex,
        directoryEntryIndex), whose image path is `pathOnImage`, to the local path
        `path`, loading directories on the way. `pathOnImage` is handed back as it
        came. */
    method InternalExtract(pathOnImage: seq<string>, directoryIndex: int, directoryEntryIndex: int, path: string, disk: LocalDisk)
      returns (restored: seq<string>)
      requires Valid() && 0 <= directoryIndex < |directories| && 0 <= directoryEntryIndex < |directories[directoryIndex].children|
      requires pathOnImage == PathOf(directories, directoryIndex) + [directories[directoryIndex].children[directoryEntryIndex].name]
      modifies this, disk
      ensures restored == pathOnImage
      ensures Valid() && Extends(old(directories), directories) && metaNames == old(metaNames)
      ensures var o := ExtractOutcome(fs, pathOnImage, old(directories[directoryIndex].children[directoryEntryIndex].entryType), path, disk.env, old(disk.dirs));
        disk.dirs == o.dirs && disk.log == old(disk.log) + o.log
      decreases Depth(fs) + 1 - |pathOnImage|, 2
    {
      restored := pathOnImage;
      var directoryEntry := directories[directoryIndex].children[directoryEntryIndex];
      match directoryEntry.entryType
      case File =>
        if pathOnImage in fs.files {
          disk.WriteFile(path, fs.files[pathOnImage]);
        }
      case Dir =>
        restored := ExtractDirectory(pathOnImage, directoryIndex, directoryEntryIndex, path, disk);
    }

    /** The directory case of internalExtract: create the local directory unless it
        exists (giving up if that fails), load the entry's slot if needed, then
        extract its entries. */
    method ExtractDirectory(pathOnImage: seq<string>, directoryIndex: int, directoryEntryIndex: int, path: string, disk: LocalDisk)
      returns (restored: seq<string>)
      requires Valid() && 0 <= directoryIndex < |directories| && 0 <= directoryEntryIndex < |directories[directoryIndex].children|
      requires directories[directoryIndex].children[directoryEntryIndex].entryType == Dir
      requires pathOnImage == PathOf(directories, directoryIndex) + [directories[directoryIndex].children[directoryEntryIndex].name]
      modifies this, disk
      ensures restored == pathOnImage
      ensures Valid() && Extends(old(directories), directories) && metaNames == old(metaNames)
      ensures var o := ExtractOutcome(fs, pathOnImage, Dir, path, disk.env, old(disk.dirs));
        disk.dirs == o.dirs && disk.log == old(disk.log) + o.log
      decreases Depth(fs) + 1 - |pathOnImage|, 1
    {
      restored := pathOnImage;
      ExtractDirectoryUnfold(fs, pathOnImage, path, disk.env, disk.dirs);
      ghost var made: seq<LocalWrite> := [];
      if !disk.Exists(path) {
        var ok := disk.MakeDirectory(path);
        if !ok {
          return;
        }
        made := [MadeDirectory(path)];
      }
      ghost var children := ExtractChildren(fs, pathOnImage, 0, path, disk.env, disk.dirs);
      var slot := EnsureLoaded(directoryIndex, directoryEntryIndex);
      ghost var loaded := directories;
      restored := ExtractEntries(restored, slot, path, disk);
      ExtendsTransitive(old(directories), loaded, directories);
      AppendAssociative(old(disk.log), made, children.log);
    }

    /** The step of internalExtract that loads a directory entry's slot unless it
        is loaded already; the slot's path is the entry's. */
    method EnsureLoaded(directoryIndex: int, directoryEntryIndex: int) returns (slot: int)
      requires Valid() && 0 <= directoryIndex < |directories| && 0 <= directoryEntryIndex < |directories[directoryIndex].children|
      requires directories[directoryIndex].children[directoryEntryIndex].entryType == Dir
      modifies this
      ensures Valid() && Extends(old(directories), directories) && metaNames == old(metaNames)
      ensures directories == AfterLoadItem(old(directories), fs, CreateIndex(directoryEntryIndex, 0, directoryIndex))
      ensures 0 <= slot < |directories| && slot == directories[directoryIndex].children[directoryEntryIndex].directoryIndex
      ensures PathOf(directories, slot) == old(PathOf(directories, directoryIndex)) + [old(directories[directoryIndex].children[directoryEntryIndex].name)]
    {
      if directories[directoryIndex].children[directoryEntryIndex].directoryIndex < 0 {
        var _ := LoadDirectory(directoryIndex, directoryEntryIndex);
        AfterLoadShape(old(directories), fs, directoryIndex, directoryEntryIndex);
      }
      slot := directories[directoryIndex].children[directoryEntryIndex].directoryIndex;
      ResolvedSlot(old(directories), directories, fs, directoryIndex, directoryEntryIndex);
    }

    /** The loop of internalExtract over the entries of the loaded slot `slot`, whose
        image path is `pathOnImage`: each is extracted to `path/name`, in order. */
    method ExtractEntries(pathOnImage: seq<string>, slot: int, path: string, disk: LocalDisk)
      returns (restored: seq<string>)
      requires Valid() && 0 <= slot < |directories| && PathOf(directories, slot) == pathOnImage
      modifies this, disk
      ensures restored == pathOnImage
      ensures Valid() && Extends(old(directories), directories) && metaNames == old(metaNames)
      ensures var o := ExtractChildren(fs, pathOnImage, 0, path, disk.env, old(disk.dirs));
        disk.dirs == o.dirs && disk.log == old(disk.log) + o.log
      decreases Depth(fs) + 1 - |pathOnImage|, 0
    {
      restored := pathOnImage;
      ghost var total := ExtractChildren(fs, pathOnImage, 0, path, disk.env, disk.dirs);
      SlotListing(directories, fs, slot);
      var childIndex := 0;
      while childIndex < |directories[slot].children|
        invariant WellLinked(directories) && Mirrors(directories, fs) && Extends(old(directories), directories)
        invariant metaNames == old(metaNames)
        invariant 0 <= slot < |directories| && PathOf(directories, slot) == pathOnImage
        invariant |directories[slot].children| == |Listing(fs, pathOnImage)|
        invariant 0 <= childIndex <= |Listing(fs, pathOnImage)|
        invariant restored == pathOnImage
        invariant var rest := ExtractChildren(fs, pathOnImage, childIndex, path, disk.env, disk.dirs);
          total.dirs == rest.dirs && old(disk.log) + total.log == disk.log + rest.log
        decreases |Listing(fs, pathOnImage)| - childIndex
      {
        var childEntry := directories[slot].children[childIndex];
        SlotEntry(directories, fs, slot, childIndex);
        ListedPathIsShort(fs, pathOnImage);
        ghost var before := directories;
        ghost var logBefore := disk.log;
        ghost var step := ExtractChildren(fs, pathOnImage, childIndex, path, disk.env, disk.dirs);
        ghost var first := ExtractOutcome(fs, pathOnImage + [childEntry.name], childEntry.entryType, path + "/" + childEntry.name, disk.env, disk.dirs);
        ExtractChildrenUnfold(fs, pathOnImage, childIndex, path, disk.env, disk.dirs);
        restored := restored + [childEntry.name];
        restored := InternalExtract(restored, slot, childIndex, path + "/" + childEntry.name, disk);
        restored := restored[..|restored| - 1];
        PathOfStable(before, directories, slot);
        ExtendsTransitive(old(directories), before, directories);
        SlotListing(directories, fs, slot);
        ghost var rest := ExtractChildren(fs, pathOnImage, childIndex + 1, path, disk.env, disk.dirs);
        AppendAssociative(logBefore, first.log, rest.log);
        childIndex := childIndex + 1;
      }
    }

    /** ImageItemModel::extract: extract the entry `index` addresses to `path`, or to
        `path/name` when the entry's own name is appended; an invalid index does
        nothing. */
    method Extract(index: ModelIndex, path: string, appendImageFileName: bool, disk: LocalDisk)
      requires Valid() && Addresses(directories, index)
      modifies this, disk
      ensures Valid() && Extends(old(directories), directories) && metaNames == old(metaNames)
      ensures !index.IsValid() ==> directories == old(directories) && disk.dirs == old(disk.dirs) && disk.log == old(disk.log)
      ensures index.IsValid() ==>
        var e := old(directories[index.internalId].children[index.row]);
        var o := ExtractOutcome(fs, old(PathOf(directories, index.internalId)) + [e.name], e.entryType,
                                if appendImageFileName then path + "/" + e.name else path, disk.env, old(disk.dirs));
        disk.dirs == o.dirs && disk.log == old(disk.log) + o.log
    {
      if !index.IsValid() {
        return;
      }
      var directoryIndex := index.internalId;
      var directoryEntryIndex := index.row;
      var directoryEntry := directories[directoryIndex].children[directoryEntryIndex];
      var pathOnImage := AppendDirectoryPath([], directoryIndex);
      pathOnImage := pathOnImage + [directoryEntry.name];
      var _ := InternalExtract(pathOnImage, directoryIndex, directoryEntryIndex,
        if appendImageFileName then path + "/" + directoryEntry.name else path, disk);
    }
  }

  /** The parent of a child of a loaded directory entry is that entry, in the
      child's column; children of the root have no parent. */
  lemma ParentOfIndex(m: ImageItemModel, row: int, column: int, parent: ModelIndex)
    requires m.Valid() && Addresses(m.directories, parent)
    requires parent.IsValid() ==> m.directories[parent.internalId].children[parent.row].directoryIndex >= 0
    ensures m.Index(row, column, parent).internalId < |m.directories|
    ensures parent.IsValid() ==> m.Parent(m.Index(row, column, parent)) == CreateIndex(parent.row, column, parent.internalId)
    ensures !parent.IsValid() ==> m.Parent(m.Index(row, column, parent)) == InvalidIndex
  {
    if parent.IsValid() {
      var e := m.directories[parent.internalId].children[parent.row];
      assert LinksForward(m.directories, parent.internalId, parent.row);
    }
  }
}
