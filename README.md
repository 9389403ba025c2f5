# qfloptool core, modelled in Dafny

qfloptool is a Qt front end to MAME's floppy-image library. It identifies the format
of a disk image, mounts a file system on it, browses its directory tree and extracts
files. This project models the program logic that sits between MAME and Qt, in five parts:

- **Catalog, identification and mounting** (`floptool.dfy`, module `Floptool`).
  - Building the catalog of floppy formats and file systems, grouped into named
    categories and sorted by name.
  - Splitting a format's comma-separated extension list.
  - Scoring every format against an image, then grouping and two-level sorting of the hits.
  - Choosing the first (converter, image size) pair whose output has the expected size.
  - Looking up formats and file systems by name.
- **The directory tree of a mounted image** (`imageitemmodel.dfy`, module `ImageItems`).
  - An append-only vector of directory slots, loaded lazily.
  - Each entry resolves to the slot loaded for it.
  - Qt item-model addressing by (slot, row).
  - Recursive extraction of an entry to the local disk.
- **The two-level category list of the identification dialog** (`identify.dfy`,
  module `IdentifyDialog`). Categories and their items are addressed by a
  (category, row) pair, with the sentinel `~0` for category nodes.
- **The main window's bookkeeping** (`mainwindow.dfy`, module `MainWindow`).
  - The "format,filesystem,filename" text of a recent-file slot, and its parser.
  - The ten-slot most-recently-used shift performed by `addRecent`.
  - The visibility of the recent-file menu entries.
  - The file-dialog name filters.
- **The byte storage of the hex viewer** (`viewfile.dfy`, module `ViewFile`): clamped
  slicing of the file's bytes.

Supporting modules:
- `wrappers.dfy`: `Option`.
- `text.dfy`: `strchr`/`indexOf`, joining, QString ordering and decimal formatting.
- `sorting.dfy`: what `std::ranges::sort` promises, which is a sorted permutation with no tie order.
- `qt.dfy`: `QModelIndex`, and the `int`/`quintptr` conversions.

The MAME library is represented by parameters and data:
- a format's identification score is a function `MameFormat -> bv8`;
- a format's loader result is an `Option` of flux data;
- a converter's output is a function `(MameFormat, Flux) -> seq<bv8>`;
- a mounted file system is a `MameFs` value holding its listings, metadata and file
  contents by path.

The local disk that extraction writes to is a `LocalDisk` object. It holds the
existing directories, the paths where `mkdir`/`open` fail, and a log of what was
written. `QSettings` is a `Settings` object holding a string map.

## Model

| member | source | states |
|---|---|---|
| Floptool.NewFloppyFormat | src/floptool.cpp:318-333 | The strchr loop over the extension list produces exactly the split `SplitExtensions` defines (the loop invariant carries the pieces found plus those of the rest). |
| Floptool.SplitExtensionsInverse | src/floptool.cpp:322-331 | Each piece is free of commas. A null or empty list gives no extension. For any other list, joining the pieces with ',' gives the list back, except that a trailing comma adds no empty piece. |
| Floptool.AddToCategory | src/floptool.cpp:487-504 | `add` appends the item, tagged with the current category name, at the end of the flattened catalog. A new category is opened exactly when the catalog is empty or its last category has another name. Only the last category changes, or a new one is opened. No category becomes empty. |
| Floptool.FormatsEnumerator.AddFloppyFormat | src/floptool.cpp:487-492 | The host's floppy list becomes `AddToCategory` of the old one with the new format. The file systems are untouched. |
| Floptool.FormatsEnumerator.AddFileSystem | src/floptool.cpp:499-504 | The host's file-system list becomes `AddToCategory` of the old one. The floppy formats are untouched. |
| Floptool.FormatsEnumerator.SetCategory | src/floptool.cpp:468-471 | The current category becomes the name reported by MAME. |
| Floptool.EnumerateShape | src/floptool.cpp:487-504 | After any sequence of enumerator calls, no category is empty. Flattening the categories gives the formats and file systems in the order they were added. |
| Floptool.EnumerateFilesUnderSelected | src/floptool.cpp:468-504 | After any sequence of enumerator calls, each format and file system, in the order added, sits in a category named after the last `category` call before it was added (the empty name before any). |
| Floptool.Floptool.InitializeMameFormats | src/floptool.cpp:152-177 | Both lists are permutations of the enumerated categories. Their names are non-decreasing, and no category is empty. |
| Text.LessOrEqualIsTotalPreorder | src/floptool.cpp:169-176 | Not sorting after, under QString `<`, is a total preorder, which is what sorting by category name needs. |
| Sorting.SortBySorted | src/floptool.cpp:169-176 | The sort leaves the sequence ordered by any total preorder (its permutation property is in `Sorting.SortBy`'s contract). |
| Sorting.SortBy | src/floptool.cpp:222-230 | Sorting keeps the multiset of elements. |
| Sorting.SortByKeepsKeysDistinct | src/floptool.cpp:227-230 | Sorting categories keeps their names pairwise distinct. |
| Floptool.ReportedScore | src/floptool.cpp:197-202 | The extension bit is the only bit that can change. It is set iff it was set already or the compared (always empty) extension is one of the format's. The score never drops, and a non-zero score stays non-zero. |
| Floptool.HitsOfMember | src/floptool.cpp:192-215 | A report exists iff MAME scores the format non-zero. It is filed under the name of the category the format is catalogued in, with the reported score. |
| Floptool.HitsOfNonZero | src/floptool.cpp:198-215 | Every reported score is non-zero. |
| Floptool.GroupShape | src/floptool.cpp:204-214 | Grouping keeps every report once. It opens exactly one category per name, so names are pairwise distinct, and it opens no empty category. |
| Floptool.CollectStep | src/floptool.cpp:196-214 | One more catalog entry adds its report, if it has one, to the first category with its name, or opens a category at the end. |
| Floptool.Floptool.CollectHits | src/floptool.cpp:186-217 | The nested scoring loop yields the reports of the flattened catalog, grouped by category name. |
| Floptool.Floptool.CollectCategory | src/floptool.cpp:194-216 | The inner loop over one category's formats adds that category's reports to the groups built from the formats scored before it. |
| Floptool.SortEachCategory | src/floptool.cpp:220-226 | Each category's results are sorted by descending score, in place. |
| Floptool.SortedWithinShape | src/floptool.cpp:220-226 | The per-category sort keeps the reports, the distinct names and the non-empty categories. Each category ends with non-increasing scores. |
| Floptool.Floptool.Identify | src/floptool.cpp:184-233 | The result holds exactly the reports (as a multiset) in pairwise-distinct, non-empty categories. Scores are non-increasing within a category, and categories are ordered by non-increasing best score. No tie order is promised. |
| Floptool.FirstFitIsFirst | src/floptool.cpp:289-306 | The chosen sector image is the output of the first pair whose output has that pair's image size. None is chosen iff no pair fits. |
| Floptool.Mount | src/floptool.cpp:270-311 | No image when loading fails or no pair fits; otherwise the image of `FirstFit` with the given format and file system. The loop examines no pair when loading fails and otherwise exactly `PairsExamined` pairs. The converter runs exactly at the examined pairs whose converter differs from the previous pair's, so never more often than pairs examined. |
| Floptool.PairsExaminedStopsAtFirstFit | src/floptool.cpp:289-307 | The search looks at every pair when none fits; otherwise it stops right after the first pair that fits, whose saved image is the result, and no earlier pair fits. |
| Floptool.FindFirst | src/floptool.cpp:243-247 | `find_if` by name: the first position with that name, or the end. |
| Floptool.Floptool.FindFloppyFormat | src/floptool.cpp:240-248 | Null iff no format of the flattened catalog has that name; otherwise the first one that does. |
| Floptool.Floptool.FindFileSystem | src/floptool.cpp:255-263 | Null iff no file system of the flattened catalog has that name; otherwise the first one that does. |
| ImageItems.ImageItemModel.constructor | src/imageitemmodel.cpp:76-101 | The tree is the loaded root slot. The columns are the file meta names, then the directory meta names that are missing from them. |
| ImageItems.UnionMetaNames | src/imageitemmodel.cpp:90-100 | The two loops build the meta-name list `WithMissing` defines. |
| ImageItems.WithMissingUnion | src/imageitemmodel.cpp:91-100 | The file meta names come first, verbatim. A name is a column iff it is in either list. The added names are new and pairwise distinct. |
| ImageItems.FreshEntries | src/imageitemmodel.cpp:131-158 | A new slot holds one entry per listed entry, in listing order, with the listed kind, name and metadata. Each entry is unresolved (-1) and collapsed. |
| ImageItems.ImageItemModel.LoadDirectory | src/imageitemmodel.cpp:117-163 | It appends one slot at the old size and returns that index. The slot holds the listing of its path, and the parent entry is resolved to it. It keeps the tree well linked and mirroring the image, and only extends it. |
| ImageItems.AfterLoadShape | src/imageitemmodel.cpp:122-161 | Loading adds exactly one slot with the given back-link. It changes no existing slot or entry, except that the parent entry now points to the new slot. |
| ImageItems.AfterLoadValid | src/imageitemmodel.cpp:122-161 | Loading preserves the tree invariant: the root is first, back-links go to earlier slots, and resolved entries and their slots point at each other. Every slot still mirrors the image's listing of its path. |
| ImageItems.ImageItemModel.AppendDirectoryPath | src/imageitemmodel.cpp:170-179 | The recursion appends the slot's path: [] for the root, otherwise the parent's path plus the parent entry's name. |
| ImageItems.PathOfStable | src/imageitemmodel.cpp:170-179 | A slot's path does not change as the tree grows. |
| ImageItems.PathOfResolved | src/imageitemmodel.cpp:160-161 | A resolved entry's slot comes later and has the entry's path. |
| ImageItems.ImageItemModel.FindDirectoryEntry | src/imageitemmodel.cpp:227-237 | An entry exists iff the index is valid. It has the kind and name the image lists at that row of the slot's path. |
| ImageItems.ImageItemModel.LoadItem | src/imageitemmodel.cpp:186-194 | The tree becomes `AfterLoadItem`, still valid, and only extended. |
| ImageItems.LoadItemIdempotent | src/imageitemmodel.cpp:186-194 | Only an unresolved directory entry is loaded, after which it is resolved. The root and file entries change nothing, and a second call changes nothing. |
| ImageItems.ImageItemModel.SetExpanded | src/imageitemmodel.cpp:201-209 | The tree becomes `AfterSetExpanded` and stays valid. |
| ImageItems.SetExpandedFrame | src/imageitemmodel.cpp:201-209 | Only the addressed entry's expansion flag changes, to the requested value. No slot, link or other entry changes, and repeating the call changes nothing. |
| ImageItems.SlotId | src/imageitemmodel.cpp:399 | An unresolved entry's -1 becomes the quintptr ~0; a slot number stays itself. |
| ImageItems.ImageItemModel.Index | src/imageitemmodel.cpp:396-400 | A child of the root is in slot 0. A child of a resolved entry is in that entry's slot, whose path is the parent's path plus the entry's name. A child of an unresolved entry gets the id ~0. |
| ImageItems.ImageItemModel.Parent | src/imageitemmodel.cpp:407-413 | Children of slot 0 have no parent. Otherwise the parent is the entry in an earlier slot that resolves to the child's slot, in the child's column. |
| ImageItems.ParentOfIndex | src/imageitemmodel.cpp:396-413 | `parent(index(r, c, p))` is p's row and slot in column c for a resolved entry p, and invalid for the root. |
| ImageItems.ImageItemModel.RowCount | src/imageitemmodel.cpp:420-427 | The root has as many rows as the image lists at []. A resolved directory has as many as the image lists at its path. Files and unresolved directories have 0. |
| ImageItems.ImageItemModel.HasChildren | src/imageitemmodel.cpp:444-447 | Children exist iff the node is the root or a resolved directory, and the image lists something there. |
| ImageItems.LocalDisk.MakeDirectory | src/imageitemmodel.cpp:368 | `mkdir` succeeds iff the environment allows it. It then adds the directory and logs it, and otherwise changes nothing. |
| ImageItems.LocalDisk.WriteFile | src/imageitemmodel.cpp:360-362 | A file that opens is written with the given bytes. One that does not open writes nothing. |
| ImageItems.ImageItemModel.Extract | src/imageitemmodel.cpp:323-340 | An invalid index does nothing. Otherwise the disk ends as `ExtractOutcome` of the entry's image path and kind. The destination is `path/name` when the image file name is appended, and `path` otherwise. |
| ImageItems.ImageItemModel.InternalExtract | src/imageitemmodel.cpp:347-389 | The disk ends as `ExtractOutcome` describes: a read error writes nothing, and a file is written when it opens. The tree is only extended and stays valid, and the image path is handed back unchanged. |
| ImageItems.ImageItemModel.ExtractDirectory | src/imageitemmodel.cpp:366-384 | A missing directory is created, and a failed `mkdir` gives up on that subtree only. Then every listed entry is extracted to `dest/name`, in listing order. |
| ImageItems.ImageItemModel.EnsureLoaded | src/imageitemmodel.cpp:371-374 | An unresolved directory entry is loaded before the recursion. The slot returned is the entry's, and it has the entry's path. |
| ImageItems.ImageItemModel.ExtractEntries | src/imageitemmodel.cpp:376-383 | The loop extracts the slot's entries in order. The image path is pushed and popped around each child and comes back unchanged. |
| ImageItems.ExtractOutcomeSound | src/imageitemmodel.cpp:347-389 | Extraction creates only directories that were missing and could be created, and never loses one. Each write lands at the local counterpart (`dest` + "/name"…) of an image path below the entry, and a written file holds that image file's bytes. |
| IdentifyDialog.CategoryIdIsAllOnes | src/dialogs/identify.cpp:239 | `~0` is quintptr(-1), and no category row in int range collides with it. |
| IdentifyDialog.Index | src/dialogs/identify.cpp:236-242 | A child of a valid parent carries the parent's row as its id. Any other index carries `~0`. The index is valid iff row and column are non-negative. |
| Qt.ToQuintptr | src/dialogs/identify.cpp:239 | An int converted to quintptr is the unique value below 2^64 congruent to it modulo 2^64. |
| Qt.ToQuintptrValue | src/dialogs/identify.cpp:239 | Hence a non-negative int keeps its value and a negative one gains 2^64, so -1 becomes ~0. |
| Qt.ToInt | src/dialogs/identify.cpp:253 | A quintptr narrowed to int keeps its low 32 bits as two's complement, and leaves values below 2^31 unchanged. |
| IdentifyDialog.ParentOfItem | src/dialogs/identify.cpp:249-255 | `IdentifyDialog.Parent` (parent) of item (k, row) in column c is category k in column c. It is valid iff c ≥ 0. |
| IdentifyDialog.ParentOfCategory | src/dialogs/identify.cpp:249-255 | `IdentifyDialog.Parent` of a category is the invalid root index. |
| IdentifyDialog.GetItem | src/dialogs/identify.cpp:223-229 | An item exists iff the id is not `~0`. It is then an item of the category the id names. |
| IdentifyDialog.CategoryRows | src/dialogs/identify.cpp:262-277 | Under the corrected count, category k has as many rows as items. Row r under it is item r of category k, and its parent is category k. |
| IdentifyDialog.RootRows | src/dialogs/identify.cpp:262-277 | Under the corrected count, the root has one row per category. Each is a valid category node with children and no item. |
| IdentifyDialog.RowCountOfItem | src/dialogs/identify.cpp:262-277 | As written, rowCount answers an item with the size of the category at the item's row. The second item of category 0 reports category 1's one row, although hasChildren denies it children. |
| IdentifyDialog.ChildCount | src/dialogs/identify.cpp:262-277 | The corrected count: 0 for an item. It agrees with rowCount on the root and on categories. |
| IdentifyDialog.ChildCountAgreesWithHasChildren | src/dialogs/identify.cpp:295-299 | The corrected count is non-zero only where hasChildren holds. |
| IdentifyDialog.FlagsOfNode | src/dialogs/identify.cpp:306-317 | Never-has-children is set iff hasChildren is false, and selectable iff the node is an item. Enabled is set iff the node is a category or `itemEnabled` holds for the item. |
| IdentifyDialog.IdentifyResultsEnabled | src/dialogs/identify.cpp:376-379 | Every node of the identification-results list is enabled, `IdentifyDialog.IdentifyResultEnabled` (itemEnabled) being true for every result. |
| IdentifyDialog.FileSystemsEnabled | src/dialogs/identify.cpp:396-399 | A file-system item is enabled iff its file system can be read, as `IdentifyDialog.FileSystemEnabled` (itemEnabled) says. |
| IdentifyDialog.FindFirstModelIndexForCategory | src/dialogs/identify.cpp:204-216 | The result is valid iff some category matches, and otherwise is the invalid index. A valid result is item 0 of the first matching category. With no name given, it is category 0's, when there is a category. |
| MainWindow.ParsedIsSettingValue | src/mainwindow.cpp:265-278 | What `MainWindow.ParseRecentFileSettingValue` (parseRecentFileSettingValue) accepts is the text before the first comma, between the first two commas, and after the second. It is well formed, and its setting text is the input, so the file name may contain commas. |
| MainWindow.ParseSettingValue | src/mainwindow.cpp:265-278 | Round trip: the text `addRecent` writes for a well-formed entry parses back to that entry. |
| MainWindow.ParseSucceedsExactlyOnSettingValues | src/mainwindow.cpp:267-272 | `MainWindow.ParseRecentFileSettingValue` succeeds iff the text is a well-formed entry's text. It fails with fewer than two commas or nothing after the second. |
| MainWindow.RewrittenText | src/mainwindow.cpp:243-246 | Rewriting a slot from what was parsed reproduces a text that parsed. An unparsable text becomes ",,". |
| MainWindow.SettingNameDecimal | src/mainwindow.cpp:285-288 | `MainWindow.RecentFileSettingName(i)` (recentFileSettingName) is "recentfiles/" followed by the decimal digits of i, which read back as i. |
| MainWindow.SettingNamesDistinct | src/mainwindow.cpp:285-288 | Different slots have different setting names. |
| MainWindow.StopSlot | src/mainwindow.cpp:237-251 | The loop stops within the ten slots. |
| MainWindow.StopSlotSkips | src/mainwindow.cpp:250-251 | No slot before the stop slot names the added file. |
| MainWindow.StopSlotMatches | src/mainwindow.cpp:250-251 | A stop before the last slot is at a slot naming the added file. |
| MainWindow.MainWindow.AddRecent | src/mainwindow.cpp:233-258 | The loop leaves the settings as `AddRecentFrom` describes. |
| MainWindow.AddRecentSlots | src/mainwindow.cpp:237-257 | Slot 0 holds the new entry. Each slot up to the stop slot holds the previous slot's old text when that parsed, and ",," when it did not. |
| MainWindow.AddRecentKeepsRest | src/mainwindow.cpp:237-257 | Slots after the stop slot, and every other setting, keep their values. So the last entry is dropped only when no slot matched. |
| MainWindow.AddRecentShowsEntryFirst | src/mainwindow.cpp:246-247 | After adding a well-formed entry, slot 0 parses back to it and its menu entry is visible. |
| MainWindow.MainWindow.constructor | src/mainwindow.cpp:44-47 | The window has ten recent-file actions, each a fresh action with no text that is visible. |
| MainWindow.MainWindow.UpdateRecent | src/mainwindow.cpp:147-156 | One pass of the loop: the entry is visible iff this slot and all earlier ones parse. It is then titled with the file name without its directory, and otherwise keeps its title. |
| MainWindow.MainWindow.UpdateRecents | src/mainwindow.cpp:140-158 | Every entry shows its slot that way, and the visible entries form a prefix of the menu. |
| MainWindow.RecentVisiblePrefix | src/mainwindow.cpp:144-157 | Every slot before a visible one parses and is visible. |
| MainWindow.FileNamePart | src/mainwindow.cpp:154 | `QFileInfo::fileName`: a '/'-free suffix of the path, preceded by '/' when shorter than the path. |
| MainWindow.WildcardAt | src/mainwindow.cpp:122-128 | Each extension becomes "*." followed by the extension, in order. |
| MainWindow.WildcardStep | src/mainwindow.cpp:124-127 | A separating space is added only once the pattern is non-empty, which it is after the first extension. |
| MainWindow.ExtensionPattern | src/mainwindow.cpp:121-128 | The inner loop yields the wildcards joined by single spaces. |
| MainWindow.FilterLineAt | src/mainwindow.cpp:119-130 | There is one line per format, in order, each "category: description (patterns)". |
| MainWindow.AppendCategoryFilters | src/mainwindow.cpp:119-130 | The lines of one category's formats are appended to what was built so far. |
| MainWindow.NameFiltersOnePerFormat | src/mainwindow.cpp:114-132 | "All files(*)" comes first, then exactly one line per format of the flattened catalog, in catalog order. |
| MainWindow.BuildNameFilters | src/mainwindow.cpp:112-133 | The nested loops build `NameFilters` of the catalog. |
| ViewFile.Storage.GetData | src/dialogs/viewfile.cpp:73-78 | The result is the contiguous slice starting at the clamped position. It is no longer than requested and does not run past the end. It is cut short only at the end of the bytes, and is empty for a position at or past the end. |
| ViewFile.AdjacentWindows | src/dialogs/viewfile.cpp:73-78 | Two adjacent windows read one after the other equal the window spanning both. |
| ViewFile.PagesAreTheRest | src/dialogs/viewfile.cpp:73-78 | Reading page by page from a position and concatenating gives every byte from there on. |
| ViewFile.WholeContents | src/dialogs/viewfile.cpp:85-88 | Reading `ViewFile.Storage.Size()` (size) bytes from 0 gives exactly the bytes the storage was built with. |

## Left out

- The `QIODevice` adapter `MameRandomRead`, the process-wide `instance()`, and `Image::volumeName` are not modelled. They are I/O or lifetime plumbing.
- MAME library calls are parameters or data, not code:
  - `identify` is a score function;
  - `load` is an optional decoded image;
  - `save` is a function of converter and image;
  - `enumerate_f` is the file system's list of (converter, size) pairs;
  - `directory_contents`, `metadata` and `file_read` are the `MameFs` maps.
- Entry kinds other than file and directory, on which the source throws, cannot occur in the model.
- Local file writes are an effect log on `LocalDisk`. Whether `mkdir` or `open` fails is a fixed set of paths (`LocalEnv`), and partial writes are not modelled.
- `convert` and every encoding conversion are not modelled: names are plain strings, taken unchanged.
- `Text.Less` compares by `char` code, standing in for QString's comparison by UTF-16 code unit.
- `MainWindow.FileNamePart` splits on '/' only, as `QFileInfo` does on Unix.
- Tie order: both sorts in `identify`, and the sorts in `initializeMameFormats`, are specified by their result only (sorted and a permutation), because `std::ranges::sort` is unstable.
- Floptool.Mount: the ghost outputs `savedAt` and `examined` record which pairs ran the converter; the model does not otherwise count `save` calls.
- Floptool.Mount: the source compares converters by address, the model by value. Two distinct converters with equal values would run `save` twice in the source but once in the model; the resulting image is the same.
- ImageItems.ImageItemModel.InternalExtract: the source keeps a reference to the entry across `loadDirectory`. That reference points into the entries of a slot, and a slot that moves when the slot vector grows takes its entries along, so the reference still names the same entry. The model reads the entry from the tree after loading, which is equivalent; references and moves themselves are not modelled.
- ImageItems.ImageItemModel.InternalExtract: the source forms `&bytes[0]` for an empty file and writes zero bytes. ImageItems.LocalDisk.WriteFile records the empty byte sequence, which is what reaches the disk.
- ImageItems.ImageItemModel.InternalExtract: the image's directory listings are a finite map, so every image tree the model can represent is finite, and extraction terminates on the tree's depth. An image whose listings nest without end, such as a corrupt directory that contains itself, would make the source recurse without bound; the model cannot represent that input.
- ImageItems.ImageItemModel.ColumnCount returns the number of meta names. The content of that list is stated by the constructor and `ImageItems.WithMissingUnion`.
- `ImageItemModel::flags`, `data`, `headerData`, `fileName`, `detachImage`, icons and `loadIcon` (floating-point pixmap scaling) are display-only and are not modelled.
- `dataChanged` signals are not modelled.
- IdentifyDialog.Index: the source asserts that the new index is valid. The model returns the index either way and states when it is valid.
- IdentifyDialog.RowCount requires the parent's row to name a category. Any other row indexes past the category vector, which is undefined behaviour in the source.
- IdentifyDialog.FindFirstModelIndexForCategory requires at most 2^31 categories, because rows are `int`.
- `IdentifyDialog.ColumnCount` always returns 1.
- `IdentifyDialog.HasChildren` and `IdentifyDialog.Flags` state their properties through `IdentifyDialog.FlagsOfNode` and `IdentifyDialog.ChildCountAgreesWithHasChildren`.
- `QSettings` is a string map held in memory, not persisted; a missing key reads as "". `Settings.SetValue` models `setValue`.
- `loadRecent`, `loadImage`, the window constructor's menus and signals, the dialogs' UI, and `main.cpp` are orchestration and UI, and are not modelled.
- ViewFile.Storage.GetData: `std::size_t` is unbounded here.
- ViewFile.Storage.GetData: the source forms `&m_bytes[position]` even when the position equals the size, and then copies zero bytes. The model returns the empty sequence.

## Findings

| source | as written | input that shows it | evidently intended | confidence | as-written member | corrected member |
|---|---|---|---|---|---|---|
| src/dialogs/identify.cpp:262-277 | `rowCount` of any valid index returns the size of the category at the index's row. This includes item indexes, whose row is a position within their category, not a category number. | Categories `[("a", [10, 20]), ("b", [30])]`; the index of item 1 of category 0 reports 1 row, while `hasChildren` says it has none. | An item has no rows, which matches `hasChildren` and the never-has-children flag. | low, not executed (Qt views may never ask an item for its rows) | IdentifyDialog.RowCountOfItem | IdentifyDialog.ChildCount |
