/** CategoryItemListModel, the two-level list behind the identification dialog:
    the top level holds one node per category, the second level the category's
    items. An item's index carries its category's row as internal id; a category's
    index carries the sentinel ~0 instead. The list itself never changes, so every
    operation is a function of it. */
module IdentifyDialog {

  import opened Wrappers
  import opened Qt
  import opened Floptool

  /** ~0 as a quintptr: the internal id of every category-level index. */
  const CategoryId: nat := QuintptrModulus - 1

  lemma CategoryIdIsAllOnes()
    ensures CategoryId == ToQuintptr(-1)
    ensures forall row: int :: 0 <= row < IntLimit ==> ToQuintptr(row) != CategoryId
  {
    ToQuintptrValue(-1);
    forall row: int | 0 <= row < IntLimit
      ensures ToQuintptr(row) != CategoryId
    {
      ToQuintptrValue(row);
    }
  }

  /** CategoryItemListModel::index: a child of a valid parent remembers the parent's
      row; anything else is a category node. */
  function Index(row: int, column: int, parent: ModelIndex): (r: ModelIndex)
    requires parent.row < IntLimit
    ensures r.row == row && r.column == column
    ensures r.IsValid() <==> row >= 0 && column >= 0
    ensures parent.IsValid() ==> r.internalId == parent.row
    ensures !parent.IsValid() ==> r.internalId == CategoryId
  {
    CreateIndex(row, column, if parent.IsValid() then ToQuintptr(parent.row) else ToQuintptr(-1))
  }

  /** CategoryItemListModel::parent: the id of an item, narrowed back to an int row,
      names its category; a category's parent is the root. */
  function Parent(child: ModelIndex): (r: ModelIndex)
    requires child.internalId < QuintptrModulus
  {
    if child.internalId != CategoryId then Index(ToInt(child.internalId), child.column, InvalidIndex)
    else InvalidIndex
  }

  /** The index of category k in the given column. */
  function CategoryIndex(k: int, column: int): ModelIndex
    requires k < IntLimit
  {
    Index(k, column, InvalidIndex)
  }

  /** The index of item `row` of category k. */
  function ItemIndex(k: nat, row: int, column: int): ModelIndex
    requires k < IntLimit
  {
    Index(row, column, CategoryIndex(k, 0))
  }

  /** Going up from an item reaches its category, in the item's column. */
  lemma ParentOfItem(k: nat, row: int, column: int)
    requires k < IntLimit
    ensures Parent(ItemIndex(k, row, column)) == CategoryIndex(k, column)
    ensures Parent(ItemIndex(k, row, column)).IsValid() <==> column >= 0
  {
    assert ItemIndex(k, row, column).internalId == k;
    assert ToInt(k) == k;
  }

  /** A category sits directly under the root. */
  lemma ParentOfCategory(k: nat, column: int)
    requires k < IntLimit
    ensures Parent(CategoryIndex(k, column)) == InvalidIndex
    ensures !Parent(CategoryIndex(k, column)).IsValid()
  {
  }

  /** An index the model may dereference: a category node, or an item inside the list. */
  predicate Addressable<T>(items: seq<Category<T>>, index: ModelIndex)
  {
    index.internalId == CategoryId ||
    (index.internalId < |items| && 0 <= index.row < |items[index.internalId].items|)
  }

  /** CategoryItemListModel::getItem: the item an index stands for; none for a category. */
  function GetItem<T>(items: seq<Category<T>>, index: ModelIndex): (r: Option<T>)
    requires Addressable(items, index)
    ensures r.Some? <==> index.internalId != CategoryId
    ensures r.Some? ==> r.value in items[index.internalId].items
  {
    if index.internalId != CategoryId then Some(items[index.internalId].items[index.row]) else None
  }

  /** CategoryItemListModel::rowCount, as written: any valid parent, item or category,
      is answered with the size of the category at the parent's row. */
  function RowCount<T>(items: seq<Category<T>>, parent: ModelIndex): (r: nat)
    requires parent.IsValid() ==> parent.row < |items|
  {
    if parent.IsValid() then |items[parent.row].items| else |items|
  }

  /** What rowCount evidently means to answer: the number of children, which for an
      item is zero. */
  function ChildCount<T>(items: seq<Category<T>>, parent: ModelIndex): (r: nat)
    requires parent.IsValid() && parent.internalId == CategoryId ==> parent.row < |items|
    ensures parent.IsValid() && parent.internalId != CategoryId ==> r == 0
    ensures parent.IsValid() && parent.internalId == CategoryId ==> r == RowCount(items, parent)
    ensures !parent.IsValid() ==> r == RowCount(items, parent)
  {
    if !parent.IsValid() then |items|
    else if parent.internalId == CategoryId then |items[parent.row].items|
    else 0
  }

  /** CategoryItemListModel::columnCount: a single column everywhere. */
  function ColumnCount(parent: ModelIndex): int
  {
    1
  }

  /** CategoryItemListModel::hasChildren: the root and the categories do, items never. */
  function HasChildren(parent: ModelIndex): (r: bool)
  {
    !parent.IsValid() || parent.internalId == CategoryId
  }

  /** CategoryItemListModel::flags, with the subclass's itemEnabled as a parameter. */
  function Flags<T>(items: seq<Category<T>>, index: ModelIndex, itemEnabled: T -> bool): (r: set<ItemFlag>)
    requires Addressable(items, index)
  {
    var isEnabled := if index.internalId != CategoryId then itemEnabled(items[index.internalId].items[index.row]) else true;
    (if isEnabled then {ItemIsEnabled} else {}) +
    (if index.internalId != CategoryId then {ItemIsSelectable, ItemNeverHasChildren} else {})
  }

  /** IdentifyResultsListModel::itemEnabled: every identified format may be chosen. */
  function IdentifyResultEnabled(item: IdentifyResult): bool
  {
    true
  }

  /** FileSystemsListModel::itemEnabled: only file systems that can be read. */
  function FileSystemEnabled(item: FileSystem): bool
  {
    item.canRead
  }

  // ---------------------------------------------------------------------------
  //  Properties of the addressing scheme
  // ---------------------------------------------------------------------------

  /** The rows announced under a category are exactly its items, in order,
      and each of them is an item node whose parent is that category. */
  lemma CategoryRows<T>(items: seq<Category<T>>, k: nat)
    requires k < |items| && |items| <= IntLimit
    ensures ChildCount(items, CategoryIndex(k, 0)) == |items[k].items|
    ensures forall row :: 0 <= row < ChildCount(items, CategoryIndex(k, 0)) ==>
      Addressable(items, ItemIndex(k, row, 0)) &&
      GetItem(items, ItemIndex(k, row, 0)) == Some(items[k].items[row]) &&
      Parent(ItemIndex(k, row, 0)) == CategoryIndex(k, 0)
  {
    forall row | 0 <= row < |items[k].items|
      ensures Addressable(items, ItemIndex(k, row, 0))
      ensures GetItem(items, ItemIndex(k, row, 0)) == Some(items[k].items[row])
      ensures Parent(ItemIndex(k, row, 0)) == CategoryIndex(k, 0)
    {
      ParentOfItem(k, row, 0);
    }
  }

  /** The root's rows are the categories: each is a category node with no item. */
  lemma RootRows<T>(items: seq<Category<T>>)
    requires |items| <= IntLimit
    ensures ChildCount(items, InvalidIndex) == |items|
    ensures forall k :: 0 <= k < ChildCount(items, InvalidIndex) ==>
      CategoryIndex(k, 0).IsValid() && HasChildren(CategoryIndex(k, 0)) &&
      GetItem(items, CategoryIndex(k, 0)) == None
  {
  }

  /** flags and hasChildren agree: a node is flagged never-has-children exactly when
      hasChildren denies it children; items are selectable and categories are not;
      categories are always enabled, items exactly when itemEnabled says so. */
  lemma FlagsOfNode<T>(items: seq<Category<T>>, index: ModelIndex, itemEnabled: T -> bool)
    requires index.IsValid() && Addressable(items, index)
    ensures ItemNeverHasChildren in Flags(items, index, itemEnabled) <==> !HasChildren(index)
    ensures ItemIsSelectable in Flags(items, index, itemEnabled) <==> GetItem(items, index).Some?
    ensures ItemIsEnabled in Flags(items, index, itemEnabled) <==>
      (GetItem(items, index).None? || itemEnabled(GetItem(items, index).value))
  {
  }

  /** In the identification results list every node is enabled. */
  lemma IdentifyResultsEnabled(items: seq<Category<IdentifyResult>>, index: ModelIndex)
    requires Addressable(items, index)
    ensures ItemIsEnabled in Flags(items, index, IdentifyResultEnabled)
  {
  }

  /** In the file systems list an item is enabled exactly when its file system can be
      read. */
  lemma FileSystemsEnabled(items: seq<Category<FileSystem>>, k: nat, row: nat)
    requires k < |items| && row < |items[k].items| && |items| <= IntLimit
    ensures ItemIsEnabled in Flags(items, ItemIndex(k, row, 0), FileSystemEnabled) <==> items[k].items[row].canRead
  {
  }

  /** The category is unnamed (any category will do) or carries the given name. */
  predicate NameMatches<T>(c: Category<T>, categoryName: Option<string>)
  {
    categoryName.None? || c.categoryName == categoryName.value
  }

  /** CategoryItemListModel::findFirstModelIndexForCategory: the first item of the first
      category whose name matches, or the invalid index when none matches. */
  method FindFirstModelIndexForCategory<T>(items: seq<Category<T>>, categoryName: Option<string>) returns (r: ModelIndex)
    requires |items| <= IntLimit
    ensures r.IsValid() <==> exists k :: 0 <= k < |items| && NameMatches(items[k], categoryName)
    ensures !r.IsValid() ==> r == InvalidIndex
    ensures categoryName.None? ==> (r.IsValid() <==> |items| > 0) && (r.IsValid() ==> r.internalId == 0)
    ensures r.IsValid() ==>
      r.internalId < |items| && r == ItemIndex(r.internalId, 0, 0) &&
      NameMatches(items[r.internalId], categoryName) &&
      forall j :: 0 <= j < r.internalId ==> !NameMatches(items[j], categoryName)
  {
    var row := 0;
    while row < |items|
      invariant row <= |items|
      invariant forall j :: 0 <= j < row ==> !NameMatches(items[j], categoryName)
      invariant categoryName.None? ==> row == 0
    {
      if NameMatches(items[row], categoryName) {
        var parentIndex := Index(row, 0, InvalidIndex);
        return Index(0, 0, parentIndex);
      }
      row := row + 1;
    }
    return InvalidIndex;
  }

  // ---------------------------------------------------------------------------
  //  rowCount on an item
  // ---------------------------------------------------------------------------

  /** rowCount as written answers an item with the size of an unrelated category:
      the second item of category 0 claims the one row of category 1, although
      hasChildren says it has none. */
  lemma RowCountOfItem()
    ensures var items := [Category("a", [10, 20]), Category("b", [30])];
      var second := ItemIndex(0, 1, 0);
      !HasChildren(second) && RowCount(items, second) == 1 && ChildCount(items, second) == 0
  {
  }

  /** The corrected count never contradicts hasChildren. */
  lemma ChildCountAgreesWithHasChildren<T>(items: seq<Category<T>>, parent: ModelIndex)
    requires parent.IsValid() && parent.internalId == CategoryId ==> parent.row < |items|
    ensures ChildCount(items, parent) > 0 ==> HasChildren(parent)
  {
  }
}
