/** The parts of Qt's item-model addressing that the models in this project rely on:
    a QModelIndex is a (row, column, internal id) triple issued by a model, and the
    default-constructed index is the invalid one that stands for the root. */
module Qt {

  /** quintptr is an unsigned 64-bit integer. */
  const QuintptrModulus: nat := 0x1_0000_0000_0000_0000

  /** An integer converted to quintptr is the one value below 2^64 congruent to it
      modulo 2^64, so -1 becomes ~0. */
  function ToQuintptr(x: int): (r: nat)
    requires 0 <= x + QuintptrModulus && x < QuintptrModulus
    ensures r < QuintptrModulus
    ensures r % QuintptrModulus == x % QuintptrModulus
  {
    if x < 0 then x + QuintptrModulus else x
  }

  /** The conversion keeps a value that already fits and adds 2^64 to a negative one. */
  lemma ToQuintptrValue(x: int)
    requires 0 <= x + QuintptrModulus && x < QuintptrModulus
    ensures 0 <= x ==> ToQuintptr(x) == x
    ensures x < 0 ==> ToQuintptr(x) == x + QuintptrModulus
  {
    var r := ToQuintptr(x);
    assert r % QuintptrModulus == r;
    if 0 <= x {
      assert x % QuintptrModulus == x;
    } else {
      assert (x + QuintptrModulus) % QuintptrModulus == x % QuintptrModulus;
    }
  }

  /** int is 32 bits wide: rows and columns lie below IntLimit. */
  const IntLimit: nat := 0x8000_0000

  /** A quintptr converted to int keeps its low 32 bits, read as two's complement. */
  function ToInt(x: nat): (r: int)
    requires x < QuintptrModulus
    ensures -(IntLimit as int) <= r < IntLimit
    ensures x < IntLimit ==> r == x
    ensures r % 0x1_0000_0000 == x % 0x1_0000_0000
  {
    var low := x % 0x1_0000_0000;
    if low < IntLimit then low else low - 0x1_0000_0000
  }

  /** `hasModel` is false exactly for an index that no model created. */
  datatype ModelIndex = ModelIndex(row: int, column: int, internalId: nat, hasModel: bool)
  {
    /** QModelIndex::isValid */
    predicate IsValid() {
      row >= 0 && column >= 0 && hasModel
    }
  }

  /** QModelIndex(): row and column -1, id 0, no model. */
  const InvalidIndex: ModelIndex := ModelIndex(-1, -1, 0, false)

  /** QAbstractItemModel::createIndex */
  function CreateIndex(row: int, column: int, id: nat): (r: ModelIndex)
    ensures r.IsValid() <==> row >= 0 && column >= 0
    ensures r.row == row && r.column == column && r.internalId == id
  {
    ModelIndex(row, column, id, true)
  }

  /** The Qt::ItemFlag values used by the models. */
  datatype ItemFlag = ItemIsSelectable | ItemIsEnabled | ItemNeverHasChildren
}
