/** One index slot of a collection page: the descriptor of one (primary or
    secondary) index of the collection. */
module CollectionIndexes {
  import opened Binary

  /** Number of index slots on every collection page; slot 0 is the primary key. */
  const INDEX_PER_COLLECTION: nat := 16

  /** The five key-comparison options of an index. */
  datatype IndexOptions = IndexOptions(
    unique: bool,
    ignoreCase: bool,
    trimWhitespace: bool,
    emptyStringToNull: bool,
    removeAccents: bool)

  /** A slot. `slot` is its fixed position in the page's array; an empty
      `field` marks the slot as unused. The back-reference to the owning
      page is not modelled: the page owns its slots. */
  datatype CollectionIndex = CollectionIndex(
    slot: nat,
    field: string,
    headNode: PageAddress,
    tailNode: PageAddress,
    freeIndexPageID: uint32,
    options: IndexOptions)
  {
    predicate IsEmpty() {
      field == ""
    }
  }

  /** The slot a fresh page holds at position `i`. The collection page sets
      only `slot`. CollectionIndex.cs is not part of this model: that a fresh
      slot is unused is assumed, and the other defaults are stand-ins for
      what its constructor sets. */
  function EmptySlot(i: nat): (c: CollectionIndex)
    ensures c.slot == i && c.IsEmpty()
  {
    CollectionIndex(i, "", EMPTY_ADDRESS, EMPTY_ADDRESS, UINT32_MAX,
                    IndexOptions(false, false, false, false, false))
  }
}
