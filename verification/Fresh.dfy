/** The state a new library starts from. */
module Fresh {
  import opened Model
  import opened Index
  import opened Recovery
  import opened Core

  /** A new library: an empty store, its empty Index, no recovery material. */
  const FRESH := World([EMPTY_CANON], 0, Store(EMPTY_CANON, []), EMPTY_TABLES, EMPTY_DISK)

  lemma FreshInv()
    ensures Inv(FRESH)
  {
  }
}
