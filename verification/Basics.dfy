/** Identifiers shared by the storage, index and recovery models. */
module Basics {

  const NO_PAGE: int := -1

  /** Position of a record in a table file; inside the index, a slot of an inner
      node stores the page number of a child here. */
  datatype Rid = Rid(pageNo: int, slotNo: int)

  datatype Option<+T> = None | Some(value: T)
}
