/** Types shared by every module of the model. */
module Common {

  /** A value that may be absent: JavaScript's `null`/`undefined`, or a failed parse (NaN). */
  datatype Option<+T> = None | Some(value: T)

  /** A MongoDB ObjectId. Ids are handed out by a counter in the store, so they are naturals. */
  type Id = nat

  /** The byte type of stored media files. */
  newtype byte = b: int | 0 <= b < 256
}
