/** Fixed-width integer types of the OSM data model and the small wrappers
    the model uses for failure. */
module OsmTypes {

  newtype int64 = x: int | -0x8000_0000_0000_0000 <= x < 0x8000_0000_0000_0000
  newtype int32 = x: int | -0x8000_0000 <= x < 0x8000_0000
  newtype uint32 = x: int | 0 <= x < 0x1_0000_0000

  /** object_id_type: signed, so that negative ids can mark new objects. */
  type ObjectId = int64
  /** object_version_type: the top bit is borrowed for the deleted flag. */
  type ObjectVersion = bv32
  type ChangesetId = uint32
  type UserId = uint32
  type SignedUserId = int32
  /** time_t: seconds since the epoch. */
  type Timestamp = int64

  datatype Option<T> = None | Some(value: T)

  datatype Result<T, E> = Ok(value: T) | Err(error: E)

  datatype Outcome<E> = Pass | Fail(error: E)
}
