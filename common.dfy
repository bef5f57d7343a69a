/** Optional values, used where the source has `undefined`, `null` or a missing entry. */
module Wrappers {
  datatype Option<+T> = None | Some(value: T)
}

/** Octets as the BLE write API takes them: plain numbers in 0..255. */
module Bytes {
  type byte = x: int | 0 <= x < 256
}
