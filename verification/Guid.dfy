/** The 128-bit GUIDs of the modern client. */
module Guids {
  import opened Bytes

  datatype Guid128 = Guid128(low: uint64, high: uint64)

  const NO_GUID: Guid128 := Guid128(0, 0)
}
