/** The widths of the C++ types. */
module MachineTypes {

  newtype byte = x: int | 0 <= x < 0x100

  const INT_LIMIT := 0x8000_0000
  const UINT_LIMIT := 0x1_0000_0000
  const INT64_LIMIT := 0x8000_0000_0000_0000
  const UINT64_LIMIT := 0x1_0000_0000_0000_0000

  predicate IsInt(x: int) { -INT_LIMIT <= x < INT_LIMIT }

  predicate IsUint64(x: int) { 0 <= x < UINT64_LIMIT }

  /** int and long are 32 bits wide and wrap. */
  function Signed32(x: int): (r: int)
    ensures IsInt(r) && (IsInt(x) ==> r == x)
  {
    (x + INT_LIMIT) % UINT_LIMIT - INT_LIMIT
  }
}
