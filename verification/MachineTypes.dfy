/** The unsigned machine integers. Every Go variable of one of these types is held in a subset
    type, so each assignment carries the proof that the machine operation does not wrap. */
module MachineTypes {
  type byte = x: int | 0 <= x < 0x100
  type uint32 = x: int | 0 <= x < 0x1_0000_0000
  type uint64 = x: int | 0 <= x < 0x1_0000_0000_0000_0000
}
