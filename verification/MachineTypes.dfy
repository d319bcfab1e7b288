/** The unsigned integer widths of the device. */
module MachineTypes {

  const TWO_TO_32 := 0x1_0000_0000

  type uint8 = x: int | 0 <= x < 0x100
  type uint16 = x: int | 0 <= x < 0x1_0000
  type uint32 = x: int | 0 <= x < TWO_TO_32
}
