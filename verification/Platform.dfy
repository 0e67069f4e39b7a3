/**
 The width of physical addresses.
 */
module Platform {
  // Physical page numbers have 44 bits (RISC-V Privileged Architecture 20211203, section 4.4).
  const FRAMES: nat := 0x1000_0000_0000
}
