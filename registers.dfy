/** The chip's one-byte command opcodes. Both driver variants use the same
    byte values. */
module Registers {
  import opened Machine

  const WRITE_ENABLE: Byte := 0x06
  const VOLATILE_SR_WRITE_ENABLE: Byte := 0x50
  const WRITE_DISABLE: Byte := 0x04
  const RELEASE_POWER_DOWN: Byte := 0xAB
  const MANUFACTURER_DEVICE_ID: Byte := 0x90
  const JEDEC_ID: Byte := 0x9F
  const READ_UNIQUE_ID: Byte := 0x4B
  const READ_DATA: Byte := 0x03
  const FAST_READ: Byte := 0x0B
  const FAST_READ_DUAL_OUTPUT: Byte := 0x3B
  const FAST_READ_QUAD_OUTPUT: Byte := 0x6B
  const PAGE_PROGRAM: Byte := 0x02
  const SECTOR_ERASE: Byte := 0x20
  const BLOCK_ERASE_32KB: Byte := 0x52
  const BLOCK_ERASE_64KB: Byte := 0xD8
  const CHIP_ERASE: Byte := 0xC7
  const CHIP_ERASE_2: Byte := 0x60
  const READ_STATUS_REGISTER_1: Byte := 0x05
  const WRITE_STATUS_REGISTER_1: Byte := 0x01
  const READ_STATUS_REGISTER_2: Byte := 0x35
  const WRITE_STATUS_REGISTER_2: Byte := 0x31
  const READ_STATUS_REGISTER_3: Byte := 0x15
  const WRITE_STATUS_REGISTER_3: Byte := 0x11
  const READ_SFDP_REGISTER: Byte := 0x5A
  const ERASE_SECURITY_REGISTER: Byte := 0x44
  const PROGRAM_SECURITY_REGISTER: Byte := 0x42
  const READ_SECURITY_REGISTER: Byte := 0x48
  const GLOBAL_BLOCK_LOCK: Byte := 0x7E
  const GLOBAL_BLOCK_UNLOCK: Byte := 0x98
  const READ_BLOCK_LOCK: Byte := 0x3D
  const INDIVIDUAL_BLOCK_LOCK: Byte := 0x36
  const INDIVIDUAL_BLOCK_UNLOCK: Byte := 0x39
  const ERASE_PROGRAM_SUSPEND: Byte := 0x75
  const ERASE_PROGRAM_RESUME: Byte := 0x7A
  const POWER_DOWN: Byte := 0xB9
  const ENABLE_RESET: Byte := 0x66
  const RESET_DEVICE: Byte := 0x99
}
