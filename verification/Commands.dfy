/** The command bytes of proto_constants.h that the protocol engines and the frame search name. */
module Commands {
  import opened Bytes

  const CMD_EXECUTE: byte := 0x00
  const CMD_PRIVATE: byte := 0x03
  const CMD_PRIVATE_RESP: byte := 0x04
  const CMD_DISCOVER_REQ: byte := 0x28
  const CMD_DISCOVER_RESP: byte := 0x29
  const CMD_DISCOVER_SPE_REQ: byte := 0x2A
  const CMD_DISCOVER_ALT_REQ: byte := 0x2E
  const CMD_DISCOVER_ALT_RESP: byte := 0x2F
  const CMD_KEY_INIT: byte := 0x31
  const CMD_KEY_TRANSFER: byte := 0x32
  const CMD_KEY_CONFIRM: byte := 0x33
  const CMD_CHALLENGE_REQ: byte := 0x3C
  const CMD_CHALLENGE_RESP: byte := 0x3D
  const CMD_SET_CONFIG1: byte := 0x6F
  const CMD_STATUS_UPDATE: byte := 0x71
  const CMD_ERROR_RESP: byte := 0xFE

  /** The commands is_known_io_command lists. */
  const KNOWN_COMMANDS: set<byte> :=
    {0x00, 0x01, 0x03, 0x04, 0x19, 0x1A, 0x1E, 0x20, 0x21,
     0x28, 0x29, 0x2A, 0x2B, 0x2C, 0x2D, 0x2E, 0x2F,
     0x31, 0x32, 0x33, 0x36, 0x37, 0x38, 0x3C, 0x3D,
     0x50, 0x51, 0x52, 0x53, 0x56, 0x57, 0x6F, 0x70, 0x71, 0x72, 0xFE}
}
