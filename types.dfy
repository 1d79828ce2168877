/** The vocabulary of the library's public header: node status, register value
    tags and the register-access record, commands, command status codes, the
    per-device enumerations and the error numbers the library returns. */
module Types {
  import opened Bytes

  /** The largest node id of the bus (CANARD_NODE_ID_MAX); ids are 0..127. */
  const NODE_ID_MAX := 127
  /** The "no node id" marker of an anonymous transfer (CANARD_NODE_ID_UNSET). */
  const NODE_ID_UNSET := 255

  // Health and mode of a node (enum wlmio_health, enum wlmio_mode).
  const HEALTH_NOMINAL := 0
  const HEALTH_ADVISORY := 1
  const HEALTH_CAUTION := 2
  const HEALTH_WARNING := 3

  const MODE_OPERATIONAL := 0
  const MODE_INITIALIZATION := 1
  const MODE_MAINTENANCE := 2
  const MODE_SOFTWARE_UPDATE := 3
  const MODE_OFFLINE := 7

  /** struct wlmio_status: what the last heartbeat of a node said. */
  datatype Status = Status(uptime: u32, health: byte, mode: byte, vendorStatus: byte)

  /** The status every node has before its first heartbeat and after a timeout. */
  const OFFLINE_STATUS := Status(0, HEALTH_NOMINAL, MODE_OFFLINE, 0)

  // Register value tags (enum wlmio_register_value).
  const REG_EMPTY := 0
  const REG_STRING := 1
  const REG_UNSTRUCTURED := 2
  const REG_BIT := 3
  const REG_INT64 := 4
  const REG_INT32 := 5
  const REG_INT16 := 6
  const REG_INT8 := 7
  const REG_UINT64 := 8
  const REG_UINT32 := 9
  const REG_UINT16 := 10
  const REG_UINT8 := 11
  const REG_FLOAT64 := 12
  const REG_FLOAT32 := 13
  const REG_FLOAT16 := 14

  /** The 256-byte value area of a register-access record. */
  type Value256 = s: seq<byte> | |s| == 256 witness Zeros(256)

  /** struct wlmio_register_access: a tag, an element count and 256 value bytes. */
  datatype RegisterAccess = RegisterAccess(regType: byte, length: u16, value: Value256)

  const EMPTY_ACCESS := RegisterAccess(REG_EMPTY, 0, Zeros(256))

  // Commands (enum wlmio_command) and their status codes (enum wlmio_command_status).
  const CMD_STORE_PERSISTENT_STATES := 65530
  const CMD_EMERGENCY_STOP := 65531
  const CMD_FACTORY_RESET := 65532
  const CMD_BEGIN_SOFTWARE_UPDATE := 65533
  const CMD_POWER_OFF := 65534
  const CMD_RESTART := 65535

  const CMD_STATUS_SUCCESS := 0
  const CMD_STATUS_FAILURE := 1
  const CMD_STATUS_NOT_AUTHORIZED := 2
  const CMD_STATUS_BAD_COMMAND := 3
  const CMD_STATUS_BAD_PARAMETER := 4
  const CMD_STATUS_BAD_STATE := 5
  const CMD_STATUS_INTERNAL_ERROR := 6

  // Device enumerations (enum wlmio_vpe6040, wlmio_vpe6050, wlmio_vpe6060).
  const VPE6040_MODE_5V := 0
  const VPE6040_MODE_MA := 1
  const VPE6040_MODE_10V := 2
  const VPE6050_MODE_SOURCE := 0
  const VPE6050_MODE_SINK := 1
  const VPE6060_MODE_BASIC := 0
  const VPE6060_MODE_FREQUENCY := 1
  const VPE6060_MODE_PULSE_COUNTER := 2
  const VPE6060_BIAS_NONE := 0
  const VPE6060_BIAS_PNP := 1
  const VPE6060_BIAS_NPN := 2
  const VPE6060_POLARITY_RISING := 0
  const VPE6060_POLARITY_FALLING := 1

  // struct wlmio_node_info flags (enum wlmio_node_info_flags).
  const INFO_FLAG_CRC := 1
  const INFO_FLAG_CERTIFICATE := 2

  // Linux error numbers; the library returns their negations.
  const ENOENT := 2
  const ENOMEM := 12
  const EINVAL := 22
  const EBADE := 52
  const EPROTO := 71
  const ENOTSUP := 95
  const ETIMEDOUT := 110

  datatype Option<T> = None | Some(value: T)

  /** A C string without its terminating NUL. */
  type CString = s: seq<byte> | forall i :: 0 <= i < |s| ==> s[i] != 0

  /** An ASCII literal as a C string. */
  function Ascii(s: string): (r: CString)
    requires forall i :: 0 <= i < |s| ==> 0 < s[i] as int < 128
    ensures |r| == |s|
  {
    seq(|s|, i requires 0 <= i < |s| => s[i] as int)
  }

  /** The C string held in a buffer: the bytes before its first NUL (all of
      them when there is none). */
  function CStringOf(buf: seq<byte>): (s: CString)
    ensures |s| <= |buf| && s == buf[..|s|]
    ensures |s| < |buf| ==> buf[|s|] == 0
  {
    if buf == [] || buf[0] == 0 then [] else [buf[0]] + CStringOf(buf[1..])
  }
}
