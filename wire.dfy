/** The pure part of the library's UAVCAN v1 wire layer (src/libwlmio/wlmio.c):
    the register width tables and record validation, the response-correlation id,
    the request payloads of uavcan.register.Access.1.0 (port 384),
    uavcan.register.List.1.0 (385), uavcan.node.GetInfo.1.0 (430) and
    uavcan.node.ExecuteCommand.1.0 (435), and the decoders of their responses and
    of uavcan.node.Heartbeat.1.0 (7509). */
module Wire {
  import opened Bytes
  import opened Types

  const PORT_REGISTER_ACCESS := 384
  const PORT_REGISTER_LIST := 385
  const PORT_FILE_READ := 408
  const PORT_GET_INFO := 430
  const PORT_EXECUTE_COMMAND := 435
  const PORT_HEARTBEAT := 7509

  /** Transfer extents the library subscribes with: the CAN stack truncates a
      received payload to these sizes. */
  const EXTENT_REGISTER_LIST := 51
  const EXTENT_REGISTER_ACCESS := 267
  const EXTENT_GET_INFO := 313

  /** register_value_bit_width: bits per element, by tag. */
  const BIT_WIDTH: seq<nat> := [0, 8, 8, 1, 64, 32, 16, 8, 64, 32, 16, 8, 64, 32, 16]
  /** register_value_length_width: bytes of the element count on the wire, by tag. */
  const LENGTH_WIDTH: seq<nat> := [0, 2, 2, 2, 1, 1, 1, 2, 1, 1, 1, 2, 1, 1, 1]

  /** The per-tag element limit of validate_register_access. */
  function MaxLength(t: byte): nat
  {
    if t == REG_STRING || t == REG_UNSTRUCTURED || t == REG_INT8 || t == REG_UINT8 then 256
    else if t == REG_BIT then 2048
    else if t == REG_INT64 || t == REG_UINT64 || t == REG_FLOAT64 then 32
    else if t == REG_INT32 || t == REG_UINT32 || t == REG_FLOAT32 then 64
    else if t == REG_INT16 || t == REG_UINT16 || t == REG_FLOAT16 then 128
    else 0xFFFF
  }

  /** validate_register_access on a present record: 0 or -EINVAL.  The per-tag
      limits are exactly "the elements fit the 2048 bits of the value area". */
  function ValidateRegisterAccess(reg: RegisterAccess): (r: int)
    ensures r == 0 || r == -EINVAL
    ensures r == 0 <==>
      reg.regType <= REG_FLOAT16 &&
      (reg.regType == REG_EMPTY || reg.length * BIT_WIDTH[reg.regType] <= 2048)
  {
    if reg.regType > REG_FLOAT16 then -EINVAL
    else if reg.length > MaxLength(reg.regType) then -EINVAL
    else 0
  }

  /** Bytes a valid record's value takes on the wire: (length * bit width) >> 3. */
  function ValueBytes(reg: RegisterAccess): (n: nat)
    requires reg.regType <= REG_FLOAT16
  {
    (reg.length * BIT_WIDTH[reg.regType]) / 8
  }

  /** Every accepted record's value fits the 256-byte value area. */
  lemma ValidatedValueFits(reg: RegisterAccess)
    requires ValidateRegisterAccess(reg) == 0
    ensures ValueBytes(reg) <= 256
    ensures reg.regType != REG_EMPTY ==> reg.length < Pow256(LENGTH_WIDTH[reg.regType])
  {
  }

  /** make_rsp_specifier: the remote id (7 bits), transfer id (5 bits) and port
      (9 bits) of a transfer in disjoint bit ranges of one 32-bit id.  The masks
      cover disjoint bit ranges, so the bitwise | of the source is a sum here. */
  function MakeRspSpecifier(remote: byte, tid: byte, port: u16): (id: u32)
    ensures id < 0x20_0000
    ensures id % 0x80 == remote % 0x80
    ensures (id / 0x80) % 0x20 == tid % 0x20
    ensures id / 0x1000 == port % 0x200
  {
    (remote % 0x80) + (tid % 0x20) * 0x80 + (port % 0x200) * 0x1000
  }

  /** Distinct in-range (remote, transfer id, port) triples get distinct ids. */
  lemma RspSpecifierInjective(r1: byte, t1: byte, p1: u16, r2: byte, t2: byte, p2: u16)
    requires r1 < 0x80 && r2 < 0x80 && t1 < 0x20 && t2 < 0x20 && p1 < 0x200 && p2 < 0x200
    requires MakeRspSpecifier(r1, t1, p1) == MakeRspSpecifier(r2, t2, p2)
    ensures r1 == r2 && t1 == t2 && p1 == p2
  {
    var id := MakeRspSpecifier(r1, t1, p1);
    assert r1 == id % 0x80 == r2;
    assert t1 == (id / 0x80) % 0x20 == t2;
    assert p1 == id / 0x1000 == p2;
  }

  /** The per-node transfer id after a request: (tid + 1) & 0x1F. */
  function NextTransferId(tid: byte): (n: byte)
    ensures n < 32
    ensures tid < 32 ==> n == (tid + 1) % 32
  {
    (tid + 1) % 32
  }

  // ---------------------------------------------------------------- requests

  /** The register-access request payload: the name length (at most 50), the name
      bytes, the tag, and for a non-empty written record its element count in
      LENGTH_WIDTH bytes followed by its value bytes. */
  function RegisterAccessPayload(name: CString, regw: Option<RegisterAccess>): (p: seq<byte>)
    requires regw.Some? ==> ValidateRegisterAccess(regw.value) == 0
    ensures |p| <= 310
  {
    var nameLen := Min(|name|, 50);
    var head := [nameLen as byte] + name[..nameLen];
    match regw
    case None => head + [REG_EMPTY]
    case Some(reg) =>
      ValidatedValueFits(reg);
      if reg.regType == REG_EMPTY then head + [REG_EMPTY]
      else head + [reg.regType] + PutLE(reg.length, LENGTH_WIDTH[reg.regType])
           + reg.value[..ValueBytes(reg)]
  }

  /** What a request entry point decides: rejected with a negative errno, or the
      payload to queue. */
  datatype Request = Rejected(errno: int) | Queued(payload: seq<byte>)

  /** The argument checks and payload of wlmio_register_access.  `regr` tells
      whether the caller passed a buffer for the reply.  Node ids above 127 are
      rejected; see RegisterAccessRequestAsWritten for the source's own bound. */
  function RegisterAccessRequest(nodeId: byte, name: Option<CString>, regw: Option<RegisterAccess>,
                                 regr: bool): (q: Request)
    ensures q.Rejected? <==>
      nodeId > NODE_ID_MAX || name.None? || name.value == [] || (regw.None? && !regr) ||
      (regw.Some? && ValidateRegisterAccess(regw.value) != 0)
    ensures q.Rejected? ==> q.errno == -EINVAL
    ensures q.Queued? ==> RegisterAccessDecodes(q.payload, name.value, regw)
  {
    if nodeId > NODE_ID_MAX || name.None? || name.value == [] || (regw.None? && !regr) ||
       (regw.Some? && ValidateRegisterAccess(regw.value) != 0)
    then Rejected(-EINVAL)
    else
      var p := RegisterAccessPayload(name.value, regw);
      RegisterAccessPayloadDecodes(name.value, regw);
      Queued(p)
  }

  /** The source's own guard: `node_id >= CANARD_NODE_ID_MAX`, which turns away
      node 127 although every other entry point accepts it. */
  function RegisterAccessRequestAsWritten(nodeId: byte, name: Option<CString>,
                                          regw: Option<RegisterAccess>, regr: bool): (q: Request)
    ensures nodeId >= NODE_ID_MAX ==> q == Rejected(-EINVAL)
  {
    if nodeId >= NODE_ID_MAX then Rejected(-EINVAL)
    else RegisterAccessRequest(nodeId, name, regw, regr)
  }

  /** Node 127 is refused by the source's guard but accepted by the corrected one. */
  lemma Node127RegisterAccess(name: CString, regw: RegisterAccess)
    requires name != [] && ValidateRegisterAccess(regw) == 0
    ensures RegisterAccessRequestAsWritten(127, Some(name), Some(regw), false) == Rejected(-EINVAL)
    ensures RegisterAccessRequest(127, Some(name), Some(regw), false).Queued?
  {
  }

  /** How the node reads a register-access request: what each field of the
      payload says (the independent reading of the layout). */
  ghost predicate RegisterAccessDecodes(p: seq<byte>, name: CString, regw: Option<RegisterAccess>)
  {
    var n := Min(|name|, 50);
    |p| >= n + 2 &&
    p[0] == n && p[1..n + 1] == name[..n] &&
    match regw
    case None => p[n + 1] == REG_EMPTY && |p| == n + 2
    case Some(reg) =>
      p[n + 1] == reg.regType &&
      (reg.regType == REG_EMPTY ==> |p| == n + 2) &&
      (reg.regType != REG_EMPTY && reg.regType <= REG_FLOAT16 ==>
        var w := LENGTH_WIDTH[reg.regType];
        GetLE(p, n + 2, w) == reg.length &&
        reg.length * BIT_WIDTH[reg.regType] <= 2048 &&
        |p| == n + 2 + w + (reg.length * BIT_WIDTH[reg.regType]) / 8 &&
        p[n + 2 + w..] == reg.value[..(reg.length * BIT_WIDTH[reg.regType]) / 8])
  }

  lemma RegisterAccessPayloadDecodes(name: CString, regw: Option<RegisterAccess>)
    requires regw.Some? ==> ValidateRegisterAccess(regw.value) == 0
    ensures RegisterAccessDecodes(RegisterAccessPayload(name, regw), name, regw)
  {
    var n := Min(|name|, 50);
    var head := [n as byte] + name[..n];
    match regw
    case None =>
    case Some(reg) =>
      if reg.regType != REG_EMPTY {
        ValidatedValueFits(reg);
        var w := LENGTH_WIDTH[reg.regType];
        var value := reg.value[..ValueBytes(reg)];
        var p := head + [reg.regType] + PutLE(reg.length, w) + value;
        assert p == (head + [reg.regType]) + PutLE(reg.length, w) + value;
        GetPutLE(reg.length, w, head + [reg.regType], value);
        assert p[n + 2 + w..] == value;
      }
  }

  /** The payload of wlmio_execute_command: the 16-bit command little-endian, the
      parameter length clamped to 112 as one byte, then that many parameter bytes. */
  function ExecuteCommandPayload(command: u16, param: seq<byte>): (p: seq<byte>)
    ensures |p| == 3 + Min(|param|, 112) && |p| <= 115
    ensures GetLE(p, 0, 2) == command
    ensures p[2] == Min(|param|, 112) && p[3..] == param[..Min(|param|, 112)]
  {
    var n := Min(|param|, 112);
    GetPutLE(command, 2, [], [n as byte] + param[..n]);
    assert PutLE(command, 2) + ([n as byte] + param[..n]) == [] + PutLE(command, 2) + ([n as byte] + param[..n]);
    PutLE(command, 2) + [n as byte] + param[..n]
  }

  /** wlmio_execute_command's checks.  `param` is None for a null pointer and
      `paramLen` is the length the caller passes; only the first
      min(paramLen, 112) bytes of the parameter are read. */
  function ExecuteCommandRequest(nodeId: byte, command: u16, param: Option<seq<byte>>, paramLen: nat)
    : (q: Request)
    requires param.Some? ==> Min(paramLen, 112) <= |param.value|
    ensures q.Rejected? <==> nodeId > NODE_ID_MAX || (param.None? && paramLen > 0)
    ensures q.Rejected? ==> q.errno == -EINVAL
    ensures q.Queued? ==> |q.payload| <= 115 && GetLE(q.payload, 0, 2) == command
    ensures q.Queued? && param.None? ==> |q.payload| == 3 && q.payload[2] == 0
    ensures q.Queued? && param.Some? ==>
      |q.payload| == 3 + Min(paramLen, 112) && q.payload[2] == Min(paramLen, 112) &&
      q.payload[3..] == param.value[..Min(paramLen, 112)]
  {
    if nodeId > NODE_ID_MAX || (param.None? && paramLen > 0) then Rejected(-EINVAL)
    else
      var bytes := if param.Some? then param.value[..Min(paramLen, 112)] else [];
      Queued(ExecuteCommandPayload(command, bytes))
  }

  /** wlmio_register_list's checks; its payload is the 16-bit index. */
  function RegisterListRequest(nodeId: byte, index: u16, name: bool): (q: Request)
    ensures q.Rejected? <==> nodeId > NODE_ID_MAX || !name
    ensures q.Queued? ==> |q.payload| == 2 && GetLE(q.payload, 0, 2) == index
  {
    if nodeId > NODE_ID_MAX || !name then Rejected(-EINVAL)
    else
      GetPutLE(index, 2, [], []);
      assert [] + PutLE(index, 2) + [] == PutLE(index, 2);
      Queued(PutLE(index, 2))
  }

  /** wlmio_get_node_info's checks; its payload is empty. */
  function GetNodeInfoRequest(nodeId: byte, info: bool, callback: bool): (q: Request)
    ensures q.Rejected? <==> nodeId > NODE_ID_MAX || !info || !callback
    ensures q.Queued? ==> q.payload == []
  {
    if nodeId > NODE_ID_MAX || !info || !callback then Rejected(-EINVAL) else Queued([])
  }

  // --------------------------------------------------------------- responses

  /** execute_command_response_handler: the status byte, SUCCESS when empty. */
  function CommandStatus(payload: seq<byte>): (s: byte)
    ensures |payload| > 0 ==> s == payload[0]
    ensures payload == [] ==> s == CMD_STATUS_SUCCESS
  {
    if |payload| > 0 then ByteAt(payload, 0) else CMD_STATUS_SUCCESS
  }

  /** register_list_response_handler: the 51-byte name buffer is zeroed and then
      receives every payload byte after the length byte.  The source computes the
      length byte (clamped to 50) but never uses it. */
  function RegisterListName(payload: seq<byte>): (name: seq<byte>)
    requires |payload| <= EXTENT_REGISTER_LIST
    ensures |name| == 51 && name[50] == 0
    ensures forall i :: 0 <= i < 51 ==> name[i] == ByteAt(payload, i + 1)
  {
    if |payload| > 1 then PadTo(payload[1..], 51) else Zeros(51)
  }

  /** The List response a node sends for a name of at most 50 bytes. */
  function EncodeRegisterListResponse(name: seq<byte>): seq<byte>
    requires |name| <= 50
  {
    [|name| as byte] + name
  }

  lemma RegisterListRoundTrip(name: seq<byte>)
    requires |name| <= 50
    ensures RegisterListName(EncodeRegisterListResponse(name)) == PadTo(name, 51)
  {
    var p := EncodeRegisterListResponse(name);
    var got := RegisterListName(p);
    forall i | 0 <= i < 51
      ensures got[i] == PadTo(name, 51)[i]
    {
      assert ByteAt(p, i + 1) == (if i < |name| then name[i] else 0);
    }
  }

  /** uavcan.node.Heartbeat.1.0 as heartbeat_handler reads it: uptime (32 bits),
      health (2 bits of byte 4), mode (3 bits of byte 5), vendor status (byte 6). */
  function DecodeHeartbeat(payload: seq<byte>): (s: Status)
    ensures s.health < 4 && s.mode < 8
    ensures s.uptime == GetLE(payload, 0, 4) && s.vendorStatus == ByteAt(payload, 6)
  {
    Pow256Values();
    Status(GetLE(payload, 0, 4), GetBits(payload, 4, 2), GetBits(payload, 5, 3), ByteAt(payload, 6))
  }

  /** The heartbeat a node sends. */
  function EncodeHeartbeat(s: Status): seq<byte>
  {
    PutLE(s.uptime, 4) + [s.health, s.mode, s.vendorStatus]
  }

  lemma HeartbeatRoundTrip(s: Status)
    requires s.health < 4 && s.mode < 8
    ensures DecodeHeartbeat(EncodeHeartbeat(s)) == s
  {
    var p := EncodeHeartbeat(s);
    Pow256Values();
    GetPutLE(s.uptime, 4, [], [s.health, s.mode, s.vendorStatus]);
    assert [] + PutLE(s.uptime, 4) + [s.health, s.mode, s.vendorStatus] == p;
    assert p[4] == s.health && p[5] == s.mode && p[6] == s.vendorStatus;
  }
}
