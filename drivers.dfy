/** The device drivers of io.c: each per-channel entry point checks its
    arguments, picks the register "ch<n>.<field>" of the channel and hands one
    register access to the library; the read callbacks check the reply and fill
    the caller's output; the three-register configure calls of the 6060 and
    6080 count completions in an aggregate that reports once. */
module Drivers {
  import opened Bytes
  import opened Types
  import opened Wire
  import opened Responses
  import opened Library

  // ------------------------------------------------------- register names

  const FIELD_INPUT := Ascii("input")
  const FIELD_OUTPUT := Ascii("output")
  const FIELD_MODE := Ascii("mode")
  const FIELD_POLARITY := Ascii("polarity")
  const FIELD_BIAS := Ascii("bias")
  const FIELD_ENABLED := Ascii("enabled")
  const FIELD_BETA := Ascii("beta")
  const FIELD_T0 := Ascii("t0")
  const FIELD_TYPE := Ascii("type")
  const SAMPLE_INTERVAL := Ascii("sample_interval")
  const SINGLE_INPUT := Ascii("input")

  /** The register of field `field` of channel index ch: "ch<ch+1>.<field>". */
  function ChannelName(ch: nat, field: CString): (name: CString)
    requires ch < 9
    ensures |name| == 4 + |field| && name[4..] == field
    ensures name[2] == '1' as int + ch
    ensures name[..2] == Ascii("ch") && name[3] == '.' as int
  {
    Ascii("ch") + [('1' as int + ch) as byte] + Ascii(".") + field
  }

  /** Different channels or fields name different registers. */
  lemma ChannelNameInjective(ch1: nat, f1: CString, ch2: nat, f2: CString)
    requires ch1 < 9 && ch2 < 9
    requires ChannelName(ch1, f1) == ChannelName(ch2, f2)
    ensures ch1 == ch2 && f1 == f2
  {
    var n1 := ChannelName(ch1, f1);
    var n2 := ChannelName(ch2, f2);
    assert n1[2] == n2[2];
    assert f1 == n1[4..] == n2[4..] == f2;
  }

  // ------------------------------------------------------ written records

  /** A one-element UINT8 record, as the drivers build on the stack. */
  function UInt8Record(v: byte): (reg: RegisterAccess)
    ensures ValidateRegisterAccess(reg) == 0
    ensures reg.regType == REG_UINT8 && reg.length == 1 && reg.value[0] == v
  {
    RegisterAccess(REG_UINT8, 1, [v] + Zeros(255))
  }

  /** A one-element UINT16 record holding v little-endian. */
  function UInt16Record(v: u16): (reg: RegisterAccess)
    ensures ValidateRegisterAccess(reg) == 0
    ensures reg.regType == REG_UINT16 && reg.length == 1 && GetLE(reg.value, 0, 2) == v
  {
    Pow256Values();
    var reg := RegisterAccess(REG_UINT16, 1, PutLE(v, 2) + Zeros(254));
    GetPutLE(v, 2, [], Zeros(254));
    reg
  }

  /** The timer a request would register is not yet watched. */
  predicate FreshTimer(lib: Wlmio, env: TimerEnv)
    reads lib
  {
    NotWatched(lib.fds, env.timerFd)
  }

  predicate NotWatched(fds: seq<FdEntry>, fd: int)
  {
    fd >= 0 ==> forall k :: 0 <= k < |fds| ==> fds[k].fd != fd
  }

  /** Registering one timer leaves every other descriptor unwatched. */
  lemma AfterAddKeepsUnwatched(tasks: seq<Task>, fds: seq<FdEntry>, next: nat, id: u32, delay: TimerSpec,
                               callback: nat, uparam: nat, env: TimerEnv, fd: int)
    requires NotWatched(fds, fd) && (fd >= 0 ==> env.timerFd != fd)
    ensures NotWatched(AfterAdd(tasks, fds, next, id, delay, Null, callback, uparam, env).1, fd)
  {
  }

  /** The library queued exactly this register access. */
  twostate predicate Accessed(lib: Wlmio, nodeId: byte, name: CString, regw: Option<RegisterAccess>,
                              regr: Param, callback: nat, uparam: nat, env: TimerEnv)
    reads lib, lib.tids
    requires nodeId <= NODE_ID_MAX && (regw.Some? ==> ValidateRegisterAccess(regw.value) == 0)
    requires lib.tids.Length0 == 4 && lib.tids.Length1 == 128
  {
    lib.Sent(SVC_REGISTER_ACCESS, PORT_REGISTER_ACCESS, nodeId, RegisterAccessPayload(name, regw),
             regr, callback, uparam, env)
  }

  // Identities of the driver's own completion callbacks.
  const VPE6010_READ_CALLBACK := 1
  const VPE6040_READ_CALLBACK := 2
  const VPE6060_READ_CALLBACK := 3
  const VPE6060_CONFIGURE_CALLBACK := 4
  const VPE6080_READ_CALLBACK := 5
  const VPE6080_CONFIGURE_CALLBACK := 6
  const VPE6090_READ_CALLBACK := 7
  const VPE6180_READ_CALLBACK := 8
  const SAMPLE_INTERVAL_CALLBACK := 9

  // --------------------------------------------------------------- writes

  /** wlmio_vpe6030_write: the output is written as 0 or 1. */
  method Vpe6030Write(lib: Wlmio, nodeId: byte, ch: byte, v: byte, callback: nat, uparam: nat, env: TimerEnv)
    returns (r: int)
    requires lib.Valid() && FreshTimer(lib, env)
    modifies lib`outbox, lib`fds, lib`nextHandle, lib`tasks, lib.tids
    ensures lib.Valid()
    ensures r == 0 || r == -EINVAL
    ensures r == -EINVAL <==> nodeId > NODE_ID_MAX || ch > 3
    ensures r != 0 ==> unchanged(lib, lib.tids)
    ensures r == 0 ==> Accessed(lib, nodeId, ChannelName(ch, FIELD_OUTPUT),
      Some(UInt8Record(if v != 0 then 1 else 0)), Null, callback, uparam, env)
  {
    if nodeId > NODE_ID_MAX || ch > 3 {
      return -EINVAL;
    }
    var regw := UInt8Record(if v != 0 then 1 else 0);
    r := lib.RegisterAccess(nodeId, Some(ChannelName(ch, FIELD_OUTPUT)), Some(regw), Null, callback, uparam, env);
  }

  /** wlmio_vpe6040_configure: mode 0..2 (5 V, mA, 10 V). */
  method Vpe6040Configure(lib: Wlmio, nodeId: byte, ch: byte, mode: byte, callback: Option<nat>, uparam: nat,
                          env: TimerEnv) returns (r: int)
    requires lib.Valid() && FreshTimer(lib, env)
    modifies lib`outbox, lib`fds, lib`nextHandle, lib`tasks, lib.tids
    ensures lib.Valid()
    ensures r == 0 || r == -EINVAL
    ensures r == -EINVAL <==> nodeId > NODE_ID_MAX || ch > 3 || mode > VPE6040_MODE_10V || callback.None?
    ensures r != 0 ==> unchanged(lib, lib.tids)
    ensures r == 0 ==> Accessed(lib, nodeId, ChannelName(ch, FIELD_MODE), Some(UInt8Record(mode)), Null,
      callback.value, uparam, env)
  {
    if nodeId > NODE_ID_MAX || ch > 3 || mode > VPE6040_MODE_10V || callback.None? {
      return -EINVAL;
    }
    r := lib.RegisterAccess(nodeId, Some(ChannelName(ch, FIELD_MODE)), Some(UInt8Record(mode)), Null,
                            callback.value, uparam, env);
  }

  /** wlmio_vpe6050_write and wlmio_vpe6070_write: a 16-bit output. */
  method OutputWrite(lib: Wlmio, nodeId: byte, ch: byte, v: u16, callback: Option<nat>, uparam: nat,
                     env: TimerEnv) returns (r: int)
    requires lib.Valid() && FreshTimer(lib, env)
    modifies lib`outbox, lib`fds, lib`nextHandle, lib`tasks, lib.tids
    ensures lib.Valid()
    ensures r == 0 || r == -EINVAL
    ensures r == -EINVAL <==> nodeId > NODE_ID_MAX || ch > 3 || callback.None?
    ensures r != 0 ==> unchanged(lib, lib.tids)
    ensures r == 0 ==> Accessed(lib, nodeId, ChannelName(ch, FIELD_OUTPUT), Some(UInt16Record(v)), Null,
      callback.value, uparam, env)
  {
    if nodeId > NODE_ID_MAX || ch > 3 || callback.None? {
      return -EINVAL;
    }
    r := lib.RegisterAccess(nodeId, Some(ChannelName(ch, FIELD_OUTPUT)), Some(UInt16Record(v)), Null,
                            callback.value, uparam, env);
  }

  /** wlmio_vpe6050_configure: mode 0..1 (source, sink). */
  method Vpe6050Configure(lib: Wlmio, nodeId: byte, ch: byte, mode: byte, callback: Option<nat>, uparam: nat,
                          env: TimerEnv) returns (r: int)
    requires lib.Valid() && FreshTimer(lib, env)
    modifies lib`outbox, lib`fds, lib`nextHandle, lib`tasks, lib.tids
    ensures lib.Valid()
    ensures r == 0 || r == -EINVAL
    ensures r == -EINVAL <==> nodeId > NODE_ID_MAX || ch > 3 || mode > VPE6050_MODE_SINK || callback.None?
    ensures r != 0 ==> unchanged(lib, lib.tids)
    ensures r == 0 ==> Accessed(lib, nodeId, ChannelName(ch, FIELD_MODE), Some(UInt8Record(mode)), Null,
      callback.value, uparam, env)
  {
    if nodeId > NODE_ID_MAX || ch > 3 || mode > VPE6050_MODE_SINK || callback.None? {
      return -EINVAL;
    }
    r := lib.RegisterAccess(nodeId, Some(ChannelName(ch, FIELD_MODE)), Some(UInt8Record(mode)), Null,
                            callback.value, uparam, env);
  }

  /** wlmio_vpe6090_configure: the thermocouple type, at most `typeMax`
      (WLMIO_VPE6090_TYPE_T, which the header does not define). */
  method Vpe6090Configure(lib: Wlmio, nodeId: byte, ch: byte, sensor: byte, typeMax: byte,
                          callback: Option<nat>, uparam: nat, env: TimerEnv) returns (r: int)
    requires lib.Valid() && FreshTimer(lib, env)
    modifies lib`outbox, lib`fds, lib`nextHandle, lib`tasks, lib.tids
    ensures lib.Valid()
    ensures r == 0 || r == -EINVAL
    ensures r == -EINVAL <==> nodeId > NODE_ID_MAX || ch > 5 || callback.None? || sensor > typeMax
    ensures r != 0 ==> unchanged(lib, lib.tids)
    ensures r == 0 ==> Accessed(lib, nodeId, ChannelName(ch, FIELD_TYPE), Some(UInt8Record(sensor)), Null,
      callback.value, uparam, env)
  {
    if nodeId > NODE_ID_MAX || ch > 5 || callback.None? || sensor > typeMax {
      return -EINVAL;
    }
    r := lib.RegisterAccess(nodeId, Some(ChannelName(ch, FIELD_TYPE)), Some(UInt8Record(sensor)), Null,
                            callback.value, uparam, env);
  }

  // ---------------------------------------------------------------- reads

  /** The channel range of each reading device: 6040 and 6060 have four
      channels, 6090 six, 6080 and 6180 eight. */
  function ReadChannels(callbackId: nat): nat
  {
    if callbackId == VPE6090_READ_CALLBACK then 6
    else if callbackId == VPE6080_READ_CALLBACK || callbackId == VPE6180_READ_CALLBACK then 8
    else 4
  }

  /** wlmio_vpe6040_read, wlmio_vpe6060_read, wlmio_vpe6080_read,
      wlmio_vpe6090_read and wlmio_vpe6180_read: the channel's "input" register
      is read into the context block at `ctx` (whose first member is the reply
      record), and the device's read callback completes the request.  The
      context returned is what the block keeps for that callback: the
      caller's callback and argument. */
  method ChannelRead(lib: Wlmio, callbackId: nat, nodeId: byte, ch: byte, dst: bool, callback: Option<nat>,
                     uparam: nat, ctx: nat, env: TimerEnv) returns (r: int, t: Option<ReadContext>)
    requires callbackId in {VPE6040_READ_CALLBACK, VPE6060_READ_CALLBACK, VPE6080_READ_CALLBACK,
                            VPE6090_READ_CALLBACK, VPE6180_READ_CALLBACK}
    requires lib.Valid() && FreshTimer(lib, env)
    modifies lib`outbox, lib`fds, lib`nextHandle, lib`tasks, lib.tids
    ensures lib.Valid()
    ensures r == 0 || r == -EINVAL
    ensures r == -EINVAL <==> nodeId > NODE_ID_MAX || ch >= ReadChannels(callbackId) || !dst || callback.None?
    ensures r != 0 ==> t.None? && unchanged(lib, lib.tids)
    ensures r == 0 ==> t == Some(ReadContext(callback.value, uparam))
    ensures r == 0 ==> Accessed(lib, nodeId, ChannelName(ch, FIELD_INPUT), None, Ptr(ctx), callbackId, ctx, env)
  {
    if nodeId > NODE_ID_MAX || ch >= ReadChannels(callbackId) || !dst || callback.None? {
      return -EINVAL, None;
    }
    r := lib.RegisterAccess(nodeId, Some(ChannelName(ch, FIELD_INPUT)), None, Ptr(ctx), callbackId, ctx, env);
    t := Some(ReadContext(callback.value, uparam));
  }

  /** wlmio_vpe6010_read: the node's single "input" register, with the
      caller's callback and argument kept in the returned context. */
  method Vpe6010Read(lib: Wlmio, nodeId: byte, dst: bool, callback: nat, uparam: nat, ctx: nat, env: TimerEnv)
    returns (r: int, t: Option<ReadContext>)
    requires lib.Valid() && FreshTimer(lib, env)
    modifies lib`outbox, lib`fds, lib`nextHandle, lib`tasks, lib.tids
    ensures lib.Valid()
    ensures r == 0 || r == -EINVAL
    ensures r == -EINVAL <==> nodeId > NODE_ID_MAX || !dst
    ensures r != 0 ==> t.None? && unchanged(lib, lib.tids)
    ensures r == 0 ==> t == Some(ReadContext(callback, uparam))
    ensures r == 0 ==> Accessed(lib, nodeId, SINGLE_INPUT, None, Ptr(ctx), VPE6010_READ_CALLBACK, ctx, env)
  {
    if nodeId > NODE_ID_MAX || !dst {
      return -EINVAL, None;
    }
    r := lib.RegisterAccess(nodeId, Some(SINGLE_INPUT), None, Ptr(ctx), VPE6010_READ_CALLBACK, ctx, env);
    t := Some(ReadContext(callback, uparam));
  }

  /** What a read callback reports: the request's own failure, or -EPROTO for
      a reply of the wrong type or with fewer than `minLength` elements, or 0. */
  function ReadResult(r: int, reg: RegisterAccess, expected: byte, minLength: nat): (res: int)
    ensures r < 0 ==> res == r
    ensures r >= 0 ==> (res == 0 <==> reg.regType == expected && reg.length >= minLength)
    ensures r >= 0 && res != 0 ==> res == -EPROTO
  {
    if r < 0 then r
    else if reg.regType != expected || reg.length < minLength then -EPROTO
    else 0
  }

  /** The user callback and argument kept in a read's context block. */
  datatype ReadContext = ReadContext(callback: nat, uparam: nat)

  /** A caller's output variable. */
  class Word {
    var value: nat
    constructor (v: nat)
      ensures value == v
    {
      value := v;
    }
  }

  /** struct wlmio_vpe6010_input. */
  class Vpe6010Input {
    var ma5v: nat
    var mv5v: nat
    var mv24v1: nat
    var mv24v2: nat
    var mv24v: nat
    var ma24v: nat

    constructor ()
      ensures Fields() == [0, 0, 0, 0, 0, 0]
    {
      ma5v, mv5v, mv24v1, mv24v2, mv24v, ma24v := 0, 0, 0, 0, 0, 0;
    }

    /** The members in declaration order. */
    function Fields(): (f: seq<nat>)
      reads this
      ensures |f| == 6
    {
      [ma5v, mv5v, mv24v1, mv24v2, mv24v, ma24v]
    }
  }

  /** vpe6010_read_callback: a UINT16 reply of at least six elements fills the
      six members from the 2-byte slots at offsets 0, 2, ..., 10. */
  method Vpe6010ReadCallback(r: int, reg: RegisterAccess, dst: Vpe6010Input, ctx: ReadContext)
    returns (call: Call)
    modifies dst
    ensures call == Call(ctx.callback, ReadResult(r, reg, REG_UINT16, 6), ctx.uparam)
    ensures call.r == 0 ==> dst.Fields() == UnpackLE(reg.value, 0, 6, 2)
    ensures call.r != 0 ==> dst.Fields() == old(dst.Fields())
  {
    var res := ReadResult(r, reg, REG_UINT16, 6);
    if res == 0 {
      dst.ma5v := GetLE(reg.value, 0, 2);
      dst.mv5v := GetLE(reg.value, 2, 2);
      dst.mv24v1 := GetLE(reg.value, 4, 2);
      dst.mv24v2 := GetLE(reg.value, 6, 2);
      dst.mv24v := GetLE(reg.value, 8, 2);
      dst.ma24v := GetLE(reg.value, 10, 2);
    }
    call := Call(ctx.callback, res, ctx.uparam);
  }

  /** vpe6040_read_callback, and the identical callbacks of the 6080, 6090
      and 6180: a UINT16 reply of at least one element fills the output. */
  method U16ReadCallback(r: int, reg: RegisterAccess, dst: Word, ctx: ReadContext) returns (call: Call)
    modifies dst
    ensures call == Call(ctx.callback, ReadResult(r, reg, REG_UINT16, 1), ctx.uparam)
    ensures call.r == 0 ==> dst.value == GetLE(reg.value, 0, 2)
    ensures call.r != 0 ==> dst.value == old(dst.value)
  {
    var res := ReadResult(r, reg, REG_UINT16, 1);
    if res == 0 {
      dst.value := GetLE(reg.value, 0, 2);
    }
    call := Call(ctx.callback, res, ctx.uparam);
  }

  /** A little-endian word `prior` after memcpy of the two low bytes of
      `value` over it: those bytes are replaced, the rest keep their contents. */
  function CopyLow16(prior: nat, value: seq<byte>): nat
  {
    prior / 0x1_0000 * 0x1_0000 + GetLE(value, 0, 2)
  }

  /** vpe6060_read_callback as written: a UINT32 reply, of which only the two
      low bytes are copied into the 32-bit output. */
  function Vpe6060ReadAsWritten(prior: nat, r: int, reg: RegisterAccess): (out: (int, nat))
    ensures out.0 == ReadResult(r, reg, REG_UINT32, 1)
    ensures out.0 == 0 ==> out.1 == CopyLow16(prior, reg.value)
    ensures out.0 != 0 ==> out.1 == prior
  {
    var res := ReadResult(r, reg, REG_UINT32, 1);
    (res, if res == 0 then CopyLow16(prior, reg.value) else prior)
  }

  /** A count of 65536 reaches the caller as 0: the high half is never copied. */
  lemma Vpe6060ReadTruncates()
    ensures var reg := RegisterAccess(REG_UINT32, 1, [0, 0, 1, 0] + Zeros(252));
      GetLE(reg.value, 0, 4) == 0x1_0000 && Vpe6060ReadAsWritten(0, 0, reg) == (0, 0)
  {
    var reg := RegisterAccess(REG_UINT32, 1, [0, 0, 1, 0] + Zeros(252));
    assert ByteAt(reg.value, 0) == 0 && ByteAt(reg.value, 1) == 0;
    assert ByteAt(reg.value, 2) == 1 && ByteAt(reg.value, 3) == 0;
    assert GetLE(reg.value, 0, 2) == 0;
    Pow256Values();
  }

  /** vpe6060_read_callback with all four bytes of the UINT32 value copied. */
  method Vpe6060ReadCallback(r: int, reg: RegisterAccess, dst: Word, ctx: ReadContext) returns (call: Call)
    modifies dst
    ensures call == Call(ctx.callback, ReadResult(r, reg, REG_UINT32, 1), ctx.uparam)
    ensures call.r == 0 ==> dst.value == GetLE(reg.value, 0, 4)
    ensures call.r != 0 ==> dst.value == old(dst.value)
  {
    var res := ReadResult(r, reg, REG_UINT32, 1);
    if res == 0 {
      dst.value := GetLE(reg.value, 0, 4);
    }
    call := Call(ctx.callback, res, ctx.uparam);
  }

  /** A node that answers a read with a one-element UINT16 record of v
      delivers v to the caller. */
  lemma U16ReadDelivers(timestamp: seq<byte>, flags: byte, v: u16)
    requires |timestamp| == 7
    ensures var res := ParseRegisterAccess(EncodeAccessResponse(timestamp, flags, UInt16Record(v)));
      ReadResult(res.r, res.regr, REG_UINT16, 1) == 0 && GetLE(res.regr.value, 0, 2) == v
  {
    var reg := UInt16Record(v);
    AccessRoundTrip(timestamp, flags, reg);
    var res := ParseRegisterAccess(EncodeAccessResponse(timestamp, flags, reg));
    ValidatedValueFits(reg);
    GetLEOnly(res.regr.value, reg.value, 0, 2);
  }

  /** A node that answers the 6010 read with six UINT16 values delivers them
      in order. */
  lemma Vpe6010ReadDelivers(timestamp: seq<byte>, flags: byte, vs: seq<nat>)
    requires |timestamp| == 7 && |vs| == 6 && forall i :: 0 <= i < 6 ==> vs[i] < 0x1_0000
    ensures var reg := RegisterAccess(REG_UINT16, 6, PadTo(PackLE(vs, 2), 256));
      var res := ParseRegisterAccess(EncodeAccessResponse(timestamp, flags, reg));
      ReadResult(res.r, res.regr, REG_UINT16, 6) == 0 && UnpackLE(res.regr.value, 0, 6, 2) == vs
  {
    Pow256Values();
    var packed := PackLE(vs, 2);
    var reg := RegisterAccess(REG_UINT16, 6, PadTo(packed, 256));
    assert ValidateRegisterAccess(reg) == 0;
    AccessRoundTrip(timestamp, flags, reg);
    var res := ParseRegisterAccess(EncodeAccessResponse(timestamp, flags, reg));
    assert ValueBytes(reg) == 12;
    assert res.regr.value == PadTo(packed, 256) by {
      assert reg.value[..12] == packed;
    }
    assert PadTo(packed, 256) == [] + packed + Zeros(244);
    UnpackPackLE(vs, 2, [], Zeros(244));
  }

  // ---------------------------------------------------- configure aggregate

  /** struct vpe6060_configure / vpe6080_configure: completions counted,
      submissions cancelled, the first failure, and what the user callback
      was given (`freed` once it has been). */
  datatype AggState = AggState(counter: nat, cancelled: nat, r: int, delivered: seq<int>, freed: bool)

  const AGG_START := AggState(0, 0, 0, [], false)

  /** One completion of one of the three register writes. */
  function AggStep(s: AggState, res: int): (t: AggState)
    requires !s.freed
  {
    var counter := s.counter + 1;
    var r := if res < 0 && s.r >= 0 then res else s.r;
    if counter + s.cancelled < 3 then AggState(counter, s.cancelled, r, s.delivered, false)
    else AggState(counter, s.cancelled, r, s.delivered + [r], true)
  }

  /** Completions arriving in order, at most as many as are outstanding. */
  function AggRun(s: AggState, results: seq<int>): (t: AggState)
    requires !s.freed && s.counter + s.cancelled + |results| <= 3
    decreases |results|
  {
    if results == [] then s
    else
      var t := AggStep(s, results[0]);
      if t.freed then t else AggRun(t, results[1..])
  }

  /** The first negative result, or 0 when there is none. */
  function FirstFailure(results: seq<int>): (r: int)
    ensures r <= 0 && (r < 0 ==> r in results)
    ensures r == 0 <==> forall i :: 0 <= i < |results| ==> results[i] >= 0
    ensures |results| > 0 && results[0] < 0 ==> r == results[0]
  {
    if results == [] then 0
    else if results[0] < 0 then results[0]
    else FirstFailure(results[1..])
  }

  /** With nothing cancelled, the user callback fires once, after the third
      completion, with the first failure among the three (or 0). */
  lemma AggregateReportsOnce(a: int, b: int, c: int)
    ensures AggRun(AGG_START, [a, b]).delivered == [] && !AggRun(AGG_START, [a, b]).freed
    ensures AggRun(AGG_START, [a, b, c]).delivered == [FirstFailure([a, b, c])]
    ensures AggRun(AGG_START, [a, b, c]).freed
  {
    var s1 := AggStep(AGG_START, a);
    var s2 := AggStep(s1, b);
    assert AggRun(AGG_START, [a, b]) == AggRun(s1, [b]) == AggRun(s2, []);
    assert [a, b, c][1..] == [b, c] && [b, c][1..] == [c];
    assert AggRun(AGG_START, [a, b, c]) == AggRun(s1, [b, c]) == AggRun(s2, [c]);
    assert [a, b, c][1..][1..] == [c];
  }

  /** A cancelled submission lowers the number of completions awaited. */
  lemma AggregateCancelled(a: int, b: int)
    ensures AggRun(AggState(0, 1, 0, [], false), [a, b]).delivered == [FirstFailure([a, b])]
  {
    var s := AggState(0, 1, 0, [], false);
    var s1 := AggStep(s, a);
    assert AggRun(s, [a, b]) == AggRun(s1, [b]);
    assert [a, b][1..] == [b];
  }

  /** The aggregate object the three writes share. */
  class Aggregate {
    var counter: nat
    var cancelled: nat
    var r: int
    var delivered: seq<int>
    var freed: bool
    /** The user's callback and its argument. */
    const callback: nat
    const uparam: nat

    function State(): AggState
      reads this
    {
      AggState(counter, cancelled, r, delivered, freed)
    }

    constructor (callback: nat, uparam: nat)
      ensures State() == AGG_START && this.callback == callback && this.uparam == uparam
    {
      counter, cancelled, r, delivered, freed := 0, 0, 0, [], false;
      this.callback := callback;
      this.uparam := uparam;
    }

    /** vpe6060_configure_callback / vpe6080_configure_callback. */
    method Complete(res: int)
      requires !freed
      modifies this
      ensures State() == AggStep(old(State()), res)
    {
      counter := counter + 1;
      if res < 0 && r >= 0 {
        r := res;
      }
      if counter + cancelled < 3 {
        return;
      }
      delivered := delivered + [r];
      freed := true;
    }
  }

  /** The three response ids the configure writes register under. */
  function ConfigureIds(nodeId: byte, tid: byte): (ids: seq<u32>)
    requires tid < 32
    ensures |ids| == 3
  {
    var t1 := NextTransferId(tid);
    [MakeRspSpecifier(nodeId, tid, PORT_REGISTER_ACCESS),
     MakeRspSpecifier(nodeId, t1, PORT_REGISTER_ACCESS),
     MakeRspSpecifier(nodeId, NextTransferId(t1), PORT_REGISTER_ACCESS)]
  }

  /** The three timers are different descriptors. */
  predicate DistinctTimers(e1: TimerEnv, e2: TimerEnv, e3: TimerEnv)
  {
    (e2.timerFd >= 0 ==> e1.timerFd != e2.timerFd) &&
    (e3.timerFd >= 0 ==> e1.timerFd != e3.timerFd && e2.timerFd != e3.timerFd)
  }

  /** The library state after three register writes to one node. */
  twostate predicate AccessedThrice(lib: Wlmio, nodeId: byte, names: seq<CString>, regws: seq<RegisterAccess>,
                                    ctx: nat, callbackId: nat, envs: seq<TimerEnv>)
    reads lib, lib.tids
    requires |names| == 3 && |regws| == 3 && |envs| == 3 && nodeId <= NODE_ID_MAX
    requires forall i :: 0 <= i < 3 ==> ValidateRegisterAccess(regws[i]) == 0
    requires old(lib.Valid()) && lib.tids.Length0 == 4 && lib.tids.Length1 == 128
  {
    var tid := old(lib.tids[SVC_REGISTER_ACCESS, nodeId]);
    var t1 := NextTransferId(tid);
    var t2 := NextTransferId(t1);
    var ids := ConfigureIds(nodeId, tid);
    var delay := TimerSpecOf(lib.timeout);
    var s1 := AfterAdd(old(lib.tasks), old(lib.fds), old(lib.nextHandle), ids[0], delay, Null, callbackId, ctx, envs[0]);
    var s2 := AfterAdd(s1.0, s1.1, s1.2, ids[1], delay, Null, callbackId, ctx, envs[1]);
    var s3 := AfterAdd(s2.0, s2.1, s2.2, ids[2], delay, Null, callbackId, ctx, envs[2]);
    lib.outbox == old(lib.outbox) + [
      Transfer(PORT_REGISTER_ACCESS, nodeId, tid, RegisterAccessPayload(names[0], Some(regws[0]))),
      Transfer(PORT_REGISTER_ACCESS, nodeId, t1, RegisterAccessPayload(names[1], Some(regws[1]))),
      Transfer(PORT_REGISTER_ACCESS, nodeId, t2, RegisterAccessPayload(names[2], Some(regws[2])))] &&
    lib.tids[SVC_REGISTER_ACCESS, nodeId] == NextTransferId(t2) &&
    (forall s, n :: 0 <= s < 4 && 0 <= n < 128 && (s != SVC_REGISTER_ACCESS || n != nodeId) ==>
      lib.tids[s, n] == old(lib.tids[s, n])) &&
    (lib.tasks, lib.fds, lib.nextHandle) == s3
  }

  /** One of the three writes of a configure call, with the aggregate at
      `ctx` as its completion argument.  The checks of the first write cover
      the other two, so none of them can be turned away. */
  method ConfigureWrite(lib: Wlmio, nodeId: byte, name: CString, regw: RegisterAccess, callbackId: nat,
                        ctx: nat, env: TimerEnv)
    requires lib.Valid() && FreshTimer(lib, env) && nodeId <= NODE_ID_MAX && name != []
    requires ValidateRegisterAccess(regw) == 0
    modifies lib`outbox, lib`fds, lib`nextHandle, lib`tasks, lib.tids
    ensures lib.Valid()
    ensures var tid := old(lib.tids[SVC_REGISTER_ACCESS, nodeId]);
      lib.outbox == old(lib.outbox) + [Transfer(PORT_REGISTER_ACCESS, nodeId, tid, RegisterAccessPayload(name, Some(regw)))] &&
      lib.tids[SVC_REGISTER_ACCESS, nodeId] == NextTransferId(tid) &&
      (forall s, n :: 0 <= s < 4 && 0 <= n < 128 && (s != SVC_REGISTER_ACCESS || n != nodeId) ==>
        lib.tids[s, n] == old(lib.tids[s, n])) &&
      (lib.tasks, lib.fds, lib.nextHandle) == AfterAdd(old(lib.tasks), old(lib.fds), old(lib.nextHandle),
        MakeRspSpecifier(nodeId, tid, PORT_REGISTER_ACCESS), TimerSpecOf(lib.timeout), Null, callbackId, ctx, env)
  {
    var r := lib.RegisterAccess(nodeId, Some(name), Some(regw), Null, callbackId, ctx, env);
    assert r == 0;
  }

  /** The library state after two register writes to one node. */
  twostate predicate AccessedTwice(lib: Wlmio, nodeId: byte, names: seq<CString>, regws: seq<RegisterAccess>,
                                   ctx: nat, callbackId: nat, envs: seq<TimerEnv>)
    reads lib, lib.tids
    requires |names| == 2 && |regws| == 2 && |envs| == 2 && nodeId <= NODE_ID_MAX
    requires forall i :: 0 <= i < 2 ==> ValidateRegisterAccess(regws[i]) == 0
    requires old(lib.Valid()) && lib.tids.Length0 == 4 && lib.tids.Length1 == 128
  {
    var tid := old(lib.tids[SVC_REGISTER_ACCESS, nodeId]);
    var t1 := NextTransferId(tid);
    var delay := TimerSpecOf(lib.timeout);
    var s1 := AfterAdd(old(lib.tasks), old(lib.fds), old(lib.nextHandle),
                       MakeRspSpecifier(nodeId, tid, PORT_REGISTER_ACCESS), delay, Null, callbackId, ctx, envs[0]);
    var s2 := AfterAdd(s1.0, s1.1, s1.2, MakeRspSpecifier(nodeId, t1, PORT_REGISTER_ACCESS), delay, Null, callbackId, ctx, envs[1]);
    lib.outbox == old(lib.outbox) + [
      Transfer(PORT_REGISTER_ACCESS, nodeId, tid, RegisterAccessPayload(names[0], Some(regws[0]))),
      Transfer(PORT_REGISTER_ACCESS, nodeId, t1, RegisterAccessPayload(names[1], Some(regws[1])))] &&
    lib.tids[SVC_REGISTER_ACCESS, nodeId] == NextTransferId(t1) &&
    (forall s, n :: 0 <= s < 4 && 0 <= n < 128 && (s != SVC_REGISTER_ACCESS || n != nodeId) ==>
      lib.tids[s, n] == old(lib.tids[s, n])) &&
    (lib.tasks, lib.fds, lib.nextHandle) == s2
  }

  /** The last two writes of a configure call. */
  method ConfigureTwo(lib: Wlmio, nodeId: byte, names: seq<CString>, regws: seq<RegisterAccess>,
                      callbackId: nat, ctx: nat, e2: TimerEnv, e3: TimerEnv)
    requires |names| == 2 && |regws| == 2 && nodeId <= NODE_ID_MAX
    requires forall i :: 0 <= i < 2 ==> names[i] != [] && ValidateRegisterAccess(regws[i]) == 0
    requires lib.Valid() && FreshTimer(lib, e2) && FreshTimer(lib, e3)
    requires e3.timerFd >= 0 ==> e2.timerFd != e3.timerFd
    modifies lib`outbox, lib`fds, lib`nextHandle, lib`tasks, lib.tids
    ensures lib.Valid()
    ensures AccessedTwice(lib, nodeId, names, regws, ctx, callbackId, [e2, e3])
  {
    ghost var tasks0, fds0, next0 := lib.tasks, lib.fds, lib.nextHandle;
    ghost var tid := lib.tids[SVC_REGISTER_ACCESS, nodeId];
    ConfigureWrite(lib, nodeId, names[0], regws[0], callbackId, ctx, e2);
    AfterAddKeepsUnwatched(tasks0, fds0, next0, MakeRspSpecifier(nodeId, tid, PORT_REGISTER_ACCESS),
                           TimerSpecOf(lib.timeout), callbackId, ctx, e2, e3.timerFd);
    ConfigureWrite(lib, nodeId, names[1], regws[1], callbackId, ctx, e3);
  }

  /** The three writes in order. */
  method ConfigureThree(lib: Wlmio, nodeId: byte, names: seq<CString>, regws: seq<RegisterAccess>,
                        callbackId: nat, ctx: nat, e1: TimerEnv, e2: TimerEnv, e3: TimerEnv)
    requires |names| == 3 && |regws| == 3 && nodeId <= NODE_ID_MAX
    requires forall i :: 0 <= i < 3 ==> names[i] != [] && ValidateRegisterAccess(regws[i]) == 0
    requires lib.Valid() && FreshTimer(lib, e1) && FreshTimer(lib, e2) && FreshTimer(lib, e3)
    requires DistinctTimers(e1, e2, e3)
    modifies lib`outbox, lib`fds, lib`nextHandle, lib`tasks, lib.tids
    ensures lib.Valid()
    ensures AccessedThrice(lib, nodeId, names, regws, ctx, callbackId, [e1, e2, e3])
  {
    ghost var tasks0, fds0, next0 := lib.tasks, lib.fds, lib.nextHandle;
    ghost var tid := lib.tids[SVC_REGISTER_ACCESS, nodeId];
    ghost var delay := TimerSpecOf(lib.timeout);
    ConfigureWrite(lib, nodeId, names[0], regws[0], callbackId, ctx, e1);
    AfterAddKeepsUnwatched(tasks0, fds0, next0, MakeRspSpecifier(nodeId, tid, PORT_REGISTER_ACCESS),
                           delay, callbackId, ctx, e1, e2.timerFd);
    AfterAddKeepsUnwatched(tasks0, fds0, next0, MakeRspSpecifier(nodeId, tid, PORT_REGISTER_ACCESS),
                           delay, callbackId, ctx, e1, e3.timerFd);
    ConfigureTwo(lib, nodeId, names[1..], regws[1..], callbackId, ctx, e2, e3);
  }

  /** wlmio_vpe6060_configure: mode 0..2, polarity 0..1 and bias 0..2,
      written to three registers of the channel. */
  method Vpe6060Configure(lib: Wlmio, nodeId: byte, ch: byte, mode: byte, polarity: byte, bias: byte,
                          callback: Option<nat>, uparam: nat, ctx: nat, e1: TimerEnv, e2: TimerEnv, e3: TimerEnv)
    returns (r: int, agg: Aggregate?)
    requires lib.Valid() && FreshTimer(lib, e1) && FreshTimer(lib, e2) && FreshTimer(lib, e3)
    requires DistinctTimers(e1, e2, e3)
    modifies lib`outbox, lib`fds, lib`nextHandle, lib`tasks, lib.tids
    ensures lib.Valid()
    ensures r == 0 || r == -EINVAL
    ensures r == -EINVAL <==> (nodeId > NODE_ID_MAX || ch > 3 || mode > VPE6060_MODE_PULSE_COUNTER ||
                               polarity > VPE6060_POLARITY_FALLING || bias > VPE6060_BIAS_NPN || callback.None?)
    ensures r != 0 ==> agg == null && unchanged(lib, lib.tids)
    ensures r == 0 ==> (agg != null && fresh(agg) && agg.State() == AGG_START &&
      agg.callback == callback.value && agg.uparam == uparam &&
      AccessedThrice(lib, nodeId,
        [ChannelName(ch, FIELD_MODE), ChannelName(ch, FIELD_POLARITY), ChannelName(ch, FIELD_BIAS)],
        [UInt8Record(mode), UInt8Record(polarity), UInt8Record(bias)],
        ctx, VPE6060_CONFIGURE_CALLBACK, [e1, e2, e3]))
  {
    if nodeId > NODE_ID_MAX || ch > 3 || mode > VPE6060_MODE_PULSE_COUNTER ||
       polarity > VPE6060_POLARITY_FALLING || bias > VPE6060_BIAS_NPN || callback.None? {
      return -EINVAL, null;
    }
    agg := new Aggregate(callback.value, uparam);
    ConfigureThree(lib, nodeId,
      [ChannelName(ch, FIELD_MODE), ChannelName(ch, FIELD_POLARITY), ChannelName(ch, FIELD_BIAS)],
      [UInt8Record(mode), UInt8Record(polarity), UInt8Record(bias)],
      VPE6060_CONFIGURE_CALLBACK, ctx, e1, e2, e3);
    r := 0;
  }

  /** wlmio_vpe6080_configure: the enable flag (as 0 or 1), then beta and t0
      as UINT16 records. */
  method Vpe6080Configure(lib: Wlmio, nodeId: byte, ch: byte, enabled: byte, beta: u16, t0: u16,
                          callback: Option<nat>, uparam: nat, ctx: nat, e1: TimerEnv, e2: TimerEnv, e3: TimerEnv)
    returns (r: int, agg: Aggregate?)
    requires lib.Valid() && FreshTimer(lib, e1) && FreshTimer(lib, e2) && FreshTimer(lib, e3)
    requires DistinctTimers(e1, e2, e3)
    modifies lib`outbox, lib`fds, lib`nextHandle, lib`tasks, lib.tids
    ensures lib.Valid()
    ensures r == 0 || r == -EINVAL
    ensures r == -EINVAL <==> nodeId > NODE_ID_MAX || ch > 7 || callback.None?
    ensures r != 0 ==> agg == null && unchanged(lib, lib.tids)
    ensures r == 0 ==> (agg != null && fresh(agg) && agg.State() == AGG_START &&
      agg.callback == callback.value && agg.uparam == uparam &&
      AccessedThrice(lib, nodeId,
        [ChannelName(ch, FIELD_ENABLED), ChannelName(ch, FIELD_BETA), ChannelName(ch, FIELD_T0)],
        [UInt8Record(if enabled != 0 then 1 else 0), UInt16Record(beta), UInt16Record(t0)],
        ctx, VPE6080_CONFIGURE_CALLBACK, [e1, e2, e3]))
  {
    if nodeId > NODE_ID_MAX || ch > 7 || callback.None? {
      return -EINVAL, null;
    }
    agg := new Aggregate(callback.value, uparam);
    ConfigureThree(lib, nodeId,
      [ChannelName(ch, FIELD_ENABLED), ChannelName(ch, FIELD_BETA), ChannelName(ch, FIELD_T0)],
      [UInt8Record(if enabled != 0 then 1 else 0), UInt16Record(beta), UInt16Record(t0)],
      VPE6080_CONFIGURE_CALLBACK, ctx, e1, e2, e3);
    r := 0;
  }

  // ------------------------------------------------------- sample interval

  /** The context block of a sample-interval write (struct
      node_set_sample_interval): the user callback and argument, and the
      interval the read-back is compared with. */
  datatype SampleIntervalContext = SampleIntervalContext(callback: nat, uparam: nat, interval: u16)

  /** wlmio_node_set_sample_interval, corrected: write the interval and read
      back what the node kept into the register record at `ctx`; the context
      it allocates records the interval it sent. */
  method SetSampleInterval(lib: Wlmio, nodeId: byte, interval: u16, callback: Option<nat>, uparam: nat,
                           ctx: nat, env: TimerEnv) returns (r: int, t: Option<SampleIntervalContext>)
    requires lib.Valid() && FreshTimer(lib, env)
    modifies lib`outbox, lib`fds, lib`nextHandle, lib`tasks, lib.tids
    ensures lib.Valid()
    ensures r == 0 || r == -EINVAL
    ensures r == -EINVAL <==> nodeId > NODE_ID_MAX || callback.None?
    ensures r != 0 ==> t.None? && unchanged(lib, lib.tids)
    ensures r == 0 ==> t == Some(SampleIntervalContext(callback.value, uparam, interval))
    ensures r == 0 ==> Accessed(lib, nodeId, SAMPLE_INTERVAL, Some(UInt16Record(interval)), Ptr(ctx),
      SAMPLE_INTERVAL_CALLBACK, ctx, env)
  {
    if nodeId > NODE_ID_MAX || callback.None? {
      return -EINVAL, None;
    }
    r := lib.RegisterAccess(nodeId, Some(SAMPLE_INTERVAL), Some(UInt16Record(interval)), Ptr(ctx),
                            SAMPLE_INTERVAL_CALLBACK, ctx, env);
    t := Some(SampleIntervalContext(callback.value, uparam, interval));
  }

  /** node_set_sample_interval_callback: the context's callback is called
      with -ENOTSUP unless the read-back is a single UINT16, and with -EBADE
      when it differs from the interval in the context. */
  function SampleIntervalResult(r: int, regr: RegisterAccess, t: SampleIntervalContext): (call: Call)
    ensures call.callback == t.callback && call.uparam == t.uparam
    ensures r < 0 ==> call.r == r
    ensures r >= 0 && (regr.regType != REG_UINT16 || regr.length != 1) ==> call.r == -ENOTSUP
    ensures r >= 0 && regr.regType == REG_UINT16 && regr.length == 1 ==>
      (call.r == 0 <==> GetLE(regr.value, 0, 2) == t.interval) && (call.r != 0 ==> call.r == -EBADE)
  {
    var res :=
      if r < 0 then r
      else if regr.regType != REG_UINT16 || regr.length != 1 then -ENOTSUP
      else if GetLE(regr.value, 0, 2) != t.interval then -EBADE
      else 0;
    Call(t.callback, res, t.uparam)
  }

  /** With the context SetSampleInterval records, a node that keeps the
      interval it was sent confirms it; one that keeps another value is
      reported. */
  lemma SampleIntervalEcho(timestamp: seq<byte>, flags: byte, callback: nat, uparam: nat, written: u16, kept: u16)
    requires |timestamp| == 7
    ensures var res := ParseRegisterAccess(EncodeAccessResponse(timestamp, flags, UInt16Record(kept)));
      SampleIntervalResult(res.r, res.regr, SampleIntervalContext(callback, uparam, written)).r ==
        (if kept == written then 0 else -EBADE)
  {
    U16ReadDelivers(timestamp, flags, kept);
    AccessRoundTrip(timestamp, flags, UInt16Record(kept));
  }

  /** As written, wlmio_node_set_sample_interval sets only the callback and
      argument of the context it allocates, so the interval field holds
      whatever the allocation held (`heap`).  A node that echoes the written
      interval exactly is then reported with -EBADE whenever that field
      differs from it. */
  lemma SampleIntervalEchoAsWritten(timestamp: seq<byte>, flags: byte, callback: nat, uparam: nat,
                                    written: u16, heap: u16)
    requires |timestamp| == 7 && heap != written
    ensures var res := ParseRegisterAccess(EncodeAccessResponse(timestamp, flags, UInt16Record(written)));
      SampleIntervalResult(res.r, res.regr, SampleIntervalContext(callback, uparam, heap)).r == -EBADE
  {
    U16ReadDelivers(timestamp, flags, written);
    AccessRoundTrip(timestamp, flags, UInt16Record(written));
  }
}
