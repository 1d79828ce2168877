/** regtool: the command line of the register tool (dump every register of a
    node, read one, or write one) and the record it builds for a write. */
module RegTool {
  import opened Bytes
  import opened Types
  import opened Wire
  import opened Args
  import Responses

  datatype Mode = Dump | ReadOne | WriteOne

  /** The mode the argument count selects (argc counts the program name). */
  function ModeOf(argc: nat): (m: Option<Mode>)
    ensures m == Some(Dump) <==> argc == 2
    ensures m == Some(ReadOne) <==> argc == 3
    ensures m == Some(WriteOne) <==> argc >= 5
    ensures m.None? <==> argc < 2 || argc == 4
  {
    if argc == 2 then Some(Dump)
    else if argc == 3 then Some(ReadOne)
    else if argc >= 5 then Some(WriteOne)
    else None
  }

  /** How the tool gives up: print_usage_and_exit, or the bare exit for a
      node id out of range. */
  datatype Exit = Usage | NodeIdRange

  // --------------------------------------------------------------- type

  /** The register type as written: truncated to the uint8_t field first,
      then checked against 1..14. */
  function TypeAsWritten(n: int): (t: Option<byte>)
    ensures t.Some? <==> 1 <= n % 256 <= REG_FLOAT16
  {
    if 1 <= n % 256 <= REG_FLOAT16 then Some(n % 256) else None
  }

  /** 257 passes as STRING and 267 as UINT8. */
  lemma TypeTruncates()
    ensures TypeAsWritten(257) == Some(REG_STRING) && TypeAsWritten(267) == Some(REG_UINT8)
  {
  }

  /** The type check on the number itself. */
  function TypeArg(n: int): (t: Option<byte>)
    ensures t.Some? <==> 1 <= n <= REG_FLOAT16
    ensures t.Some? ==> t.value == n && TypeAsWritten(n) == t
  {
    if 1 <= n <= REG_FLOAT16 then Some(n) else None
  }

  // --------------------------------------------------------------- name

  /** The name buffer after `memset(name, 0, 51)` and `strncpy(name, arg, 50)`. */
  function NameBuffer(text: CString): (buf: seq<byte>)
    ensures |buf| == 51 && buf[50] == 0
    ensures forall i :: 0 <= i < 50 ==> buf[i] == (if i < |text| then text[i] else 0)
  {
    PadTo(text[..Min(|text|, 50)], 51)
  }

  // -------------------------------------------------------------- values

  /** The byte width parse_value packs a type's values in (0: not packed). */
  function PackWidth(t: byte): (w: nat)
    ensures w == 0 <==> t != REG_UINT8 && t != REG_UINT16
  {
    if t == REG_UINT8 then 1 else if t == REG_UINT16 then 2 else 0
  }

  predicate AllNumbers(args: seq<Arg>)
  {
    forall i :: 0 <= i < |args| ==> args[i].number.Some?
  }

  /** The values as the uint8_t or uint16_t locals hold them. */
  function Truncated(args: seq<Arg>, w: nat): (vs: seq<nat>)
    requires AllNumbers(args) && (w == 1 || w == 2)
    ensures |vs| == |args|
    ensures forall i :: 0 <= i < |vs| ==> vs[i] < Pow256(w) && vs[i] == args[i].number.value % Pow256(w)
  {
    Pow256Values();
    seq(|args|, i requires 0 <= i < |args| => args[i].number.value % (if w == 1 then 0x100 else 0x1_0000))
  }

  /** The bytes parse_value as written stores from the start of the value
      area.  For UINT8 and UINT16 it loops over every argument, with no
      bound on how many, and stores each value truncated to the width in
      turn; None is an invalid number (the usage exit).  Other types store
      nothing. */
  function ParseValueStoresAsWritten(t: byte, args: seq<Arg>): (stored: Option<seq<byte>>)
    ensures PackWidth(t) == 0 ==> stored == Some([])
    ensures PackWidth(t) != 0 ==> (stored.Some? <==> AllNumbers(args))
    ensures PackWidth(t) != 0 && stored.Some? ==>
      |stored.value| == |args| * PackWidth(t) && Packs(stored.value, Truncated(args, PackWidth(t)), PackWidth(t))
  {
    var w := PackWidth(t);
    if w == 0 then Some([])
    else if AllNumbers(args) then
      var vs := Truncated(args, w);
      PackLEPacks(vs, w);
      Some(PackLE(vs, w))
    else None
  }

  /** Packing values that fit their width lays them out as parse_value does. */
  lemma {:induction false} PackLEPacks(vs: seq<nat>, w: nat)
    requires (w == 1 || w == 2) && forall k :: 0 <= k < |vs| ==> vs[k] < Pow256(w)
    ensures Packs(PackLE(vs, w), vs, w)
    decreases |vs|
  {
    Pow256Values();
    if vs != [] {
      PackLEPacks(vs[1..], w);
      var s, rest := PackLE(vs, w), PackLE(vs[1..], w);
      assert s == PutLE(vs[0], w) + rest;
      if w == 1 {
        forall k | 0 <= k < |vs|
          ensures s[k] == vs[k]
        {
          if k > 0 {
            assert s[k] == rest[k - 1] && vs[k] == vs[1..][k - 1];
          }
        }
      } else {
        forall k | 0 <= k < |vs|
          ensures s[2 * k] == vs[k] % 0x100 && s[2 * k + 1] == vs[k] / 0x100
        {
          if k > 0 {
            assert s[2 * k] == rest[2 * (k - 1)] && s[2 * k + 1] == rest[2 * (k - 1) + 1];
            assert vs[k] == vs[1..][k - 1];
          } else {
            assert PutLE(vs[0], 2) == [vs[0] % 256, (vs[0] / 256) % 256];
          }
        }
      }
    }
  }

  /** 257 UINT8 values: the last one is stored at byte 256, one past the
      256-byte value area. */
  lemma ParseValueOverruns(args: seq<Arg>)
    requires |args| == 257 && AllNumbers(args)
    ensures var stored := ParseValueStoresAsWritten(REG_UINT8, args);
      stored.Some? && |stored.value| == 257 && stored.value[256] == args[256].number.value % 0x100
  {
    var stored := ParseValueStoresAsWritten(REG_UINT8, args).value;
    assert stored[256] == Truncated(args, 1)[256];
  }

  /** 129 UINT16 values: the last one is stored at bytes 256 and 257, past
      the value area. */
  lemma ParseValueOverrunsUInt16(args: seq<Arg>)
    requires |args| == 129 && AllNumbers(args)
    ensures var stored := ParseValueStoresAsWritten(REG_UINT16, args);
      var v := args[128].number.value % 0x1_0000;
      stored.Some? && |stored.value| == 258 && stored.value[256] == v % 0x100 && stored.value[257] == v / 0x100
  {
    var stored := ParseValueStoresAsWritten(REG_UINT16, args).value;
    assert stored[2 * 128] == Truncated(args, 2)[128] % 0x100;
  }

  /** reg_write: struct wlmio_register_access as a global buffer. */
  class RecordBuffer {
    var regType: byte
    var length: u16
    const value: array<byte>

    ghost predicate Valid()
      reads this
    {
      value.Length == 256
    }

    /** The zero-initialised global. */
    constructor ()
      ensures Valid() && regType == REG_EMPTY && length == 0 && value[..] == Zeros(256) && fresh(value)
    {
      regType := REG_EMPTY;
      length := 0;
      value := new byte[256](_ => 0);
    }

    function Record(): (reg: RegisterAccess)
      requires Valid()
      reads this, value
      ensures reg.regType == regType && reg.length == length && reg.value == value[..]
    {
      RegisterAccess(regType, length, value[..])
    }

    /** parse_value with the evidently intended bound: an invalid number, or
        more values than the 256-byte area holds, is a usage error; UINT8
        and UINT16 values are stored from byte 0 and counted; other types
        leave the record alone. */
    method ParseValue(args: seq<Arg>) returns (ok: bool)
      requires Valid()
      modifies this`length, value
      ensures Valid()
      ensures var w := PackWidth(regType);
        ok <==> w == 0 || (AllNumbers(args) && |args| * w <= 256)
      ensures ok && PackWidth(regType) == 0 ==> length == old(length) && value[..] == old(value[..])
      ensures ok && PackWidth(regType) != 0 ==>
        (var w := PackWidth(regType);
         length == |args| && Packs(value[..], Truncated(args, w), w) &&
         value[|args| * w..] == old(value[..])[|args| * w..])
    {
      if regType == REG_UINT8 {
        if |args| > 256 {
          return false;
        }
        ok := FillUInt8(args);
      } else if regType == REG_UINT16 {
        if |args| > 128 {
          return false;
        }
        ok := FillUInt16(args);
      } else {
        return true;
      }
      if ok {
        length := |args|;
      }
    }

    /** The UINT8 loop: value i at byte i. */
    method FillUInt8(args: seq<Arg>) returns (ok: bool)
      requires Valid() && |args| <= 256
      modifies value
      ensures ok <==> AllNumbers(args)
      ensures ok ==> Packs(value[..], Truncated(args, 1), 1) && value[|args|..] == old(value[..])[|args|..]
    {
      var i := 0;
      while i < |args|
        invariant 0 <= i <= |args| && AllNumbers(args[..i])
        invariant forall k :: 0 <= k < i ==> value[k] == args[k].number.value % 0x100
        invariant forall k :: i <= k < 256 ==> value[k] == old(value[k])
      {
        if args[i].number.None? {
          assert !AllNumbers(args);
          return false;
        }
        value[i] := args[i].number.value % 0x100;
        assert args[..i + 1] == args[..i] + [args[i]];
        i := i + 1;
      }
      assert args[..i] == args;
      Pow256Values();
      return true;
    }

    /** The UINT16 loop: value i at bytes 2i and 2i+1, low byte first. */
    method FillUInt16(args: seq<Arg>) returns (ok: bool)
      requires Valid() && |args| <= 128
      modifies value
      ensures ok <==> AllNumbers(args)
      ensures ok ==> Packs(value[..], Truncated(args, 2), 2) && value[|args| * 2..] == old(value[..])[|args| * 2..]
    {
      var i := 0;
      while i < |args|
        invariant 0 <= i <= |args| && AllNumbers(args[..i])
        invariant forall k :: 0 <= k < i ==>
          value[2 * k] == args[k].number.value % 0x1_0000 % 0x100 &&
          value[2 * k + 1] == args[k].number.value % 0x1_0000 / 0x100
        invariant forall k :: 2 * i <= k < 256 ==> value[k] == old(value[k])
      {
        if args[i].number.None? {
          assert !AllNumbers(args);
          return false;
        }
        var v := args[i].number.value % 0x1_0000;
        value[2 * i] := v % 0x100;
        value[2 * i + 1] := v / 0x100;
        assert args[..i + 1] == args[..i] + [args[i]];
        i := i + 1;
      }
      assert args[..i] == args;
      Pow256Values();
      return true;
    }
  }

  /** `vs` stored in `buf` as parse_value stores them: value k at byte k
      (w = 1) or at bytes 2k, 2k+1 low byte first (w = 2). */
  ghost predicate Packs(buf: seq<byte>, vs: seq<nat>, w: nat)
  {
    (w == 1 || w == 2) && |vs| * w <= |buf| &&
    (w == 1 ==> forall k :: 0 <= k < |vs| ==> buf[k] == vs[k]) &&
    (w == 2 ==> forall k :: 0 <= k < |vs| ==> buf[2 * k] == vs[k] % 0x100 && buf[2 * k + 1] == vs[k] / 0x100)
  }

  /** Unpacking stored values, as the library's encoder and the node read
      them, gives the values back. */
  lemma PacksDecode(buf: seq<byte>, vs: seq<nat>, w: nat)
    requires Packs(buf, vs, w) && forall k :: 0 <= k < |vs| ==> vs[k] < Pow256(w)
    ensures UnpackLE(buf, 0, |vs|, w) == vs
  {
    Pow256Values();
    var got := UnpackLE(buf, 0, |vs|, w);
    forall k | 0 <= k < |vs|
      ensures got[k] == vs[k]
    {
      if w == 1 {
        assert got[k] == GetLE(buf, k, 1) == ByteAt(buf, k) + 256 * GetLE(buf, k + 1, 0);
      } else {
        assert k * 2 == 2 * k;
        assert got[k] == GetLE(buf, 2 * k, 2);
        assert GetLE(buf, 2 * k, 2) == ByteAt(buf, 2 * k) + 256 * (ByteAt(buf, 2 * k + 1) + 256 * GetLE(buf, 2 * k + 2, 0));
      }
    }
  }

  /** A write record the tool builds passes the library's validation and its
      values read back as the tool's locals held them. */
  lemma ParsedWriteDecodes(reg: RegisterAccess, args: seq<Arg>)
    requires PackWidth(reg.regType) != 0 && AllNumbers(args)
    requires reg.length == |args| && Packs(reg.value, Truncated(args, PackWidth(reg.regType)), PackWidth(reg.regType))
    ensures ValidateRegisterAccess(reg) == 0
    ensures ValueBytes(reg) == |args| * PackWidth(reg.regType)
    ensures UnpackLE(reg.value, 0, |args|, PackWidth(reg.regType)) == Truncated(args, PackWidth(reg.regType))
  {
    PacksDecode(reg.value, Truncated(args, PackWidth(reg.regType)), PackWidth(reg.regType));
  }

  // ------------------------------------------------------------- the tool

  /** The globals mode, node_id, name and reg_write. */
  class RegTool {
    var mode: Mode
    var nodeId: byte
    var name: seq<byte>
    const regWrite: RecordBuffer

    ghost predicate Valid()
      reads this, regWrite
    {
      regWrite.Valid() && |name| == 51
    }

    constructor ()
      ensures Valid() && fresh(regWrite) && fresh(regWrite.value)
      ensures regWrite.Record() == EMPTY_ACCESS
    {
      mode := Dump;
      nodeId := 0;
      name := Zeros(51);
      regWrite := new RecordBuffer();
    }

    /** parse_arguments with the range checks on the numbers themselves. */
    method ParseArguments(argv: seq<Arg>) returns (exit: Option<Exit>)
      requires Valid() && |argv| >= 1 && regWrite.Record() == EMPTY_ACCESS
      modifies this, regWrite, regWrite.value
      ensures Valid()
      ensures ModeOf(|argv|).None? ==> exit == Some(Usage)
      ensures ModeOf(|argv|).Some? ==>
        (argv[1].number.None? ==> exit == Some(Usage)) &&
        (argv[1].number.Some? && NodeIdArg(argv[1].number.value).None? ==> exit == Some(NodeIdRange))
      ensures exit.None? ==>
        Some(mode) == ModeOf(|argv|) && argv[1].number.Some? &&
        NodeIdArg(argv[1].number.value) == Some(nodeId)
      ensures exit.None? && mode != Dump ==> name == NameBuffer(argv[2].text)
      ensures (ModeOf(|argv|) == Some(WriteOne) && argv[1].number.Some? &&
        NodeIdArg(argv[1].number.value).Some?) ==>
        (exit.None? <==> ValidWrite(argv[3], argv[4..]))
      ensures exit.None? && mode == WriteOne ==>
        ValidWrite(argv[3], argv[4..]) && IsWriteRecord(regWrite.Record(), argv[3], argv[4..])
    {
      var m := ModeOf(|argv|);
      if m.None? {
        return Some(Usage);
      }
      mode := m.value;
      if argv[1].number.None? {
        return Some(Usage);
      }
      var id := NodeIdArg(argv[1].number.value);
      if id.None? {
        return Some(NodeIdRange);
      }
      nodeId := id.value;
      if mode == Dump {
        return None;
      }
      name := NameBuffer(argv[2].text);
      if mode == ReadOne {
        return None;
      }
      var t := if argv[3].number.Some? then TypeArg(argv[3].number.value) else None;
      if t.None? {
        return Some(Usage);
      }
      regWrite.regType := t.value;
      var ok := regWrite.ParseValue(argv[4..]);
      if !ok {
        return Some(Usage);
      }
      exit := None;
    }
  }

  /** A write's type argument and values that parse_arguments accepts. */
  predicate ValidWrite(typeArg: Arg, values: seq<Arg>)
  {
    typeArg.number.Some? && TypeArg(typeArg.number.value).Some? &&
    var w := PackWidth(typeArg.number.value);
    w == 0 || (AllNumbers(values) && |values| * w <= 256)
  }

  /** The record write mode sends: the type, and for UINT8/UINT16 the
      values stored and counted, zeros after them. */
  ghost predicate IsWriteRecord(reg: RegisterAccess, typeArg: Arg, values: seq<Arg>)
    requires ValidWrite(typeArg, values)
  {
    var t := typeArg.number.value;
    var w := PackWidth(t);
    reg.regType == t &&
    (w == 0 ==> reg.length == 0 && reg.value == Zeros(256)) &&
    (w != 0 ==>
       reg.length == |values| && Packs(reg.value, Truncated(values, w), w) &&
       reg.value[|values| * w..] == Zeros(256 - |values| * w))
  }

  /** Every record write mode sends passes the library's validation, and
      its UINT8/UINT16 values read back as given (modulo the locals' width). */
  lemma WriteRecordValid(reg: RegisterAccess, typeArg: Arg, values: seq<Arg>)
    requires ValidWrite(typeArg, values) && IsWriteRecord(reg, typeArg, values)
    ensures ValidateRegisterAccess(reg) == 0
    ensures PackWidth(reg.regType) != 0 ==>
      UnpackLE(reg.value, 0, |values|, PackWidth(reg.regType)) == Truncated(values, PackWidth(reg.regType))
  {
    if PackWidth(reg.regType) != 0 {
      ParsedWriteDecodes(reg, values);
    }
  }

  // ------------------------------------------------------ dump, read, write

  /** What a synchronous call gave: its status and, for a read, the record. */
  datatype ListReply = ListReply(r: int, name: CString)
  datatype AccessReply = AccessReply(r: int, reg: RegisterAccess)

  /** Why the dump loop stopped. */
  datatype DumpStop = ListError(r: int) | EndOfList | AccessError(r: int) | LastIndex

  /** dump_registers: indices 0, 1, … are listed and read in order; the
      first listing error, empty name or read error ends the walk, and so
      does index 65535 after it is printed. */
  method DumpRegisters(list: nat -> ListReply, read: CString -> AccessReply)
    returns (printed: seq<RegisterAccess>, stop: DumpStop)
    ensures |printed| <= 0x1_0000
    ensures forall k :: 0 <= k < |printed| ==>
      list(k).r >= 0 && list(k).name != [] && read(list(k).name).r >= 0 && printed[k] == read(list(k).name).reg
    ensures stop == LastIndex <==> |printed| == 0x1_0000
    ensures stop.ListError? ==> list(|printed|).r < 0 && stop.r == list(|printed|).r
    ensures stop == EndOfList ==> list(|printed|).r >= 0 && list(|printed|).name == []
    ensures stop.AccessError? ==>
      (var l := list(|printed|); l.r >= 0 && l.name != [] && read(l.name).r < 0 && stop.r == read(l.name).r)
  {
    printed := [];
    var i: u16 := 0;
    while true
      invariant |printed| == i
      invariant forall k :: 0 <= k < |printed| ==>
        list(k).r >= 0 && list(k).name != [] && read(list(k).name).r >= 0 && printed[k] == read(list(k).name).reg
      decreases 0x1_0000 - i
    {
      var l := list(i);
      if l.r < 0 {
        return printed, ListError(l.r);
      } else if l.name == [] {
        return printed, EndOfList;
      }
      var a := read(l.name);
      if a.r < 0 {
        return printed, AccessError(a.r);
      }
      printed := printed + [a.reg];
      if i == 0xFFFF {
        return printed, LastIndex;
      }
      i := i + 1;
    }
  }

  /** What read_register and write_register report for the access result. */
  datatype Report = AccessFailed(r: int) | NotPresent | Printed(reg: RegisterAccess)

  function ReportAccess(reply: AccessReply): (rep: Report)
    ensures reply.r < 0 <==> rep == AccessFailed(reply.r)
    ensures rep == NotPresent <==> reply.r >= 0 && reply.reg.regType == REG_EMPTY
    ensures rep.Printed? <==> reply.r >= 0 && reply.reg.regType != REG_EMPTY
    ensures rep.Printed? ==> rep.reg == reply.reg
  {
    if reply.r < 0 then AccessFailed(reply.r)
    else if reply.reg.regType == REG_EMPTY then NotPresent
    else Printed(reply.reg)
  }

  /** With the library's response handler behind the synchronous call, the
      "not present" report cannot happen: an EMPTY reply already completes the
      request with -ENOENT, which the tool reports as an access error. */
  lemma EmptyReplyIsAccessError(payload: seq<byte>)
    ensures var res := Responses.ParseRegisterAccess(payload);
      ReportAccess(AccessReply(res.r, res.regr)) != NotPresent
    ensures var res := Responses.ParseRegisterAccess(payload);
      ByteAt(payload, 8) == REG_EMPTY ==> ReportAccess(AccessReply(res.r, res.regr)) == AccessFailed(-ENOENT)
  {
  }
}
