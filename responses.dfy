/** The decoders of uavcan.node.GetInfo.1.0 and uavcan.register.Access.1.0
    responses (get_node_info_response_handler and register_access_response_handler
    of src/libwlmio/wlmio.c), each beside the encoder a node uses to produce the
    response, and a round trip connecting the two. */
module Responses {
  import opened Bytes
  import opened Types
  import opened Wire

  /** `size` bytes of which the first `count` come from the payload at `off`: what a
      zeroed buffer holds after the source's clamped memcpy (never more than the
      bytes the payload has, never more than `count`). */
  function Field(payload: seq<byte>, off: nat, count: nat, size: nat): (f: seq<byte>)
    requires count <= size
    ensures |f| == size
    ensures forall i :: 0 <= i < size ==> f[i] == (if i < count then ByteAt(payload, off + i) else 0)
  {
    seq(size, i requires 0 <= i < size => FieldByte(payload, off, count, i))
  }

  function FieldByte(payload: seq<byte>, off: nat, count: nat, i: nat): byte
  {
    if i < count then ByteAt(payload, off + i) else 0
  }

  lemma FieldOf(pre: seq<byte>, s: seq<byte>, post: seq<byte>, size: nat)
    requires |s| <= size
    ensures Field(pre + s + post, |pre|, |s|, size) == PadTo(s, size)
  {
    var p := pre + s + post;
    forall i | 0 <= i < size
      ensures Field(p, |pre|, |s|, size)[i] == PadTo(s, size)[i]
    {
      if i < |s| {
        assert p[|pre| + i] == s[i];
      }
    }
  }

  // ---------------------------------------------------------------- GetInfo

  datatype Version = Version(major: byte, minor: byte)

  /** struct wlmio_node_info, its fixed-size arrays as sequences of that size. */
  datatype NodeInfo = NodeInfo(
    protocolVersion: Version, hardwareVersion: Version, softwareVersion: Version,
    revision: u64, uniqueId: seq<byte>, name: seq<byte>, crc: u64, coa: seq<byte>,
    flags: u32)

  ghost predicate WellSized(info: NodeInfo)
  {
    |info.uniqueId| == 16 && |info.name| == 51 && |info.coa| == 222 && info.flags < 4
  }

  /** The record after `memset(node_info, 0, …)`. */
  const ZERO_INFO := NodeInfo(Version(0, 0), Version(0, 0), Version(0, 0), 0, Zeros(16),
                              Zeros(51), 0, Zeros(222), 0)

  datatype InfoResult = InfoResult(r: int, info: NodeInfo)

  /** A non-empty GetInfo payload whose name length is above 50, whose CRC
      presence byte is above 1, or whose certificate length is above 222. */
  predicate InfoMalformed(p: seq<byte>)
  {
    var n := ByteAt(p, 30);
    var c := ByteAt(p, 31 + n);
    p != [] && (n > 50 || c > 1 || ByteAt(p, 32 + n + 8 * c) > 222)
  }

  /** get_node_info_response_handler: the status passed to the request's callback
      and the record it leaves in the caller's buffer.  On -EPROTO the fields
      decoded before the malformed one stay in the buffer. */
  function ParseNodeInfo(payload: seq<byte>): (res: InfoResult)
    ensures res.r == 0 || res.r == -EPROTO
    ensures WellSized(res.info) && res.info.name[50] == 0
    ensures payload == [] ==> res == InfoResult(0, ZERO_INFO)
    ensures payload != [] ==>
      res.info.revision == GetLE(payload, 6, 8) &&
      res.info.uniqueId == Field(payload, 14, 16, 16)
    ensures res.r == -EPROTO <==> InfoMalformed(payload)
    ensures res.r == 0 && res.info.flags % 2 == 1 ==> ByteAt(payload, 31 + ByteAt(payload, 30)) == 1
  {
    if payload == [] then InfoResult(0, ZERO_INFO)
    else
      Pow256Values();
      var base := NodeInfo(
        Version(ByteAt(payload, 0), ByteAt(payload, 1)),
        Version(ByteAt(payload, 2), ByteAt(payload, 3)),
        Version(ByteAt(payload, 4), ByteAt(payload, 5)),
        GetLE(payload, 6, 8), Field(payload, 14, 16, 16), Zeros(51), 0, Zeros(222), 0);
      var nameLen := ByteAt(payload, 30);
      if nameLen > 50 then InfoResult(-EPROTO, base)
      else
        var named := base.(name := Field(payload, 31, nameLen, 51));
        var crcOff := 31 + nameLen;
        var crcPresent := ByteAt(payload, crcOff);
        if crcPresent > 1 then InfoResult(-EPROTO, named)
        else
          var withCrc := if crcPresent == 1
            then named.(flags := INFO_FLAG_CRC, crc := GetLE(payload, crcOff + 1, 8))
            else named;
          var coaOff := crcOff + 1 + 8 * crcPresent;
          var coaLen := ByteAt(payload, coaOff);
          if coaLen > 222 then InfoResult(-EPROTO, withCrc)
          else if coaLen == 0 then InfoResult(0, withCrc)
          else
            // The flags are distinct bits, so `|=` is an addition here.
            InfoResult(0, withCrc.(flags := withCrc.flags + INFO_FLAG_CERTIFICATE,
                                   coa := Field(payload, coaOff + 1, coaLen, 222)))
  }

  /** A GetInfo response as a node sends it. */
  datatype InfoMessage = InfoMessage(
    protocolVersion: Version, hardwareVersion: Version, softwareVersion: Version,
    revision: u64, uniqueId: seq<byte>, name: seq<byte>, crc: Option<u64>, coa: seq<byte>)

  ghost predicate ValidMessage(m: InfoMessage)
  {
    |m.uniqueId| == 16 && |m.name| <= 50 && |m.coa| <= 222
  }

  function EncodeNodeInfo(m: InfoMessage): (p: seq<byte>)
    requires ValidMessage(m)
  {
    InfoHead(m) + ([|m.name| as byte] + m.name) + CrcBlock(m.crc) + ([|m.coa| as byte] + m.coa)
  }

  /** The fixed 30-byte start: versions, revision, unique id. */
  function InfoHead(m: InfoMessage): (h: seq<byte>)
    requires ValidMessage(m)
    ensures |h| == 30
  {
    [m.protocolVersion.major, m.protocolVersion.minor, m.hardwareVersion.major,
     m.hardwareVersion.minor, m.softwareVersion.major, m.softwareVersion.minor]
    + PutLE(m.revision, 8) + m.uniqueId
  }

  /** The presence byte of the image CRC, then the CRC when present. */
  function CrcBlock(crc: Option<u64>): (b: seq<byte>)
    ensures |b| == if crc.Some? then 9 else 1
  {
    match crc case Some(c) => [1] + PutLE(c, 8) case None => [0]
  }

  /** The record the library hands back for a message. */
  function InfoOf(m: InfoMessage): NodeInfo
    requires ValidMessage(m)
  {
    NodeInfo(m.protocolVersion, m.hardwareVersion, m.softwareVersion, m.revision, m.uniqueId,
             PadTo(m.name, 51), if m.crc.Some? then m.crc.value else 0, PadTo(m.coa, 222),
             (if m.crc.Some? then INFO_FLAG_CRC else 0) + (if |m.coa| > 0 then INFO_FLAG_CERTIFICATE else 0))
  }

  /** The record a payload's fields spell out when its name length, CRC
      presence byte and certificate length are in range. */
  function InfoFields(p: seq<byte>): NodeInfo
    requires ByteAt(p, 30) <= 50
    requires ByteAt(p, 32 + ByteAt(p, 30) + 8 * ByteAt(p, 31 + ByteAt(p, 30))) <= 222
  {
    Pow256Values();
    var n := ByteAt(p, 30);
    var c := ByteAt(p, 31 + n);
    var coaOff := 32 + n + 8 * c;
    var k := ByteAt(p, coaOff);
    NodeInfo(
      Version(ByteAt(p, 0), ByteAt(p, 1)), Version(ByteAt(p, 2), ByteAt(p, 3)),
      Version(ByteAt(p, 4), ByteAt(p, 5)), GetLE(p, 6, 8), Field(p, 14, 16, 16),
      Field(p, 31, n, 51), if c == 1 then GetLE(p, 32 + n, 8) else 0,
      if k == 0 then Zeros(222) else Field(p, coaOff + 1, k, 222),
      (if c == 1 then INFO_FLAG_CRC else 0) + (if k > 0 then INFO_FLAG_CERTIFICATE else 0))
  }

  /** How ParseNodeInfo reads a payload whose three length and presence bytes
      are in range: no error, and exactly the record its fields spell out. */
  lemma ParseNodeInfoShape(p: seq<byte>)
    requires p != [] && ByteAt(p, 30) <= 50
    requires ByteAt(p, 31 + ByteAt(p, 30)) <= 1
    requires ByteAt(p, 32 + ByteAt(p, 30) + 8 * ByteAt(p, 31 + ByteAt(p, 30))) <= 222
    ensures ParseNodeInfo(p) == InfoResult(0, InfoFields(p))
  {
  }

  lemma InfoHeadReads(m: InfoMessage, rest: seq<byte>)
    requires ValidMessage(m)
    ensures InfoHeadRead(m, InfoHead(m) + rest)
  {
    Pow256Values();
    var vers := [m.protocolVersion.major, m.protocolVersion.minor, m.hardwareVersion.major,
                 m.hardwareVersion.minor, m.softwareVersion.major, m.softwareVersion.minor];
    var p := InfoHead(m) + rest;
    assert p == vers + PutLE(m.revision, 8) + (m.uniqueId + rest);
    GetPutLE(m.revision, 8, vers, m.uniqueId + rest);
    assert p == (vers + PutLE(m.revision, 8)) + m.uniqueId + rest;
    FieldOf(vers + PutLE(m.revision, 8), m.uniqueId, rest, 16);
  }

  lemma NameBlockReads(head: seq<byte>, name: seq<byte>, rest: seq<byte>)
    requires |head| == 30 && |name| <= 50
    ensures var p := head + ([|name| as byte] + name) + rest;
      ByteAt(p, 30) == |name| && Field(p, 31, |name|, 51) == PadTo(name, 51)
  {
    var p := head + ([|name| as byte] + name) + rest;
    assert p == (head + [|name| as byte]) + name + rest;
    FieldOf(head + [|name| as byte], name, rest, 51);
  }

  lemma CoaBlockReads(pre: seq<byte>, coa: seq<byte>)
    requires |coa| <= 222
    ensures var p := pre + ([|coa| as byte] + coa);
      ByteAt(p, |pre|) == |coa| && Field(p, |pre| + 1, |coa|, 222) == PadTo(coa, 222)
  {
    var p := pre + ([|coa| as byte] + coa);
    assert p == (pre + [|coa| as byte]) + coa + [];
    FieldOf(pre + [|coa| as byte], coa, [], 222);
  }

  lemma CrcBlockReads(pre: seq<byte>, crc: Option<u64>, rest: seq<byte>)
    ensures var p := pre + CrcBlock(crc) + rest;
      ByteAt(p, |pre|) == (if crc.Some? then 1 else 0) &&
      (crc.Some? ==> GetLE(p, |pre| + 1, 8) == crc.value) &&
      ByteAt(p, |pre| + |CrcBlock(crc)|) == ByteAt(rest, 0)
  {
    match crc
    case None =>
      assert pre + CrcBlock(crc) + rest == pre + [0] + rest;
      ByteAfter(pre + [0], rest);
    case Some(c) => CrcPresentReads(pre, c, rest);
  }

  lemma CrcPresentReads(pre: seq<byte>, c: u64, rest: seq<byte>)
    ensures var p := pre + CrcBlock(Some(c)) + rest;
      ByteAt(p, |pre|) == 1 && GetLE(p, |pre| + 1, 8) == c && ByteAt(p, |pre| + 9) == ByteAt(rest, 0)
  {
    var pre1 := pre + [1];
    var q := pre1 + PutLE(c, 8);
    CrcSplit(pre, c, rest);
    assert |pre1| == |pre| + 1 && |q| == |pre| + 9;
    CrcValueReads(pre1, c, rest);
    ByteAfter(q, rest);
    assert (q + rest)[|pre|] == 1;
  }

  lemma CrcSplit(pre: seq<byte>, c: u64, rest: seq<byte>)
    ensures pre + CrcBlock(Some(c)) + rest == (pre + [1]) + PutLE(c, 8) + rest
  {
  }

  lemma CrcValueReads(pre1: seq<byte>, c: u64, rest: seq<byte>)
    ensures GetLE(pre1 + PutLE(c, 8) + rest, |pre1|, 8) == c
  {
    Pow256Values();
    GetPutLE(c, 8, pre1, rest);
  }

  lemma ByteAfter(pre: seq<byte>, rest: seq<byte>)
    ensures ByteAt(pre + rest, |pre|) == ByteAt(rest, 0)
  {
  }

  /** Every well-formed GetInfo response decodes without error to its contents:
      the name and certificate NUL-padded, the flags saying which optional parts
      were present. */
  lemma NodeInfoRoundTrip(m: InfoMessage)
    requires ValidMessage(m)
    ensures ParseNodeInfo(EncodeNodeInfo(m)) == InfoResult(0, InfoOf(m))
  {
    EncodedHeadReads(m);
    EncodedNameReads(m);
    EncodedCrcReads(m);
    EncodedCoaReads(m);
    AssembleInfo(m, EncodeNodeInfo(m));
  }

  lemma EncodedHeadReads(m: InfoMessage)
    requires ValidMessage(m)
    ensures EncodeNodeInfo(m) != [] && InfoHeadRead(m, EncodeNodeInfo(m))
  {
    var rest := ([|m.name| as byte] + m.name) + CrcBlock(m.crc) + ([|m.coa| as byte] + m.coa);
    assert EncodeNodeInfo(m) == InfoHead(m) + rest;
    InfoHeadReads(m, rest);
  }

  lemma EncodedNameReads(m: InfoMessage)
    requires ValidMessage(m)
    ensures var p := EncodeNodeInfo(m);
      ByteAt(p, 30) == |m.name| && Field(p, 31, |m.name|, 51) == PadTo(m.name, 51)
  {
    var rest := CrcBlock(m.crc) + ([|m.coa| as byte] + m.coa);
    assert EncodeNodeInfo(m) == InfoHead(m) + ([|m.name| as byte] + m.name) + rest;
    NameBlockReads(InfoHead(m), m.name, rest);
  }

  lemma EncodedCrcReads(m: InfoMessage)
    requires ValidMessage(m)
    ensures var p := EncodeNodeInfo(m);
      ByteAt(p, 31 + |m.name|) == (if m.crc.Some? then 1 else 0) &&
      (m.crc.Some? ==> GetLE(p, 32 + |m.name|, 8) == m.crc.value)
  {
    var pre := InfoHead(m) + ([|m.name| as byte] + m.name);
    CrcBlockReads(pre, m.crc, [|m.coa| as byte] + m.coa);
  }

  lemma EncodedCoaReads(m: InfoMessage)
    requires ValidMessage(m)
    ensures var p := EncodeNodeInfo(m);
      var coaOff := 32 + |m.name| + 8 * (if m.crc.Some? then 1 else 0);
      ByteAt(p, coaOff) == |m.coa| && Field(p, coaOff + 1, |m.coa|, 222) == PadTo(m.coa, 222)
  {
    var pre := InfoHead(m) + ([|m.name| as byte] + m.name) + CrcBlock(m.crc);
    assert |pre| == 32 + |m.name| + 8 * (if m.crc.Some? then 1 else 0);
    CoaBlockReads(pre, m.coa);
  }

  ghost predicate InfoHeadRead(m: InfoMessage, p: seq<byte>)
  {
    ByteAt(p, 0) == m.protocolVersion.major && ByteAt(p, 1) == m.protocolVersion.minor &&
    ByteAt(p, 2) == m.hardwareVersion.major && ByteAt(p, 3) == m.hardwareVersion.minor &&
    ByteAt(p, 4) == m.softwareVersion.major && ByteAt(p, 5) == m.softwareVersion.minor &&
    GetLE(p, 6, 8) == m.revision && Field(p, 14, 16, 16) == m.uniqueId
  }

  lemma AssembleInfo(m: InfoMessage, p: seq<byte>)
    requires ValidMessage(m) && p != [] && InfoHeadRead(m, p)
    requires ByteAt(p, 30) == |m.name| && Field(p, 31, |m.name|, 51) == PadTo(m.name, 51)
    requires ByteAt(p, 31 + |m.name|) == (if m.crc.Some? then 1 else 0)
    requires m.crc.Some? ==> GetLE(p, 32 + |m.name|, 8) == m.crc.value
    requires var coaOff := 32 + |m.name| + 8 * (if m.crc.Some? then 1 else 0);
      ByteAt(p, coaOff) == |m.coa| && Field(p, coaOff + 1, |m.coa|, 222) == PadTo(m.coa, 222)
    ensures ParseNodeInfo(p) == InfoResult(0, InfoOf(m))
  {
    ParseNodeInfoShape(p);
    FieldsAreInfo(m, p);
  }

  lemma FieldsAreInfo(m: InfoMessage, p: seq<byte>)
    requires ValidMessage(m) && InfoHeadRead(m, p)
    requires ByteAt(p, 30) == |m.name| && Field(p, 31, |m.name|, 51) == PadTo(m.name, 51)
    requires ByteAt(p, 31 + |m.name|) == (if m.crc.Some? then 1 else 0)
    requires m.crc.Some? ==> GetLE(p, 32 + |m.name|, 8) == m.crc.value
    requires var coaOff := 32 + |m.name| + 8 * (if m.crc.Some? then 1 else 0);
      ByteAt(p, coaOff) == |m.coa| && Field(p, coaOff + 1, |m.coa|, 222) == PadTo(m.coa, 222)
    ensures InfoFields(p) == InfoOf(m)
  {
    var n := |m.name|;
    var c := if m.crc.Some? then 1 else 0;
    assert ByteAt(p, 31 + ByteAt(p, 30)) == c;
    var f := InfoFields(p);
    var want := InfoOf(m);
    assert f.coa == want.coa by {
      if |m.coa| == 0 {
        assert PadTo(m.coa, 222) == Zeros(222);
      }
    }
    assert f.crc == want.crc;
    assert f.flags == want.flags;
    assert f.name == want.name;
    assert f.revision == want.revision && f.uniqueId == want.uniqueId;
    assert f.protocolVersion == want.protocolVersion && f.hardwareVersion == want.hardwareVersion &&
           f.softwareVersion == want.softwareVersion;
  }

  // ----------------------------------------------------------------- Access

  datatype AccessResult = AccessResult(r: int, regr: RegisterAccess)

  /** register_access_response_handler with the type byte checked before it
      indexes the length-width table and the value copy clamped to the 256
      bytes of the value area (see AccessResponseCopyAsWritten).  Bytes 0..7 are
      the timestamp and flags, byte 8 the tag, then the element count in
      LENGTH_WIDTH bytes, then the value. */
  function ParseRegisterAccess(payload: seq<byte>): (res: AccessResult)
    ensures res.regr.regType == ByteAt(payload, 8)
    ensures res.r == 0 || res.r == -EPROTO || res.r == -ENOENT
    ensures res.r == -ENOENT <==> ByteAt(payload, 8) == REG_EMPTY
    ensures res.r == 0 <==> (REG_EMPTY < res.regr.regType <= REG_FLOAT16 &&
                             res.regr.length * BIT_WIDTH[res.regr.regType] <= 2048)
    ensures res.regr.regType <= REG_FLOAT16 ==>
      var w := LENGTH_WIDTH[res.regr.regType];
      res.regr.length == GetLE(payload, 9, w) &&
      forall i :: 0 <= i < 256 ==> res.regr.value[i] == ByteAt(payload, 9 + w + i)
  {
    Pow256Values();
    var t := ByteAt(payload, 8);
    var w := if t <= REG_FLOAT16 then LENGTH_WIDTH[t] else 0;
    var regr := RegisterAccess(t, GetLE(payload, 9, w), Field(payload, 9 + w, 256, 256));
    if ValidateRegisterAccess(regr) != 0 then AccessResult(-EPROTO, regr)
    else if t == REG_EMPTY then AccessResult(-ENOENT, regr)
    else AccessResult(0, regr)
  }

  /** The source as written: the tag indexes the 15-entry length-width table
      before it is checked, and the value memcpy copies every remaining payload
      byte.  None when the table is read out of bounds, else the bytes copied
      into the 256-byte value area. */
  function AccessResponseCopyAsWritten(payload: seq<byte>): (copied: Option<nat>)
    ensures copied.None? <==> ByteAt(payload, 8) >= |LENGTH_WIDTH|
    ensures copied.Some? ==> copied.value == |payload| - (9 + LENGTH_WIDTH[ByteAt(payload, 8)]) ||
                             (copied.value == 0 && |payload| <= 9 + LENGTH_WIDTH[ByteAt(payload, 8)])
  {
    var t := ByteAt(payload, 8);
    if t >= |LENGTH_WIDTH| then None
    else
      var off := 9 + LENGTH_WIDTH[t];
      if off < |payload| then Some(|payload| - off) else Some(0)
  }

  /** A response the subscription accepts (267 bytes) with a one-byte count
      overruns the value area by one byte; a tag of 15 reads past the table. */
  lemma AccessResponseOverrun()
    ensures AccessResponseCopyAsWritten(Zeros(8) + [REG_INT64] + Zeros(258)) == Some(257)
    ensures |Zeros(8) + [REG_INT64] + Zeros(258)| == EXTENT_REGISTER_ACCESS
    ensures AccessResponseCopyAsWritten(Zeros(8) + [15]) == None
  {
    var p := Zeros(8) + [REG_INT64] + Zeros(258);
    assert ByteAt(p, 8) == REG_INT64;
    var q := Zeros(8) + [15];
    assert ByteAt(q, 8) == 15;
  }

  /** The Access response a node sends for a record. */
  function EncodeAccessResponse(timestamp: seq<byte>, flags: byte, reg: RegisterAccess): (p: seq<byte>)
    requires |timestamp| == 7 && ValidateRegisterAccess(reg) == 0
  {
    ValidatedValueFits(reg);
    timestamp + [flags, reg.regType] + PutLE(reg.length, LENGTH_WIDTH[reg.regType])
    + reg.value[..ValueBytes(reg)]
  }

  /** A valid non-empty record survives the trip: tag, count and every value byte
      the count covers; the rest of the value area reads as zero. */
  lemma AccessRoundTrip(timestamp: seq<byte>, flags: byte, reg: RegisterAccess)
    requires |timestamp| == 7 && ValidateRegisterAccess(reg) == 0 && reg.regType != REG_EMPTY
    ensures var res := ParseRegisterAccess(EncodeAccessResponse(timestamp, flags, reg));
      res.r == 0 && res.regr.regType == reg.regType && res.regr.length == reg.length &&
      res.regr.value == PadTo(reg.value[..ValueBytes(reg)], 256)
  {
    Pow256Values();
    ValidatedValueFits(reg);
    var w := LENGTH_WIDTH[reg.regType];
    var pre := timestamp + [flags, reg.regType];
    var value := reg.value[..ValueBytes(reg)];
    var p := EncodeAccessResponse(timestamp, flags, reg);
    assert p == pre + PutLE(reg.length, w) + value;
    assert p[8] == reg.regType;
    GetPutLE(reg.length, w, pre, value);
    assert p == (pre + PutLE(reg.length, w)) + value + [];
    FieldOf(pre + PutLE(reg.length, w), value, [], 256);
    var res := ParseRegisterAccess(p);
    forall i | 0 <= i < 256
      ensures res.regr.value[i] == PadTo(value, 256)[i]
    {
      assert res.regr.value[i] == ByteAt(p, 9 + w + i);
      assert Field(p, 9 + w, |value|, 256)[i] == PadTo(value, 256)[i];
    }
  }
}
