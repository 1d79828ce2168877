/** The Python device layer (pywlmio): the status-callback registry and its
    fan-out, the per-node status and info cache, the packing and unpacking of
    register records, register enumeration, reboot, and the catalog of device
    variants with their channel guards. */
module Python {
  import opened Bytes
  import opened Types
  import opened Wire
  import opened Responses
  import opened Drivers

  /** The exceptions the layer raises. */
  datatype PyError =
    | AssertionError
    | InternalError(errno: int)
    | WrongNode(expected: seq<byte>, actual: seq<byte>)
    | StructError
    | IndexError
    | TypeError
    | NameError

  datatype Outcome<T> = Ok(value: T) | Raised(error: PyError)

  // ------------------------------------------------------------- statuses

  /** struct wlmio_status as the extension hands it over: uptime, health,
      mode, vendor status and one byte of padding. */
  function StatusImage(s: Status): (b: seq<byte>)
    ensures |b| == 8
  {
    PutLE(s.uptime, 4) + [s.health, s.mode, s.vendorStatus, 0]
  }

  /** unpack("IBBB0L", …). */
  function DecodeStatus(b: seq<byte>): (s: Status)
    requires |b| == 8
    ensures s.uptime == GetLE(b, 0, 4) && s.health == b[4] && s.mode == b[5] && s.vendorStatus == b[6]
  {
    Pow256Values();
    Status(GetLE(b, 0, 4), b[4], b[5], b[6])
  }

  lemma StatusRoundTrip(s: Status)
    ensures DecodeStatus(StatusImage(s)) == s
  {
    Pow256Values();
    GetPutLE(s.uptime, 4, [], [s.health, s.mode, s.vendorStatus, 0]);
    assert StatusImage(s) == [] + PutLE(s.uptime, 4) + [s.health, s.mode, s.vendorStatus, 0];
  }

  // ------------------------------------------------------------- registry

  /** The slot of the callbacks for every node. */
  const WILDCARD := 128

  /** The id argument of the registry functions: None or an int. */
  datatype PyId = NoneId | IntId(n: int)

  /** `assert id is None or (id >= 0 and id < 128)`. */
  function IdCheck(id: PyId): (e: Option<PyError>)
    ensures e.None? <==> id.NoneId? || 0 <= id.n < 128
    ensures e.Some? ==> e == Some(AssertionError)
  {
    if id.NoneId? || 0 <= id.n < 128 then None else Some(AssertionError)
  }

  /** The slot an id selects: the node's own, or the wildcard for None. */
  function Slot(id: PyId): (k: nat)
    requires IdCheck(id).None?
    ensures k <= WILDCARD && (id.IntId? <==> k < WILDCARD)
    ensures id.IntId? ==> k == id.n
  {
    if id.NoneId? then WILDCARD else id.n
  }

  /** One task created by status_callback: a node callback gets the old and
      new status, a wildcard callback also the node id. */
  datatype Invocation =
    | NodeCall(callback: nat, before: Status, after: Status)
    | AnyCall(callback: nat, nodeId: nat, before: Status, after: Status)

  function CallbacksOf(calls: seq<Invocation>): set<nat>
  {
    set i | 0 <= i < |calls| :: calls[i].callback
  }

  predicate DistinctCallbacks(calls: seq<Invocation>)
  {
    forall i, j :: 0 <= i < j < |calls| ==> calls[i].callback != calls[j].callback
  }

  /** status_callbacks: 129 sets of callbacks. */
  class Registry {
    var slots: seq<set<nat>>

    ghost predicate Valid()
      reads this
    {
      |slots| == 129
    }

    constructor ()
      ensures Valid() && forall k :: 0 <= k < 129 ==> slots[k] == {}
    {
      slots := seq(129, _ => {});
    }

    /** register_status_callback: the id must be None or 0..127 and the
        callback a coroutine function, else AssertionError. */
    method Register(id: PyId, callback: nat, isCoroutine: bool) returns (raised: Option<PyError>)
      requires Valid()
      modifies this
      ensures Valid()
      ensures raised.None? <==> IdCheck(id).None? && isCoroutine
      ensures raised.Some? ==> slots == old(slots) && raised == Some(AssertionError)
      ensures raised.None? ==> slots == old(slots)[Slot(id) := old(slots)[Slot(id)] + {callback}]
    {
      if IdCheck(id).Some? || !isCoroutine {
        return Some(AssertionError);
      }
      var k := Slot(id);
      slots := slots[k := slots[k] + {callback}];
      raised := None;
    }

    /** unregister_status_callback: `discard`, so an absent callback is no error. */
    method Unregister(id: PyId, callback: nat) returns (raised: Option<PyError>)
      requires Valid()
      modifies this
      ensures Valid()
      ensures raised == IdCheck(id)
      ensures raised.Some? ==> slots == old(slots)
      ensures raised.None? ==> slots == old(slots)[Slot(id) := old(slots)[Slot(id)] - {callback}]
    {
      raised := IdCheck(id);
      if raised.Some? {
        return;
      }
      var k := Slot(id);
      slots := slots[k := slots[k] - {callback}];
    }

    /** status_callback: one task per callback of the node's slot, then one
        per wildcard callback; set iteration order is Python's, so it is
        left open. */
    method Dispatch(nodeId: nat, before: seq<byte>, after: seq<byte>) returns (calls: seq<Invocation>)
      requires Valid() && nodeId < 128 && |before| == 8 && |after| == 8
      ensures var n := |slots[nodeId]|;
        |calls| == n + |slots[WILDCARD]| &&
        CallbacksOf(calls[..n]) == slots[nodeId] && DistinctCallbacks(calls[..n]) &&
        CallbacksOf(calls[n..]) == slots[WILDCARD] && DistinctCallbacks(calls[n..]) &&
        (forall i :: 0 <= i < n ==> calls[i] == NodeCall(calls[i].callback, DecodeStatus(before), DecodeStatus(after))) &&
        (forall i :: n <= i < |calls| ==>
          calls[i] == AnyCall(calls[i].callback, nodeId, DecodeStatus(before), DecodeStatus(after)))
    {
      var s0, s1 := DecodeStatus(before), DecodeStatus(after);
      var own := FanOut(slots[nodeId], NodeCall(0, s0, s1));
      var any := FanOut(slots[WILDCARD], AnyCall(0, nodeId, s0, s1));
      calls := own + any;
      assert calls[..|own|] == own && calls[|own|..] == any;
    }
  }

  /** One task per callback of a set, each built from the template. */
  method FanOut(callbacks: set<nat>, template: Invocation) returns (calls: seq<Invocation>)
    ensures |calls| == |callbacks| && CallbacksOf(calls) == callbacks && DistinctCallbacks(calls)
    ensures forall i :: 0 <= i < |calls| ==> calls[i] == template.(callback := calls[i].callback)
  {
    var order := Enumerate(callbacks);
    calls := seq(|order|, i requires 0 <= i < |order| => template.(callback := order[i]));
    forall x | x in callbacks
      ensures x in CallbacksOf(calls)
    {
      var i :| 0 <= i < |order| && order[i] == x;
      assert calls[i].callback == x;
    }
  }

  /** The elements of a set, each once, in the order `for` visits them. */
  method Enumerate(s: set<nat>) returns (order: seq<nat>)
    ensures |order| == |s| && (forall x :: x in order <==> x in s)
    ensures forall i, j :: 0 <= i < j < |order| ==> order[i] != order[j]
  {
    order := [];
    var pending := s;
    while pending != {}
      invariant pending <= s
      invariant forall x :: x in order <==> x in s && x !in pending
      invariant |order| + |pending| == |s|
      invariant forall i, j :: 0 <= i < j < |order| ==> order[i] != order[j]
      decreases |pending|
    {
      var x :| x in pending;
      order := order + [x];
      pending := pending - {x};
    }
  }

  // ------------------------------------------------------------ node info

  /** NodeInfo as Node.get_info builds it: the certificate is always None and
      the flags are not kept. */
  datatype PyNodeInfo = PyNodeInfo(
    protocolVersion: Version, hardwareVersion: Version, softwareVersion: Version,
    revision: nat, uniqueId: seq<byte>, name: seq<byte>, crc: nat)

  /** `rstrip("\0")`: the name without its trailing NULs. */
  function StripNuls(s: seq<byte>): (t: seq<byte>)
    ensures |t| <= |s| && t == s[..|t|]
    ensures forall i :: |t| <= i < |s| ==> s[i] == 0
    ensures t == [] || t[|t| - 1] != 0
  {
    if s == [] || s[|s| - 1] != 0 then s else StripNuls(s[..|s| - 1])
  }

  /** Stripping keeps a NUL-free name and its padding apart. */
  lemma {:induction false} StripPadded(name: seq<byte>, n: nat)
    requires |name| <= n && (name == [] || name[|name| - 1] != 0)
    ensures StripNuls(PadTo(name, n)) == name
    decreases n
  {
    if n > |name| {
      var p := PadTo(name, n);
      assert p[..n - 1] == PadTo(name, n - 1);
      StripPadded(name, n - 1);
    } else {
      assert PadTo(name, n) == name;
    }
  }

  /** struct wlmio_node_info as it lies in memory: natural alignment puts the
      revision at 8, the unique id at 16, the name at 32, the CRC at 88, the
      certificate at 96 and the flags at 320; the pads are zero because the
      response handler clears the record first. */
  function InfoImage(info: NodeInfo): (b: seq<byte>)
    requires WellSized(info)
    ensures |b| == 328
  {
    InfoHead(info) + PutLE(info.crc, 8) + InfoTail(info)
  }

  /** The 88 bytes before the CRC. */
  function InfoHead(info: NodeInfo): (b: seq<byte>)
    requires WellSized(info)
    ensures |b| == 88
  {
    VersionBytes(info) + [0, 0] + PutLE(info.revision, 8) + (info.uniqueId + info.name + Zeros(5))
  }

  /** The certificate, the flags and the padding after the CRC. */
  function InfoTail(info: NodeInfo): (b: seq<byte>)
    requires WellSized(info)
    ensures |b| == 232
  {
    info.coa + [0, 0] + PutLE(info.flags, 4) + Zeros(4)
  }

  function VersionBytes(info: NodeInfo): (b: seq<byte>)
    ensures |b| == 6
  {
    [info.protocolVersion.major, info.protocolVersion.minor, info.hardwareVersion.major,
     info.hardwareVersion.minor, info.softwareVersion.major, info.softwareVersion.minor]
  }

  /** Struct("6BQ16s51sQ222s0L").unpack of the first 320 bytes, and the name
      decoded and stripped. */
  function DecodeInfo(b: seq<byte>): (info: PyNodeInfo)
    requires |b| >= 320
    ensures info.revision == GetLE(b, 8, 8) && info.crc == GetLE(b, 88, 8)
    ensures info.uniqueId == b[16..32] && info.name == StripNuls(b[32..83])
    ensures info.protocolVersion == Version(b[0], b[1]) && info.softwareVersion == Version(b[4], b[5])
    ensures info.hardwareVersion == Version(b[2], b[3])
  {
    PyNodeInfo(Version(b[0], b[1]), Version(b[2], b[3]), Version(b[4], b[5]),
               GetLE(b, 8, 8), b[16..32], StripNuls(b[32..83]), GetLE(b, 88, 8))
  }

  lemma InfoHeadFields(info: NodeInfo)
    requires WellSized(info)
    ensures var h := InfoHead(info);
      GetLE(h, 8, 8) == info.revision && h[16..32] == info.uniqueId && h[32..83] == info.name &&
      h[..6] == VersionBytes(info)
  {
    Pow256Values();
    GetPutLE(info.revision, 8, VersionBytes(info) + [0, 0], info.uniqueId + info.name + Zeros(5));
  }

  lemma InfoImageFields(info: NodeInfo)
    requires WellSized(info)
    ensures var b := InfoImage(info);
      GetLE(b, 8, 8) == info.revision && GetLE(b, 88, 8) == info.crc &&
      b[16..32] == info.uniqueId && b[32..83] == info.name && b[..6] == VersionBytes(info)
  {
    Pow256Values();
    var h := InfoHead(info);
    var b := InfoImage(info);
    InfoHeadFields(info);
    GetPutLE(info.crc, 8, h, InfoTail(info));
    assert b[..88] == h;
    GetLEOnly(b, h, 8, 8);
  }

  /** What Python sees of what the library stored. */
  lemma InfoImageDecodes(info: NodeInfo)
    requires WellSized(info)
    ensures var d := DecodeInfo(InfoImage(info));
      d == PyNodeInfo(info.protocolVersion, info.hardwareVersion, info.softwareVersion,
                      info.revision, info.uniqueId, StripNuls(info.name), info.crc)
  {
    var b := InfoImage(info);
    InfoImageFields(info);
    assert b[0] == info.protocolVersion.major && b[1] == info.protocolVersion.minor;
    assert b[2] == info.hardwareVersion.major && b[3] == info.hardwareVersion.minor;
    assert b[4] == info.softwareVersion.major && b[5] == info.softwareVersion.minor;
  }

  // --------------------------------------------------------------- nodes

  /** Node: its id, the last status and the cached info, and how many info
      fetches it has issued (the lock makes them one at a time). */
  class Node {
    const id: nat
    var status: Option<Status>
    var info: Option<PyNodeInfo>
    var fetches: nat

    constructor (id: nat)
      requires id < 128
      ensures this.id == id && status.None? && info.None? && fetches == 0
    {
      this.id := id;
      status := None;
      info := None;
      fetches := 0;
    }

    /** get_info: the cached info, or a fetch whose transport status `r` and
        record image come from the library; a negative status raises. */
    method GetInfo(r: int, image: seq<byte>) returns (result: Outcome<PyNodeInfo>)
      requires r >= 0 ==> |image| >= 320
      modifies this`info, this`fetches
      ensures old(info).Some? ==> result == Ok(old(info).value) && info == old(info) && fetches == old(fetches)
      ensures old(info).None? ==> fetches == old(fetches) + 1
      ensures old(info).None? && r < 0 ==> result == Raised(InternalError(-r)) && info.None?
      ensures old(info).None? && r >= 0 ==> result == Ok(DecodeInfo(image)) && info == Some(DecodeInfo(image))
    {
      if info.None? {
        fetches := fetches + 1;
        if r < 0 {
          return Raised(InternalError(-r));
        }
        info := Some(DecodeInfo(image));
      }
      result := Ok(info.value);
    }

    /** _status_callback, deciding against the status it was passed. */
    method OnStatus(before: Status, after: Status)
      modifies this`status, this`info
      ensures status == Some(after)
      ensures info == if InfoStale(before, after) then None else old(info)
      ensures IsOnline() <==> after.mode != MODE_OFFLINE
    {
      if status.None? {
        status := Some(before);
      }
      if after.mode == MODE_OFFLINE {
        info := None;
      }
      if (before.mode == MODE_OFFLINE && after.mode != MODE_OFFLINE) || after.uptime < before.uptime {
        info := None;
      }
      status := Some(after);
    }

    /** is_online. */
    predicate IsOnline()
      reads this
    {
      status.Some? && status.value.mode != MODE_OFFLINE
    }
  }

  /** The node went offline, came back online, or restarted. */
  predicate InfoStale(before: Status, after: Status)
  {
    after.mode == MODE_OFFLINE || (before.mode == MODE_OFFLINE && after.mode != MODE_OFFLINE) ||
    after.uptime < before.uptime
  }

  /** Node(id): the id must be 0..127; the node's callback is registered for
      its id. */
  method NewNode(id: int, registry: Registry, callback: nat) returns (node: Node?)
    requires registry.Valid()
    modifies registry
    ensures registry.Valid()
    ensures node == null <==> !(0 <= id < 128)
    ensures node == null ==> registry.slots == old(registry.slots)
    ensures node != null ==> (fresh(node) && node.id == id && node.status.None? && node.info.None? &&
      !node.IsOnline() &&
      registry.slots == old(registry.slots)[id := old(registry.slots)[id] + {callback}])
  {
    if !(0 <= id < 128) {
      return null;
    }
    node := new Node(id);
    var _ := registry.Register(IntId(id), callback, true);
  }

  // ------------------------------------------------------ register records

  /** The native size of the element type Python packs a record's values as;
      0 for the types it does not pack. */
  function ElementWidth(t: int): (w: nat)
    ensures w in {0, 1, 2, 4}
    ensures w != 0 <==> t in {REG_UINT8, REG_UINT16, REG_UINT32}
  {
    if t == REG_UINT32 then 4 else if t == REG_UINT16 then 2 else if t == REG_UINT8 then 1 else 0
  }

  predicate FitsWidth(vs: seq<int>, w: nat)
  {
    forall i :: 0 <= i < |vs| ==> 0 <= vs[i] < Pow256(w)
  }

  function Naturals(vs: seq<int>): (ns: seq<nat>)
    requires forall i :: 0 <= i < |vs| ==> vs[i] >= 0
    ensures ns == vs
  {
    seq(|vs|, i requires 0 <= i < |vs| => vs[i] as nat)
  }

  /** Struct("BH256s").pack of Node.register_access: the tag, a pad byte, the
      element count, and the packed values cut or padded to 256 bytes; a value
      or count out of range is struct.error. */
  function EncodeRecord(regType: Option<byte>, value: Option<seq<int>>): (out: Outcome<seq<byte>>)
    ensures out.Ok? ==> |out.value| == 260 && out.value[1] == 0
    ensures regType.None? || value.None? ==> out == Ok([REG_EMPTY, 0] + PutLE(0, 2) + Zeros(256))
    ensures regType.Some? && value.Some? && ElementWidth(regType.value) == 0 ==>
      out == Ok([regType.value, 0] + PutLE(0, 2) + Zeros(256))
    ensures regType.Some? && value.Some? && ElementWidth(regType.value) != 0 ==>
      (out.Ok? <==> FitsWidth(value.value, ElementWidth(regType.value)) && |value.value| < 0x1_0000)
  {
    if regType.None? || value.None? then Ok([REG_EMPTY, 0] + PutLE(0, 2) + Zeros(256))
    else
      var t := regType.value;
      var w := ElementWidth(t);
      if w == 0 then Ok([t, 0] + PutLE(0, 2) + Zeros(256))
      else if !FitsWidth(value.value, w) || |value.value| >= 0x1_0000 then Raised(StructError)
      else Ok([t, 0] + PutLE(|value.value|, 2) + PadTo(PackLE(Naturals(value.value), w), 256))
  }

  /** The record the extension passes to the library. */
  function RecordOf(b: seq<byte>): (reg: RegisterAccess)
    requires |b| == 260
    ensures reg.regType == b[0] && reg.value == b[4..]
  {
    Pow256Values();
    RegisterAccess(b[0], GetLE(b, 2, 2), b[4..])
  }

  /** The image of a record the library filled in (its pad byte zero). */
  function RecordImage(reg: RegisterAccess): (b: seq<byte>)
    ensures |b| == 260
  {
    [reg.regType, 0] + PutLE(reg.length, 2) + reg.value
  }

  /** What register_access returns: the tag and its values for the three
      unsigned types Python unpacks, the raw tuple for the others. */
  datatype PyRegister =
    | Values(regType: byte, values: seq<nat>)
    | Raw(regType: byte, length: nat, data: seq<byte>)

  /** The unpacking of a reply image; an element count the 256 bytes cannot
      hold is struct.error. */
  function DecodeReply(b: seq<byte>): (out: Outcome<PyRegister>)
    requires |b| == 260
    ensures var t := b[0]; var w := ElementWidth(t); var n := GetLE(b, 2, 2);
      (w == 0 ==> out == Ok(Raw(t, n, b[4..]))) &&
      (w != 0 && n * w > 256 ==> out == Raised(StructError)) &&
      (w != 0 && n * w <= 256 ==> out == Ok(Values(t, UnpackLE(b[4..], 0, n, w))))
  {
    var t := b[0];
    var w := ElementWidth(t);
    var n := GetLE(b, 2, 2);
    if w == 0 then Ok(Raw(t, n, b[4..]))
    else if n * w > 256 then Raised(StructError)
    else Ok(Values(t, UnpackLE(b[4..], 0, n, w)))
  }

  /** A record of UINT8, UINT16 or UINT32 values that the node stores and
      returns unchanged reads back as the same tag and values. */
  lemma RecordRoundTrip(t: byte, vs: seq<int>)
    requires ElementWidth(t) != 0 && FitsWidth(vs, ElementWidth(t)) && |vs| * ElementWidth(t) <= 256
    ensures var out := EncodeRecord(Some(t), Some(vs));
      out.Ok? && DecodeReply(RecordImage(RecordOf(out.value))) == Ok(Values(t, vs))
  {
    Pow256Values();
    var w := ElementWidth(t);
    var ns := Naturals(vs);
    var packed := PackLE(ns, w);
    var b := [t, 0] + PutLE(|vs|, 2) + PadTo(packed, 256);
    assert EncodeRecord(Some(t), Some(vs)) == Ok(b);
    GetPutLE(|vs|, 2, [t, 0], PadTo(packed, 256));
    assert b[4..] == PadTo(packed, 256);
    assert RecordImage(RecordOf(b)) == b;
    assert PadTo(packed, 256) == [] + packed + Zeros(256 - |packed|);
    UnpackPackLE(ns, w, [], Zeros(256 - |packed|));
  }

  /** Node.register_access once the request has completed with status `r`. */
  function RegisterAccessResult(r: int, image: seq<byte>): (out: Outcome<PyRegister>)
    requires r >= 0 ==> |image| == 260
    ensures r < 0 ==> out == Raised(InternalError(-r))
    ensures r >= 0 ==> out == DecodeReply(image)
  {
    if r < 0 then Raised(InternalError(-r)) else DecodeReply(image)
  }

  // -------------------------------------------------------- enumeration

  /** list_registers: indices 0, 1, … up to 65534 are requested in order until
      one returns an empty name; `replies(i)` is what request i completes
      with (None when it failed, which makes `len` raise TypeError). */
  method ListRegisters(replies: nat -> Option<seq<byte>>) returns (result: Outcome<seq<seq<byte>>>, requests: nat)
    ensures requests <= 0xFFFF
    ensures result.Ok? ==> (|result.value| <= requests &&
      (forall i :: 0 <= i < |result.value| ==> replies(i) == Some(result.value[i]) && result.value[i] != []) &&
      (requests == |result.value| + 1 ==> replies(|result.value|) == Some([])) &&
      (requests == |result.value| || requests == |result.value| + 1) &&
      (requests == |result.value| ==> requests == 0xFFFF))
    ensures result.Raised? ==> (result.error == TypeError && requests >= 1 && replies(requests - 1).None? &&
      forall i :: 0 <= i < requests - 1 ==> replies(i).Some? && replies(i).value != [])
  {
    var names: seq<seq<byte>> := [];
    var i := 0;
    while i < 0xFFFF
      invariant i == |names| <= 0xFFFF
      invariant forall k :: 0 <= k < i ==> replies(k) == Some(names[k]) && names[k] != []
    {
      var r := replies(i);
      if r.None? {
        return Raised(TypeError), i + 1;
      }
      if |r.value| == 0 {
        return Ok(names), i + 1;
      }
      names := names + [r.value];
      i := i + 1;
    }
    return Ok(names), i;
  }

  /** A register name of at most 50 bytes comes back to Python as sent. */
  lemma ListedNameRoundTrip(name: CString)
    requires |name| <= 50
    ensures CStringOf(RegisterListName(EncodeRegisterListResponse(name))) == name
  {
    RegisterListRoundTrip(name);
    CStringOfPadded(name, 51);
  }

  /** A C string padded with at least one NUL reads back as itself. */
  lemma CStringOfPadded(name: CString, n: nat)
    requires |name| < n
    ensures CStringOf(PadTo(name, n)) == name
  {
    var buf := PadTo(name, n);
    CStringUpTo(buf, |name|);
    assert buf[..|name|] == name;
  }

  /** A buffer whose first NUL is at k holds the C string of its first k bytes. */
  lemma {:induction false} CStringUpTo(buf: seq<byte>, k: nat)
    requires k < |buf| && buf[k] == 0
    requires forall i :: 0 <= i < k ==> buf[i] != 0
    ensures CStringOf(buf) == buf[..k]
    decreases k
  {
    if k > 0 {
      CStringUpTo(buf[1..], k - 1);
      assert buf[..k] == [buf[0]] + buf[1..][..k - 1];
    }
  }

  // ---------------------------------------------------------------- reboot

  /** The functions the _wlmio extension exports (its method table):
      `from _wlmio import *` binds exactly these names. */
  const EXTENSION_FUNCTIONS: set<string> := {"tick", "wait_for_event", "set_timeout", "set_status_callback",
    "get_node_info", "get_epoll_fd", "register_access", "register_list"}

  /** reboot against an extension exporting `exported`: the name
      execute_command is looked up before its arguments are evaluated, so a
      missing name raises NameError; otherwise the parameter is packed. */
  function Reboot(exported: set<string>, delay: Option<int>): (out: Outcome<seq<byte>>)
    ensures out == Raised(NameError) <==> "execute_command" !in exported
    ensures "execute_command" in exported ==> out == RebootParam(delay)
  {
    if "execute_command" in exported then RebootParam(delay) else Raised(NameError)
  }

  /** As written no execute_command is exported, so every reboot raises
      NameError before a parameter is packed or a request queued. */
  lemma RebootAsWritten(delay: Option<int>)
    ensures Reboot(EXTENSION_FUNCTIONS, delay) == Raised(NameError)
  {
    assert "execute_command"[0] != "register_access"[0];
  }

  /** reboot with execute_command available: command 65535 with no
      parameter, or the delay packed as "H". */
  function RebootParam(delay: Option<int>): (out: Outcome<seq<byte>>)
    ensures out.Raised? ==> out == Raised(StructError)
    ensures delay.None? ==> out == Ok([])
    ensures delay.Some? ==> (out.Ok? <==> 0 <= delay.value < 0x1_0000)
    ensures delay.Some? && out.Ok? ==> |out.value| == 2 && GetLE(out.value, 0, 2) == delay.value
  {
    if delay.None? then Ok([])
    else if 0 <= delay.value < 0x1_0000 then
      Pow256Values();
      GetPutLE(delay.value, 2, [], []);
      assert [] + PutLE(delay.value, 2) + [] == PutLE(delay.value, 2);
      Ok(PutLE(delay.value, 2))
    else Raised(StructError)
  }

  /** The reboot request on the wire: RESTART, then the parameter. */
  lemma RebootPayload(delay: Option<int>)
    requires RebootParam(delay).Ok?
    ensures var p := ExecuteCommandPayload(CMD_RESTART, RebootParam(delay).value);
      GetLE(p, 0, 2) == CMD_RESTART && p[3..] == RebootParam(delay).value &&
      p[2] == (if delay.None? then 0 else 2)
  {
  }

  // ------------------------------------------------------------- catalog

  datatype Variant = V6010 | V6030 | V6040 | V6050 | V6060 | V6070 | V6080 | V6090 | V6180 | V6190

  /** The node name every channel of the variant expects ("com.widgetlords.mio.<n>"). */
  function ProductName(v: Variant): (name: seq<byte>)
    ensures |name| == 24 && name[..20] == Ascii("com.widgetlords.mio.")
  {
    Ascii("com.widgetlords.mio.") + Suffix(v)
  }

  /** The model number: "60", then the variant's two digits. */
  function Suffix(v: Variant): (s: CString)
    ensures |s| == 4
  {
    Ascii(match v
      case V6010 => "6010" case V6030 => "6030" case V6040 => "6040" case V6050 => "6050"
      case V6060 => "6060" case V6070 => "6070" case V6080 => "6080" case V6090 => "6090"
      case V6180 => "6180" case V6190 => "6190")
  }

  lemma ProductNamesDistinct(v: Variant, u: Variant)
    requires v != u
    ensures ProductName(v) != ProductName(u)
  {
    var a, b := ProductName(v), ProductName(u);
    assert a[20..] == Suffix(v) && b[20..] == Suffix(u);
    assert a[22] != b[22] || a[21] != b[21];
  }

  /** The channels each variant's node object creates (ch1 … chN). */
  function ChannelCount(v: Variant): nat
  {
    match v
    case V6010 => 1
    case V6030 | V6040 | V6050 | V6060 | V6070 => 4
    case V6090 => 6
    case V6080 | V6180 => 8
    case V6190 => 3
  }

  /** The tag a channel read asserts. */
  function ReadType(v: Variant): byte
  {
    match v
    case V6030 => REG_UINT8
    case V6060 | V6190 => REG_UINT32
    case _ => REG_UINT16
  }

  /** The register a channel reads: the 6010's single "input", the output of
      a 6030/6050/6070 channel, the input of any other. */
  function ReadRegister(v: Variant, ch: nat): (name: CString)
    requires 1 <= ch <= ChannelCount(v)
  {
    match v
    case V6010 => SINGLE_INPUT
    case V6030 | V6050 | V6070 => ChannelName(ch - 1, FIELD_OUTPUT)
    case _ => ChannelName(ch - 1, FIELD_INPUT)
  }

  /** One register_access a channel operation issues: name, tag and values. */
  datatype Access = Access(name: CString, regType: byte, values: seq<int>)

  datatype Op = Read | Write(value: int) | Configure(args: seq<int>)

  /** Whether a call's arguments fit the method the channel class defines or
      inherits.  The inherited write and configure take none, so a write
      with a value, or a configure with arguments, on a class that does not
      define its own raises TypeError at the call.  The 6080's configure is
      taken with all three of its arguments supplied. */
  predicate ArityOk(v: Variant, op: Op)
  {
    match op
    case Read => true
    case Write(_) => v == V6030 || v == V6050 || v == V6070
    case Configure(a) =>
      match v
      case V6040 | V6050 | V6090 | V6190 => |a| == 1
      case V6060 | V6080 => |a| == 3
      case _ => |a| == 0
  }

  /** The argument asserts of the channel operations. */
  predicate ArgumentsOk(v: Variant, op: Op)
  {
    match op
    case Read => true
    case Write(x) => v != V6030 || x == 0 || x == 1
    case Configure(a) =>
      match v
      case V6040 => |a| == 1 && 0 <= a[0] <= 2
      case V6050 => |a| == 1 && (a[0] == 0 || a[0] == 1)
      case V6060 => |a| == 3 && 0 <= a[0] <= 2 && (a[1] == 0 || a[1] == 1) && 0 <= a[2] <= 2
      case V6080 => |a| == 3 && (a[0] == 0 || a[0] == 1)
      case V6090 | V6190 => |a| == 1
      case _ => true
  }

  /** The register accesses an operation issues once its checks pass: the
      channel variants define read for all, write for 6030/6050/6070 and
      configure for 6040/6050/6060/6080/6090/6190; the inherited ones take
      no arguments, only check the name and issue no access (ChannelGuard
      raises TypeError when they are given arguments).  6060 writes
      bias, polarity, mode; 6080 enabled, beta, t0 (in hundredths of a
      kelvin). */
  function Accesses(v: Variant, ch: nat, op: Op): (acc: seq<Access>)
    requires 1 <= ch <= ChannelCount(v) && ArgumentsOk(v, op)
    ensures op.Read? ==> acc == [Access(ReadRegister(v, ch), REG_EMPTY, [])]
    ensures |acc| <= 3
  {
    var c := ch - 1;
    match op
    case Read => [Access(ReadRegister(v, ch), REG_EMPTY, [])]
    case Write(x) =>
      (match v
       case V6030 => [Access(ChannelName(c, FIELD_OUTPUT), REG_UINT8, [x])]
       case V6050 | V6070 => [Access(ChannelName(c, FIELD_OUTPUT), REG_UINT16, [x])]
       case _ => [])
    case Configure(a) =>
      (match v
       case V6040 | V6050 => [Access(ChannelName(c, FIELD_MODE), REG_UINT8, [a[0]])]
       case V6060 => [Access(ChannelName(c, FIELD_BIAS), REG_UINT8, [a[2]]),
                       Access(ChannelName(c, FIELD_POLARITY), REG_UINT8, [a[1]]),
                       Access(ChannelName(c, FIELD_MODE), REG_UINT8, [a[0]])]
       case V6080 => [Access(ChannelName(c, FIELD_ENABLED), REG_UINT8, [a[0]]),
                       Access(ChannelName(c, FIELD_BETA), REG_UINT16, [a[1]]),
                       Access(ChannelName(c, FIELD_T0), REG_UINT16, [a[2]])]
       case V6090 => [Access(ChannelName(c, FIELD_TYPE), REG_UINT8, [a[0]])]
       case V6190 => [Access(ChannelName(c, FIELD_ENABLED), REG_UINT8, [a[0]])]
       case _ => [])
  }

  /** The values an access list writes, in order. */
  function Written(acc: seq<Access>): seq<int>
  {
    if acc == [] then [] else acc[0].values + Written(acc[1..])
  }

  /** A register of channel `ch` (1-based): its name starts "ch<ch>.". */
  predicate OfChannel(name: CString, ch: nat)
  {
    |name| > 4 && name[..2] == Ascii("ch") && name[2] == '0' as int + ch && name[3] == '.' as int
  }

  /** Every access of a channel operation targets a register of that channel
      (the 6010's single input aside). */
  lemma AccessesOnChannel(v: Variant, ch: nat, op: Op)
    requires 1 <= ch <= ChannelCount(v) && ArgumentsOk(v, op) && v != V6010
    ensures var acc := Accesses(v, ch, op);
      forall i :: 0 <= i < |acc| ==> OfChannel(acc[i].name, ch)
  {
    var acc := Accesses(v, ch, op);
    forall i | 0 <= i < |acc|
      ensures OfChannel(acc[i].name, ch)
    {
    }
  }

  /** No channel operation touches a register twice. */
  lemma AccessesDistinct(v: Variant, ch: nat, op: Op)
    requires 1 <= ch <= ChannelCount(v) && ArgumentsOk(v, op)
    ensures var acc := Accesses(v, ch, op);
      forall i, j :: 0 <= i < j < |acc| ==> acc[i].name != acc[j].name
  {
    var c := ch - 1;
    if op.Configure? && v == V6060 {
      FieldsDistinctFromMode(c);
      DistinctFields(c, FIELD_BIAS, FIELD_POLARITY);
    } else if op.Configure? && v == V6080 {
      DistinctFields(c, FIELD_ENABLED, FIELD_BETA);
      DistinctFields(c, FIELD_ENABLED, FIELD_T0);
      DistinctFields(c, FIELD_BETA, FIELD_T0);
    }
  }

  /** A read sends no value; a write exists exactly for the 6030, 6050 and
      6070 and sends its one value with the tag the channel's read returns. */
  lemma AccessesWriteValue(v: Variant, ch: nat, op: Op)
    requires 1 <= ch <= ChannelCount(v) && ArgumentsOk(v, op)
    ensures op.Read? ==> Written(Accesses(v, ch, op)) == []
    ensures op.Write? ==> (Accesses(v, ch, op) != [] <==> v in {V6030, V6050, V6070})
    ensures var acc := Accesses(v, ch, op);
      op.Write? && acc != [] ==> Written(acc) == [op.value] && |acc| == 1 && acc[0].regType == ReadType(v)
  {
  }

  /** A channel configure writes each of its arguments exactly once. */
  lemma AccessesConfigureArguments(v: Variant, ch: nat, args: seq<int>)
    requires 1 <= ch <= ChannelCount(v) && ArgumentsOk(v, Configure(args))
    ensures var acc := Accesses(v, ch, Configure(args));
      acc != [] ==> multiset(Written(acc)) == multiset(args)
  {
    var acc := Accesses(v, ch, Configure(args));
    match v
    case V6060 =>
      ConfigureThreeWrites(acc, [args[2], args[1], args[0]]);
      ReversedThree(args);
    case V6080 =>
      ConfigureThreeWrites(acc, [args[0], args[1], args[2]]);
      assert args == [args[0], args[1], args[2]];
    case V6040 | V6050 | V6090 | V6190 =>
      assert acc[1..] == [];
      assert args == [args[0]];
    case _ =>
  }

  lemma ReversedThree(a: seq<int>)
    requires |a| == 3
    ensures multiset([a[2], a[1], a[0]]) == multiset(a)
  {
    assert a == [a[0], a[1], a[2]];
  }

  /** The registers a channel class names in its constructor, by field: the
      main register `reg` first, then the configuration registers in the
      order they are declared. */
  function ChannelRegisters(v: Variant): (fs: seq<CString>)
    ensures |fs| >= 1
  {
    match v
    case V6010 => [SINGLE_INPUT]
    case V6030 | V6070 => [FIELD_OUTPUT]
    case V6040 => [FIELD_INPUT, FIELD_MODE]
    case V6050 => [FIELD_OUTPUT, FIELD_MODE]
    case V6060 => [FIELD_INPUT, FIELD_BIAS, FIELD_POLARITY, FIELD_MODE]
    case V6080 => [FIELD_INPUT, FIELD_ENABLED, FIELD_BETA, FIELD_T0]
    case V6090 => [FIELD_INPUT, FIELD_TYPE]
    case V6180 => [FIELD_INPUT]
    case V6190 => [FIELD_INPUT, FIELD_ENABLED]
  }

  /** The field part of a channel register's name, after "ch<n>.". */
  function FieldOf(name: CString): CString
  {
    if |name| >= 4 then name[4..] else []
  }

  function FieldsOf(acc: seq<Access>): (fs: seq<CString>)
    ensures |fs| == |acc| && forall i :: 0 <= i < |acc| ==> fs[i] == FieldOf(acc[i].name)
  {
    seq(|acc|, i requires 0 <= i < |acc| => FieldOf(acc[i].name))
  }

  /** The registers an operation touches are the ones its channel class
      declares: a read and a write use the main register, and a configure
      that writes anything writes exactly the configuration registers, in
      declaration order, the 6080's beta and t0 as UINT16 and the rest as
      UINT8. */
  lemma AccessesUseChannelRegisters(v: Variant, ch: nat, op: Op)
    requires 1 <= ch <= ChannelCount(v) && ArgumentsOk(v, op) && v != V6010
    ensures op.Read? ==> FieldsOf(Accesses(v, ch, op)) == [ChannelRegisters(v)[0]]
    ensures var acc := Accesses(v, ch, op);
      op.Write? && acc != [] ==> FieldsOf(acc) == [ChannelRegisters(v)[0]]
    ensures var acc := Accesses(v, ch, op);
      op.Configure? && acc != [] ==> FieldsOf(acc) == ChannelRegisters(v)[1..]
    ensures var acc := Accesses(v, ch, op);
      op.Configure? ==> forall i :: 0 <= i < |acc| ==>
        acc[i].regType == (if FieldOf(acc[i].name) in {FIELD_BETA, FIELD_T0} then REG_UINT16 else REG_UINT8)
  {
    var acc := Accesses(v, ch, op);
    var fs := FieldsOf(acc);
    match op
    case Read =>
      assert fs == [fs[0]];
    case Write(x) =>
      if acc != [] {
        assert fs == [fs[0]];
      }
    case Configure(a) =>
      if v == V6060 {
        assert fs == [fs[0], fs[1], fs[2]];
        ByteFieldsNotWide();
      } else if v == V6080 {
        assert fs == [fs[0], fs[1], fs[2]];
        ByteFieldsNotWide();
      } else if acc != [] {
        assert fs == [fs[0]];
        ByteFieldsNotWide();
      }
  }

  /** The one-byte configuration fields are neither "beta" nor "t0". */
  lemma ByteFieldsNotWide()
    ensures FIELD_MODE !in {FIELD_BETA, FIELD_T0} && FIELD_POLARITY !in {FIELD_BETA, FIELD_T0}
    ensures FIELD_BIAS !in {FIELD_BETA, FIELD_T0} && FIELD_ENABLED !in {FIELD_BETA, FIELD_T0}
    ensures FIELD_TYPE !in {FIELD_BETA, FIELD_T0}
  {
    assert FIELD_MODE[0] != FIELD_BETA[0] && FIELD_TYPE[0] != FIELD_BETA[0];
    assert FIELD_BIAS[1] != FIELD_BETA[1];
  }

  /** Three single-value accesses write their three values. */
  lemma ConfigureThreeWrites(acc: seq<Access>, vs: seq<int>)
    requires |acc| == 3 && |vs| == 3 && forall i :: 0 <= i < 3 ==> acc[i].values == [vs[i]]
    ensures Written(acc) == vs
  {
    assert acc[1..][1..][1..] == [];
    assert Written(acc[2..]) == [vs[2]] by { assert acc[2..][1..] == []; }
    assert acc[1..][1..] == acc[2..];
  }

  /** Different fields of one channel name different registers. */
  lemma DistinctFields(c: nat, f1: CString, f2: CString)
    requires c < 9 && f1 != f2
    ensures ChannelName(c, f1) != ChannelName(c, f2)
  {
    if ChannelName(c, f1) == ChannelName(c, f2) {
      ChannelNameInjective(c, f1, c, f2);
    }
  }

  lemma FieldsDistinctFromMode(c: nat)
    requires c < 9
    ensures ChannelName(c, FIELD_BIAS) != ChannelName(c, FIELD_MODE)
    ensures ChannelName(c, FIELD_POLARITY) != ChannelName(c, FIELD_MODE)
  {
    assert FIELD_BIAS[0] != FIELD_MODE[0];
    DistinctFields(c, FIELD_BIAS, FIELD_MODE);
    DistinctFields(c, FIELD_POLARITY, FIELD_MODE);
  }

  /** What a channel operation does before any register access: the call's
      argument count, the argument asserts, then _check_name against the
      node's info (which may itself raise); None means the accesses go
      ahead. */
  function ChannelGuard(v: Variant, op: Op, info: Outcome<PyNodeInfo>): (e: Option<PyError>)
    ensures !ArityOk(v, op) ==> e == Some(TypeError)
    ensures ArityOk(v, op) && !ArgumentsOk(v, op) ==> e == Some(AssertionError)
    ensures ArityOk(v, op) && ArgumentsOk(v, op) && info.Raised? ==> e == Some(info.error)
    ensures ArityOk(v, op) && ArgumentsOk(v, op) && info.Ok? ==>
      (e.None? <==> info.value.name == ProductName(v)) &&
      (e.Some? ==> e == Some(WrongNode(ProductName(v), info.value.name)))
  {
    if !ArityOk(v, op) then Some(TypeError)
    else if !ArgumentsOk(v, op) then Some(AssertionError)
    else if info.Raised? then Some(info.error)
    else if info.value.name != ProductName(v) then Some(WrongNode(ProductName(v), info.value.name))
    else None
  }

  /** A channel read's value: the asserted tag, then the first element (all
      of them for the 6010). */
  function ReadValue(v: Variant, reply: Outcome<PyRegister>): (out: Outcome<seq<nat>>)
    ensures reply.Raised? ==> out == Raised(reply.error)
    ensures reply.Ok? && reply.value.regType != ReadType(v) ==> out == Raised(AssertionError)
    ensures out.Ok? ==> (reply.Ok? && reply.value.Values? && reply.value.regType == ReadType(v) &&
      (v == V6010 ==> out.value == reply.value.values) &&
      (v != V6010 ==> reply.value.values != [] && out.value == [reply.value.values[0]]))
    ensures reply.Ok? && reply.value.Values? && reply.value.regType == ReadType(v) && v != V6010 ==>
      (out.Ok? <==> reply.value.values != [])
  {
    if reply.Raised? then Raised(reply.error)
    else if reply.value.regType != ReadType(v) then Raised(AssertionError)
    else if reply.value.Raw? then Raised(IndexError)
    else if v == V6010 then Ok(reply.value.values)
    else if reply.value.values == [] then Raised(IndexError)
    else Ok([reply.value.values[0]])
  }

  /** A node that answers a channel read with a record of the expected type
      holding v yields v. */
  lemma ChannelReadDelivers(v: Variant, x: nat)
    requires v != V6010 && x < Pow256(ElementWidth(ReadType(v)))
    ensures var out := EncodeRecord(Some(ReadType(v)), Some([x]));
      out.Ok? && ReadValue(v, DecodeReply(RecordImage(RecordOf(out.value)))) == Ok([x])
  {
    assert ElementWidth(ReadType(v)) != 0;
    RecordRoundTrip(ReadType(v), [x]);
  }

  // --------------------------------------------------- node-level configure

  /** The variants whose node object defines configure. */
  predicate HasNodeConfigure(v: Variant)
  {
    v !in {V6030, V6050, V6070}
  }

  /** configure of a node: check ch1's name, then write the sample
      interval as a UINT16 "sample_interval"; the 6090's configure takes no
      interval and writes nothing after the check (interval is then unused). */
  function NodeConfigure(v: Variant, interval: int, info: Outcome<PyNodeInfo>): (out: Outcome<seq<Access>>)
    requires HasNodeConfigure(v)
    ensures out.Ok? <==> info.Ok? && info.value.name == ProductName(v)
    ensures info.Raised? ==> out == Raised(info.error)
    ensures info.Ok? && info.value.name != ProductName(v) ==> out == Raised(WrongNode(ProductName(v), info.value.name))
    ensures out.Ok? && v == V6090 ==> out.value == []
    ensures out.Ok? && v != V6090 ==> out.value == [Access(SAMPLE_INTERVAL, REG_UINT16, [interval])]
  {
    var e := ChannelGuard(v, Read, info);
    if e.Some? then Raised(e.value)
    else if v == V6090 then Ok([])
    else Ok([Access(SAMPLE_INTERVAL, REG_UINT16, [interval])])
  }

  /** The interval a node configure writes reaches the register intact:
      the UINT16 record it encodes decodes back to the interval. */
  lemma NodeConfigureCarriesInterval(v: Variant, interval: nat, info: PyNodeInfo)
    requires HasNodeConfigure(v) && v != V6090 && info.name == ProductName(v) && interval < 0x1_0000
    ensures var out := NodeConfigure(v, interval, Ok(info));
      out.Ok? && |out.value| == 1 && out.value[0].name == SAMPLE_INTERVAL &&
      var rec := EncodeRecord(Some(out.value[0].regType), Some(out.value[0].values));
      rec.Ok? && DecodeReply(RecordImage(RecordOf(rec.value))) == Ok(Values(REG_UINT16, [interval]))
  {
    assert ElementWidth(REG_UINT16) == 2;
    RecordRoundTrip(REG_UINT16, [interval]);
  }
}
