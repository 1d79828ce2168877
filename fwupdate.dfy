/** fwupdate: a stand-alone firmware server.  It loads the image, asks the
    node to begin a software update from path "/", then answers every
    uavcan.file.Read request with the chunk at the requested offset. */
module Firmware {
  import opened Bytes
  import opened Types
  import opened Wire
  import opened Args
  import Library

  /** The image buffer and the largest image accepted. */
  const BUFFER_SIZE := 0x40000
  const MAX_IMAGE := 0x38000
  /** The data part of a uavcan.file.Read response. */
  const CHUNK := 256
  const REPLY_SIZE := 260

  // ----------------------------------------------------------- start-up

  /** Why main returns -1 before serving. */
  datatype SetupError = ArgumentCount | Unreadable | TooLarge | InvalidNodeId | NodeIdRange

  datatype Setup = Failed(error: SetupError) | Ready(imageLength: nat, nodeId: byte)

  /** main's checks in order: two arguments, the file read (`readResult` is
      what read() returned into the 256 KiB buffer), then the node id as
      the evidently intended check on the number itself. */
  function CheckSetup(argc: nat, readResult: int, nodeArg: Arg): (s: Setup)
    requires readResult <= BUFFER_SIZE
    ensures argc != 3 ==> s == Failed(ArgumentCount)
    ensures argc == 3 && readResult <= 0 ==> s == Failed(Unreadable)
    ensures argc == 3 && readResult > MAX_IMAGE ==> s == Failed(TooLarge)
    ensures s.Ready? <==>
      argc == 3 && 0 < readResult <= MAX_IMAGE && nodeArg.number.Some? && 0 <= nodeArg.number.value <= NODE_ID_MAX
    ensures s.Ready? ==> s.imageLength == readResult && s.nodeId == nodeArg.number.value
  {
    if argc != 3 then Failed(ArgumentCount)
    else if readResult <= 0 then Failed(Unreadable)
    else if readResult > MAX_IMAGE then Failed(TooLarge)
    else if nodeArg.number.None? then Failed(InvalidNodeId)
    else match NodeIdArg(nodeArg.number.value)
      case None => Failed(NodeIdRange)
      case Some(id) => Ready(readResult, id)
  }

  /** The same checks with the node id stored in a uint8_t before the range
      check, as main does it. */
  function CheckSetupAsWritten(argc: nat, readResult: int, nodeArg: Arg): (s: Setup)
    requires readResult <= BUFFER_SIZE
    ensures s.Ready? ==> nodeArg.number.Some? && NodeIdAsWritten(nodeArg.number.value) == Some(s.nodeId)
  {
    if argc != 3 then Failed(ArgumentCount)
    else if readResult <= 0 then Failed(Unreadable)
    else if readResult > MAX_IMAGE then Failed(TooLarge)
    else if nodeArg.number.None? then Failed(InvalidNodeId)
    else match NodeIdAsWritten(nodeArg.number.value)
      case None => Failed(NodeIdRange)
      case Some(id) => Ready(readResult, id)
  }

  /** Node id 383 on the command line serves node 127. */
  lemma SetupTruncates(text: CString)
    ensures CheckSetupAsWritten(3, 1, Arg(text, Some(383))) == Ready(1, 127)
    ensures CheckSetup(3, 1, Arg(text, Some(383))) == Failed(NodeIdRange)
  {
  }

  /** The begin-update request: ExecuteCommand BEGIN_SOFTWARE_UPDATE with
      the parameter "/", transfer id 0. */
  const BEGIN_UPDATE_PAYLOAD: seq<byte> := [0xFD, 0xFF, 0x01, 0x2F]

  function BeginUpdate(nodeId: byte): (t: Library.Transfer)
    ensures t.port == PORT_EXECUTE_COMMAND && t.remote == nodeId && t.tid == 0
  {
    Library.Transfer(PORT_EXECUTE_COMMAND, nodeId, 0, BEGIN_UPDATE_PAYLOAD)
  }

  /** The hand-written payload is the library's encoding of that command. */
  lemma BeginUpdateEncodes()
    ensures BEGIN_UPDATE_PAYLOAD == ExecuteCommandPayload(CMD_BEGIN_SOFTWARE_UPDATE, Ascii("/"))
  {
    var p := ExecuteCommandPayload(CMD_BEGIN_SOFTWARE_UPDATE, Ascii("/"));
    assert |p| == 4 && p[2] == 1 && p[3] == 0x2F;
    assert GetLE(p, 0, 2) == p[0] + 256 * (p[1] + 256 * GetLE(p, 2, 0));
  }

  // -------------------------------------------------------------- node id

  /** A GPIO level as gpiod returns it. */
  type Level = x: int | 0 <= x <= 1

  /** get_node_id: the seven lines 21..27 ORed into a uint8_t, line 21 the
      least significant bit; a failed read passes its status through. */
  method GetNodeId(r: int, values: seq<Level>) returns (id: int)
    requires |values| == 7
    ensures r < 0 ==> id == r
    ensures r >= 0 ==> 0 <= id <= NODE_ID_MAX && id == Library.PinsValue(PinsOf(values))
  {
    if r < 0 {
      return r;
    }
    var nodeId: bv8 := 0;
    nodeId := nodeId | (values[0] as bv8);
    nodeId := nodeId | ((values[1] as bv8) << 1);
    nodeId := nodeId | ((values[2] as bv8) << 2);
    nodeId := nodeId | ((values[3] as bv8) << 3);
    nodeId := nodeId | ((values[4] as bv8) << 4);
    nodeId := nodeId | ((values[5] as bv8) << 5);
    nodeId := nodeId | ((values[6] as bv8) << 6);
    assert nodeId as int == LevelSum(values);
    PinsSum(values);
    id := nodeId as int;
  }

  function PinsOf(values: seq<Level>): (pins: seq<bool>)
    ensures |pins| == |values| && forall i :: 0 <= i < |values| ==> pins[i] == (values[i] == 1)
  {
    seq(|values|, i requires 0 <= i < |values| => values[i] == 1)
  }

  /** The seven levels weighted by their bit positions. */
  function LevelSum(values: seq<Level>): int
    requires |values| == 7
  {
    var v := values;
    v[0] as int + 2 * v[1] as int + 4 * v[2] as int + 8 * v[3] as int + 16 * v[4] as int
    + 32 * v[5] as int + 64 * v[6] as int
  }

  lemma PinsSum(values: seq<Level>)
    requires |values| == 7
    ensures Library.PinsValue(PinsOf(values)) == LevelSum(values)
  {
    var p := PinsOf(values);
    forall k | 0 <= k < 7
      ensures Library.PinsValue(p[k..]) == values[k] as int + 2 * Library.PinsValue(p[k + 1..])
    {
      assert p[k..][0] == p[k] && p[k..][1..] == p[k + 1..];
    }
    assert p[7..] == [];
    assert p[0..] == p;
  }

  // ------------------------------------------------------- the file server

  /** The number of image bytes one request at `offset` gets back. */
  function ChunkSize(offset: nat, imageLength: nat): (n: nat)
    ensures n <= CHUNK
    ensures offset >= imageLength <==> n == 0
    ensures offset < imageLength ==> n == Min(CHUNK, imageLength - offset) && offset + n <= imageLength
  {
    if offset >= imageLength then 0 else Min(CHUNK, imageLength - offset)
  }

  /** The image bytes a request at `offset` gets back. */
  function ChunkAt(image: seq<byte>, offset: nat): (c: seq<byte>)
    ensures |c| == ChunkSize(offset, |image|)
    ensures c != [] ==> c == image[offset..offset + |c|]
  {
    var n := ChunkSize(offset, |image|);
    if n == 0 then [] else image[offset..offset + n]
  }

  /** The response a request at `offset` gets: error 0, the chunk size, the
      chunk. */
  function ReadResponse(image: seq<byte>, offset: nat): (p: seq<byte>)
    ensures |p| == 4 + ChunkSize(offset, |image|) && p[..2] == [0, 0]
    ensures GetLE(p, 2, 2) == ChunkSize(offset, |image|) && p[4..] == ChunkAt(image, offset)
  {
    Pow256Values();
    var n := ChunkSize(offset, |image|);
    GetPutLE(n, 2, [0, 0], ChunkAt(image, offset));
    [0, 0] + PutLE(n, 2) + ChunkAt(image, offset)
  }

  /** One pass of the serving loop: a request with an empty payload is
      skipped; otherwise the 40-bit offset is read (zero past the payload's
      end), a zeroed 260-byte reply is filled in place and its first 4 + size
      bytes sent as the response.  The response reuses the request's port and
      transfer id and goes to the node being updated, `nodeId`. */
  method Serve(image: seq<byte>, nodeId: byte, request: Library.Transfer) returns (reply: Option<Library.Transfer>)
    requires |image| <= MAX_IMAGE
    ensures request.payload == [] <==> reply.None?
    ensures reply.Some? ==> reply.value == Library.Transfer(request.port, nodeId, request.tid,
      ReadResponse(image, GetLE(request.payload, 0, 5)))
  {
    if |request.payload| == 0 {
      return None;
    }
    var offset := GetLE(request.payload, 0, 5);
    var buf := new byte[REPLY_SIZE](_ => 0);
    var n := if offset >= |image| then 0 else Min(CHUNK, |image| - offset);
    buf[2] := n % 0x100;
    buf[3] := n / 0x100;
    var i := 0;
    while i < n
      invariant 0 <= i <= n
      invariant buf[0] == 0 && buf[1] == 0 && buf[2] == n % 0x100 && buf[3] == n / 0x100
      invariant forall k :: 4 <= k < 4 + i ==> buf[k] == image[offset + k - 4]
    {
      buf[4 + i] := image[offset + i];
      i := i + 1;
    }
    ResponseBytes(image, offset);
    assert buf[..4 + n] == ReadResponse(image, offset);
    reply := Some(Library.Transfer(request.port, nodeId, request.tid, buf[..4 + n]));
  }

  /** The response byte by byte. */
  lemma ResponseBytes(image: seq<byte>, offset: nat)
    ensures var p, n := ReadResponse(image, offset), ChunkSize(offset, |image|);
      |p| == 4 + n && p[0] == 0 && p[1] == 0 && p[2] == n % 0x100 && p[3] == n / 0x100 &&
      forall k :: 4 <= k < |p| ==> p[k] == image[offset + k - 4]
  {
    Pow256Values();
    var n := ChunkSize(offset, |image|);
    assert PutLE(n, 2) == [n % 0x100, n / 0x100];
  }

  /** What a client collects by reading from `offset` and advancing by each
      response's size until a response carries no data. */
  function Download(image: seq<byte>, offset: nat): (data: seq<byte>)
    decreases |image| - offset
  {
    var p := ReadResponse(image, offset);
    var n := GetLE(p, 2, 2);
    if n == 0 then [] else p[4..] + Download(image, offset + n)
  }

  /** Reading from the start reproduces the image exactly. */
  lemma {:induction false} DownloadReproduces(image: seq<byte>, offset: nat)
    requires offset <= |image|
    ensures Download(image, offset) == image[offset..]
    decreases |image| - offset
  {
    var n := ChunkSize(offset, |image|);
    if n != 0 {
      DownloadReproduces(image, offset + n);
      assert image[offset..] == image[offset..offset + n] + image[offset + n..];
    } else {
      assert offset == |image|;
    }
  }

  /** The download ends on a response with no data, at the image's end. */
  lemma DownloadEnds(image: seq<byte>)
    ensures GetLE(ReadResponse(image, |image|), 2, 2) == 0 && |ReadResponse(image, |image|)| == 4
  {
  }
}
