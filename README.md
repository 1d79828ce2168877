# libwlmio in Dafny

A model of the core of libwlmio, the library and tools that drive Widgetlords
I/O nodes over UAVCAN v1 (Cyphal) on a CAN bus, with proofs about the model.

The model has four layers, each a set of Dafny modules:

- **Library** (`src/libwlmio/wlmio.c`). Modules `Wire`, `Responses` and `Library`:
  - the request encoders and response decoders of the standard services
    `uavcan.register.Access.1.0` (port 384), `uavcan.register.List.1.0` (385),
    `uavcan.node.GetInfo.1.0` (430), `uavcan.node.ExecuteCommand.1.0` (435) and
    `uavcan.node.Heartbeat.1.0` (7509);
  - the register width tables and record validation;
  - the response-correlation id and the per-node transfer-id counters;
  - the node status table with its heartbeat timers;
  - the two linked lists: the file-descriptor registry and the pending-request list.

  `Library.Wlmio` is a class holding the library's static state. Its `nodes`, `timers`
  and transfer-id tables are arrays. Its two linked lists are sequences in list
  order, where an entry's address is its handle.
- **Drivers** (`src/libwlmio/io.c`). Module `Drivers`: every per-channel read, write
  and configure entry point, the read callbacks, the three-write configure
  aggregate, and the sample-interval write with its read-back check.
- **Python layer** (`src/pywlmio/pywlmio.py`). Module `Python`: the 129-slot status
  callback registry and its fan-out, the per-node status and info cache, the
  `BH256s` register-record codec, register enumeration, reboot, and the catalog of
  ten device variants with their channel guards.
- **Tools.** Modules `RegTool` and `Args` (`src/tools/regtool.c`), `Firmware`
  (`src/tools/fwupdate.c`), `Monitor` (`src/tools/monitor.c`) and `Modbus`
  (`src/modbusd/main.c`).

`Bytes` and `Types` hold the byte and integer types, the little-endian readers and
writers, and the constants of `src/libwlmio/wlmio.h`. `Bytes.GetLE` plays libcanard's
`canardDSDLGetU*`: it reads little-endian bytes and yields 0 past the end of a
payload.

The device catalog of `pywlmio.py` has ten variants (6010, 6030, 6040, 6050, 6060,
6070, 6080, 6090, 6180, 6190); `Python.Variant` has one constructor for each. A
register reply whose tag is not UINT8, UINT16 or UINT32 is returned raw by
`Python.DecodeReply`; it is not rejected.

The drivers call the library's register access with the corrected node-id guard
(the first Findings row), so their contracts accept node 127, which the source
refuses with -EINVAL.

A multi-register configure submits all of its writes before any reply comes back.
`io.c` queues the three writes one after another, and each completes on its own.
`pywlmio` runs them together with `asyncio.gather`. In `Drivers` the aggregate
accepts the completions in any order. In `Python` the accesses are listed in
submission order; the order in which they complete is not modelled.

Speed codes and `c_cflag` bits in `Modbus` use the Linux termios encodings:
- `B50` = 01 … `B38400` = 017 and `B57600` = 010001 … `B4000000` = 010017, in octal;
- `CSIZE` = 060, `CSTOPB` = 0100, `PARENB` = 0400.

Nothing here executes the original code.

## Model

| member | source | states |
|---|---|---|
| Wire.ValidateRegisterAccess | src/libwlmio/wlmio.c:541-588 | 0 exactly when the tag is at most FLOAT16 and, for a non-empty tag, length times the tag's bit width is at most 2048 (equivalent to the per-type maxima 256/2048/128/64/32); otherwise -EINVAL |
| Wire.ValidatedValueFits | src/libwlmio/wlmio.c:591-592 | an accepted record's value bytes ((length * bit width) >> 3) fit the 256-byte buffer, and its length fits the length field's width |
| Wire.MakeRspSpecifier | src/libwlmio/wlmio.c:407-413 | the remote id in bits 0-6, the transfer id in bits 7-11 and the port from bit 12; below 2^21 |
| Wire.RspSpecifierInjective | src/libwlmio/wlmio.c:407-413 | distinct in-range (remote, transfer id, port) triples give distinct ids |
| Wire.NextTransferId | src/libwlmio/wlmio.c:1128 | the counter advances modulo 32 |
| Wire.RegisterAccessPayloadDecodes | src/libwlmio/wlmio.c:1088-1114 | the request reads back as: name length min(len, 50), the name, the tag, then for a non-empty tag the length in length_width bytes and (length * bit width) >> 3 value bytes |
| Wire.RegisterAccessRequest | src/libwlmio/wlmio.c:1069-1139 | -EINVAL exactly when the node id is above 127, the name is null or empty, neither record is given, or the written record is invalid; otherwise the payload above is queued |
| Wire.RegisterAccessRequestAsWritten | src/libwlmio/wlmio.c:1075-1082 | the source's guard rejects every node id of 127 and above |
| Wire.Node127RegisterAccess | src/libwlmio/wlmio.c:1076 | node 127 is rejected by the source's guard and accepted by the corrected one |
| Wire.ExecuteCommandPayload | src/libwlmio/wlmio.c:1146-1164 | the 16-bit command little-endian, min(param_len, 112) as one byte, then that many parameter bytes; at most 115 bytes |
| Wire.ExecuteCommandRequest | src/libwlmio/wlmio.c:1142-1186 | rejected with -EINVAL exactly when the node id is above 127 or a null parameter has a nonzero length; otherwise the payload is the command, then min(param_len, 112) as one byte, then that many parameter bytes (none for a null parameter); only those bytes of the parameter need exist |
| Wire.RegisterListRequest | src/libwlmio/wlmio.c:1041-1066 | rejected exactly for a node id above 127 or a null name; otherwise the payload is the 16-bit index |
| Wire.GetNodeInfoRequest | src/libwlmio/wlmio.c:994-1020 | rejected exactly for a node id above 127, a null record or a null callback; otherwise the payload is empty |
| Wire.CommandStatus | src/libwlmio/wlmio.c:644-655 | the first payload byte, or SUCCESS for an empty payload |
| Wire.RegisterListName | src/libwlmio/wlmio.c:517-538 | the 51-byte zeroed buffer holds the name bytes after the length byte, and its last byte is 0 |
| Wire.RegisterListRoundTrip | src/libwlmio/wlmio.c:517-538 | a name of at most 50 bytes sent by a node arrives NUL-padded to 51 bytes |
| Wire.DecodeHeartbeat | src/libwlmio/wlmio.c:705-715 | uptime from 32 bits, health from 2 bits, mode from 3 bits, vendor status from byte 6 |
| Wire.HeartbeatRoundTrip | src/libwlmio/wlmio.c:705-715 | every status with health < 4 and mode < 8 survives encode then decode |
| Responses.ParseNodeInfo | src/libwlmio/wlmio.c:416-514 | 0 or -EPROTO; -EPROTO exactly when the payload is non-empty and its name length is above 50, its CRC presence byte above 1 or its certificate length above 222 (InfoMalformed); the record starts zeroed (an empty payload gives the zero record); revision and unique id are read even on error; the CRC flag is set only when the presence byte is 1; the name stays NUL-terminated |
| Responses.ParseNodeInfoShape | src/libwlmio/wlmio.c:425-510 | for in-range name, CRC and certificate lengths, no error and exactly the record the fields spell out (InfoFields): versions, revision, unique id, the clamped name, the CRC when present, the certificate, and the flags CRC iff crc_present == 1 and CERTIFICATE iff coa_len > 0 |
| Responses.NodeInfoRoundTrip | src/libwlmio/wlmio.c:425-510 | every well-formed GetInfo response decodes without error to its contents |
| Responses.ParseRegisterAccess | src/libwlmio/wlmio.c:595-641 | the tag is byte 8 and the length follows in length_width bytes, then the value; -ENOENT iff the tag is EMPTY, 0 iff the record is valid and non-empty, else -EPROTO |
| Responses.AccessResponseCopyAsWritten | src/libwlmio/wlmio.c:611-625 | as written: a tag of 15 or more indexes past the 15-entry width table, and otherwise the copy takes every remaining payload byte |
| Responses.AccessResponseOverrun | src/libwlmio/wlmio.c:611-625 | a 267-byte INT64 response makes the source copy 257 bytes into the 256-byte value; tag 15 is read outside the table |
| Responses.AccessRoundTrip | src/libwlmio/wlmio.c:595-641 | a valid non-empty record sent by a node arrives with r == 0, its tag, its length and its value bytes |
| Library.TimerSpecOf | src/libwlmio/wlmio.c:226-229 | the seconds and nanoseconds stand for exactly the timeout, with nanoseconds below 10^9 |
| Library.FindFd | src/libwlmio/wlmio.c:56-68 | the first entry watching the descriptor, or none when no entry does |
| Library.ScanTimers | src/libwlmio/wlmio.c:658-686 | the first node among 0..bound-1 whose timer is the descriptor, or none |
| Library.Node127TimeoutMissed | src/libwlmio/wlmio.c:662-668 | with node 127's timer firing, the source's scan over 0..126 finds no node, while the full scan finds 127 |
| Library.PinsValueBits | src/libwlmio/wlmio.c:125-143 | bit k of the node id is the level of GPIO line 21+k |
| Library.NodeIdFits | src/libwlmio/wlmio.c:125-143 | seven lines give a node id of at most 127 |
| Library.Wlmio.constructor | src/libwlmio/wlmio.c:40-41 | the static state before initialisation: empty lists, zero transfer ids |
| Library.Wlmio.FdAdd | src/libwlmio/wlmio.c:88-119 | the new entry is appended at the tail, and the rest keeps its order |
| Library.Wlmio.FdFind | src/libwlmio/wlmio.c:56-68 | the loop returns the first entry watching the descriptor |
| Library.Wlmio.FdClose | src/libwlmio/wlmio.c:71-85 | exactly the given entry is unlinked, and the rest keeps its order |
| Library.Wlmio.AsyncAdd | src/libwlmio/wlmio.c:209-276 | -ENOMEM or the system's error with nothing changed; on success the request and a timer entry armed with the timeout are appended at the tails; the list invariant is kept |
| Library.Wlmio.AsyncRemoveEntry | src/libwlmio/wlmio.c:159-190 | exactly that request and its timer entry are unlinked, and the rest keeps its order |
| Library.Wlmio.AsyncComplete | src/libwlmio/wlmio.c:300-314 | the first request with the id has its callback invoked once with r and is then removed; without one nothing changes |
| Library.Wlmio.AsyncGetParam | src/libwlmio/wlmio.c:317-335 | -EINVAL without an out-pointer, -ENOENT when no request has the id, else the first matching request's buffer |
| Library.Wlmio.AsyncHandler | src/libwlmio/wlmio.c:193-206 | the request owning the expired timer gets -ETIMEDOUT and is removed with its timer |
| Library.Wlmio.Init | src/libwlmio/wlmio.c:833-913 | the node id comes from the GPIO lines; every node is offline with no timer; the CAN socket entry is registered; the result is 0 iff the socket opened |
| Library.Wlmio.Heartbeat | src/libwlmio/wlmio.c:689-750 | an empty or anonymous heartbeat changes nothing; otherwise the node's entry becomes the decoded status, the callback sees the old and new status, and the timer is dropped when offline or armed when online |
| Library.Wlmio.FollowTimer | src/libwlmio/wlmio.c:717-734 | the node's timer follows its mode: an offline node with a timer has it closed and its entry removed, an online node without one gets a new entry, and otherwise nothing changes |
| Library.Wlmio.DropTimer | src/libwlmio/wlmio.c:718-722 | the node's timer entry is unlinked and its timer cleared |
| Library.Wlmio.ArmTimer | src/libwlmio/wlmio.c:725-735 | a timeout entry for the node's new timer is appended |
| Library.Wlmio.HeartbeatTimeout | src/libwlmio/wlmio.c:658-686 | the node whose timer fired (searching all 128 ids) is reset to {0, NOMINAL, OFFLINE, 0}, its timer entry removed, and the callback sees the change |
| Library.Wlmio.SetStatusCallback | src/libwlmio/wlmio.c:1189-1192 | the status callback is set or cleared |
| Library.Wlmio.SetTimeout | src/libwlmio/wlmio.c:1023-1026 | later requests use the new timeout |
| Library.Wlmio.GetNodeId | src/libwlmio/wlmio.c:1201-1205 | the id read from the GPIO lines at initialisation |
| Library.Wlmio.GetNodeInfo | src/libwlmio/wlmio.c:994-1020 | a rejected request changes nothing; otherwise one GetInfo transfer is queued with the node's transfer id, which advances, and the request is registered under its response id |
| Library.Wlmio.RegisterList | src/libwlmio/wlmio.c:1041-1066 | the same for List requests |
| Library.Wlmio.RegisterAccess | src/libwlmio/wlmio.c:1069-1139 | the same for Access requests, with the corrected node-id guard |
| Library.Wlmio.ExecuteCommand | src/libwlmio/wlmio.c:1142-1186 | the same for commands; a failed payload allocation gives -ENOMEM with nothing queued |
| Library.Wlmio.OnGetInfoResponse | src/libwlmio/wlmio.c:416-514 | an unknown response id changes nothing; otherwise the request's buffer gets the parsed record and the request completes with the parse status |
| Library.Wlmio.OnRegisterListResponse | src/libwlmio/wlmio.c:517-538 | the request's buffer gets the 51-byte name and the request completes with 0 |
| Library.Wlmio.OnRegisterAccessResponse | src/libwlmio/wlmio.c:595-641 | the request's buffer gets the decoded record in every case and the request completes with 0, -ENOENT or -EPROTO |
| Library.Wlmio.OnExecuteCommandResponse | src/libwlmio/wlmio.c:644-655 | the request completes with the command status |
| Library.Wlmio.OnTransfer | src/libwlmio/wlmio.c:753-791 | a heartbeat message (cut to 7 bytes) has exactly heartbeat_handler's effect, leaving the pending requests alone; a GetInfo, List, Access or ExecuteCommand response (cut to its extent) has exactly its handler's effect (HeartbeatSeen, InfoAnswered, ListAnswered, AccessAnswered, CommandAnswered), leaving node statuses and timers alone; any other transfer changes nothing |
| Drivers.ChannelName | src/libwlmio/io.c:417-441 | the register name is "ch", the digit ch+1, ".", then the field |
| Drivers.ChannelNameInjective | src/libwlmio/io.c:417-441 | different channels or fields give different register names |
| Drivers.UInt8Record | src/libwlmio/io.c:410-413 | a valid one-element UINT8 record holding the value |
| Drivers.UInt16Record | src/libwlmio/io.c:238-242 | a valid one-element UINT16 record holding the value little-endian |
| Drivers.Vpe6030Write | src/libwlmio/io.c:73-109 | -EINVAL exactly for node > 127 (the corrected guard) or ch > 3, with nothing queued; otherwise a write of 0 or 1 to "ch{n}.output" |
| Drivers.Vpe6040Configure | src/libwlmio/io.c:186-220 | -EINVAL exactly for node > 127 (the corrected guard), ch > 3, mode > 2 or no callback; otherwise the mode is written to "ch{n}.mode" |
| Drivers.OutputWrite | src/libwlmio/io.c:223-257 | the 6050 and 6070 16-bit output writes: -EINVAL exactly for node > 127 (the corrected guard), ch > 3 or no callback; otherwise the value is written to "ch{n}.output" |
| Drivers.Vpe6050Configure | src/libwlmio/io.c:260-294 | -EINVAL exactly for node > 127 (the corrected guard), ch > 3, mode > 1 or no callback; otherwise the mode is written |
| Drivers.Vpe6090Configure | src/libwlmio/io.c:888-931 | -EINVAL exactly for node > 127 (the corrected guard), ch > 5, no callback or a type above the maximum; otherwise the type is written to "ch{n}.type" |
| Drivers.ChannelRead | src/libwlmio/io.c:144-183 | the 6040, 6060, 6080, 6090 and 6180 reads: -EINVAL exactly for node > 127 (the corrected guard), a channel out of range (4, 4, 8, 6, 8 channels), no output or no callback, with no context; otherwise "ch{n}.input" is read into the driver's context, which keeps the caller's callback and argument for the read callback |
| Drivers.Vpe6010Read | src/libwlmio/io.c:50-70 | -EINVAL exactly for node > 127 (the corrected guard) or no output, with no context; otherwise "input" is read, and the context keeps the caller's callback and argument for the read callback |
| Drivers.ReadResult | src/libwlmio/io.c:121-141 | a negative result passes through; a reply of another type or shorter than the minimum gives -EPROTO; otherwise 0 |
| Drivers.Vpe6010ReadCallback | src/libwlmio/io.c:22-47 | on success the six members are filled from the 2-byte slots 0, 2, 4, 6, 8, 10 in order; on failure the output is untouched; the user callback gets the result |
| Drivers.U16ReadCallback | src/libwlmio/io.c:121-141 | on success the output is the first 16-bit value, otherwise untouched |
| Drivers.Vpe6060ReadAsWritten | src/libwlmio/io.c:306-326 | as written: only the two low bytes of the UINT32 value reach the output |
| Drivers.Vpe6060ReadTruncates | src/libwlmio/io.c:319 | a count of 65536 reaches the caller as 0 |
| Drivers.Vpe6060ReadCallback | src/libwlmio/io.c:306-326 | corrected: on success the output is the full 32-bit value |
| Drivers.U16ReadDelivers | src/libwlmio/io.c:121-141 | a node answering with a one-element UINT16 record of v delivers v |
| Drivers.Vpe6010ReadDelivers | src/libwlmio/io.c:22-47 | a node answering with six UINT16 values delivers them in order |
| Drivers.FirstFailure | src/libwlmio/io.c:381-395 | the first negative result, or 0 when none is negative |
| Drivers.AggregateReportsOnce | src/libwlmio/io.c:381-395 | nothing is reported after two completions; after the third, the first failure is reported exactly once and the aggregate is freed |
| Drivers.AggregateCancelled | src/libwlmio/io.c:381-395 | with one submission cancelled, the report comes after two completions |
| Drivers.Aggregate.constructor | src/libwlmio/io.c:402-407 | counter, cancelled and result start at 0 |
| Drivers.Aggregate.Complete | src/libwlmio/io.c:381-395 | a completion is counted, the first failure kept, and the user callback fires when counter + cancelled reaches 3 |
| Drivers.ConfigureWrite | src/libwlmio/io.c:446-451 | one write of a configure call is queued and registered with the aggregate as context |
| Drivers.ConfigureThree | src/libwlmio/io.c:446-469 | the three writes are queued in order |
| Drivers.Vpe6060Configure | src/libwlmio/io.c:398-475 | -EINVAL exactly for node > 127 (the corrected guard), ch > 3, mode > 2, polarity > 1, bias > 2 or no callback; otherwise mode, polarity and bias are written in that order under one fresh aggregate |
| Drivers.Vpe6080Configure | src/libwlmio/io.c:632-736 | -EINVAL exactly for node > 127 (the corrected guard), ch > 7 or no callback; otherwise enabled (as 0 or 1), beta and t0 are written under one fresh aggregate |
| Drivers.SetSampleInterval | src/libwlmio/io.c:778-803 | -EINVAL exactly for node > 127 (the corrected guard) or no callback, with no context; otherwise the interval is written and read back, and the context holds the callback, its argument and (corrected) the interval sent |
| Drivers.SampleIntervalResult | src/libwlmio/io.c:748-775 | the context's callback and argument are called; a negative result passes through; a read-back that is not one UINT16 gives -ENOTSUP; -EBADE iff the value differs from the context's interval |
| Drivers.SampleIntervalEcho | src/libwlmio/io.c:755-770 | with the interval recorded in the context, a node that keeps the interval confirms it with 0; one that keeps another value gives -EBADE |
| Drivers.SampleIntervalEchoAsWritten | src/libwlmio/io.c:764-789 | as written the context's interval is never set: an exact echo of the written interval gives -EBADE whenever the field holds another value |
| Python.DecodeStatus | src/pywlmio/pywlmio.py:34-35 | unpack("IBBB0L"): uptime from 4 little-endian bytes, then health, mode and vendor status |
| Python.StatusRoundTrip | src/pywlmio/pywlmio.py:34-35 | the library's status bytes decode to the status |
| Python.IdCheck | src/pywlmio/pywlmio.py:17 | AssertionError unless the id is None or 0..127 |
| Python.Slot | src/pywlmio/pywlmio.py:19-22 | an int id selects its own slot and None the wildcard slot 128 |
| Python.Registry.constructor | src/pywlmio/pywlmio.py:14 | 129 empty slots |
| Python.Registry.Register | src/pywlmio/pywlmio.py:16-22 | for a valid id and a coroutine, the callback is added to the slot (a repeat leaves one entry); otherwise AssertionError and no change |
| Python.Registry.Unregister | src/pywlmio/pywlmio.py:25-30 | for a valid id the callback is discarded from the slot (absent is no error); otherwise AssertionError and no change |
| Python.Registry.Dispatch | src/pywlmio/pywlmio.py:33-41 | one invocation with (old, new) per callback of the node's slot, each once, then one with (id, old, new) per callback of slot 128; no other slot is touched |
| Python.FanOut | src/pywlmio/pywlmio.py:37-41 | each callback of the set exactly once, with the same arguments |
| Python.StripNuls | src/pywlmio/pywlmio.py:136 | rstrip("\0"): the longest prefix that does not end in NUL, with only NULs after it |
| Python.StripPadded | src/pywlmio/pywlmio.py:136 | a name that does not end in NUL, padded with NULs, strips back to itself |
| Python.InfoImage | src/libwlmio/wlmio.h:126-137 | struct wlmio_node_info in memory: 328 bytes |
| Python.DecodeInfo | src/pywlmio/pywlmio.py:130-136 | Struct("6BQ16s51sQ222s0L"): versions from bytes 0-5, revision at 8, unique id at 16, name at 32 stripped, CRC at 88 |
| Python.InfoImageDecodes | src/pywlmio/pywlmio.py:130-136 | what the library stored reaches Python field for field, with the name stripped |
| Python.Node.constructor | src/pywlmio/pywlmio.py:109-113 | no status and no info |
| Python.Node.GetInfo | src/pywlmio/pywlmio.py:121-138 | cached info is returned without a fetch; otherwise one fetch: a negative status raises InternalError(-status), else the decoded info is cached and returned |
| Python.Node.OnStatus | src/pywlmio/pywlmio.py:140-155 | the status becomes the new one; info is cleared iff the new mode is 7, the old mode (the argument) was 7 and the new is not, or the uptime decreased; otherwise unchanged; is_online afterwards iff the new mode is not 7 |
| Python.NewNode | src/pywlmio/pywlmio.py:108-114 | ids outside 0..127 are refused; otherwise a node that is not online, with its callback registered in its slot |
| Python.ElementWidth | src/pywlmio/pywlmio.py:166-174 | UINT32, UINT16 and UINT8 pack as 4, 2 and 1 bytes, every other tag as nothing |
| Python.EncodeRecord | src/pywlmio/pywlmio.py:157-176 | None type or value gives EMPTY with length 0; UINT8/16/32 give the count and the values packed contiguously, with struct.error for a value that does not fit; other tags give length 0; 260 bytes with a zero pad byte |
| Python.DecodeReply | src/pywlmio/pywlmio.py:180-189 | UINT8/16/32 replies give exactly `length` values from the first length * width bytes, or struct.error when those bytes exceed the payload; other tags come back raw |
| Python.RecordRoundTrip | src/pywlmio/pywlmio.py:157-189 | decode(encode(t, vs)) == (t, vs) for UINT8, UINT16 and UINT32 values that fit |
| Python.RegisterAccessResult | src/pywlmio/pywlmio.py:177-180 | a negative status raises InternalError(-status); otherwise the reply is decoded |
| Python.ListRegisters | src/pywlmio/pywlmio.py:191-202 | indices 0, 1, … are requested in order, at most 65535; the names collected are the replies up to the first empty one, in index order; a failed request raises TypeError |
| Python.ListedNameRoundTrip | src/pywlmio/pywlmio.py:196-200 | a register name of at most 50 bytes reaches Python unchanged |
| Python.Reboot | src/pywlmio/pywlmio.py:205-211 | NameError exactly when the extension does not export execute_command; otherwise the parameter `RebootParam` gives |
| Python.RebootAsWritten | src/pywlmio/wlmio.c:324-335 | the extension's method table has no execute_command, so every reboot raises NameError |
| Python.RebootParam | src/pywlmio/pywlmio.py:205-211 | corrected, with execute_command available: no parameter without a delay; otherwise the delay packed as "H", or struct.error outside 0..65535 |
| Python.RebootPayload | src/pywlmio/pywlmio.py:205-211 | corrected: the request is command 65535 followed by that parameter |
| Python.ProductName | src/pywlmio/pywlmio.py:234-236 | "com.widgetlords.mio." followed by the model number |
| Python.ProductNamesDistinct | src/pywlmio/pywlmio.py:234-260 | different variants expect different names |
| Python.Accesses | src/pywlmio/pywlmio.py:234-553 | a read issues one EMPTY access to the channel's register; writes and configures issue at most three accesses |
| Python.AccessesOnChannel | src/pywlmio/pywlmio.py:262-540 | every access of a channel operation (other than on the 6010) names a register "ch<n>." of that channel |
| Python.AccessesDistinct | src/pywlmio/pywlmio.py:365-440 | no channel operation touches the same register twice, including the three-write configures of the 6060 and 6080 |
| Python.AccessesWriteValue | src/pywlmio/pywlmio.py:262-399 | a read sends no value; a channel write exists exactly for the 6030, 6050 and 6070 and sends just its value, tagged with the type the channel's read returns |
| Python.AccessesConfigureArguments | src/pywlmio/pywlmio.py:297-540 | a channel configure that writes anything writes each of its arguments exactly once (as a multiset; the 6060 in bias, polarity, mode order) |
| Python.AccessesUseChannelRegisters | src/pywlmio/pywlmio.py:257-540 | the registers touched are those the channel class declares in its constructor (`ChannelRegisters`): read and write use the main register, and a configure writes exactly the configuration registers in declaration order, beta and t0 as UINT16 and the rest as UINT8 |
| Python.ChannelGuard | src/pywlmio/pywlmio.py:214-231 | a call with arguments the channel's method does not take raises TypeError (a value for the inherited write, arguments for the inherited configure); the argument asserts run next; then a failed info fetch raises its error, and a name other than the channel's raises WrongNode(expected, actual); no access happens before either |
| Python.ReadValue | src/pywlmio/pywlmio.py:238-271 | the asserted reply type, then all values (6010) or the first value; an error or another type raises |
| Python.ChannelReadDelivers | src/pywlmio/pywlmio.py:267-271 | a node answering a read with a record of the expected type delivers its value |
| Python.NodeConfigure | src/pywlmio/pywlmio.py:491-554 | a node configure goes ahead exactly when ch1's name check passes (raising its error otherwise); the 6090 then writes nothing, every other variant writes the interval as UINT16 "sample_interval" |
| Python.NodeConfigureCarriesInterval | src/pywlmio/pywlmio.py:544-554 | the UINT16 record a matching node configure encodes decodes back to the interval |
| Args.NodeIdAsWritten | src/tools/regtool.c:95-107 | as written: the number is stored in a uint8_t, then checked against 127 |
| Args.NodeIdTruncates | src/tools/regtool.c:95-107 | 383 passes as node 127, 256 as node 0 and -129 as node 127 |
| Args.NodeIdArg | src/tools/regtool.c:103-107 | corrected: accepted exactly for 0..127, with the id the number itself |
| RegTool.ModeOf | src/tools/regtool.c:83-90 | argc 2 selects dump, 3 read and 5 or more write; any other count is a usage error |
| RegTool.TypeAsWritten | src/tools/regtool.c:118-124 | as written: the type is stored in a uint8_t before the 1..14 check |
| RegTool.TypeTruncates | src/tools/regtool.c:118-124 | 257 passes as STRING and 267 as UINT8 |
| RegTool.TypeArg | src/tools/regtool.c:118-124 | corrected: an accepted type is a number in 1..14 |
| RegTool.NameBuffer | src/tools/regtool.c:112-113 | at most 50 characters in a zeroed 51-byte buffer, so it ends in NUL |
| RegTool.ParseValueStoresAsWritten | src/tools/regtool.c:40-78 | as written, for UINT8 and UINT16: an invalid number is the usage exit; otherwise every value, truncated to the width, is stored from byte 0 with no bound (value i at byte i, or low then high byte at 2i, 2i+1); other types store nothing |
| RegTool.PackLEPacks | src/tools/regtool.c:40-78 | packing values that fit the width lays them out as the two loops store them |
| RegTool.ParseValueOverruns | src/tools/regtool.c:42-58 | with 257 UINT8 values the last one, truncated, is stored at byte 256, past the 256-byte value |
| RegTool.ParseValueOverrunsUInt16 | src/tools/regtool.c:60-76 | with 129 UINT16 values the last one's low and high bytes are stored at bytes 256 and 257 |
| RegTool.RecordBuffer.constructor | src/tools/regtool.c:30 | the zero-initialised global record |
| RegTool.RecordBuffer.ParseValue | src/tools/regtool.c:40-78 | UINT8 value i at byte i and UINT16 value i at bytes 2i, 2i+1, truncated to the width, and the length set to the count; the bytes after are untouched; other types leave the record unchanged; corrected to refuse values past 256 bytes |
| RegTool.RecordBuffer.FillUInt8 | src/tools/regtool.c:42-59 | value i is stored at byte i |
| RegTool.RecordBuffer.FillUInt16 | src/tools/regtool.c:60-77 | value i is stored at bytes 2i and 2i+1, low byte first |
| RegTool.PacksDecode | src/tools/regtool.c:40-78 | the stored values unpack to themselves |
| RegTool.ParsedWriteDecodes | src/tools/regtool.c:240-243 | a parsed write record passes the library's validation and its value bytes read back as the truncated arguments |
| RegTool.RegTool.constructor | src/tools/regtool.c:27-30 | the globals start empty |
| RegTool.RegTool.ParseArguments | src/tools/regtool.c:81-128 | usage on a bad count or node id; a range exit for ids outside 0..127; sets mode, node id and name; in write mode the type and values are accepted exactly when valid, and the record is built from them |
| RegTool.WriteRecordValid | src/tools/regtool.c:118-127 | every record write mode sends passes the library's validation |
| RegTool.DumpRegisters | src/tools/regtool.c:191-217 | indices 0, 1, … are listed and read in order, each printed once; stops at the first list error, empty name or read error, or after index 65535 |
| RegTool.ReportAccess | src/tools/regtool.c:220-257 | an error for r < 0; "not present" iff the reply is EMPTY; otherwise the record is printed |
| RegTool.EmptyReplyIsAccessError | src/tools/regtool.c:230-234 | behind the library, "not present" never happens: an EMPTY reply already fails with -ENOENT |
| Firmware.CheckSetup | src/tools/fwupdate.c:142-191 | in order: -1 unless argc is 3, for a read of 0 or fewer bytes, above 0x38000 bytes, or a node id that is not 0..127 (checked on the number); otherwise ready with the image length and node id |
| Firmware.CheckSetupAsWritten | src/tools/fwupdate.c:178-191 | as written: the node id is stored in a uint8_t before the range check |
| Firmware.SetupTruncates | src/tools/fwupdate.c:180-187 | node id 383 serves node 127 as written, and is refused when corrected |
| Firmware.BeginUpdate | src/tools/fwupdate.c:209-224 | an ExecuteCommand request to the node with transfer id 0 |
| Firmware.BeginUpdateEncodes | src/tools/fwupdate.c:210-224 | {0xFD, 0xFF, 0x01, 0x2F} is the library's encoding of BEGIN_SOFTWARE_UPDATE with parameter "/" |
| Firmware.GetNodeId | src/tools/fwupdate.c:68-86 | a failed read passes its status through; otherwise the sum of values[i] * 2^i, which is at most 127 |
| Firmware.PinsSum | src/tools/fwupdate.c:76-85 | the OR of shifted levels equals the library's pin value |
| Firmware.ChunkSize | src/tools/fwupdate.c:245-251 | 0 when the offset is at or past the image end, otherwise min(256, length - offset) |
| Firmware.ChunkAt | src/tools/fwupdate.c:245-254 | the image bytes at the offset |
| Firmware.ReadResponse | src/tools/fwupdate.c:241-258 | error code 0, the 16-bit size, then the chunk; 4 + size bytes |
| Firmware.Serve | src/tools/fwupdate.c:226-264 | a request with an empty payload is skipped; otherwise the reply goes to the node being updated on the request's port with the request's transfer id, and its payload (the zeroed 260-byte buffer filled in place) is the response for the 40-bit offset |
| Firmware.DownloadReproduces | src/tools/fwupdate.c:244-254 | reading from offset 0 and advancing by each size reproduces the image exactly |
| Firmware.DownloadEnds | src/tools/fwupdate.c:245-247 | at the image end the reply carries no data |
| Monitor.HealthName | src/tools/monitor.c:10-29 | 0..3 name NOMINAL, ADVISORY, CAUTION and WARNING; everything else is UNKNOWN |
| Monitor.ModeName | src/tools/monitor.c:32-54 | 0, 1, 2, 3 and 7 name their modes; everything else is UNKNOWN |
| Monitor.SplitUptime | src/tools/monitor.c:95-98 | days * 86400 + hours * 3600 + minutes * 60 + seconds == uptime, with hours < 24, minutes < 60, seconds < 60 |
| Monitor.SplitUptimeUnique | src/tools/monitor.c:95-98 | no other split has those bounds |
| Monitor.OnStatus | src/tools/monitor.c:79-110 | offline first, then back online, otherwise the uptime line with the names |
| Monitor.InfoRequests | src/tools/monitor.c:86-92 | exactly one info request, and only when the node comes back online |
| Monitor.OnInfo | src/tools/monitor.c:62-76 | failure for r < 0, otherwise the node's name; the parameter is freed once on both paths |
| Modbus.GetBaud | src/modbusd/main.c:72-167 | each listed speed code gives its rate; B19200 and unlisted codes give 19200; every rate is 50..4000000 |
| Modbus.DefaultIs19200 | src/modbusd/main.c:115-117 | B19200 shares the default's rate |
| Modbus.GetSize | src/modbusd/main.c:170-188 | CS5, CS6 and CS7 give 5, 6 and 7; CS8 and anything else give 8 |
| Modbus.FrameBits | src/modbusd/main.c:191-197 | start bit, data bits, parity bit when enabled, one or two stop bits: 7..12 |
| Modbus.GetByteTime | src/modbusd/main.c:191-198 | floor(1000000 * frame bits / baud); the product is at most 12,000,000 and fits 32 bits; the result is 1..240000 |
| Modbus.ByteTimeNonIncreasing | src/modbusd/main.c:197 | for a fixed frame format, a faster rate never gives a longer byte time |
| Modbus.TransmitWait | src/modbusd/main.c:325-334 | byte time times the 1..256 bytes read, at most 61,440,000 µs, within usleep's 32-bit argument |

## Left out

- CAN socket, epoll, timerfd and GPIO I/O (`uavcan_send`, `receive_transfer`, the socket set-up, `wlmio_tick`, `wlmio_wait_for_event`, `wlmio_shutdown`). The operating system's answers become parameters (`TimerEnv`, the pin levels, `newTimerFd`).
- libcanard itself. `canardTxPush` appends to the `outbox` sequence. The DSDL getters are `Bytes.GetLE` and `Bytes.GetBits`. Transfer reassembly and the truncation to the subscription extents are assumed before `OnTransfer`.
- Python asyncio: tasks, futures, the per-node lock and `init`. Dispatch returns the ordered list of invocations; the lock becomes one fetch at a time, counted in `fetches`.
- `Node.__del__`. Destructor timing cannot be modelled. It also unregisters with the builtin `id` rather than the node's id.
- The CPython extension in `src/pywlmio/wlmio.c`, apart from the names its method table exports (`Python.EXTENSION_FUNCTIONS`), and the busy-wait wrappers of `src/libwlmio/sync.c`. The wrappers are assumed to pass the callback's status through, as they do.
- UTF-8 decoding of names in Python. Names stay bytes, compared byte for byte.
- Python native struct widths. `L` is taken as 4 bytes.
- Floating point: the VPE6080 `t0` (modelled as an integer hundredths value) and regtool's FLOAT printing.
- Python.ArityOk: the VPE6080 channel's configure has defaults for beta (3380) and t0 (298.15); the model takes all three arguments as given and reports a call with fewer as TypeError.
- Output formatting: `print_register`, the printf calls of the tools, and the prompt-driven tools (`6090ccal`, `6070cal`, `6190a_conf`, `infodump`, `factoryreset`, `store`).
- regtool's `main` sequencing and fwupdate's file opening, allocation and receive loop. Only one pass of the loop (`Firmware.Serve`) is modelled.
- The modbusd pty, UART, poll and GPIO loop. `cfgetispeed` and `c_cflag` become parameters.
- Later configure submission failures (the `cancelled += 1` paths of the 6060 and 6080 configure calls). They are unreachable: the three writes share the node id and valid records, and once its argument checks pass `wlmio_register_access` returns 0 whatever `async_add` returns. `Drivers.AggregateCancelled` still states what the aggregate does with a cancellation.
- Library.Wlmio.RegisterList: the callback is always given. The source does not check it; for a null callback `async_add`'s `assert(callback)` (wlmio.c:212) aborts the process after the request was already queued.
- Library.Wlmio.RegisterAccess: the callback is always given, for the same reason as `RegisterList`.
- Library.Wlmio.ExecuteCommand: the callback is always given, for the same reason as `RegisterList`.
- Drivers.Vpe6030Write: the callback is always given. The source passes a null callback on to `wlmio_register_access`, where `async_add` aborts after queuing the write.
- Drivers.Vpe6010Read: the callback is always given. The source stores a null callback in the read context and calls it when the reply arrives.
- `async_add`'s result is ignored by every request builder, as in the source. A timer failure there returns the positive `errno`, modelled as the given `env.errno`.
- The reply buffers of the read drivers come from an unchecked `malloc`. The model assumes the allocation succeeds.
- Drivers.Vpe6030Write: runs over the corrected node-id guard of `Wire.RegisterAccessRequest` (first Findings row). For node 127 the source's `wlmio_register_access` returns -EINVAL (wlmio.c:1076) and queues nothing, so the driver returns -EINVAL; the model accepts node 127 and queues the write.
- Drivers.Vpe6040Configure: runs over the corrected node-id guard of `Wire.RegisterAccessRequest` (first Findings row). For node 127 the source's `wlmio_register_access` returns -EINVAL (wlmio.c:1076) and queues nothing, so the driver returns -EINVAL; the model accepts node 127 and queues the write.
- Drivers.OutputWrite: runs over the corrected node-id guard of `Wire.RegisterAccessRequest` (first Findings row). For node 127 the source's `wlmio_register_access` returns -EINVAL (wlmio.c:1076) and queues nothing, so the driver returns -EINVAL; the model accepts node 127 and queues the write.
- Drivers.Vpe6050Configure: runs over the corrected node-id guard of `Wire.RegisterAccessRequest` (first Findings row). For node 127 the source's `wlmio_register_access` returns -EINVAL (wlmio.c:1076) and queues nothing, so the driver returns -EINVAL; the model accepts node 127 and queues the write.
- Drivers.Vpe6090Configure: runs over the corrected node-id guard of `Wire.RegisterAccessRequest` (first Findings row). For node 127 the source's `wlmio_register_access` returns -EINVAL (wlmio.c:1076) and queues nothing, so the driver returns -EINVAL; the model accepts node 127 and queues the write.
- Drivers.ChannelRead: runs over the corrected node-id guard of `Wire.RegisterAccessRequest` (first Findings row). For node 127 the source's `wlmio_register_access` returns -EINVAL (wlmio.c:1076), so the driver frees its context and returns -EINVAL; the model accepts node 127 and queues the request.
- Drivers.Vpe6010Read: runs over the corrected node-id guard of `Wire.RegisterAccessRequest` (first Findings row). For node 127 the source's `wlmio_register_access` returns -EINVAL (wlmio.c:1076), so the driver frees its context and returns -EINVAL; the model accepts node 127 and queues the request.
- Drivers.SetSampleInterval: runs over the corrected node-id guard of `Wire.RegisterAccessRequest` (first Findings row). For node 127 the source's `wlmio_register_access` returns -EINVAL (wlmio.c:1076), so the driver frees its context and returns -EINVAL; the model accepts node 127 and queues the request.
- Drivers.ConfigureWrite: runs over the corrected node-id guard, so it always returns 0 and queues the write. For node 127 the source's `wlmio_register_access` returns -EINVAL (wlmio.c:1076).
- Drivers.ConfigureThree: runs over the corrected node-id guard, so all three writes are queued for node 127 too. In the source the first write to node 127 already fails.
- Drivers.Vpe6060Configure: runs over the corrected node-id guard. For node 127 the source's first `wlmio_register_access` returns -EINVAL (wlmio.c:1076), so the aggregate is freed and -EINVAL returned (io.c:446-451); the model accepts node 127 and queues the three writes.
- Drivers.Vpe6080Configure: runs over the corrected node-id guard. For node 127 the source's first `wlmio_register_access` returns -EINVAL (wlmio.c:1076), so the aggregate is freed and -EINVAL returned (io.c:706-711); the model accepts node 127 and queues the three writes.
- `WLMIO_VPE6090_TYPE_T`, the bound of the 6090 type, is not defined in `src/libwlmio/wlmio.h`, which declares no 6090 functions. It is the parameter `typeMax`.
- Drivers.Vpe6090Configure: states the type check against `typeMax` rather than a fixed constant, for the reason above.
- Python.Accesses: its own contract states only the shape of a read and a bound of three accesses. The register names, tags and values are stated by the lemmas beside it (`AccessesUseChannelRegisters`, `AccessesWriteValue`, `AccessesConfigureArguments`, `AccessesDistinct`, `AccessesOnChannel`). For the 6010, whose channel has no "ch<n>." registers, only the read is stated.

## Findings

| source | as written | input that shows it | evidently intended | confidence | as-written member | corrected member |
|---|---|---|---|---|---|---|
| src/libwlmio/wlmio.c:1076 | `node_id >= CANARD_NODE_ID_MAX` rejects node 127 | any register access to node 127 | `node_id > CANARD_NODE_ID_MAX`, as in the other requests | not executed | Wire.RegisterAccessRequestAsWritten | Wire.RegisterAccessRequest |
| src/libwlmio/wlmio.c:662-668 | the timeout scan stops at `i < CANARD_NODE_ID_MAX` | node 127's heartbeat timer firing | scan every id 0..127 | not executed | Library.Node127TimeoutMissed | Library.Wlmio.HeartbeatTimeout |
| src/libwlmio/wlmio.c:611-625 | the width table is indexed by the unchecked tag, and all remaining payload bytes are copied into the 256-byte value | an INT64 response of 267 bytes (257 value bytes), or tag 15 | validate the tag first and copy at most 256 bytes | not executed | Responses.AccessResponseOverrun | Responses.ParseRegisterAccess |
| src/tools/regtool.c:96-103 | the node id is stored in a uint8_t before the `> 127` check | node id 383 selects node 127 | check the number itself | not executed | Args.NodeIdTruncates | Args.NodeIdArg |
| src/tools/regtool.c:119-120 | the type is stored in a uint8_t before the 1..14 check | type 257 is taken as STRING | check the number itself | not executed | RegTool.TypeTruncates | RegTool.TypeArg |
| src/tools/regtool.c:40-78 | parse_value stores every value, with no bound on the count | 257 UINT8 values store the last at byte 256 | refuse values that do not fit the 256-byte value | not executed | RegTool.ParseValueStoresAsWritten | RegTool.RecordBuffer.ParseValue |
| src/tools/fwupdate.c:180-187 | the node id is stored in a uint8_t before the `> 127` check | node id 383 updates node 127 | check the number itself | not executed | Firmware.SetupTruncates | Firmware.CheckSetup |
| src/libwlmio/io.c:319 | the 6060 read copies 2 bytes of the UINT32 value into a uint32_t | a count of 65536 reads as 0 | copy all 4 bytes | not executed | Drivers.Vpe6060ReadTruncates | Drivers.Vpe6060ReadCallback |
| src/libwlmio/io.c:764-792 | the context is allocated without its `sample_interval` field being set, and the callback compares the read-back with that field | a node that echoes the written interval while the allocation held another value gets -EBADE | record the interval in the context | not executed | Drivers.SampleIntervalEchoAsWritten | Drivers.SetSampleInterval |
| src/pywlmio/pywlmio.py:209-211 | reboot calls `execute_command`, which the `_wlmio` method table (src/pywlmio/wlmio.c:324-335) does not export | any call of `Node.reboot` | export an `execute_command` wrapper of `wlmio_execute_command` | not executed | Python.RebootAsWritten | Python.RebootParam |
