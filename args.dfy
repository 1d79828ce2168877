/** The command-line numbers the tools share: `strtol(…, 0)` results and the
    node id both regtool and fwupdate parse into a uint8_t. */
module Args {
  import opened Bytes
  import opened Types

  /** One command-line argument: its text, and what `strtol(…, 0)` makes of
      it — None when errno is ERANGE or EINVAL or no digit was consumed. */
  datatype Arg = Arg(text: CString, number: Option<int>)

  /** The node id as written: strtol's long is stored in a uint8_t and only
      then compared with 127. */
  function NodeIdAsWritten(n: int): (id: Option<byte>)
    ensures id.Some? <==> n % 256 <= NODE_ID_MAX
    ensures id.Some? ==> id.value == n % 256
  {
    if n % 256 > NODE_ID_MAX then None else Some(n % 256)
  }

  /** 383 passes the check as node 127, 256 as node 0 and -129 as node 127. */
  lemma NodeIdTruncates()
    ensures NodeIdAsWritten(383) == Some(127) && NodeIdAsWritten(256) == Some(0)
    ensures NodeIdAsWritten(-129) == Some(127)
  {
  }

  /** The id the range check evidently means: accepted exactly when the
      number itself is 0..127, and then unchanged. */
  function NodeIdArg(n: int): (id: Option<byte>)
    ensures id.Some? <==> 0 <= n <= NODE_ID_MAX
    ensures id.Some? ==> id.value == n && NodeIdAsWritten(n) == id
  {
    if 0 <= n <= NODE_ID_MAX then Some(n) else None
  }
}
