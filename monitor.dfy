/** monitor: prints a line for every heartbeat status change, and the name of
    every node that comes online. */
module Monitor {
  import opened Bytes
  import opened Types

  /** health_to_str. */
  function HealthName(health: byte): (name: string)
    ensures health == HEALTH_NOMINAL <==> name == "NOMINAL"
    ensures health == HEALTH_ADVISORY <==> name == "ADVISORY"
    ensures health == HEALTH_CAUTION <==> name == "CAUTION"
    ensures health == HEALTH_WARNING <==> name == "WARNING"
    ensures name == "UNKNOWN" <==> health > HEALTH_WARNING
  {
    if health == HEALTH_NOMINAL then "NOMINAL"
    else if health == HEALTH_ADVISORY then "ADVISORY"
    else if health == HEALTH_CAUTION then "CAUTION"
    else if health == HEALTH_WARNING then "WARNING"
    else "UNKNOWN"
  }

  /** The five modes the heartbeat can report by name. */
  predicate KnownMode(mode: byte)
  {
    mode == MODE_OPERATIONAL || mode == MODE_INITIALIZATION || mode == MODE_MAINTENANCE ||
    mode == MODE_SOFTWARE_UPDATE || mode == MODE_OFFLINE
  }

  /** mode_to_str. */
  function ModeName(mode: byte): (name: string)
    ensures mode == MODE_OPERATIONAL <==> name == "OPERATIONAL"
    ensures mode == MODE_INITIALIZATION <==> name == "INITIALIZATION"
    ensures mode == MODE_MAINTENANCE <==> name == "MAINTENANCE"
    ensures mode == MODE_SOFTWARE_UPDATE <==> name == "SOFTWARE UPDATE"
    ensures mode == MODE_OFFLINE <==> name == "OFFLINE"
    ensures name == "UNKNOWN" <==> !KnownMode(mode)
  {
    if mode == MODE_OPERATIONAL then "OPERATIONAL"
    else if mode == MODE_INITIALIZATION then "INITIALIZATION"
    else if mode == MODE_MAINTENANCE then "MAINTENANCE"
    else if mode == MODE_SOFTWARE_UPDATE then "SOFTWARE UPDATE"
    else if mode == MODE_OFFLINE then "OFFLINE"
    else "UNKNOWN"
  }

  /** An uptime in days, hours, minutes and seconds. */
  datatype Uptime = Uptime(days: nat, hours: nat, minutes: nat, seconds: nat)

  /** status_callback's split, by repeated subtraction of the larger units. */
  function SplitUptime(uptime: u32): (t: Uptime)
    ensures t.days * 86400 + t.hours * 3600 + t.minutes * 60 + t.seconds == uptime
    ensures t.hours < 24 && t.minutes < 60 && t.seconds < 60
  {
    var days := uptime / (24 * 3600);
    var hours := (uptime - days * 24 * 3600) / 3600;
    var minutes := (uptime - days * 24 * 3600 - hours * 3600) / 60;
    var seconds := uptime - days * 24 * 3600 - hours * 3600 - minutes * 60;
    Uptime(days, hours, minutes, seconds)
  }

  /** The split is the only one with those bounds. */
  lemma SplitUptimeUnique(uptime: u32, t: Uptime)
    requires t.days * 86400 + t.hours * 3600 + t.minutes * 60 + t.seconds == uptime
    requires t.hours < 24 && t.minutes < 60 && t.seconds < 60
    ensures SplitUptime(uptime) == t
  {
    var rest := t.hours * 3600 + t.minutes * 60 + t.seconds;
    assert 0 <= rest < 86400;
    assert uptime / 86400 == t.days;
    assert (uptime - t.days * 86400) / 3600 == t.hours;
    assert (uptime - t.days * 86400 - t.hours * 3600) / 60 == t.minutes;
  }

  /** What status_callback does with one status change. */
  datatype Event =
    | WentOffline(nodeId: byte)
    | CameOnline(nodeId: byte)
    | StatusLine(nodeId: byte, uptime: Uptime, health: string, mode: string, vendorStatus: byte)

  /** Offline first, then back-online (which asks for the node's info),
      otherwise the uptime line. */
  function OnStatus(nodeId: byte, before: Status, after: Status): (e: Event)
    ensures e.WentOffline? <==> after.mode == MODE_OFFLINE
    ensures e.CameOnline? <==> after.mode != MODE_OFFLINE && before.mode == MODE_OFFLINE
    ensures e.StatusLine? ==>
      e.uptime == SplitUptime(after.uptime) && e.health == HealthName(after.health) &&
      e.mode == ModeName(after.mode) && e.vendorStatus == after.vendorStatus && e.mode != "OFFLINE"
    ensures e.nodeId == nodeId
  {
    if after.mode == MODE_OFFLINE then WentOffline(nodeId)
    else if before.mode == MODE_OFFLINE then CameOnline(nodeId)
    else StatusLine(nodeId, SplitUptime(after.uptime), HealthName(after.health), ModeName(after.mode), after.vendorStatus)
  }

  /** The node-info requests one status change issues. */
  function InfoRequests(e: Event): (n: nat)
    ensures n <= 1 && (n == 1 <==> e.CameOnline?)
  {
    if e.CameOnline? then 1 else 0
  }

  /** What info_callback prints; in both cases it frees its parameter. */
  datatype InfoReport = InfoFailed(nodeId: byte) | NodeIs(nodeId: byte, name: CString)

  function OnInfo(r: int, nodeId: byte, name: seq<byte>): (rep: (InfoReport, nat))
    ensures rep.1 == 1
    ensures r < 0 <==> rep.0 == InfoFailed(nodeId)
    ensures r >= 0 ==> rep.0 == NodeIs(nodeId, CStringOf(name))
  {
    if r < 0 then (InfoFailed(nodeId), 1) else (NodeIs(nodeId, CStringOf(name)), 1)
  }
}
