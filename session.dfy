/** One run of the sync script, from its parsed options to the line it
    reports. The serial link is a parameter: `device(port, baud, frame)`
    is the number of bytes the write reported and the bytes the read
    returned once `frame` was sent. */
module Session {
  import opened LittleEndian
  import opened Protocol
  import opened Options
  import opened Ports
  import opened PyInt

  /** The settings and port the script connects with, or how it ended first. */
  function Setup(opts: seq<(string, string)>, ports: seq<PortInfo>, system: string): (r: Outcome<Config>)
    ensures ApplyOptions(opts, ports).Stop? ==> r == Stop(ApplyOptions(opts, ports).exit)
    ensures ApplyOptions(opts, ports).Ok? ==>
              (r.Ok? <==> LastPort(opts) != "" || (|ports| > 0 && KnownSystem(system)))
    ensures ApplyOptions(opts, ports).Ok? && LastPort(opts) == "" && |ports| == 0 ==>
              r == Stop(NoDefaultPort)
    ensures ApplyOptions(opts, ports).Ok? && LastPort(opts) == "" && |ports| > 0 && !KnownSystem(system) ==>
              r == Stop(UnknownSystem(system))
    ensures r.Ok? ==>
              ApplyOptions(opts, ports).Ok? &&
              r.value.baud == ApplyOptions(opts, ports).value.baud &&
              r.value.getTime == ApplyOptions(opts, ports).value.getTime
    ensures r.Ok? && LastPort(opts) != "" ==> r.value.port == LastPort(opts)
    ensures r.Ok? && LastPort(opts) == "" ==>
              r.value.port == if system == "nt" then ports[0].device else ports[|ports| - 1].device
  {
    match ApplyOptions(opts, ports)
    case Stop(e) => Stop(e)
    case Ok(c) =>
      ApplyOptionsCompletes(opts, ports);
      match ResolvePort(c.port, ports, system)
      case Stop(e) => Stop(e)
      case Ok(p) => Ok(c.(port := p))
  }

  /** `com.read()` after the set-time frame reads pyserial's default of one byte. */
  const SET_REPLY_SIZE: nat := 1
  /** `com.read(5)` after "gTIME" reads at most a whole sync frame. */
  const GET_REPLY_SIZE: nat := SYNC_LEN

  /** What a read of at most `size` bytes returns when `available` is what
      the device sent: its first `size` bytes, or all of it if shorter. */
  function ReadAtMost(available: seq<Byte>, size: nat): (r: seq<Byte>)
    ensures |r| == if |available| < size then |available| else size
    ensures r == available[..|r|]
  {
    if |available| <= size then available else available[..size]
  }

  /** What the script reports at the end of a run. */
  datatype Report =
    | Exited(exit: Exit)     // ended before connecting
    | EpochOutOfRange        // the epoch does not fit 32 bits (struct.error)
    | Synced                 // "Success syncing time!"
    | SyncFailed             // the device did not acknowledge
    | Read(reply: GetReply)  // what a get-time run made of the reply

  /** A whole run. `device(port, baud, frame)` is the write count and the
      bytes the device sends back; the script reads only the first byte of
      them after a set-time frame and the first five after "gTIME". */
  function Run(opts: seq<(string, string)>, ports: seq<PortInfo>, system: string,
               mktime: int, altzone: int,
               device: (string, int, seq<Byte>) -> (int, seq<Byte>)): (r: Report)
    ensures Setup(opts, ports, system).Stop? ==> r == Exited(Setup(opts, ports, system).exit)
    ensures Setup(opts, ports, system).Ok? ==>
              (r == EpochOutOfRange <==> !(0 <= mktime - altzone < UINT32_LIMIT))
    ensures Setup(opts, ports, system).Ok? && Setup(opts, ports, system).value.getTime &&
            0 <= mktime - altzone < UINT32_LIMIT ==>
              var c := Setup(opts, ports, system).value;
              var answer := device(c.port, c.baud, GET_REQUEST).1;
              r == Read(DecodeGetReply(ReadAtMost(answer, GET_REPLY_SIZE), altzone))
    ensures r.Synced? ==> Setup(opts, ports, system).Ok? && !Setup(opts, ports, system).value.getTime
    ensures r.Read? ==> Setup(opts, ports, system).Ok? && Setup(opts, ports, system).value.getTime
  {
    match Setup(opts, ports, system)
    case Stop(e) => Exited(e)
    case Ok(c) =>
      match BuildRequest(c.getTime, mktime, altzone)
      case PackFailed => EpochOutOfRange
      case Send(frame) =>
        var (written, answer) := device(c.port, c.baud, frame);
        if c.getTime then Read(DecodeGetReply(ReadAtMost(answer, GET_REPLY_SIZE), altzone))
        else if SetTimeAcknowledged(written, ReadAtMost(answer, SET_REPLY_SIZE)) then Synced
        else SyncFailed
  }

  /** With no port given and none enumerated, the script stops with
      "cannot find default port" whatever the system, and reaches no device. */
  lemma NoPortFoundStops(opts: seq<(string, string)>, system: string, mktime: int, altzone: int,
                         device: (string, int, seq<Byte>) -> (int, seq<Byte>))
    requires forall i :: 0 <= i < |opts| ==> !Ends(opts[i])
    requires LastPort(opts) == ""
    ensures Setup(opts, [], system) == Stop(NoDefaultPort)
    ensures Run(opts, [], system, mktime, altzone, device) == Exited(NoDefaultPort)
  {
    ApplyOptionsCompletes(opts, []);
  }

  /** A non-integer baud rate stops the script before it connects, as long
      as no earlier option stopped it. */
  lemma InvalidBaudStops(opts: seq<(string, string)>, k: nat, ports: seq<PortInfo>, system: string,
                         mktime: int, altzone: int,
                         device: (string, int, seq<Byte>) -> (int, seq<Byte>))
    requires k < |opts| && opts[k].0 == "-b" && ParseInt(opts[k].1).None?
    requires forall i :: 0 <= i < k ==> !Ends(opts[i])
    ensures Run(opts, ports, system, mktime, altzone, device) == Exited(InvalidBaud(opts[k].1))
  {
    ApplyOptionsStopsAtFirstEnd(opts, k, ports);
  }

  /** A set-time run reports success exactly when the write reported bytes
      sent and the first byte the device answered with is '*'; what follows
      that byte is never read. */
  lemma SetTimeReport(opts: seq<(string, string)>, ports: seq<PortInfo>, system: string,
                      mktime: int, altzone: int,
                      device: (string, int, seq<Byte>) -> (int, seq<Byte>))
    requires Setup(opts, ports, system).Ok? && !Setup(opts, ports, system).value.getTime
    requires 0 <= mktime - altzone < UINT32_LIMIT
    ensures var c := Setup(opts, ports, system).value;
            var (written, answer) := device(c.port, c.baud, [SYNC_HEADER] + Encode32LE(mktime - altzone));
            Run(opts, ports, system, mktime, altzone, device) ==
              if written > 0 && |answer| > 0 && answer[0] == ACK then Synced else SyncFailed
  {
    var c := Setup(opts, ports, system).value;
    var f := BuildRequest(false, mktime, altzone).frame;
    assert f == [SYNC_HEADER] + Encode32LE(mktime - altzone);
  }

  /** A device that answers "gTIME" with the frame it was last set with
      gives the host back the time it sent, with the same `altzone`. */
  lemma SetThenGetRecoversTime(opts: seq<(string, string)>, ports: seq<PortInfo>, system: string,
                               mktime: int, altzone: int, later: int,
                               device: (string, int, seq<Byte>) -> (int, seq<Byte>))
    requires Setup(opts, ports, system).Ok? && Setup(opts, ports, system).value.getTime
    requires 0 <= mktime - altzone < UINT32_LIMIT && 0 <= later - altzone < UINT32_LIMIT
    requires var c := Setup(opts, ports, system).value;
             device(c.port, c.baud, GET_REQUEST).1 == BuildRequest(false, mktime, altzone).frame
    ensures Run(opts, ports, system, later, altzone, device) == Read(ClockTime(mktime))
  {
    SetFrameReadsBackAsHostTime(mktime, altzone);
  }
}
