/** The host side of the clock's serial time-sync protocol: the frames the
    host sends, and how it reads the device's replies.

      host -> device   't' + 4-byte little-endian epoch    set the clock
      device -> host   '*'                                 time was set
      host -> device   "gTIME"                             ask for the time
      device -> host   't' + 4-byte little-endian epoch    the clock's time

    `mktime(localtime())` is already in UTC seconds. The host shifts it by
    its local daylight-saving offset before packing: it subtracts `altzone`
    (seconds west of UTC under daylight saving), so the device holds local
    wall-clock seconds. After unpacking it adds `altzone` back. */
module Protocol {
  import opened LittleEndian

  /** A sync frame is a 1-byte header plus a 4-byte `time_t`. */
  const SYNC_LEN: nat := 5
  /** Header of a set-time frame and of the device's time reply: 't'. */
  const SYNC_HEADER: Byte := 't' as int
  /** Header of a get-time request: 'g'. */
  const GET_HEADER: Byte := 'g' as int
  /** The device's acknowledgement of a set-time frame: '*'. */
  const ACK: Byte := '*' as int

  /** The get-time request, the ASCII bytes "gTIME". */
  const GET_REQUEST: seq<Byte> := [GET_HEADER, 'T' as int, 'I' as int, 'M' as int, 'E' as int]

  /** What `struct.pack("I", epoch)` yields: the payload, or the
      `struct.error` Python raises for a value outside [0, 2^32). */
  datatype Packed = Payload(data: seq<Byte>) | PackError

  function PackEpoch(epoch: int): (r: Packed)
    ensures r.Payload? <==> 0 <= epoch < UINT32_LIMIT
    ensures r.Payload? ==> r.data == Encode32LE(epoch)
  {
    if 0 <= epoch < UINT32_LIMIT then Payload(Encode32LE(epoch)) else PackError
  }

  /** The epoch the host sends for `mktime`: shifted by the local-time
      (DST) offset. */
  function HostEpoch(mktime: int, altzone: int): int
  {
    mktime - altzone
  }

  /** The set-time frame: the sync header followed by the payload. */
  function SetTimeFrame(data: seq<Byte>): seq<Byte>
  {
    [SYNC_HEADER] + data
  }

  /** The frame the host sends, or the packing error that stops it. The
      payload is packed before the mode is looked at, so an epoch outside
      32 bits stops a get-time run too. */
  datatype Request = Send(frame: seq<Byte>) | PackFailed

  function BuildRequest(getTime: bool, mktime: int, altzone: int): (r: Request)
    ensures r.Send? <==> 0 <= mktime - altzone < UINT32_LIMIT
    ensures r.Send? ==> |r.frame| == SYNC_LEN
    ensures r.Send? && getTime ==> r.frame == GET_REQUEST
    ensures r.Send? && !getTime ==>
      r.frame[0] == SYNC_HEADER && r.frame[1..] == Encode32LE(mktime - altzone)
  {
    match PackEpoch(HostEpoch(mktime, altzone))
    case PackError => PackFailed
    case Payload(data) => if getTime then Send(GET_REQUEST) else Send(SetTimeFrame(data))
  }

  /** The get-time request is the same 5 bytes, starting with the GET
      header, whatever the clock says. */
  lemma GetRequestIndependentOfTime(m1: int, a1: int, m2: int, a2: int)
    requires BuildRequest(true, m1, a1).Send? && BuildRequest(true, m2, a2).Send?
    ensures BuildRequest(true, m1, a1) == BuildRequest(true, m2, a2)
    ensures |BuildRequest(true, m1, a1).frame| == SYNC_LEN
    ensures BuildRequest(true, m1, a1).frame[0] == GET_HEADER
  {
  }

  /** The set-time exchange succeeded: something was written and the
      reply is exactly the one byte '*'. */
  function SetTimeAcknowledged(written: int, reply: seq<Byte>): (ok: bool)
    ensures ok <==> written > 0 && |reply| == 1 && reply[0] == ACK
  {
    written > 0 && reply == [ACK]
  }

  /** How the host reads the device's answer to "gTIME". */
  datatype GetReply =
    | ClockTime(unix: int)  // header 't' and a 4-byte payload, offset added back
    | ErrorRetrieving       // empty reply (IndexError) or another header
    | UnpackFailed          // header 't' but not 4 bytes after it (struct.error)

  function DecodeGetReply(reply: seq<Byte>, altzone: int): (r: GetReply)
    ensures r == ErrorRetrieving <==> |reply| == 0 || reply[0] != SYNC_HEADER
    ensures r.ClockTime? <==> |reply| == SYNC_LEN && reply[0] == SYNC_HEADER
    ensures r.ClockTime? ==>
      0 <= r.unix - altzone < UINT32_LIMIT && Encode32LE(r.unix - altzone) == reply[1..]
  {
    if |reply| == 0 || reply[0] != SYNC_HEADER then ErrorRetrieving
    else if |reply[1..]| != PAYLOAD_LEN then UnpackFailed
    else
      var unix := Decode32LE(reply[1..]) + altzone;
      PayloadRoundTrip(unix - altzone, reply[1..]);
      ClockTime(unix)
  }

  /** Reading back a set-time frame as a time reply recovers the `mktime`
      it was built from: the local-time (DST) offset shift made when
      sending is undone on receipt. */
  lemma SetFrameReadsBackAsHostTime(mktime: int, altzone: int)
    requires BuildRequest(false, mktime, altzone).Send?
    ensures DecodeGetReply(BuildRequest(false, mktime, altzone).frame, altzone) == ClockTime(mktime)
  {
    var f := BuildRequest(false, mktime, altzone).frame;
    PayloadRoundTrip(mktime - altzone, f[1..]);
  }

  /** A time payload of all zero bytes reads as the offset `altzone` itself. */
  lemma ZeroPayloadReadsAsOffset(altzone: int)
    ensures DecodeGetReply([SYNC_HEADER, 0, 0, 0, 0], altzone) == ClockTime(altzone)
  {
  }
}
