# BinaryEpochClock time sync, modelled in Dafny

The BinaryEpochClock is an Arduino clock that keeps Unix time. Its host
script `Firmware/sync_time.py` talks to the clock over a serial line. It
either sets the clock from the host's time or reads the clock's time back.
This project models the host side of that exchange and proves its
properties:

- **Payload codec** (`little_endian.dfy`, module `LittleEndian`). An epoch is
  packed as 4 little-endian bytes and unpacked again. Both directions of the
  round trip are proved, for every epoch in [0, 2^32) and every 4-byte payload.
- **Frames and replies** (`protocol.dfy`, module `Protocol`). The set-time
  frame is `'t'` plus the payload. The get-time request is `"gTIME"`.
  A set succeeds only on a positive write count and the one byte read back
  being `"*"`.
  A get reply decodes to the clock time, to "error retrieving time", or to
  the unpack error the script does not catch.
  The constants `SYNC_LEN` (5), `SYNC_HEADER` (`'t'`) and `GET_HEADER`
  (`'g'`) are the device's own, from `Firmware/BinaryEpochClock/globals.h:126-128`.
  The local-time (DST) offset shift is part of the request builder and the
  reply decoder: `mktime - altzone` on the way out turns UTC seconds into
  local wall-clock seconds, and `+ altzone` on the way back undoes it.
- **Baud parsing** (`py_int.dfy`, module `PyInt`). Python 2's `int()` on a
  byte string, which reads the `-b` argument. Its grammar is white space,
  an optional sign, white space, decimal digits, then white space.
- **Options** (`options.dfy`, module `Options`). The loop over the
  `(option, argument)` pairs that `getopt` returns. It is written twice:
  as the method `ParseOptions`, with the script's three variables and a
  `while` loop, and as the left fold `ApplyOptions` that specifies it.
  The defaults are port `''`, baud 115200 and set mode.
- **Default port** (`ports.dfy`, module `Ports`). The best-guess port rule:
  the last enumerated port on `posix` and `mac`, the first on `nt`, and an
  error on any other system or when no port is enumerated.
- **A whole run** (`session.dfy`, module `Session`). Options, then port
  resolution, then one request and one reply. The serial link is a function
  parameter, `device(port, baud, frame)`, which returns the write count and
  the bytes the device answers with. The script reads one byte of them
  after a set-time frame (`com.read()`, line 155) and at most five after
  `"gTIME"` (`com.read(5)`, line 141); `Session.ReadAtMost` models that.

Bytes are `int`s in 0..255 (`LittleEndian.Byte`). Strings are `seq<char>`.
`mktime(localtime())` and `time.altzone` are integer parameters.

Behaviour of the script that is easy to miss:
- An epoch outside [0, 2^32) raises `struct.error` at line 135. Packing
  happens before the set/get branch, so such an epoch also ends a `--get`
  run (`Protocol.BuildRequest`, `Session.Report.EpochOutOfRange`).
- A reply made of `'t'` and fewer than 4 more bytes raises an uncaught
  `struct.error` at line 145. It is not reported as "error retrieving time"
  (`Protocol.GetReply.UnpackFailed`).
- The script accepts as baud rate any integer `int()` accepts, including
  zero and negative values; it checks no range itself.
- After a set-time frame only one byte is read back, so an acknowledgement
  `'*'` followed by more bytes still counts as success.
- A `-p` with an empty argument counts as no port given (line 103).

## Model

| member | source | states |
|---|---|---|
| `LittleEndian.DecodeEncodeLE` | Firmware/sync_time.py:135 | decoding the k-byte little-endian encoding of any x < 256^k gives x |
| `LittleEndian.EncodeDecodeLE` | Firmware/sync_time.py:145 | every byte string is the encoding, at its own length, of the number it decodes to |
| `LittleEndian.Encode32LE` | Firmware/sync_time.py:135 | the payload of an epoch in [0, 2^32) has 4 bytes, and `b0 + 2^8 b1 + 2^16 b2 + 2^24 b3` equals the epoch |
| `LittleEndian.Decode32LE` | Firmware/sync_time.py:145 | `"<L"` unpacking: the value is below 2^32 and equals `b0 + 2^8 b1 + 2^16 b2 + 2^24 b3` |
| `LittleEndian.PayloadRoundTrip` | Firmware/sync_time.py:134-145 | unpacking a packed epoch returns it, and a payload packs an epoch exactly when it unpacks to that epoch |
| `Protocol.PackEpoch` | Firmware/sync_time.py:135 | `struct.pack("I", e)` succeeds exactly when 0 <= e < 2^32, and then yields the 4-byte little-endian payload |
| `Protocol.BuildRequest` | Firmware/sync_time.py:134-154 | a frame is sent exactly when `mktime - altzone` fits 32 bits; it is 5 bytes; in get mode it is `"gTIME"`; in set mode it is `'t'` followed by the payload of `mktime - altzone` |
| `Protocol.GetRequestIndependentOfTime` | Firmware/sync_time.py:140 | the get-time request is the same for every time and offset, has length 5, and starts with the device's GET header `'g'` |
| `Protocol.SetTimeAcknowledged` | Firmware/sync_time.py:156-159 | set-time succeeds exactly when the write count is positive and the reply is the single byte `'*'`; an empty or any other reply fails |
| `Protocol.DecodeGetReply` | Firmware/sync_time.py:142-151 | "error retrieving time" exactly when the reply is empty or does not start with `'t'`; a time exactly when the reply is `'t'` plus 4 bytes, and then the time minus `altzone` is below 2^32 and packs back to those 4 bytes |
| `Protocol.SetFrameReadsBackAsHostTime` | Firmware/sync_time.py:134-145 | reading a set-time frame as a get reply gives back `mktime` |
| `Protocol.ZeroPayloadReadsAsOffset` | Firmware/sync_time.py:143-145 | the reply `'t' 0 0 0 0` reads as the offset `altzone` itself |
| `PyInt.ParseIntOfDecimalString` | Firmware/sync_time.py:86 | `int()` reads every integer's decimal form, negative ones included, back as that integer |
| `PyInt.NoDigitsNoInt` | Firmware/sync_time.py:85-89 | a `-b` argument with no decimal digit is never accepted as a baud rate |
| `Options.ParseOptions` | Firmware/sync_time.py:72-100 | the script's loop over the options, with its three variables, ends in exactly the outcome of the left fold `ApplyOptions` |
| `Options.StopIsFinal` | Firmware/sync_time.py:88-98 | once an option has ended the loop, later options change nothing |
| `Options.StepOutcome` | Firmware/sync_time.py:80-100 | one option ends the loop exactly when it is `--list` or a non-integer `-b`; otherwise `-p` sets the port, `-b` the baud and `--get` the mode, and nothing else changes |
| `Options.ApplyOptionsCompletes` | Firmware/sync_time.py:72-100 | the loop completes exactly when no option ends it; then the port is the last `-p` argument (default `''`), the baud the last `-b` value (default 115200), and get mode is on exactly when some option is `--get` |
| `Options.ApplyOptionsStopsAtFirstEnd` | Firmware/sync_time.py:84-98 | the first `--list` or bad `-b` decides the exit (the port list, "no ports", or invalid baud), whatever follows it |
| `Ports.ResolvePort` | Firmware/sync_time.py:103-121 | a port is chosen exactly when one was given, or when ports were enumerated on a known system; a given port is used unchanged; no given port and no enumerated port means "cannot find default port"; a guessed port is one of the enumerated devices |
| `Ports.GuessedPort` | Firmware/sync_time.py:106-114 | `nt` guesses the first enumerated port, `posix` and `mac` the last; with a single port every known system picks it |
| `Session.Setup` | Firmware/sync_time.py:72-121 | an option exit ends the run first; once the options complete, setup succeeds exactly when a `-p` was given or ports were enumerated on a known system; with neither a port given nor enumerated it stops with "cannot find default port", and with ports on an unknown system with that system's error; the baud and mode come from the options; the port is the last `-p`, else the first enumerated device on `nt` and the last on `posix` and `mac` |
| `Session.ReadAtMost` | Firmware/sync_time.py:141-155 | a read of at most n bytes returns the first n bytes the device sent, or all of them when it sent fewer |
| `Session.Run` | Firmware/sync_time.py:123-159 | when setup stops, the run reports that exit without consulting the device; once setup succeeds, it ends on the packing error exactly when `mktime - altzone` is outside [0, 2^32); a get run in range reports the decoding of the first five bytes the device answers `"gTIME"` with; success is reported only in set mode, and a time is read only in get mode |
| `Session.NoPortFoundStops` | Firmware/sync_time.py:103-121 | with no port given and no port enumerated, the run ends with "cannot find default port" on every system, before any exchange |
| `Session.InvalidBaudStops` | Firmware/sync_time.py:84-89 | a non-integer `-b`, with no earlier exit, ends the run with the invalid-baud exit before any exchange |
| `Session.SetTimeReport` | Firmware/sync_time.py:152-159 | a set-time run sends `'t'` plus the payload of `mktime - altzone`, and reports success exactly when that write's count is positive and the first byte the device answers with is `'*'`, whatever follows it |
| `Session.SetThenGetRecoversTime` | Firmware/sync_time.py:134-151 | if the device answers `"gTIME"` with the frame it was set with, a get run reports the host time that was sent, whatever the current time |

The functions `PyInt.ParseInt`, `Options.Step`, `Options.ApplyOptions`,
`Options.ListPorts` and `Options.Devices` are definitions without a
contract of their own. They are specified by the rows that state their
properties: `PyInt.ParseIntOfDecimalString` and `PyInt.NoDigitsNoInt` for
`int()`, `Options.StepOutcome` for one option (lines 80-100), and
`Options.ParseOptions`, `Options.ApplyOptionsCompletes`,
`Options.ApplyOptionsStopsAtFirstEnd` and `Options.StopIsFinal` for the
loop and for the port listing it can end with (lines 72-100).

## Left out

- Privilege check and console prompts (lines 8-12): these depend on the environment and use console I/O.
- Download, extraction and installation of pyserial (lines 14-68): network and file I/O.
- `getopt` itself (lines 76-79): a library call. Its output, the list of `(option, argument)` pairs, is the model's input. Its usage error is not modelled.
- Port enumeration (`list_ports.comports()`, lines 91 and 104): it reads the OS device table. The enumerated list is a parameter. Printing the list (lines 95-97) is reduced to the `PortsListed` exit holding the device names.
- Opening, writing, reading and closing the serial port (lines 123-130, 140-141, 154-155, 160): transport I/O. The serial link is the `device` parameter of `Session.Run`. Connection failure (`SerialException`) and the write timeout (`SerialTimeoutException`, lines 161-163) are not modelled. The one-second read timeout is not modelled: what the device answers within it is the `device` result.
- Session.Run: does not model pyserial's constructor rejecting a baud rate of zero or below (line 125) with a `ValueError` the script does not catch; the model's `Run` goes on to consult `device` with that baud, because the library's argument checks are outside this model.
- `time.localtime`, `time.mktime`, `time.strftime` and the printed date strings (lines 132, 147, 153): library time and locale conversion. `int(time.mktime(t))` and `time.altzone` are integer inputs.
- Everything printed to the console: only the outcome each message stands for is modelled.
- Byte order of the `"I"` format: `struct.pack("I", ...)` uses the host's native byte order, and the model fixes it to little-endian. That is the order the script unpacks with (`"<L"`, line 145), and it is the order the device expects. On a big-endian host the script would send the bytes reversed; the model does not capture that case.
- `Firmware/BinaryEpochClock/globals.h` beyond its three sync constants: it only declares Arduino globals, interrupt-shared variables and register macros, and holds no logic.
- The device's side of the protocol: the firmware that answers the frames is not part of this model.
