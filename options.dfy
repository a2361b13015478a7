/** The script's command-line options, as `getopt` hands them over: a list
    of (option, argument) pairs folded, front to back, over the settings
    port '', baud 115200 and "set the time". `--list` and a `-b` that is not
    an integer end the script on the spot. */
module Options {
  import opened PyInt

  /** One entry of `list_ports.comports()`: device name, description and
      hardware id. */
  datatype PortInfo = PortInfo(device: string, description: string, hwid: string)

  /** The settings the options produce. An empty port means "none given". */
  datatype Config = Config(port: string, baud: int, getTime: bool)

  const DEFAULT_BAUD: int := 115200
  const DEFAULT_CONFIG: Config := Config("", DEFAULT_BAUD, false)

  /** The ways the script ends before it opens a connection. */
  datatype Exit =
    | InvalidBaud(arg: string)           // a `-b` argument that `int()` rejects
    | PortsListed(devices: seq<string>)  // `--list`, with the ports it printed
    | NoPortsToList                      // `--list`, and no port was found
    | NoDefaultPort                      // no port given and none found
    | UnknownSystem(system: string)      // no default-port rule for this `os.name`

  /** A value, or the exit that ended the script instead. */
  datatype Outcome<T> = Ok(value: T) | Stop(exit: Exit)

  /** The device names of the enumerated ports, in order. */
  function Devices(ports: seq<PortInfo>): (r: seq<string>)
    ensures |r| == |ports|
    ensures forall i :: 0 <= i < |ports| ==> r[i] == ports[i].device
  {
    seq(|ports|, i requires 0 <= i < |ports| => ports[i].device)
  }

  /** How `--list` ends the script. */
  function ListPorts(ports: seq<PortInfo>): Exit
  {
    if |ports| == 0 then NoPortsToList else PortsListed(Devices(ports))
  }

  /** One turn of the option loop: the settings after `opt`, or the exit
      it causes. Options `getopt` does not produce are passed over. */
  function Step(c: Config, opt: (string, string), ports: seq<PortInfo>): Outcome<Config>
  {
    var (name, arg) := opt;
    if name == "-p" then Ok(c.(port := arg))
    else if name == "-b" then
      match ParseInt(arg)
      case Some(n) => Ok(c.(baud := n))
      case None => Stop(InvalidBaud(arg))
    else if name == "--list" then Stop(ListPorts(ports))
    else if name == "--get" then Ok(c.(getTime := true))
    else Ok(c)
  }

  /** The option loop as a left fold that stops at the first exit. */
  function ApplyOptions(opts: seq<(string, string)>, ports: seq<PortInfo>): Outcome<Config>
    decreases |opts|
  {
    if |opts| == 0 then Ok(DEFAULT_CONFIG)
    else
      match ApplyOptions(opts[..|opts| - 1], ports)
      case Ok(c) => Step(c, opts[|opts| - 1], ports)
      case Stop(e) => Stop(e)
  }

  /** The option loop as the script runs it: the settings are variables
      that each option updates in turn, and an exit leaves the loop. */
  method ParseOptions(opts: seq<(string, string)>, ports: seq<PortInfo>) returns (r: Outcome<Config>)
    ensures r == ApplyOptions(opts, ports)
  {
    var port, baud, getTime := "", DEFAULT_BAUD, false;
    var i := 0;
    while i < |opts|
      invariant 0 <= i <= |opts|
      invariant ApplyOptions(opts[..i], ports) == Ok(Config(port, baud, getTime))
    {
      var (opt, arg) := opts[i];
      assert opts[..i + 1][..i] == opts[..i];
      assert ApplyOptions(opts[..i + 1], ports) == Step(Config(port, baud, getTime), opts[i], ports);
      if opt == "-p" {
        port := arg;
      } else if opt == "-b" {
        var n := ParseInt(arg);
        if n.None? {
          r := Stop(InvalidBaud(arg));
          StopIsFinal(opts, i + 1, ports);
          return;
        }
        baud := n.value;
      } else if opt == "--list" {
        r := Stop(ListPorts(ports));
        StopIsFinal(opts, i + 1, ports);
        return;
      } else if opt == "--get" {
        getTime := true;
      }
      i := i + 1;
    }
    assert opts[..|opts|] == opts;
    r := Ok(Config(port, baud, getTime));
  }

  /** Once the loop has exited, later options change nothing. */
  lemma {:induction false} StopIsFinal(opts: seq<(string, string)>, k: nat, ports: seq<PortInfo>)
    requires k <= |opts| && ApplyOptions(opts[..k], ports).Stop?
    ensures ApplyOptions(opts, ports) == ApplyOptions(opts[..k], ports)
    decreases |opts|
  {
    if k == |opts| {
      assert opts[..k] == opts;
    } else {
      var init := opts[..|opts| - 1];
      assert init[..k] == opts[..k];
      StopIsFinal(init, k, ports);
    }
  }

  /** The options that end the loop: `--list`, and `-b` with a non-integer. */
  predicate Ends(opt: (string, string))
  {
    opt.0 == "--list" || (opt.0 == "-b" && ParseInt(opt.1).None?)
  }

  /** The argument of the last `-p`, or "" when there is none. */
  function LastPort(opts: seq<(string, string)>): string
  {
    if |opts| == 0 then ""
    else if opts[|opts| - 1].0 == "-p" then opts[|opts| - 1].1
    else LastPort(opts[..|opts| - 1])
  }

  /** The value of the last `-b` that is an integer, or 115200. */
  function LastBaud(opts: seq<(string, string)>): int
  {
    if |opts| == 0 then DEFAULT_BAUD
    else
      var (name, arg) := opts[|opts| - 1];
      if name == "-b" && ParseInt(arg).Some? then ParseInt(arg).value
      else LastBaud(opts[..|opts| - 1])
  }

  /** Some option is `--get`. */
  predicate HasGet(opts: seq<(string, string)>)
  {
    exists i :: 0 <= i < |opts| && opts[i].0 == "--get"
  }

  /** One option, taken on its own: it ends the loop exactly when `Ends`
      says so, and otherwise sets what its name says. */
  lemma StepOutcome(c: Config, opt: (string, string), ports: seq<PortInfo>)
    ensures Step(c, opt, ports).Ok? <==> !Ends(opt)
    ensures Step(c, opt, ports).Ok? ==> Step(c, opt, ports).value == Config(
      if opt.0 == "-p" then opt.1 else c.port,
      if opt.0 == "-b" then ParseInt(opt.1).value else c.baud,
      c.getTime || opt.0 == "--get")
    ensures Step(c, opt, ports).Stop? ==>
      Step(c, opt, ports).exit == if opt.0 == "--list" then ListPorts(ports) else InvalidBaud(opt.1)
  {
  }

  /** The loop runs to the end exactly when no option ends it, and then the
      last `-p` gives the port, the last `-b` the baud rate, and any
      `--get` selects reading the time. With no options these are the
      defaults. */
  lemma {:induction false} ApplyOptionsCompletes(opts: seq<(string, string)>, ports: seq<PortInfo>)
    ensures ApplyOptions(opts, ports).Ok? <==> forall i :: 0 <= i < |opts| ==> !Ends(opts[i])
    ensures ApplyOptions(opts, ports).Ok? ==>
      ApplyOptions(opts, ports).value == Config(LastPort(opts), LastBaud(opts), HasGet(opts))
  {
    if |opts| > 0 {
      var init := opts[..|opts| - 1];
      var last := opts[|opts| - 1];
      ApplyOptionsCompletes(init, ports);
      assert forall i :: 0 <= i < |init| ==> init[i] == opts[i];
      assert HasGet(opts) <==> HasGet(init) || last.0 == "--get" by {
        if HasGet(init) {
          var i :| 0 <= i < |init| && init[i].0 == "--get";
          assert opts[i].0 == "--get";
        }
      }
      match ApplyOptions(init, ports)
      case Stop(_) =>
      case Ok(c) =>
        StepOutcome(c, last, ports);
        assert (forall i :: 0 <= i < |opts| ==> !Ends(opts[i])) <==>
          (forall i :: 0 <= i < |init| ==> !Ends(init[i])) && !Ends(last);
    }
  }

  /** The first option that ends the loop decides the script's exit,
      whatever follows it. */
  lemma ApplyOptionsStopsAtFirstEnd(opts: seq<(string, string)>, k: nat, ports: seq<PortInfo>)
    requires k < |opts| && Ends(opts[k])
    requires forall i :: 0 <= i < k ==> !Ends(opts[i])
    ensures ApplyOptions(opts, ports) ==
      Stop(if opts[k].0 == "--list" then ListPorts(ports) else InvalidBaud(opts[k].1))
  {
    var before := opts[..k];
    assert forall i :: 0 <= i < |before| ==> before[i] == opts[i];
    ApplyOptionsCompletes(before, ports);
    var c := ApplyOptions(before, ports).value;
    StepOutcome(c, opts[k], ports);
    assert opts[..k + 1][..k] == before;
    assert ApplyOptions(opts[..k + 1], ports) == Step(c, opts[k], ports);
    StopIsFinal(opts, k + 1, ports);
  }
}
