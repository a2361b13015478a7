/** Choosing the serial port when none was given: a best guess from the
    enumerated ports that depends on the host's `os.name`. */
module Ports {
  import opened Options

  /** The `os.name` values with a default-port rule. */
  predicate KnownSystem(system: string)
  {
    system == "posix" || system == "nt" || system == "mac"
  }

  /** The port to open: the one given, or a guess from `ports` (the last
      one on "posix" and "mac", the first on "nt"). */
  function ResolvePort(port: string, ports: seq<PortInfo>, system: string): (r: Outcome<string>)
    ensures r.Ok? <==> port != "" || (|ports| > 0 && KnownSystem(system))
    ensures port != "" ==> r == Ok(port)
    ensures port == "" && |ports| == 0 ==> r == Stop(NoDefaultPort)
    ensures port == "" && |ports| > 0 && !KnownSystem(system) ==> r == Stop(UnknownSystem(system))
    ensures port == "" && r.Ok? ==> r.value in Devices(ports)
  {
    if port != "" then Ok(port)
    else if |ports| == 0 then Stop(NoDefaultPort)
    else if system == "posix" then Ok(ports[|ports| - 1].device)
    else if system == "nt" then Ok(ports[0].device)
    else if system == "mac" then Ok(ports[|ports| - 1].device)
    else Stop(UnknownSystem(system))
  }

  /** The guess takes the last enumerated port on "posix" and "mac" and the
      first on "nt"; with one port every known system takes that one. */
  lemma GuessedPort(ports: seq<PortInfo>, system: string)
    requires |ports| > 0 && KnownSystem(system)
    ensures ResolvePort("", ports, system) ==
      Ok(if system == "nt" then ports[0].device else ports[|ports| - 1].device)
    ensures |ports| == 1 ==> ResolvePort("", ports, system) == Ok(ports[0].device)
  {
  }
}
