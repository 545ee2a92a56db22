/** The launcher (run_app.py, lines 5-23): pick the port from the command line, falling
    back to 3000, and build the command line that starts the Streamlit server. */
module Launcher {

  const DefaultPort: string := "3000"
  const PortFlag: string := "--port"

  /** `sys.argv[1:]`: everything after the program name (empty when argv is). */
  function Args(argv: seq<string>): (args: seq<string>)
    ensures |argv| > 0 ==> argv == [argv[0]] + args
    ensures |argv| == 0 ==> args == []
  {
    if |argv| == 0 then [] else argv[1..]
  }

  /** `args[i]` is `--port` and some element follows it. */
  predicate PortFlagAt(args: seq<string>, i: int)
  {
    0 <= i && i + 1 < |args| && args[i] == PortFlag
  }

  /** `port` is the value right after the first `--port` that has one, or the default
      when no `--port` has a value after it. */
  ghost predicate SelectedPort(args: seq<string>, port: string)
  {
    if exists i :: PortFlagAt(args, i) then
      exists i :: PortFlagAt(args, i) && port == args[i + 1] && forall j :: 0 <= j < i ==> !PortFlagAt(args, j)
    else
      port == DefaultPort
  }

  /** The scan of run_app.py lines 7-14, stopping at the first `--port` that has a value.
      Only the arguments after the program name are looked at. */
  method ChoosePort(argv: seq<string>) returns (port: string)
    ensures SelectedPort(Args(argv), port)
  {
    port := DefaultPort;
    var args := Args(argv);
    var i := 0;
    while i < |args|
      invariant 0 <= i <= |args|
      invariant port == DefaultPort
      invariant forall j :: 0 <= j < i ==> !PortFlagAt(args, j)
    {
      if args[i] == PortFlag && i + 1 < |args| {
        port := args[i + 1];
        assert PortFlagAt(args, i);
        return;
      }
      i := i + 1;
    }
    assert forall j :: !PortFlagAt(args, j);
  }

  /** The selected port is unique: the scan leaves no choice. */
  lemma SelectedPortUnique(args: seq<string>, p: string, q: string)
    requires SelectedPort(args, p) && SelectedPort(args, q)
    ensures p == q
  {
  }

  /** Without a `--port` among the arguments, the port is "3000". */
  lemma NoFlagMeansDefault(args: seq<string>, port: string)
    requires PortFlag !in args
    requires SelectedPort(args, port)
    ensures port == DefaultPort
  {
  }

  /** A `--port` in last position, with nothing after it, changes nothing (unless it
      supplies the value of a `--port` before it). */
  lemma {:induction false} TrailingFlagIgnored(args: seq<string>, port: string)
    requires args == [] || args[|args| - 1] != PortFlag
    ensures SelectedPort(args + [PortFlag], port) <==> SelectedPort(args, port)
  {
    var longer := args + [PortFlag];
    assert forall i :: PortFlagAt(longer, i) ==> PortFlagAt(args, i) by {
      forall i | PortFlagAt(longer, i) ensures PortFlagAt(args, i) {
        assert longer[i] == args[i];
      }
    }
    assert forall i :: PortFlagAt(args, i) ==> PortFlagAt(longer, i) && longer[i + 1] == args[i + 1];
  }

  /** The first `--port` with a value decides the port; any later `--port` does not. */
  lemma FirstFlagWins(args: seq<string>, i: nat, rest: seq<string>)
    requires PortFlagAt(args, i)
    requires forall j :: 0 <= j < i ==> !PortFlagAt(args, j)
    ensures SelectedPort(args + rest, args[i + 1])
  {
    var longer := args + rest;
    assert PortFlagAt(longer, i);
    assert forall j :: 0 <= j < i ==> !PortFlagAt(longer, j) by {
      forall j | 0 <= j < i && PortFlagAt(longer, j) ensures false {
        assert PortFlagAt(args, j);
      }
    }
  }

  /** The Streamlit command of run_app.py lines 17-23 for interpreter `executable`. */
  function StreamlitCommand(executable: string, port: string): (cmd: seq<string>)
    ensures |cmd| == 13 && cmd[0] == executable
    ensures cmd[3] == "run" && cmd[4] == "app.py"
    ensures cmd[5] == "--server.port" && cmd[6] == port
  {
    [executable, "-m", "streamlit", "run", "app.py",
     "--server.port", port,
     "--server.address", "0.0.0.0",
     "--server.headless", "true",
     "--browser.gatherUsageStats", "false"]
  }

  /** `main` of run_app.py up to line 23: the port scan followed by the command list. */
  method LaunchCommand(argv: seq<string>, executable: string) returns (cmd: seq<string>)
    ensures exists p :: SelectedPort(Args(argv), p) && cmd == StreamlitCommand(executable, p)
  {
    var port := ChoosePort(argv);
    cmd := StreamlitCommand(executable, port);
  }
}
