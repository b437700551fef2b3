/**
  `VagrantController` (vagrant.py:100-231): the argument lists it hands to the
  `vagrant` executable and its `status` query, which reads the lines of the
  `vagrant status` output and returns either every machine's state or one of them.
*/
module Controller {
  import opened Wrappers
  import opened Text
  import opened StatusOutput

  // ---------------------------------------------------------------------------
  // Argument lists (vagrant.py:123-175, 186)
  // ---------------------------------------------------------------------------

  /** `[vm]` when `vm` is truthy, nothing otherwise (`if vm: args += [vm]`). */
  function MachineArg(vm: Option<string>): (r: seq<string>)
    ensures |r| <= 1
    ensures r == [] <==> !Truthy(vm)
    ensures r != [] ==> r[0] == vm.value && r[0] != ""
  {
    if Truthy(vm) then [vm.value] else []
  }

  /** The machine an argument list names right after the subcommand, given how many fixed options end it. */
  function Target(args: seq<string>, options: nat): Option<string> {
    if |args| == 2 + options then Some(args[1]) else None
  }

  /** The machine `vm` stands for: none when it is falsy. */
  function Named(vm: Option<string>): Option<string> {
    if Truthy(vm) then vm else None
  }

  /** `init(vm)`: `vagrant init [vm]`. */
  function InitArgs(vm: Option<string>): (r: seq<string>)
    ensures |r| == 1 + |MachineArg(vm)| && r[0] == "init"
    ensures Target(r, 0) == Named(vm)
  {
    ["init"] + MachineArg(vm)
  }

  /** `up(vm)`: `vagrant up [vm]`. */
  function UpArgs(vm: Option<string>): (r: seq<string>)
    ensures |r| == 1 + |MachineArg(vm)| && r[0] == "up"
    ensures Target(r, 0) == Named(vm)
  {
    ["up"] + MachineArg(vm)
  }

  /** `destroy(vm)`: `vagrant destroy [vm] --force`, so vagrant never asks for confirmation. */
  function DestroyArgs(vm: Option<string>): (r: seq<string>)
    ensures |r| == 2 + |MachineArg(vm)| && r[0] == "destroy" && r[|r| - 1] == "--force"
    ensures Target(r, 1) == Named(vm)
  {
    ["destroy"] + MachineArg(vm) + ["--force"]
  }

  /** `run_command(command, vm)`: `vagrant ssh [vm] -c command`. */
  function RunCommandArgs(command: string, vm: Option<string>): (r: seq<string>)
    ensures |r| == 3 + |MachineArg(vm)| && r[0] == "ssh" && r[|r| - 2..] == ["-c", command]
    ensures Target(r, 2) == Named(vm)
  {
    ["ssh"] + MachineArg(vm) + ["-c", command]
  }

  /** `status(vm)` always runs `vagrant status` for every machine; `Status` is given the lines it prints. */
  const StatusArgs: seq<string> := ["status"]

  /** Only the machine argument tells apart the lists built for two different machines. */
  lemma {:induction false} ArgsDetermineMachine(command: string, vm1: Option<string>, vm2: Option<string>)
    ensures InitArgs(vm1) == InitArgs(vm2) <==> Named(vm1) == Named(vm2)
    ensures UpArgs(vm1) == UpArgs(vm2) <==> Named(vm1) == Named(vm2)
    ensures DestroyArgs(vm1) == DestroyArgs(vm2) <==> Named(vm1) == Named(vm2)
    ensures RunCommandArgs(command, vm1) == RunCommandArgs(command, vm2) <==> Named(vm1) == Named(vm2)
  {
  }

  // ---------------------------------------------------------------------------
  // status (vm) (vagrant.py:177-231)
  // ---------------------------------------------------------------------------

  /** What `status` returns: the whole dictionary, or the status string of one machine. */
  datatype Report = AllMachines(statuses: map<string, string>) | OneMachine(status: string)

  /**
    The answer to `status(vm)` once the output has been read: the whole map for a
    falsy `vm`, otherwise `statuses[vm]`, which fails when `vm` is not a key.
  */
  function SelectStatus(parsed: Result<map<string, string>, StatusError>, vm: Option<string>): Result<Report, StatusError> {
    match parsed
    case Err(e) => Err(e)
    case Ok(m) =>
      if !Truthy(vm) then Ok(AllMachines(m))
      else if vm.value in m then Ok(OneMachine(m[vm.value]))
      else Err(UnknownMachine(vm.value))
  }

  /**
    Asking for one machine agrees with the full answer: it succeeds exactly when the
    full map has the machine, with that machine's entry, and fails with the same parse
    error otherwise.
  */
  lemma {:induction false} OneMachineAgreesWithAll(lines: seq<string>, vm: string)
    requires vm != ""
    ensures var all := SelectStatus(ParseStatuses(lines), None);
      var one := SelectStatus(ParseStatuses(lines), Some(vm));
      && (all.Err? <==> one.Err? && one.error.ParseError?)
      && (one.Ok? <==> all.Ok? && vm in all.value.statuses)
      && (one.Ok? ==> one.value == OneMachine(all.value.statuses[vm]))
      && (all.Ok? && vm !in all.value.statuses ==> one == Err(UnknownMachine(vm)))
  {
  }

  /** Whatever `status` reports is one of the five states vagrant knows. */
  lemma {:induction false} ReportedStatusesAreKnown(lines: seq<string>, vm: Option<string>)
    ensures var r := SelectStatus(ParseStatuses(lines), vm);
      && (r.Ok? && r.value.AllMachines? ==> AllKnown(r.value.statuses))
      && (r.Ok? && r.value.OneMachine? ==> r.value.status in Statuses)
  {
    StatusesAreKnown(lines);
  }

  /** The phase numbered as the `state` variable numbers it. */
  function PhaseOf(state: int): Phase
    requires 1 <= state <= 3
  {
    if state == 1 then SeekHeader else if state == 2 then SeekBlank else ReadEntries
  }

  /**
    The scanning loop of `status(vm)` over the lines `_vagrant(['status'])` produced,
    with its `state` variable, its `statuses` dictionary, its early `break` and the
    `ParseError` it raises.
  */
  method ScanStatusLines(outputLines: seq<string>) returns (r: Result<map<string, string>, StatusError>)
    ensures r == ParseStatuses(outputLines)
  {
    var state := 1;
    var statuses: map<string, string> := map[];
    var i := 0;
    while i < |outputLines|
      invariant 0 <= i <= |outputLines|
      invariant 1 <= state <= 3
      invariant Scan(outputLines[..i]) == Scanning(PhaseOf(state), statuses)
    {
      var line := outputLines[i];
      ScanSnoc(outputLines[..i], line);
      assert outputLines[..i + 1] == outputLines[..i] + [line];
      if state == 1 && IsHeaderLine(line) {
        state := 2;
      } else if state == 2 && Strip(line) == "" {
        state := 3;
      } else if state == 3 && Strip(line) != "" {
        var (nameAndStatus, provider) := SplitProvider(line);
        var m := SplitEntry(nameAndStatus);
        if m.None? {
          LaterLinesIgnored(outputLines[..i + 1], outputLines[i + 1..]);
          assert outputLines[..i + 1] + outputLines[i + 1..] == outputLines;
          return Err(ParseError(line));
        } else {
          statuses := statuses[m.value.0 := m.value.1];
        }
      } else if state == 3 && Strip(line) == "" {
        LaterLinesIgnored(outputLines[..i + 1], outputLines[i + 1..]);
        assert outputLines[..i + 1] + outputLines[i + 1..] == outputLines;
        break;
      }
      i := i + 1;
    }
    if i == |outputLines| {
      assert outputLines[..i] == outputLines;
    }
    return Ok(statuses);
  }

  /**
    `status(vm)`: the scan of the lines that `_vagrant(StatusArgs)` returns, then the
    whole dictionary or the entry for `vm`.
  */
  method Status(outputLines: seq<string>, vm: Option<string>) returns (r: Result<Report, StatusError>)
    ensures r == SelectStatus(ParseStatuses(outputLines), vm)
  {
    var scanned := ScanStatusLines(outputLines);
    if scanned.Err? {
      return Err(scanned.error);
    }
    var statuses := scanned.value;
    if !Truthy(vm) {
      return Ok(AllMachines(statuses));
    } else if vm.value in statuses {
      return Ok(OneMachine(statuses[vm.value]));
    } else {
      return Err(UnknownMachine(vm.value));
    }
  }
}
