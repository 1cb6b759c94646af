/**
 * get_showcmds.py: main's decisions, with the command line, the prompts, the environment,
 * the device file, the command table, the date and the network as inputs, and the
 * directory creation and file writes as the effects it produces.
 */
module GetShowCmds {
  import opened Wrappers
  import opened PyStr
  import opened Regex
  import opened Utils

  /**
   * The parsed command line. Options Python treats as false when empty are plain strings
   * here, with "" meaning "not given" (-d, -s, -n, -f); -p stays the string argparse stores.
   */
  datatype Args = Args(device: string, deviceType: string, port: string, outputSubdir: string,
                       showCmd: string, note: string, mfa: bool, credentials: bool,
                       fileOfDevs: string)

  /** The answers main could read from the terminal, and getpass.getuser(). */
  datatype Prompts = Prompts(osUser: string, username: string, password: string, enable: string,
                             mfaCode: string)

  /** The connection parameters main hands to conn_and_get_output. */
  datatype DevDict = DevDict(deviceType: string, ip: string, username: string, password: string,
                             secret: string, port: string)

  /**
   * Everything main reads from outside: today's date as printed, os.environ, the lines of the
   * device file (None when it cannot be opened), the command table of show_cmds.yml, the
   * prompt answers, and what ConnectHandler does for given connection parameters.
   */
  datatype RunInputs = RunInputs(date: string, env: map<string, string>,
                                 deviceFile: Option<seq<string>>,
                                 cmdDict: map<string, seq<string>>, prompts: Prompts,
                                 connect: DevDict -> ConnectResult)

  datatype Creds = Creds(username: string, password: string, secret: string)

  /** What a run leaves behind: the output directory and one text file per written device. */
  datatype Effect = MakeDir(dir: string) | WriteFile(dir: string, name: string, data: string)

  /** Why a run stops early: exit() for no devices, or an exception nothing catches. */
  datatype Abort = NoDevices | DeviceFileUnreadable(path: string) | Uncaught(error: Raised)

  datatype Outcome = Completed | Aborted(reason: Abort)

  // ---------------------------------------------------------------------------
  // The device list (get_showcmds.py:66-79)
  // ---------------------------------------------------------------------------

  /** The lines of the device file that hold a word character, each stripped, in file order. */
  function DeviceLines(lines: seq<string>): seq<string> {
    if lines == [] then []
    else (if HasWordChar(lines[0]) then [Strip(lines[0])] else []) + DeviceLines(lines[1..])
  }

  lemma {:induction false} DeviceLinesAppend(a: seq<string>, b: seq<string>)
    ensures DeviceLines(a + b) == DeviceLines(a) + DeviceLines(b)
    decreases |a|
  {
    if a == [] {
      assert a + b == b;
    } else {
      var c := a + b;
      assert c[0] == a[0] && c[1..] == a[1..] + b;
      DeviceLinesAppend(a[1..], b);
      var head := if HasWordChar(a[0]) then [Strip(a[0])] else [];
      assert DeviceLines(c) == head + DeviceLines(a[1..] + b);
      assert DeviceLines(a) == head + DeviceLines(a[1..]);
    }
  }

  /** One more line read extends the list by that line's device, if it gives one. */
  lemma DeviceLinesExtend(lines: seq<string>, i: nat)
    requires i < |lines|
    ensures DeviceLines(lines[..i + 1])
      == DeviceLines(lines[..i]) + (if HasWordChar(lines[i]) then [Strip(lines[i])] else [])
  {
    assert lines[..i + 1] == lines[..i] + [lines[i]];
    DeviceLinesAppend(lines[..i], [lines[i]]);
  }

  /** A device comes from some line holding a word character, and every such line gives one. */
  lemma {:induction false} DeviceLinesMembers(lines: seq<string>, d: string)
    ensures d in DeviceLines(lines) <==>
      exists k :: 0 <= k < |lines| && HasWordChar(lines[k]) && d == Strip(lines[k])
    decreases |lines|
  {
    if lines != [] {
      DeviceLinesMembers(lines[1..], d);
      assert forall k :: 0 <= k < |lines| - 1 ==> lines[1..][k] == lines[k + 1];
      if d in DeviceLines(lines[1..]) {
        var k :| 0 <= k < |lines| - 1 && HasWordChar(lines[1..][k]) && d == Strip(lines[1..][k]);
        assert HasWordChar(lines[k + 1]) && d == Strip(lines[k + 1]);
      }
      if exists k :: 0 <= k < |lines| && HasWordChar(lines[k]) && d == Strip(lines[k]) {
        var k :| 0 <= k < |lines| && HasWordChar(lines[k]) && d == Strip(lines[k]);
        if k > 0 {
          assert HasWordChar(lines[1..][k - 1]) && d == Strip(lines[1..][k - 1]);
        }
      }
    }
  }

  /** No device name is empty or carries whitespace at either end. */
  lemma DeviceLinesClean(lines: seq<string>, d: string)
    requires d in DeviceLines(lines)
    ensures d != [] && HasWordChar(d) && !IsSpace(d[0]) && !IsSpace(d[|d| - 1])
  {
    DeviceLinesMembers(lines, d);
    var k :| 0 <= k < |lines| && HasWordChar(lines[k]) && d == Strip(lines[k]);
    StripKeepsWord(lines[k]);
  }

  /** The loop of main over fh.readlines(). */
  method ReadDeviceList(lines: seq<string>) returns (deviceList: seq<string>)
    ensures deviceList == DeviceLines(lines)
  {
    deviceList := [];
    for i := 0 to |lines|
      invariant deviceList == DeviceLines(lines[..i])
    {
      var line := lines[i];
      if HasWordChar(line) {
        deviceList := deviceList + [Strip(line)];
      }
      DeviceLinesExtend(lines, i);
    }
    assert lines[..|lines|] == lines;
  }

  /** A device file wins over -d; with neither, the run exits. */
  function DeviceListOf(args: Args, deviceFile: Option<seq<string>>): Result<seq<string>, Abort> {
    if args.fileOfDevs != "" then
      match deviceFile
      case None => Err(DeviceFileUnreadable(args.fileOfDevs))
      case Some(lines) => Ok(DeviceLines(lines))
    else if args.device != "" then Ok([args.device])
    else Err(NoDevices)
  }

  // ---------------------------------------------------------------------------
  // Credentials (get_showcmds.py:84-103)
  // ---------------------------------------------------------------------------

  /**
   * The login every device of the run uses. -m wins over -c, which wins over the
   * environment; a missing environment variable raises KeyError.
   */
  function ResolveCredentials(mfa: bool, interactive: bool, env: map<string, string>, prompts: Prompts)
    : (r: Result<Creds, Raised>)
    ensures mfa ==> (r.Ok? <==> "INET_USR" in env && "INET_PWD" in env)
    ensures mfa && r.Ok? ==>
      r.value == Creds(env["INET_USR"], env["INET_PWD"] + Strip(prompts.mfaCode), env["INET_PWD"])
    ensures !mfa && interactive ==>
      (r.Ok? && r.value.password == prompts.password && r.value.secret == prompts.enable
       && r.value.username == (if prompts.username == "" then prompts.osUser else prompts.username))
    ensures !mfa && !interactive ==> (r.Ok? <==> "NET_USR" in env && "NET_PWD" in env)
    ensures !mfa && !interactive && r.Ok? ==>
      r.value == Creds(env["NET_USR"], env["NET_PWD"], env["NET_PWD"])
    ensures r.Err? ==> r.error == KeyError(
      if mfa then (if "INET_USR" !in env then "INET_USR" else "INET_PWD")
      else if "NET_USR" !in env then "NET_USR" else "NET_PWD")
  {
    if mfa then
      if "INET_USR" !in env then Err(KeyError("INET_USR"))
      else if "INET_PWD" !in env then Err(KeyError("INET_PWD"))
      else
        var pwd := env["INET_PWD"];
        Ok(Creds(env["INET_USR"], pwd + Strip(prompts.mfaCode), pwd))
    else if interactive then
      var (uname, passwd, enable) :=
        GetCreds(prompts.username, prompts.osUser, prompts.password, prompts.enable);
      Ok(Creds(uname, passwd, enable))
    else
      if "NET_USR" !in env then Err(KeyError("NET_USR"))
      else if "NET_PWD" !in env then Err(KeyError("NET_PWD"))
      else Ok(Creds(env["NET_USR"], env["NET_PWD"], env["NET_PWD"]))
  }

  /** With -m, neither -c nor the interactive answers nor NET_USR/NET_PWD matter. */
  lemma MfaModeWins(interactive1: bool, interactive2: bool, env1: map<string, string>,
                    env2: map<string, string>, p1: Prompts, p2: Prompts)
    requires p1.mfaCode == p2.mfaCode
    requires forall key :: key in ["INET_USR", "INET_PWD"] ==>
      (key in env1 <==> key in env2) && (key in env1 ==> env1[key] == env2[key])
    ensures ResolveCredentials(true, interactive1, env1, p1) == ResolveCredentials(true, interactive2, env2, p2)
  {
    assert "INET_USR" in ["INET_USR", "INET_PWD"] && "INET_PWD" in ["INET_USR", "INET_PWD"];
  }

  /** With -c and without -m, the environment is never read, so the run cannot fail here. */
  lemma InteractiveModeIgnoresEnv(env1: map<string, string>, env2: map<string, string>, p: Prompts)
    ensures ResolveCredentials(false, true, env1, p) == ResolveCredentials(false, true, env2, p)
    ensures ResolveCredentials(false, true, env1, p).Ok?
  {
  }

  // ---------------------------------------------------------------------------
  // Device-type gate and command selection (get_showcmds.py:119-130)
  // ---------------------------------------------------------------------------

  const SupportedTypes: seq<string> := ["cisco_ios", "cisco_nxos", "cisco_wlc"]

  /**
   * The command list of a supported device: the -s command alone, or the table entry the
   * first family name found in the type selects; a missing table entry raises KeyError.
   */
  function SelectCommands(showCmd: string, deviceType: string, cmdDict: map<string, seq<string>>)
    : (r: Result<seq<string>, Raised>)
    ensures showCmd != "" ==> r == Ok([showCmd])
  {
    if showCmd != "" then Ok([showCmd])
    else
      var key :=
        if Search(Literal("ios"), deviceType, false) then "ios_show_commands"
        else if Search(Literal("nxos"), deviceType, false) then "nxos_show_commands"
        else if Search(Literal("wlc"), deviceType, false) then "wlc_show_commands"
        else "general_show_commands";
      if key in cmdDict then Ok(cmdDict[key]) else Err(KeyError(key))
  }

  /** The table entry each admitted type is meant to use. */
  const CommandSetKey: map<string, string> := map[
    "cisco_ios" := "ios_show_commands",
    "cisco_nxos" := "nxos_show_commands",
    "cisco_wlc" := "wlc_show_commands"]

  /**
   * For the three admitted types the substring tests pick exactly the intended table entry,
   * so the general set is never used.
   */
  lemma SelectionFollowsTable(deviceType: string, cmdDict: map<string, seq<string>>)
    requires deviceType in SupportedTypes
    ensures var key := CommandSetKey[deviceType];
      SelectCommands("", deviceType, cmdDict) == if key in cmdDict then Ok(cmdDict[key]) else Err(KeyError(key))
  {
    FamilyAtoms();
    if deviceType == "cisco_ios" {
      IosInIos();
    } else if deviceType == "cisco_nxos" {
      IosNotInNxos();
      NxosInNxos();
    } else {
      IosNotInWlc();
      NxosNotInWlc();
      WlcInWlc();
    }
  }

  /** The family names as patterns, atom by atom. */
  lemma FamilyAtoms()
    ensures Literal("ios") == [Lit('i'), Lit('o'), Lit('s')]
    ensures Literal("nxos") == [Lit('n'), Lit('x'), Lit('o'), Lit('s')]
    ensures Literal("wlc") == [Lit('w'), Lit('l'), Lit('c')]
  {
    assert Literal("ios") == [Lit('i'), Lit('o'), Lit('s')];
    assert Literal("nxos") == [Lit('n'), Lit('x'), Lit('o'), Lit('s')];
    assert Literal("wlc") == [Lit('w'), Lit('l'), Lit('c')];
  }

  lemma IosInIos() ensures Search([Lit('i'), Lit('o'), Lit('s')], "cisco_ios", false) {}
  lemma IosNotInNxos() ensures !Search([Lit('i'), Lit('o'), Lit('s')], "cisco_nxos", false) {
    // "cisco_nxos" has its only 'i' at 1, followed by 's'
    assert !AtomsMatchFrom([Lit('i'), Lit('o'), Lit('s')], "cisco_nxos", 1, 1, false);
  }
  lemma NxosInNxos() ensures Search([Lit('n'), Lit('x'), Lit('o'), Lit('s')], "cisco_nxos", false) {}
  lemma IosNotInWlc() ensures !Search([Lit('i'), Lit('o'), Lit('s')], "cisco_wlc", false) {}
  lemma NxosNotInWlc() ensures !Search([Lit('n'), Lit('x'), Lit('o'), Lit('s')], "cisco_wlc", false) {}
  lemma WlcInWlc() ensures Search([Lit('w'), Lit('l'), Lit('c')], "cisco_wlc", false) {}

  // ---------------------------------------------------------------------------
  // The output file name (get_showcmds.py:133-138)
  // ---------------------------------------------------------------------------

  lemma TxtNoSpace()
    ensures NoSpace(".txt")
  {
    NoSpaceCons('t', "");
    NoSpaceCons('x', "t");
    NoSpaceCons('t', "xt");
    NoSpaceCons('.', "txt");
  }

  /** The part of the file name after the date: `[_<note>].txt`. */
  function NoteSuffix(note: string): (suffix: string)
    ensures |suffix| >= 4 && suffix[|suffix| - 4..] == ".txt"
    ensures NoSpace(suffix)
    ensures note == "" <==> suffix == ".txt"
  {
    if note != "" then
      var body := ReplaceSpace(note);
      ReplaceSpaceEmpty(note);
      var head := "_" + body;
      NoSpaceCons('_', body);
      TxtNoSpace();
      NoSpaceConcat(head, ".txt");
      assert (head + ".txt")[|head|..] == ".txt";
      head + ".txt"
    else ".txt"
  }

  /** `<dev>_<date>[_<note>].txt`, with the note's whitespace runs replaced by underscores. */
  function FileName(dev: string, date: string, note: string): string {
    dev + "_" + date + NoteSuffix(note)
  }

  /**
   * A file name starts with the device and the date, ends with ".txt", has no whitespace
   * after the date, and is longer than the bare `<dev>_<date>.txt` exactly when there is a note.
   */
  lemma FileNameShape(dev: string, date: string, note: string)
    ensures var name := FileName(dev, date, note);
      |name| >= |dev| + |date| + 5
      && name[..|dev| + |date| + 1] == dev + "_" + date
      && var tail := name[|dev| + |date| + 1..];
         NoSpace(tail) && tail[|tail| - 4..] == ".txt" && (note == "" <==> tail == ".txt")
  {
    var stem := dev + "_" + date;
    var suffix := NoteSuffix(note);
    assert (stem + suffix)[..|stem|] == stem && (stem + suffix)[|stem|..] == suffix;
  }

  // ---------------------------------------------------------------------------
  // The run (get_showcmds.py:48-146)
  // ---------------------------------------------------------------------------

  /** The devdict of one device: the -t type and -p port, the run's login, the device name. */
  function DevDictFor(args: Args, creds: Creds, dev: string): DevDict {
    DevDict(args.deviceType, dev, creds.username, creds.password, creds.secret, args.port)
  }

  /**
   * One pass of the device loop: an unsupported -t skips the device, otherwise its commands
   * are run and the transcript is written to `<subdir>/<file name>`; a missing command set or
   * a connection error nothing catches ends the run.
   */
  function DeviceStep(args: Args, io: RunInputs, creds: Creds, dev: string)
    : Result<Option<Effect>, Abort>
  {
    if args.deviceType !in SupportedTypes then Ok(None)
    else match SelectCommands(args.showCmd, args.deviceType, io.cmdDict)
      case Err(e) => Err(Uncaught(e))
      case Ok(cmds) =>
        match SessionOutput(io.connect(DevDictFor(args, creds, dev)), cmds)
        case Err(e) => Err(Uncaught(e))
        case Ok(resp) => Ok(Some(WriteFile(args.outputSubdir, FileName(dev, io.date, args.note), resp)))
  }

  /** A file written for a device of the list, into the output directory, under its name. */
  predicate WrittenFor(args: Args, io: RunInputs, devs: seq<string>, e: Effect) {
    e.WriteFile? && e.dir == args.outputSubdir
    && exists k :: 0 <= k < |devs| && e.name == FileName(devs[k], io.date, args.note)
  }

  /** One pass of the loop on what the earlier passes left: nothing more happens once stopped. */
  function Advance(acc: (seq<Effect>, Option<Abort>), step: Result<Option<Effect>, Abort>)
    : (seq<Effect>, Option<Abort>)
  {
    if acc.1.Some? then acc
    else match step
      case Err(a) => (acc.0, Some(a))
      case Ok(None) => (acc.0, None)
      case Ok(Some(e)) => (acc.0 + [e], None)
  }

  /**
   * The device loop over devs: the files written, in order, and the exception that ended it
   * early, if any.
   */
  function RunDevices(args: Args, io: RunInputs, creds: Creds, devs: seq<string>)
    : (r: (seq<Effect>, Option<Abort>))
    ensures |r.0| <= |devs|
    decreases |devs|
  {
    if devs == [] then ([], None)
    else
      Advance(RunDevices(args, io, creds, devs[..|devs| - 1]),
              DeviceStep(args, io, creds, devs[|devs| - 1]))
  }

  /** Every file the loop writes goes into the output directory, named after one of the devices. */
  lemma {:induction false} RunDevicesWrites(args: Args, io: RunInputs, creds: Creds, devs: seq<string>)
    ensures forall k :: 0 <= k < |RunDevices(args, io, creds, devs).0| ==>
      WrittenFor(args, io, devs, RunDevices(args, io, creds, devs).0[k])
    decreases |devs|
  {
    if devs != [] {
      var prefix := devs[..|devs| - 1];
      var last := devs[|devs| - 1];
      RunDevicesWrites(args, io, creds, prefix);
      var acc := RunDevices(args, io, creds, prefix);
      var step := DeviceStep(args, io, creds, last);
      var r := RunDevices(args, io, creds, devs);
      assert r == Advance(acc, step);
      forall k | 0 <= k < |r.0|
        ensures WrittenFor(args, io, devs, r.0[k])
      {
        if k < |acc.0| {
          WrittenForLonger(args, io, prefix, devs, acc.0[k]);
        } else {
          DeviceStepWrites(args, io, creds, devs, |devs| - 1);
        }
      }
    }
  }

  lemma WrittenForLonger(args: Args, io: RunInputs, prefix: seq<string>, devs: seq<string>, e: Effect)
    requires |prefix| <= |devs| && prefix == devs[..|prefix|]
    requires WrittenFor(args, io, prefix, e)
    ensures WrittenFor(args, io, devs, e)
  {
    var j :| 0 <= j < |prefix| && e.name == FileName(prefix[j], io.date, args.note);
    assert prefix[j] == devs[j];
  }

  lemma DeviceStepWrites(args: Args, io: RunInputs, creds: Creds, devs: seq<string>, k: nat)
    requires k < |devs|
    ensures var step := DeviceStep(args, io, creds, devs[k]);
      step.Ok? && step.value.Some? ==> WrittenFor(args, io, devs, step.value.value)
  {
  }

  /** The loop state after one more device: one more pass of the loop body. */
  lemma RunDevicesExtend(args: Args, io: RunInputs, creds: Creds, devs: seq<string>, i: nat)
    requires i < |devs|
    ensures RunDevices(args, io, creds, devs[..i + 1])
      == Advance(RunDevices(args, io, creds, devs[..i]), DeviceStep(args, io, creds, devs[i]))
  {
    assert devs[..i + 1][..i] == devs[..i];
  }

  /** Once an exception has ended the loop, the devices after it change nothing. */
  lemma {:induction false} RunDevicesSticky(args: Args, io: RunInputs, creds: Creds, devs: seq<string>, n: nat)
    requires n <= |devs| && RunDevices(args, io, creds, devs[..n]).1.Some?
    ensures RunDevices(args, io, creds, devs) == RunDevices(args, io, creds, devs[..n])
    decreases |devs|
  {
    if n < |devs| {
      var prefix := devs[..|devs| - 1];
      assert prefix[..n] == devs[..n];
      RunDevicesSticky(args, io, creds, prefix, n);
    } else {
      assert devs[..n] == devs;
    }
  }

  /** The file a device gets when its commands could be sent: its transcript, under its name. */
  function DeviceFile(args: Args, io: RunInputs, creds: Creds, cmds: seq<string>, dev: string): Effect {
    WriteFile(args.outputSubdir, FileName(dev, io.date, args.note),
              Transcript(SendOf(io.connect(DevDictFor(args, creds, dev))), cmds))
  }

  /** One file per device, made by `file`, in list order. */
  function FilesFor(file: string -> Effect, devs: seq<string>): seq<Effect>
    decreases |devs|
  {
    if devs == [] then [] else FilesFor(file, devs[..|devs| - 1]) + [file(devs[|devs| - 1])]
  }

  /** The k-th file is the k-th device's. */
  lemma {:induction false} FilesForAt(file: string -> Effect, devs: seq<string>)
    ensures |FilesFor(file, devs)| == |devs|
    ensures forall k :: 0 <= k < |devs| ==> FilesFor(file, devs)[k] == file(devs[k])
    decreases |devs|
  {
    if devs != [] {
      var prefix := devs[..|devs| - 1];
      FilesForAt(file, prefix);
      assert forall k :: 0 <= k < |prefix| ==> prefix[k] == devs[k];
    }
  }

  /** The files of a list of devices whose commands could all be sent, in list order. */
  function DeviceFiles(args: Args, io: RunInputs, creds: Creds, cmds: seq<string>, devs: seq<string>)
    : seq<Effect>
  {
    FilesFor(dev => DeviceFile(args, io, creds, cmds, dev), devs)
  }

  /**
   * For a supported -t with its command set present, and no connection error escaping, every
   * device gets exactly one file, in list order, even one whose connection timed out or was
   * refused.
   */
  lemma {:induction false} RunDevicesAllWritten(args: Args, io: RunInputs, creds: Creds,
                                                devs: seq<string>, cmds: seq<string>)
    requires args.deviceType in SupportedTypes
    requires SelectCommands(args.showCmd, args.deviceType, io.cmdDict) == Ok(cmds)
    requires forall k :: 0 <= k < |devs| ==> !io.connect(DevDictFor(args, creds, devs[k])).OtherConnectError?
    ensures RunDevices(args, io, creds, devs) == (DeviceFiles(args, io, creds, cmds, devs), None)
    decreases |devs|
  {
    if devs != [] {
      var prefix := devs[..|devs| - 1];
      var last := devs[|devs| - 1];
      assert forall k :: 0 <= k < |prefix| ==> prefix[k] == devs[k];
      RunDevicesAllWritten(args, io, creds, prefix, cmds);
      var file := DeviceFile(args, io, creds, cmds, last);
      assert DeviceStep(args, io, creds, last) == Ok(Some(file));
      assert RunDevices(args, io, creds, devs)
        == Advance((DeviceFiles(args, io, creds, cmds, prefix), None), Ok(Some(file)));
    }
  }

  /**
   * The first device whose connection raises something other than a timeout or an
   * authentication failure ends the run: the devices before it have their files, it and
   * every later device have none.
   */
  lemma RunStopsAtCrash(args: Args, io: RunInputs, creds: Creds, devs: seq<string>,
                        cmds: seq<string>, k: nat)
    requires args.deviceType in SupportedTypes
    requires SelectCommands(args.showCmd, args.deviceType, io.cmdDict) == Ok(cmds)
    requires k < |devs| && io.connect(DevDictFor(args, creds, devs[k])).OtherConnectError?
    requires forall j :: 0 <= j < k ==> !io.connect(DevDictFor(args, creds, devs[j])).OtherConnectError?
    ensures RunDevices(args, io, creds, devs)
      == (DeviceFiles(args, io, creds, cmds, devs[..k]), Some(Uncaught(ConnectError)))
  {
    var before := devs[..k];
    assert forall j :: 0 <= j < k ==> before[j] == devs[j];
    RunDevicesAllWritten(args, io, creds, before, cmds);
    var acc := (DeviceFiles(args, io, creds, cmds, before), None);
    assert RunDevices(args, io, creds, before) == acc;
    var crash := DeviceStep(args, io, creds, devs[k]);
    assert crash == Err(Uncaught(ConnectError));
    RunDevicesExtend(args, io, creds, devs, k);
    assert RunDevices(args, io, creds, devs[..k + 1]) == Advance(acc, crash);
    RunDevicesSticky(args, io, creds, devs, k + 1);
  }

  /** A supported -t whose command set is missing from the table ends the run at the first device. */
  lemma MissingCommandSetStops(args: Args, io: RunInputs, creds: Creds, devs: seq<string>)
    requires args.deviceType in SupportedTypes
    requires SelectCommands(args.showCmd, args.deviceType, io.cmdDict).Err?
    requires devs != []
    ensures RunDevices(args, io, creds, devs)
      == ([], Some(Uncaught(SelectCommands(args.showCmd, args.deviceType, io.cmdDict).error)))
  {
    RunDevicesExtend(args, io, creds, devs, 0);
    assert devs[..0] == [];
    RunDevicesSticky(args, io, creds, devs, 1);
  }

  /** With a -t outside the three admitted types no device is contacted and no file written. */
  lemma {:induction false} RunDevicesUnsupported(args: Args, io: RunInputs, creds: Creds, devs: seq<string>)
    requires args.deviceType !in SupportedTypes
    ensures RunDevices(args, io, creds, devs) == ([], None)
    decreases |devs|
  {
    if devs != [] {
      RunDevicesUnsupported(args, io, creds, devs[..|devs| - 1]);
    }
  }

  /** A device that times out or refuses the login still gets a file, with empty contents. */
  lemma RefusedDeviceGetsEmptyFile(args: Args, io: RunInputs, creds: Creds, dev: string)
    requires args.deviceType in SupportedTypes
    requires SelectCommands(args.showCmd, args.deviceType, io.cmdDict).Ok?
    requires io.connect(DevDictFor(args, creds, dev)).ConnectTimeout?
      || io.connect(DevDictFor(args, creds, dev)).AuthFailure?
    ensures DeviceStep(args, io, creds, dev)
      == Ok(Some(WriteFile(args.outputSubdir, FileName(dev, io.date, args.note), "")))
  {
    RefusedSessionEmpty(io.connect(DevDictFor(args, creds, dev)),
                        SelectCommands(args.showCmd, args.deviceType, io.cmdDict).value);
  }

  /** The loop never looks at -d. */
  lemma {:induction false} RunDevicesIgnoresDevice(args: Args, io: RunInputs, creds: Creds,
                                                   devs: seq<string>, device: string)
    ensures RunDevices(args.(device := device), io, creds, devs) == RunDevices(args, io, creds, devs)
    decreases |devs|
  {
    if devs != [] {
      RunDevicesIgnoresDevice(args, io, creds, devs[..|devs| - 1], device);
      var last := devs[|devs| - 1];
      assert DevDictFor(args.(device := device), creds, last) == DevDictFor(args, creds, last);
    }
  }

  /** main: the device list, the output directory, the login, then the device loop. */
  function Run(args: Args, io: RunInputs): (r: (seq<Effect>, Outcome))
    ensures r.0 == [] <==> DeviceListOf(args, io.deviceFile).Err?
    ensures r.0 == [] ==> r.1.Aborted?
    ensures r.0 != [] ==> r.0[0] == MakeDir(args.outputSubdir)
  {
    match DeviceListOf(args, io.deviceFile)
    case Err(a) => ([], Aborted(a))
    case Ok(devs) =>
      var mk := [MakeDir(args.outputSubdir)];
      match ResolveCredentials(args.mfa, args.credentials, io.env, io.prompts)
      case Err(e) => (mk, Aborted(Uncaught(e)))
      case Ok(creds) =>
        var (writes, stop) := RunDevices(args, io, creds, devs);
        (mk + writes, if stop.Some? then Aborted(stop.value) else Completed)
  }

  /** A device file given with -f makes -d irrelevant. */
  lemma FilePrecedence(args: Args, io: RunInputs, device: string)
    requires args.fileOfDevs != ""
    ensures Run(args.(device := device), io) == Run(args, io)
  {
    match ResolveCredentials(args.mfa, args.credentials, io.env, io.prompts)
    case Err(_) =>
    case Ok(creds) =>
      if io.deviceFile.Some? {
        RunDevicesIgnoresDevice(args, io, creds, DeviceLines(io.deviceFile.value), device);
      }
  }

  /** With neither -f nor -d the run exits before creating anything. */
  lemma RunNeedsDevices(args: Args, io: RunInputs)
    requires args.fileOfDevs == "" && args.device == ""
    ensures Run(args, io) == ([], Aborted(NoDevices))
  {
  }

  /**
   * With an unsupported -t and a login that resolves, the run creates the output directory
   * and nothing else, whatever the network and the command table would have done.
   */
  lemma RunUnsupported(args: Args, io: RunInputs)
    requires args.deviceType !in SupportedTypes
    requires DeviceListOf(args, io.deviceFile).Ok?
    requires ResolveCredentials(args.mfa, args.credentials, io.env, io.prompts).Ok?
    ensures Run(args, io) == ([MakeDir(args.outputSubdir)], Completed)
  {
    RunDevicesUnsupported(args, io, ResolveCredentials(args.mfa, args.credentials, io.env, io.prompts).value,
                          DeviceListOf(args, io.deviceFile).value);
    assert [MakeDir(args.outputSubdir)] + [] == [MakeDir(args.outputSubdir)];
  }

  /**
   * A login that cannot be resolved (a missing environment variable) ends the run right
   * after the output directory is created, before any device is contacted.
   */
  lemma RunNeedsLogin(args: Args, io: RunInputs)
    requires DeviceListOf(args, io.deviceFile).Ok?
    requires ResolveCredentials(args.mfa, args.credentials, io.env, io.prompts).Err?
    ensures Run(args, io).0 == [MakeDir(args.outputSubdir)]
    ensures Run(args, io).1 == Aborted(Uncaught(ResolveCredentials(args.mfa, args.credentials, io.env, io.prompts).error))
  {
  }

  /**
   * The `for dev in device_list` loop of main: the files written, in order, and the
   * exception that ended the loop, if one did.
   */
  method DeviceLoop(args: Args, io: RunInputs, creds: Creds, deviceList: seq<string>)
    returns (written: seq<Effect>, stop: Option<Abort>)
    ensures (written, stop) == RunDevices(args, io, creds, deviceList)
  {
    written := [];
    for i := 0 to |deviceList|
      invariant RunDevices(args, io, creds, deviceList[..i]) == (written, None)
    {
      var dev := deviceList[i];
      var devdict := DevDictFor(args, creds, dev);
      RunDevicesExtend(args, io, creds, deviceList, i);
      if args.deviceType in SupportedTypes {
        var cmds := SelectCommands(args.showCmd, args.deviceType, io.cmdDict);
        if cmds.Err? {
          RunDevicesSticky(args, io, creds, deviceList, i + 1);
          return written, Some(Uncaught(cmds.error));
        }
        var resp := ConnAndGetOutput(io.connect(devdict), cmds.value);
        if resp.Err? {
          RunDevicesSticky(args, io, creds, deviceList, i + 1);
          return written, Some(Uncaught(resp.error));
        }
        var file := WriteFile(args.outputSubdir, FileName(dev, io.date, args.note), resp.value);
        written := written + [file];
      }
    }
    assert deviceList[..|deviceList|] == deviceList;
    stop := None;
  }

  /**
   * main itself: read the device list, create the output directory, settle the login, then
   * walk the devices.
   */
  method Execute(args: Args, io: RunInputs) returns (effects: seq<Effect>, outcome: Outcome)
    ensures (effects, outcome) == Run(args, io)
  {
    var deviceList: seq<string>;
    if args.fileOfDevs != "" {
      if io.deviceFile.None? {
        return [], Aborted(DeviceFileUnreadable(args.fileOfDevs));
      }
      deviceList := ReadDeviceList(io.deviceFile.value);
    } else if args.device != "" {
      deviceList := [args.device];
    } else {
      return [], Aborted(NoDevices);
    }
    effects := [MakeDir(args.outputSubdir)];
    var login := ResolveCredentials(args.mfa, args.credentials, io.env, io.prompts);
    if login.Err? {
      return effects, Aborted(Uncaught(login.error));
    }
    var written, stop := DeviceLoop(args, io, login.value, deviceList);
    effects := effects + written;
    outcome := if stop.Some? then Aborted(stop.value) else Completed;
  }
}
