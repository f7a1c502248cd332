/**
 * The flashing sequence of the production programmer window, without its
 * Qt, serial-port and process plumbing.
 *
 * A run flashes the MCU with the programmer (ipecmd), tells the MCU over
 * COM6 to get ready, and flashes the Telit WE310 module with the vendor tool.
 * The window keeps three numbers: the current step, the step total of the
 * run and a counter of successful MCU programmings made while the chooser
 * shows "Beide" (counted before the serial step and the Telit flash, which
 * may still fail). `FlashWidget` holds them and its
 * methods are the window's handlers; what the outside world does (the exit
 * code of a tool, whether the port opened, what the tool printed) comes in
 * as parameters, and what the handler launches or schedules goes out as a
 * `Next`. Each handler is specified by a function on `Panel` values, and the
 * lemmas about whole runs are stated over those functions.
 */
module Widget {
  import Text

  // ---------------------------------------------------------------------
  // Constants of the flashing sequence
  // ---------------------------------------------------------------------

  /** The three entries of the mode chooser: both chips, only the MCU, only the Telit module. */
  const Both: string := "Beide"
  const McuOnly: string := "Nur MCU"
  const TelitOnly: string := "Nur Telit"

  /** The frame written to the MCU on COM6. */
  const CommandFrame: string := "iRc0001DF\r\n"

  /** The firmware-version tag the verification waits for. */
  const SwVersionTag: string := "SW-VER: V2"

  /** The progress messages of the Telit tool, image 1 to 4, in the order they are tested. */
  const ImageMarkers: seq<string> :=
    ["Flashing Image 1 of 4", "Flashing Image 2 of 4", "Flashing Image 3 of 4", "Flashing Image 4 of 4"]

  /** The name prefix of the work folders the Telit tool leaves behind. */
  const WorkFolderPrefix: string := "WE310_"

  // ---------------------------------------------------------------------
  // The progress numbers
  // ---------------------------------------------------------------------

  /**
   * The window's numbers: current step, step total, the value last passed to
   * the progress bar's `setValue` (a bar with range 0..100 does not take a
   * value above 100, so it can differ from what the bar displays), and the
   * counter.
   */
  datatype Panel = Panel(step: int, total: int, percent: int, counter: int)

  /** int((step / total) * 100): the quotient scaled to percent and truncated toward zero. */
  function Percent(step: int, total: int): int
    requires total != 0
  {
    var magnitude := (if step >= 0 then step else -step) * 100 / (if total > 0 then total else -total);
    if (step >= 0) == (total > 0) then magnitude else -magnitude
  }

  /** a * b <= a * c for a positive `a` and b <= c. */
  lemma MulAtLeast(a: int, b: int, c: int)
    requires a > 0 && b <= c
    ensures a * b <= a * c
  {
    assert a * c - a * b == a * (c - b);
  }

  /**
   * The value passed to the bar is never negative, is at most 100 exactly
   * while the step has not passed the total, is 100 exactly at the last step,
   * and is 0 exactly below one percent. Past the total it exceeds 100, as in
   * "Nur MCU" at 3 of 2. `total <= 100` covers every total a mode sets.
   */
  lemma {:induction false} PercentBounds(step: int, total: int)
    requires 0 <= step && 0 < total <= 100
    ensures 0 <= Percent(step, total)
    ensures Percent(step, total) <= 100 <==> step <= total
    ensures Percent(step, total) == 100 <==> step == total
    ensures Percent(step, total) == 0 <==> step * 100 < total
  {
    var x := step * 100;
    var q, r := x / total, x % total;
    assert Percent(step, total) == q;
    assert x == total * q + r && 0 <= r < total;
    if q < 0 {
      MulAtLeast(total, q, -1);
    }
    if q >= 101 {
      MulAtLeast(total, 101, q);
      assert step * 100 > total * 100;
    }
    if step > total && q <= 100 {
      MulAtLeast(total, q, 100);
    }
    if q == 100 {
      assert x >= total * 100;
    }
    if step == total && q < 100 {
      MulAtLeast(total, q, 99);
    }
    if q >= 1 {
      MulAtLeast(total, 1, q);
    }
  }

  /** The step total a mode sets; any other chooser text keeps the previous total. */
  function StepsFor(option: string, previous: int): int
  {
    if option == Both then 8
    else if option == McuOnly then 2
    else if option == TelitOnly then 6
    else previous
  }

  /**
   * update_progress(increment): the step grows by `increment`; the bar is
   * passed the new percentage, unless the total is 0, where the division
   * raises and the value last passed stays.
   */
  function Advance(p: Panel, increment: int): Panel
  {
    var step := p.step + increment;
    p.(step := step, percent := if p.total != 0 then Percent(step, p.total) else p.percent)
  }

  /** update_counter(option): counts only while the chooser shows "Beide". */
  function CountRun(p: Panel, option: string): Panel
  {
    if option == Both then p.(counter := p.counter + 1) else p
  }

  /**
   * The states the handlers keep: the step is never negative, the total is
   * one a mode sets (or the initial 0), and whenever the total is not 0 the
   * value last passed to the bar is the percentage of the current step.
   */
  predicate Consistent(p: Panel)
  {
    && p.step >= 0
    && (p.total == 0 || p.total == 2 || p.total == 6 || p.total == 8)
    && (p.total != 0 ==> p.percent == Percent(p.step, p.total))
  }

  // ---------------------------------------------------------------------
  // What a handler sets in motion
  // ---------------------------------------------------------------------

  /** Why a handler stopped the sequence (reported in the debug window, or raised). */
  datatype Fault =
    | ProgrammerPathNotSet           // "Error: IPECMD path not set!"
    | NoHexFile                      // "Error: No hex file selected!"
    | NoTelitFile                    // "Error: No Telit firmware file selected."
    | ZeroTotalSteps                 // update_progress divided by a total of 0 and raised
    | InvalidCmdlineArg              // programmer exit code 36
    | ProgrammingFailed(exitCode: int)  // any other non-zero programmer exit code
    | SerialUnavailable              // COM6 could not be opened

  /** A handler that a timer runs later. */
  datatype Task = SerialCommand | TelitFlash

  /** What a handler launches or schedules after it returns. */
  datatype Next =
    | Idle
    | Halt(fault: Fault)
    | StartProgrammer(argv: seq<string>, removedFolders: seq<string>)
    | StartTelitTool(argv: seq<string>)
    | After(delayMs: nat, task: Task)

  /** The new panel, what comes next, and what was written to COM6 meanwhile. */
  datatype Reaction = Reaction(panel: Panel, next: Next, sent: string)

  // ---------------------------------------------------------------------
  // The tool invocations
  // ---------------------------------------------------------------------

  /** The programmer's argument vector: Atmel-ICE, ATSAME70N19B, program, the hex file. */
  function McuCommand(ipecmdPath: string, hexPath: string): seq<string>
  {
    [ipecmdPath, "-TPAICE", "-PATSAME70N19B", "-M", "-F" + hexPath]
  }

  /** The Telit tool's argument vector: model WE310, the image file, port COM7. */
  function TelitCommand(telitPath: string): seq<string>
  {
    ["Telit_Wifi_Image_Tool.exe", "-m", "WE310", "-d", telitPath, "-c", "COM7"]
  }

  /** The programmer receives the executable first and the hex file behind `-F`; the Telit tool receives the image behind `-d`. */
  lemma CommandsCarryPaths(ipecmdPath: string, hexPath: string, telitPath: string)
    ensures var argv := McuCommand(ipecmdPath, hexPath);
      |argv| == 5 && argv[0] == ipecmdPath && argv[4][..2] == "-F" && argv[4][2..] == hexPath
    ensures var argv := TelitCommand(telitPath);
      |argv| == 7 && argv[3] == "-d" && argv[4] == telitPath && argv[5..] == ["-c", "COM7"]
  {
  }

  /** A directory entry of the working directory. */
  datatype DirEntry = DirEntry(name: string, isDirectory: bool)

  /** A folder the cleanup removes: a directory whose name starts with `WE310_`. */
  predicate IsWorkFolder(e: DirEntry)
  {
    e.isDirectory && Text.StartsWith(e.name, WorkFolderPrefix)
  }

  /** The names of the work folders among `entries`, in listing order. */
  function WorkFolders(entries: seq<DirEntry>): seq<string>
  {
    if entries == [] then []
    else
      var last := entries[|entries| - 1];
      WorkFolders(entries[..|entries| - 1]) + (if IsWorkFolder(last) then [last.name] else [])
  }

  /** A name is removed exactly when some entry with that name is a work folder. */
  lemma {:induction false} WorkFoldersMembers(entries: seq<DirEntry>, name: string)
    ensures name in WorkFolders(entries) <==> exists e :: e in entries && IsWorkFolder(e) && e.name == name
  {
    if entries != [] {
      var init, last := entries[..|entries| - 1], entries[|entries| - 1];
      WorkFoldersMembers(init, name);
      assert entries == init + [last];
      if exists e :: e in entries && IsWorkFolder(e) && e.name == name {
        var e :| e in entries && IsWorkFolder(e) && e.name == name;
        assert e in init || e == last;
      }
    }
  }

  /**
   * remove_we310_folders: walks the directory listing and removes every work
   * folder (a failing removal is only reported, so every one is attempted).
   */
  method RemoveWe310Folders(workDir: seq<DirEntry>) returns (removed: seq<string>)
    ensures removed == WorkFolders(workDir)
  {
    removed := [];
    for i := 0 to |workDir|
      invariant removed == WorkFolders(workDir[..i])
    {
      assert workDir[..i + 1][..i] == workDir[..i];
      if IsWorkFolder(workDir[i]) {
        removed := removed + [workDir[i].name];
      }
    }
    assert workDir[..|workDir|] == workDir;
  }

  /**
   * flash_mcu as a value: without a hex file nothing starts; otherwise the
   * work folders go and the programmer starts. The handler functions below
   * use this form, since a function cannot call the method `FlashMcu`.
   */
  function McuLaunch(ipecmdPath: string, hexPath: string, workDir: seq<DirEntry>): Next
  {
    if hexPath == "" then Halt(NoHexFile)
    else StartProgrammer(McuCommand(ipecmdPath, hexPath), WorkFolders(workDir))
  }

  /** flash_mcu, step by step, with the folder cleanup as the loop `RemoveWe310Folders`; it agrees with `McuLaunch`. */
  method FlashMcu(ipecmdPath: string, hexPath: string, workDir: seq<DirEntry>) returns (next: Next)
    ensures next == McuLaunch(ipecmdPath, hexPath, workDir)
  {
    if hexPath == "" {
      return Halt(NoHexFile);
    }
    var command := McuCommand(ipecmdPath, hexPath);
    var removed := RemoveWe310Folders(workDir);
    next := StartProgrammer(command, removed);
  }

  /** flash_telit: without an image file nothing starts; otherwise the Telit tool starts. */
  function FlashTelitLaunch(telitPath: string): (next: Next)
    ensures next.StartTelitTool? <==> telitPath != ""
    ensures next.StartTelitTool? ==> |next.argv| == 7 && next.argv[4] == telitPath
    ensures !next.StartTelitTool? ==> next == Halt(NoTelitFile)
  {
    if telitPath == "" then Halt(NoTelitFile) else StartTelitTool(TelitCommand(telitPath))
  }

  // ---------------------------------------------------------------------
  // The handlers, as functions of the panel
  // ---------------------------------------------------------------------

  /**
   * The first image marker found in a chunk of Telit output, tested in the
   * order image 1, 2, 3, 4 (an if/elif chain), as the image number.
   */
  function ImageMarkerIn(text: string): (image: nat)
    ensures image <= 4
    ensures image > 0 ==> Text.Contains(text, ImageMarkers[image - 1])
    ensures forall k :: 0 <= k < 4 && (image == 0 || k < image - 1) ==> !Text.Contains(text, ImageMarkers[k])
  {
    if Text.Contains(text, ImageMarkers[0]) then 1
    else if Text.Contains(text, ImageMarkers[1]) then 2
    else if Text.Contains(text, ImageMarkers[2]) then 3
    else if Text.Contains(text, ImageMarkers[3]) then 4
    else 0
  }

  /** send_serial_command: write the frame if COM6 opens, count the step, and flash the Telit module a second later. */
  function OnSerialCommandDue(p: Panel, portOpens: bool): Reaction
  {
    if !portOpens then Reaction(p, Halt(SerialUnavailable), "")
    else if p.total == 0 then Reaction(Advance(p, 1), Halt(ZeroTotalSteps), CommandFrame)
    else Reaction(Advance(p, 1), After(1000, TelitFlash), CommandFrame)
  }

  /** flash_button_clicked: check the programmer path, start the count for the mode, and begin the sequence. */
  function OnFlashClicked(p: Panel, ipecmdPath: string, hexPath: string, option: string,
                          workDir: seq<DirEntry>, portOpens: bool): Reaction
  {
    if ipecmdPath == "" then Reaction(p, Halt(ProgrammerPathNotSet), "")
    else
      var started := p.(step := 0, total := StepsFor(option, p.total));
      var first := Advance(started, 1);
      if started.total == 0 then Reaction(first, Halt(ZeroTotalSteps), "")
      else if option == Both || option == McuOnly then Reaction(first, McuLaunch(ipecmdPath, hexPath, workDir), "")
      else if option == TelitOnly then OnSerialCommandDue(first, portOpens)
      else Reaction(first, Idle, "")
  }

  /**
   * flash_finished: exit code 0 counts the programming if "Beide" is shown
   * (the chooser is read now, not at the start), advances one step and
   * schedules the serial command five seconds later; code 36 and every other
   * code only report.
   */
  function OnProgrammerFinished(p: Panel, exitCode: int, option: string): Reaction
  {
    if exitCode == 0 then
      var counted := CountRun(p, option);
      if counted.total == 0 then Reaction(Advance(counted, 1), Halt(ZeroTotalSteps), "")
      else Reaction(Advance(counted, 1), After(5000, SerialCommand), "")
    else if exitCode == 36 then Reaction(p, Halt(InvalidCmdlineArg), "")
    else Reaction(p, Halt(ProgrammingFailed(exitCode)), "")
  }

  /** read_telit_output: a chunk that carries an image marker advances one step, whatever else it carries. */
  function OnTelitOutput(p: Panel, text: string): Reaction
  {
    if ImageMarkerIn(text) == 0 then Reaction(p, Idle, "")
    else if p.total == 0 then Reaction(Advance(p, 1), Halt(ZeroTotalSteps), "")
    else Reaction(Advance(p, 1), Idle, "")
  }

  /** What happens to the window, with the outcomes of the outside world. */
  datatype Event =
    | FlashClicked(ipecmdPath: string, hexPath: string, option: string, workDir: seq<DirEntry>, portOpens: bool)
    | ProgrammerFinished(exitCode: int, option: string)
    | SerialCommandDue(portOpens: bool)
    | TelitOutput(text: string)

  function React(p: Panel, e: Event): Reaction
  {
    match e
    case FlashClicked(ipecmdPath, hexPath, option, workDir, portOpens) =>
      OnFlashClicked(p, ipecmdPath, hexPath, option, workDir, portOpens)
    case ProgrammerFinished(exitCode, option) => OnProgrammerFinished(p, exitCode, option)
    case SerialCommandDue(portOpens) => OnSerialCommandDue(p, portOpens)
    case TelitOutput(text) => OnTelitOutput(p, text)
  }

  /** The panel after a sequence of events. */
  function Run(p: Panel, events: seq<Event>): Panel
    decreases |events|
  {
    if events == [] then p else Run(React(p, events[0]).panel, events[1..])
  }

  // ---------------------------------------------------------------------
  // Properties of single handlers
  // ---------------------------------------------------------------------

  /**
   * A click with a programmer path and a known mode sets that mode's total,
   * restarts the count and leaves it at step 1 (step 2 when "Nur Telit" got
   * its serial command through); the counter is untouched; "Beide" and
   * "Nur MCU" start the programmer when a hex file is set.
   */
  lemma ClickStartsRun(p: Panel, ipecmdPath: string, hexPath: string, option: string,
                       workDir: seq<DirEntry>, portOpens: bool)
    requires ipecmdPath != ""
    requires option == Both || option == McuOnly || option == TelitOnly
    ensures var r := OnFlashClicked(p, ipecmdPath, hexPath, option, workDir, portOpens);
      && r.panel.total == (if option == Both then 8 else if option == McuOnly then 2 else 6)
      && r.panel.step == (if option == TelitOnly && portOpens then 2 else 1)
      && r.panel.percent == Percent(r.panel.step, r.panel.total)
      && r.panel.counter == p.counter
      && (option != TelitOnly ==>
            r.next == (if hexPath == "" then Halt(NoHexFile)
                       else StartProgrammer(McuCommand(ipecmdPath, hexPath), WorkFolders(workDir))))
      && (option == TelitOnly ==>
            r.next == (if portOpens then After(1000, TelitFlash) else Halt(SerialUnavailable)))
  {
  }

  /** Without a programmer path a click reports the error and changes nothing, whatever the mode. */
  lemma ClickWithoutProgrammerPath(p: Panel, hexPath: string, option: string, workDir: seq<DirEntry>, portOpens: bool)
    ensures OnFlashClicked(p, "", hexPath, option, workDir, portOpens) == Reaction(p, Halt(ProgrammerPathNotSet), "")
  {
  }

  /** An unknown mode before any run leaves the total at 0, so the first progress update raises and nothing starts. */
  lemma ClickUnknownModeFirst(p: Panel, ipecmdPath: string, hexPath: string, option: string,
                              workDir: seq<DirEntry>, portOpens: bool)
    requires ipecmdPath != "" && p.total == 0
    requires option != Both && option != McuOnly && option != TelitOnly
    ensures var r := OnFlashClicked(p, ipecmdPath, hexPath, option, workDir, portOpens);
      r.next == Halt(ZeroTotalSteps) && r.panel == p.(step := 1)
  {
  }

  /**
   * Exit code 0 advances one step and counts the run exactly when the mode
   * is "Beide"; code 36 and every other non-zero code change neither number.
   */
  lemma ProgrammerExitCodes(p: Panel, exitCode: int, option: string)
    requires p.total != 0
    ensures var r := OnProgrammerFinished(p, exitCode, option);
      && (exitCode == 0 ==>
            && r.panel.step == p.step + 1
            && r.panel.counter == p.counter + (if option == Both then 1 else 0)
            && r.next == After(5000, SerialCommand))
      && (exitCode == 36 ==> r.panel == p && r.next == Halt(InvalidCmdlineArg))
      && (exitCode != 0 && exitCode != 36 ==> r.panel == p && r.next == Halt(ProgrammingFailed(exitCode)))
  {
  }

  /** When COM6 opens the frame is written, one step is added and the Telit flash follows; otherwise nothing happens. */
  lemma SerialCommandOutcome(p: Panel, portOpens: bool)
    requires p.total != 0
    ensures var r := OnSerialCommandDue(p, portOpens);
      && (portOpens ==> r.sent == CommandFrame && r.panel.step == p.step + 1 && r.next == After(1000, TelitFlash))
      && (!portOpens ==> r.sent == "" && r.panel == p && r.next == Halt(SerialUnavailable))
  {
  }

  /** A chunk of Telit output adds one step if it carries an image marker and none otherwise. */
  lemma TelitOutputAtMostOneStep(p: Panel, text: string)
    ensures var r := OnTelitOutput(p, text);
      && r.panel.total == p.total && r.panel.counter == p.counter
      && r.panel.step == p.step + (if exists k :: 0 <= k < 4 && Text.Contains(text, ImageMarkers[k]) then 1 else 0)
  {
    var image := ImageMarkerIn(text);
    if image > 0 {
      assert Text.Contains(text, ImageMarkers[image - 1]);
    }
  }

  /** Every handler keeps the panel consistent. */
  lemma ReactConsistent(p: Panel, e: Event)
    requires Consistent(p)
    ensures Consistent(React(p, e).panel)
  {
  }

  // ---------------------------------------------------------------------
  // Properties of whole runs
  // ---------------------------------------------------------------------

  /** The successful programmer exits among `events` that happen while "Beide" is shown. */
  function BothSuccesses(events: seq<Event>): nat
  {
    if events == [] then 0
    else (if events[0] == ProgrammerFinished(0, Both) then 1 else 0) + BothSuccesses(events[1..])
  }

  /** A sequence of events without a click: all of them belong to the run already started. */
  predicate WithinRun(events: seq<Event>)
  {
    forall i :: 0 <= i < |events| ==> !events[i].FlashClicked?
  }

  /** The counter grows by exactly one per successful programmer exit while "Beide" is shown, and by nothing else. */
  lemma {:induction false} CounterCountsBothSuccesses(p: Panel, events: seq<Event>)
    ensures Run(p, events).counter == p.counter + BothSuccesses(events)
    decreases |events|
  {
    if events != [] {
      CounterCountsBothSuccesses(React(p, events[0]).panel, events[1..]);
    }
  }

  /** Within a run the total stays, and the step never goes back and grows by at most one per event. */
  lemma {:induction false} StepsWithinRun(p: Panel, events: seq<Event>)
    requires WithinRun(events)
    ensures Run(p, events).total == p.total
    ensures p.step <= Run(p, events).step <= p.step + |events|
    decreases |events|
  {
    if events != [] {
      assert !events[0].FlashClicked?;
      StepsWithinRun(React(p, events[0]).panel, events[1..]);
    }
  }

  /** Any sequence of events keeps the panel consistent. */
  lemma {:induction false} RunConsistent(p: Panel, events: seq<Event>)
    requires Consistent(p)
    ensures Consistent(Run(p, events))
    decreases |events|
  {
    if events != [] {
      ReactConsistent(p, events[0]);
      RunConsistent(React(p, events[0]).panel, events[1..]);
    }
  }

  /** Chunks of Telit output that each carry an image marker. */
  predicate AllMarked(texts: seq<string>)
  {
    forall i :: 0 <= i < |texts| ==> ImageMarkerIn(texts[i]) != 0
  }

  /** The events of the Telit tool printing `texts`, chunk by chunk. */
  function TelitOutputs(texts: seq<string>): (events: seq<Event>)
    ensures |events| == |texts|
    ensures forall i :: 0 <= i < |texts| ==> events[i] == TelitOutput(texts[i])
  {
    if texts == [] then [] else [TelitOutput(texts[0])] + TelitOutputs(texts[1..])
  }

  /** Running a sequence that begins with `e` is reacting to `e` and running the rest. */
  lemma RunCons(p: Panel, e: Event, rest: seq<Event>)
    ensures Run(p, [e] + rest) == Run(React(p, e).panel, rest)
  {
    assert ([e] + rest)[0] == e && ([e] + rest)[1..] == rest;
  }

  /** Running two sequences one after the other is running their concatenation. */
  lemma {:induction false} RunAppend(p: Panel, first: seq<Event>, second: seq<Event>)
    ensures Run(p, first + second) == Run(Run(p, first), second)
    decreases |first|
  {
    if first == [] {
      assert first + second == second;
    } else {
      assert first + second == [first[0]] + (first[1..] + second);
      RunCons(p, first[0], first[1..] + second);
      RunAppend(React(p, first[0]).panel, first[1..], second);
    }
  }

  /** Each marked chunk adds one step: n marked chunks advance the count by n. */
  lemma {:induction false} MarkedChunksAdvance(p: Panel, texts: seq<string>)
    requires AllMarked(texts) && texts != [] && p.total != 0
    ensures Run(p, TelitOutputs(texts)) == Advance(p, |texts|)
    decreases |texts|
  {
    assert ImageMarkerIn(texts[0]) != 0;
    RunCons(p, TelitOutput(texts[0]), TelitOutputs(texts[1..]));
    if texts[1..] != [] {
      assert AllMarked(texts[1..]) by {
        forall i | 0 <= i < |texts[1..]| ensures ImageMarkerIn(texts[1..][i]) != 0 {
          assert texts[1..][i] == texts[i + 1];
        }
      }
      MarkedChunksAdvance(Advance(p, 1), texts[1..]);
    }
  }

  /**
   * A fully successful "Beide" run (programmer exit 0, COM6 open, four image
   * markers) ends at step 7 of 8 (87 percent), not 8 of 8, and counts one run.
   */
  lemma BothRunEndsAtSevenOfEight(p: Panel, ipecmdPath: string, hexPath: string,
                                  workDir: seq<DirEntry>, texts: seq<string>)
    requires ipecmdPath != "" && hexPath != "" && |texts| == 4 && AllMarked(texts)
    ensures Run(p, [FlashClicked(ipecmdPath, hexPath, Both, workDir, true), ProgrammerFinished(0, Both),
                    SerialCommandDue(true)] + TelitOutputs(texts))
         == Panel(7, 8, 87, p.counter + 1)
  {
    var e1, e2, e3 := FlashClicked(ipecmdPath, hexPath, Both, workDir, true), ProgrammerFinished(0, Both),
                      SerialCommandDue(true);
    var p1 := React(p, e1).panel;
    assert p1 == Panel(1, 8, 12, p.counter);
    var p2 := React(p1, e2).panel;
    assert p2 == Panel(2, 8, 25, p.counter + 1);
    var p3 := React(p2, e3).panel;
    assert p3 == Panel(3, 8, 37, p.counter + 1);
    assert [e1, e2, e3] == [e1] + ([e2] + ([e3] + []));
    RunCons(p, e1, [e2] + ([e3] + []));
    RunCons(p1, e2, [e3] + []);
    RunCons(p2, e3, []);
    RunAppend(p, [e1, e2, e3], TelitOutputs(texts));
    MarkedChunksAdvance(p3, texts);
  }

  /**
   * In mode "Nur MCU" the serial step still follows the programmer and
   * schedules the Telit flash, so the count reaches 3 of 2 and 150 is passed
   * to the bar.
   */
  lemma McuOnlyOvershoots(p: Panel, ipecmdPath: string, hexPath: string, workDir: seq<DirEntry>)
    requires ipecmdPath != "" && hexPath != ""
    ensures var p2 := Run(p, [FlashClicked(ipecmdPath, hexPath, McuOnly, workDir, true), ProgrammerFinished(0, McuOnly)]);
      && React(p2, SerialCommandDue(true)) == Reaction(Panel(3, 2, 150, p.counter), After(1000, TelitFlash), CommandFrame)
  {
    var e1, e2 := FlashClicked(ipecmdPath, hexPath, McuOnly, workDir, true), ProgrammerFinished(0, McuOnly);
    var p1 := React(p, e1).panel;
    assert p1 == Panel(1, 2, 50, p.counter);
    var p2 := React(p1, e2).panel;
    assert p2 == Panel(2, 2, 100, p.counter);
    assert [e1, e2] == [e1] + ([e2] + []);
    RunCons(p, e1, [e2] + []);
    RunCons(p1, e2, []);
    assert Run(p, [e1, e2]) == p2;
    assert Advance(p2, 1) == Panel(3, 2, 150, p.counter);
    assert React(p2, SerialCommandDue(true)) == OnSerialCommandDue(p2, true);
  }

  /**
   * When a Telit image is set, the Telit flash scheduled in mode "Nur MCU"
   * runs too, and its four image markers carry the count on to 7 of 2 (350
   * passed to the bar); the run is not counted.
   */
  lemma McuOnlyRunReachesSevenOfTwo(p: Panel, ipecmdPath: string, hexPath: string,
                                    workDir: seq<DirEntry>, texts: seq<string>)
    requires ipecmdPath != "" && hexPath != "" && |texts| == 4 && AllMarked(texts)
    ensures Run(p, [FlashClicked(ipecmdPath, hexPath, McuOnly, workDir, true), ProgrammerFinished(0, McuOnly),
                    SerialCommandDue(true)] + TelitOutputs(texts))
         == Panel(7, 2, 350, p.counter)
  {
    var e1, e2, e3 := FlashClicked(ipecmdPath, hexPath, McuOnly, workDir, true), ProgrammerFinished(0, McuOnly),
                      SerialCommandDue(true);
    var p1 := React(p, e1).panel;
    assert p1 == Panel(1, 2, 50, p.counter);
    var p2 := React(p1, e2).panel;
    assert p2 == Panel(2, 2, 100, p.counter);
    var p3 := React(p2, e3).panel;
    assert p3 == Panel(3, 2, 150, p.counter);
    assert [e1, e2, e3] == [e1] + ([e2] + ([e3] + []));
    RunCons(p, e1, [e2] + ([e3] + []));
    RunCons(p1, e2, [e3] + []);
    RunCons(p2, e3, []);
    RunAppend(p, [e1, e2, e3], TelitOutputs(texts));
    MarkedChunksAdvance(p3, texts);
  }

  /** A successful "Nur Telit" run (COM6 open, four image markers) ends at 6 of 6 (100 percent) and is not counted. */
  lemma TelitOnlyRunCompletes(p: Panel, ipecmdPath: string, hexPath: string,
                              workDir: seq<DirEntry>, texts: seq<string>)
    requires ipecmdPath != "" && |texts| == 4 && AllMarked(texts)
    ensures Run(p, [FlashClicked(ipecmdPath, hexPath, TelitOnly, workDir, true)] + TelitOutputs(texts))
         == Panel(6, 6, 100, p.counter)
  {
    var e1 := FlashClicked(ipecmdPath, hexPath, TelitOnly, workDir, true);
    var p1 := React(p, e1).panel;
    assert p1 == Panel(2, 6, 33, p.counter);
    RunCons(p, e1, TelitOutputs(texts));
    MarkedChunksAdvance(p1, texts);
  }

  // ---------------------------------------------------------------------
  // The window
  // ---------------------------------------------------------------------

  /** The programmer window's progress state and its handlers. */
  class FlashWidget {
    var currentStep: int
    var totalSteps: int
    var counterValue: int
    /** The value last handed to the progress bar. */
    var progressValue: int

    function View(): Panel
      reads this
    {
      Panel(currentStep, totalSteps, progressValue, counterValue)
    }

    /** A new window: no run yet, and the counter loaded from the saved configuration. */
    constructor (savedCounter: int)
      ensures View() == Panel(0, 0, 0, savedCounter) && Consistent(View())
    {
      currentStep := 0;
      totalSteps := 0;
      counterValue := savedCounter;
      progressValue := 0;
    }

    /** update_progress; `ok` is false where the division by a total of 0 raises. */
    method UpdateProgress(increment: int) returns (ok: bool)
      modifies this
      ensures ok == (old(totalSteps) != 0)
      ensures View() == Advance(old(View()), increment)
    {
      currentStep := currentStep + increment;
      ok := totalSteps != 0;
      if ok {
        progressValue := Percent(currentStep, totalSteps);
      }
    }

    /** update_counter, with the text the mode chooser shows at the time. */
    method UpdateCounter(option: string)
      modifies this
      ensures View() == CountRun(old(View()), option)
    {
      if option == Both {
        counterValue := counterValue + 1;
      }
    }

    /** send_serial_command; `portOpens` says whether COM6 could be opened. */
    method SendSerialCommand(portOpens: bool) returns (next: Next, sent: string)
      modifies this
      ensures Reaction(View(), next, sent) == OnSerialCommandDue(old(View()), portOpens)
    {
      if !portOpens {
        return Halt(SerialUnavailable), "";
      }
      sent := CommandFrame;
      var ok := UpdateProgress(1);
      next := if ok then After(1000, TelitFlash) else Halt(ZeroTotalSteps);
    }

    /** flash_button_clicked, with the paths and mode shown in the window. */
    method FlashButtonClicked(ipecmdPath: string, hexPath: string, option: string,
                              workDir: seq<DirEntry>, portOpens: bool) returns (next: Next, sent: string)
      modifies this
      ensures Reaction(View(), next, sent) == OnFlashClicked(old(View()), ipecmdPath, hexPath, option, workDir, portOpens)
    {
      if ipecmdPath == "" {
        return Halt(ProgrammerPathNotSet), "";
      }
      currentStep := 0;
      if option == Both {
        totalSteps := 8;
      } else if option == McuOnly {
        totalSteps := 2;
      } else if option == TelitOnly {
        totalSteps := 6;
      }
      var ok := UpdateProgress(1);
      sent := "";
      if !ok {
        next := Halt(ZeroTotalSteps);
      } else if option == Both || option == McuOnly {
        next := FlashMcu(ipecmdPath, hexPath, workDir);
      } else if option == TelitOnly {
        next, sent := SendSerialCommand(portOpens);
      } else {
        next := Idle;
      }
    }

    /** flash_finished, with the programmer's exit code and the mode shown now. */
    method FlashFinished(exitCode: int, option: string) returns (next: Next)
      modifies this
      ensures Reaction(View(), next, "") == OnProgrammerFinished(old(View()), exitCode, option)
    {
      if exitCode == 0 {
        UpdateCounter(option);
        var ok := UpdateProgress(1);
        next := if ok then After(5000, SerialCommand) else Halt(ZeroTotalSteps);
      } else if exitCode == 36 {
        next := Halt(InvalidCmdlineArg);
      } else {
        next := Halt(ProgrammingFailed(exitCode));
      }
    }

    /** read_telit_output, with the chunk of standard output just read. */
    method ReadTelitOutput(text: string) returns (next: Next)
      modifies this
      ensures Reaction(View(), next, "") == OnTelitOutput(old(View()), text)
    {
      next := Idle;
      if ImageMarkerIn(text) != 0 {
        var ok := UpdateProgress(1);
        if !ok {
          next := Halt(ZeroTotalSteps);
        }
      }
    }
  }

  // ---------------------------------------------------------------------
  // The firmware verification over COM6
  // ---------------------------------------------------------------------

  /**
   * FirmwareVerificationThread.run over the lines received before the
   * deadline: each line is stripped and tested for the version tag; the loop
   * stops at the first line that has it. `linesRead` is how many lines were
   * taken.
   */
  method VerifyFirmware(portOpens: bool, lines: seq<string>) returns (verified: bool, linesRead: nat)
    ensures !portOpens ==> !verified && linesRead == 0
    ensures verified <==> portOpens && exists i :: 0 <= i < |lines| && Text.Contains(lines[i], SwVersionTag)
    ensures verified ==> 0 < linesRead <= |lines| && Text.Contains(lines[linesRead - 1], SwVersionTag)
    ensures verified ==> forall i :: 0 <= i < linesRead - 1 ==> !Text.Contains(lines[i], SwVersionTag)
    ensures portOpens && !verified ==> linesRead == |lines|
  {
    verified, linesRead := false, 0;
    if !portOpens {
      return;
    }
    var running := true;
    while running && linesRead < |lines|
      invariant linesRead <= |lines|
      invariant running <==> !verified
      invariant !verified ==> forall i :: 0 <= i < linesRead ==> !Text.Contains(lines[i], SwVersionTag)
      invariant verified ==> 0 < linesRead && Text.Contains(lines[linesRead - 1], SwVersionTag)
      invariant verified ==> forall i :: 0 <= i < linesRead - 1 ==> !Text.Contains(lines[i], SwVersionTag)
    {
      var line := Text.Strip(lines[linesRead], Text.Unicode);
      Text.StripKeepsOccurrence(lines[linesRead], SwVersionTag, Text.Unicode);
      linesRead := linesRead + 1;
      if Text.Contains(line, SwVersionTag) {
        verified := true;
        running := false;
      }
    }
  }
}
