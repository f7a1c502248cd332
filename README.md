# WE310 production flasher — a Dafny model

This project models the two pieces of the WE310 production flashing tool that
carry its logic:

- **The OTA image generator** (`we310_tools/ota_generate.py`). It prefixes a raw
  firmware binary with a 32-byte little-endian header. The header holds the
  version parsed from hex, the format number 1, the signature `OTA1`, the header
  length 0x18, an additive 32-bit checksum of the payload, the payload size, the
  offset 0x20 and a reserved word 0xFFFFFFFF. The header is written by a
  sequence of appends into a destination file that is deleted and recreated
  first.
  - Module `OtaGenerate` (`ota_generate.dfy`) gives the byte layout as the
    function `Image` and its inverse `Decode`.
  - It parses the version with Python 2.7's `int(s, 16)` grammar. The file
    names `python3` on its first line, but it only runs under Python 2: the
    `print` statement at line 47 does not compile under Python 3, and
    `ord(data[i])` at line 31 needs the bytes read to be a `str`. Accordingly
    `struct.pack('<I', …)` follows 2.7, which raises on a value outside
    [0, 2^32) (2.6 masked it with a warning).
  - The checksum is a loop method proved equal to the payload sum modulo 2^32.
  - A class `OutputFile` stands for the destination file. `OtaGenerate` performs
    the same appends in the same order. Its contract ties the final file
    contents and the outcome to the specification function `Generate`, including
    what a run that fails halfway leaves behind.
- **The flash-sequence controller** of the programmer window (`widget.py`). A
  run flashes the MCU with `ipecmd`, sends a command frame to the MCU on COM6,
  and flashes the Telit module with the vendor tool. Meanwhile it counts steps,
  passes a percentage to a progress bar, and counts successful MCU
  programmings made while the mode chooser shows "Beide" (both chips).
  - Module `Widget` (`widget.dfy`) has the class `FlashWidget` with the window's
    four numbers and its handlers.
  - Each handler is specified by a function on `Panel` values (`OnFlashClicked`,
    `OnProgrammerFinished`, `OnSerialCommandDue`, `OnTelitOutput`, gathered in
    `React`).
  - Whole runs are folds of `React` over events (`Run`). The lemmas about runs
    cover the step totals per mode, the counter, and the three scenarios the
    code actually produces. A full "Beide" run ends at 7 of 8. A "Nur MCU" run
    passes its total: 3 of 2 (150) after the serial step, and 7 of 2 (350)
    once the Telit flash that follows prints its four markers, when a Telit
    image is set. A "Nur Telit" run ends at 6 of 6.
  - The COM6 firmware-version check is the loop method `VerifyFirmware`.

Module `Text` (`text.dfy`) holds the pieces of Python's `str` used by the
controller: the substring test `p in s`, and `strip()` with Python's whitespace
class. It also proves that stripping never changes whether a marker that begins
and ends with a non-space occurs. Module `Common` (`common.dfy`) holds `Option`
and `Result`.

The outside world comes in as parameters:

- the exit code of the programmer;
- whether COM6 opens;
- the chunks of tool output;
- the lines received from the MCU;
- the working-directory listing;
- whether the binary could be read.

What a handler starts or schedules (a process with its argument vector, a timer
with its delay) goes out as a `Next` value.

Behaviours of the code a reader might not expect, each proved about the
model:

- **The counter counts programmings, not finished runs.** `update_counter`
  (widget.py) runs when the programmer exits with code 0, before the serial
  step and the Telit flash, and it reads the mode chooser at that moment, not
  the mode the run started with. `ProgrammerFinished` therefore carries the
  mode shown when the programmer finishes.
- **"Nur MCU" goes on after the MCU.** In widget.py a successful programmer
  exit schedules the serial command, and the serial command schedules the
  Telit flash, whatever the mode. The step count therefore passes the total
  and 150 is passed to the bar (`McuOnlyOvershoots`). With a Telit image set,
  the Telit flash's four markers take it on to 7 of 2 and 350
  (`McuOnlyRunReachesSevenOfTwo`).
- **A full "Beide" run stops at 87 percent.** Its total is 8, and nothing in
  widget.py advances the count after image 4 of 4, which is step 7
  (`BothRunEndsAtSevenOfEight`).
- **"Nur Telit" needs a programmer path too.** The flash button of widget.py
  refuses to start without the `ipecmd` path in every mode
  (`ClickWithoutProgrammerPath`).
- **Step 1 is counted at the click,** before any tool runs.
- **An invalid version leaves an empty file.** ota_generate.py recreates the
  destination file before it parses the version (`FailedRunLeavesNoImage`).

## Model

| member | source | states |
|---|---|---|
| OtaGenerate.PackU32 | we310_tools/ota_generate.py:5-9 | `struct.pack('<I', v)`: four bytes, least significant first; `UnpackPack` and `PackUnpack` make it a bijection onto 4-byte strings |
| OtaGenerate.UnpackU32 | we310_tools/ota_generate.py:5-9 | the value a 4-byte little-endian field holds, always below 2^32 |
| OtaGenerate.UnpackPack | we310_tools/ota_generate.py:5-9 | reading back a packed `<I` field gives the value that was packed |
| OtaGenerate.PackUnpack | we310_tools/ota_generate.py:5-9 | every 4-byte field is the packing of the value it reads as |
| OtaGenerate.PackInjective | we310_tools/ota_generate.py:17 | two versions in range with the same field bytes are equal |
| OtaGenerate.ParseHexInt | we310_tools/ota_generate.py:17 | Python 2's `int(fw_ver, 16)`: C whitespace, optional sign, whitespace, optional `0x`/`0X`, hex digits, whitespace, or ValueError (None); its meaning is pinned by the parse lemmas below |
| OtaGenerate.HexDigit | we310_tools/ota_generate.py:17 | the digit written for d reads back as d under `int(_, 16)` |
| OtaGenerate.HexString | we310_tools/ota_generate.py:17 | the hex spelling of a number is a nonempty string of hex digits |
| OtaGenerate.HexValueOfHexString | we310_tools/ota_generate.py:17 | the hex spelling of v has value v |
| OtaGenerate.ParseUnsigned | we310_tools/ota_generate.py:17 | without surrounding whitespace or a sign, `int(s, 16)` is just the digit parse (optional 0x prefix) |
| OtaGenerate.ParseHexDigitsPlain | we310_tools/ota_generate.py:17 | a run of hex digits, with or without `0x`, parses to its value |
| OtaGenerate.ParseHexString | we310_tools/ota_generate.py:17 | the version parse inverts the hex spelling, with or without `0x` |
| OtaGenerate.ParseSkipsSurroundingSpace | we310_tools/ota_generate.py:17 | C whitespace before and after an unsigned version is ignored: the parse equals the digit parse of what it surrounds |
| OtaGenerate.MagnitudeChars | we310_tools/ota_generate.py:17 | every character of an accepted magnitude is a hex digit or the `x`/`X` of the prefix |
| OtaGenerate.ForeignCharacterRejected | we310_tools/ota_generate.py:17 | any string holding a character other than C whitespace, a sign, `x`/`X` or a hex digit is rejected |
| OtaGenerate.NonHexVersionRejected | we310_tools/ota_generate.py:17 | examples: `ZZZZ`, a bare `0x` and the empty string are rejected |
| OtaGenerate.Checksum | we310_tools/ota_generate.py:29-33 | the loop with its masking step yields the payload's byte sum modulo 2^32 and stays within 32 bits |
| OtaGenerate.HeaderFields | we310_tools/ota_generate.py:17-40 | the header is eight fields of four bytes each |
| OtaGenerate.Header | we310_tools/ota_generate.py:18-40 | the eight fields appended in write order; `HeaderIsFields` and `ImageLayout` fix where each sits |
| OtaGenerate.Image | we310_tools/ota_generate.py:18-41 | the header with the checksum `Sum % 2^32` and the payload size, followed by the payload; inverted by `Decode` (`DecodeImage`, `ImageOfDecode`) |
| OtaGenerate.ConcatField | we310_tools/ota_generate.py:18-40 | in a concatenation of four-byte fields, field k sits at bytes 4k..4k+4 |
| OtaGenerate.HeaderIsFields | we310_tools/ota_generate.py:18-40 | the append sequence is the concatenation of the eight fields in order |
| OtaGenerate.SameFields | we310_tools/ota_generate.py:18-40 | two headers that agree field by field are equal |
| OtaGenerate.ImageField | we310_tools/ota_generate.py:18-41 | field k of an image is the k-th header field, and the payload follows the header |
| OtaGenerate.ImageLayout | we310_tools/ota_generate.py:5-41 | the image is version, 1, `OTA1`, 0x18, checksum, size, 0x20, 0xFFFFFFFF, then the payload, at fixed offsets |
| OtaGenerate.Decode | we310_tools/ota_generate.py:18-41 | a decoded image is exactly 32 bytes longer than its payload and has a 32-bit version |
| OtaGenerate.DecodeImage | we310_tools/ota_generate.py:18-41 | decoding a generated image gives back the version and the payload |
| OtaGenerate.ImageOfDecode | we310_tools/ota_generate.py:18-41 | any byte string that decodes is the image of what it decodes to |
| OtaGenerate.Generate | we310_tools/ota_generate.py:11-42 | the destination file and outcome after a run: empty on a bad or out-of-range version, 16 bytes on an unreadable binary, 20 bytes on a payload of 2^32 bytes or more, else the image; see `GenerateSucceeds` and `FailedRunLeavesNoImage` |
| OtaGenerate.GenerateSucceeds | we310_tools/ota_generate.py:11-42 | a run completes iff the version parses to a value in [0, 2^32) and the binary is readable and under 2^32 bytes; the file then holds the image |
| OtaGenerate.GeneratedImageDecodes | we310_tools/ota_generate.py:11-42 | the file of a completed run decodes to the requested version and the binary |
| OtaGenerate.FailedRunLeavesNoImage | we310_tools/ota_generate.py:12-38 | a failed run leaves fewer than 32 bytes, which never decode |
| OtaGenerate.OutputFile.constructor | we310_tools/ota_generate.py:12 | a file handle that exists with the given contents or is absent and empty |
| OtaGenerate.OutputFile.Remove | we310_tools/ota_generate.py:12-13 | removing an existing file leaves it absent and empty |
| OtaGenerate.OutputFile.OpenAppend | we310_tools/ota_generate.py:16 | opening for append creates the file if absent and keeps its contents |
| OtaGenerate.OutputFile.Write | we310_tools/ota_generate.py:18 | an append adds exactly the given bytes at the end |
| OtaGenerate.OtaGenerate | we310_tools/ota_generate.py:11-42 | the destination file ends up existing, holding exactly what `Generate` prescribes, including a partial header on failure, with the matching outcome |
| Text.Contains | widget.py:37 | Python's `p in s`, tried position by position; `ContainsIff` gives its meaning |
| Text.ContainsIff | widget.py:37 | Python's `p in s` holds iff `p` occurs at some index of `s` |
| Text.TrimStart | widget.py:35 | removing leading whitespace never lengthens a string; what it removes is stated by `TrimStartRemovesLeadingSpace` |
| Text.TrimEnd | widget.py:35 | removing trailing whitespace never lengthens a string; what it removes is stated by `TrimEndRemovesTrailingSpace` |
| Text.Strip | widget.py:35 | `str.strip()`: trailing then leading whitespace removed, as the two lemmas below state |
| Text.TrimStartRemovesLeadingSpace | widget.py:35 | the result is a suffix of the input, everything before it is whitespace, and it is empty or starts with a non-space |
| Text.TrimEndRemovesTrailingSpace | widget.py:35 | the result is a prefix of the input, everything after it is whitespace, and it is empty or ends with a non-space |
| Text.TrimStartOfPadded | widget.py:35 | whitespace in front of a string that starts with a non-space is removed, and nothing else |
| Text.TrimEndOfPadded | widget.py:35 | whitespace behind a string that ends with a non-space is removed, and nothing else |
| Text.LocateInTrimStart | widget.py:35 | a non-space character survives removal of leading whitespace, shifted by the amount removed |
| Text.LocateInTrimEnd | widget.py:35 | a non-space character survives removal of trailing whitespace at the same index |
| Text.TrimStartKeepsOccurrence | widget.py:35-37 | a marker starting with a non-space occurs after stripping leading whitespace iff it occurs before |
| Text.TrimEndKeepsOccurrence | widget.py:35-37 | a marker ending with a non-space occurs after stripping trailing whitespace iff it occurs before |
| Text.StripKeepsOccurrence | widget.py:35-37 | `marker in line.strip()` agrees with `marker in line` for markers with non-space ends |
| Widget.Percent | widget.py:109 | `int((step / total) * 100)` as integer division truncating toward zero; `PercentBounds` gives its range |
| Widget.PercentBounds | widget.py:106-110 | for totals up to 100 the value passed to the bar is never negative, is at most 100 iff the step has not passed the total, is 100 iff step equals total, and is 0 iff below one percent; past the total (3 of 2) it exceeds 100 |
| Widget.Advance | widget.py:106-110 | `update_progress`: the step grows by the increment and the bar is passed the new percentage, unless the total is 0 and the division raises |
| Widget.StepsFor | widget.py:159-166 | the total a mode sets: 8, 2 or 6; other chooser text keeps the previous total (`ClickStartsRun`, `ClickUnknownModeFirst`) |
| Widget.CountRun | widget.py:336-343 | `update_counter`: one more iff the chooser shows "Beide" (`CounterCountsBothSuccesses`) |
| Widget.McuCommand | widget.py:188-194 | the programmer's argument vector; `CommandsCarryPaths` states where the paths go |
| Widget.TelitCommand | widget.py:290-295 | the Telit tool's argument vector; `CommandsCarryPaths` states where the image goes |
| Widget.McuLaunch | widget.py:181-205 | `flash_mcu` as a value: missing hex file reported, else the work folders and the programmer's argument vector; `FlashMcu` agrees with it |
| Widget.CommandsCarryPaths | widget.py:188-194 | the programmer gets its path first and the hex file behind `-F`; the Telit tool gets the image behind `-d` and port COM7 |
| Widget.WorkFoldersMembers | widget.py:213-216 | a name is removed iff a directory entry of that name is a directory starting with `WE310_` |
| Widget.RemoveWe310Folders | widget.py:207-222 | the loop attempts removal of exactly the work folders, in listing order |
| Widget.FlashMcu | widget.py:181-205 | without a hex file nothing starts; otherwise the work folders are removed and the programmer starts with its argument vector |
| Widget.FlashTelitLaunch | widget.py:280-300 | the Telit tool starts iff an image file is set, with that file behind `-d`; otherwise the missing-file error |
| Widget.ImageMarkerIn | widget.py:306-317 | the image reported is the first of the four markers present in the chunk, tested in order 1..4, or none |
| Widget.OnFlashClicked | widget.py:139-179 | `flash_button_clicked` on the window's numbers; its promises are the three Click lemmas |
| Widget.OnProgrammerFinished | widget.py:237-248 | `flash_finished` on the window's numbers; its promises are `ProgrammerExitCodes` |
| Widget.OnSerialCommandDue | widget.py:265-278 | `send_serial_command` on the window's numbers; its promises are `SerialCommandOutcome` |
| Widget.OnTelitOutput | widget.py:302-317 | `read_telit_output` on the window's numbers; its promises are `TelitOutputAtMostOneStep` |
| Widget.React | widget.py:139-317 | dispatches an event to its handler; `ReactConsistent` states the invariant it keeps |
| Widget.Run | widget.py:139-343 | the numbers after a sequence of events; the run lemmas below state its properties |
| Widget.ClickStartsRun | widget.py:139-179 | a click in a known mode sets that mode's total (8, 2, 6), restarts at step 1 (2 when "Nur Telit" sends its frame), keeps the counter, and starts the programmer or the serial step |
| Widget.ClickWithoutProgrammerPath | widget.py:152-154 | without the programmer path nothing changes and nothing starts, in every mode |
| Widget.ClickUnknownModeFirst | widget.py:160-168 | an unknown mode before any run keeps the total at 0, so the first progress update raises |
| Widget.ProgrammerExitCodes | widget.py:237-248 | exit 0 advances one step, counts the programming if "Beide" is shown and schedules the serial command after 5 s; exit 36 and other codes change nothing and report |
| Widget.SerialCommandOutcome | widget.py:265-278 | when COM6 opens the frame `iRc0001DF\r\n` is written, one step is added and the Telit flash follows after 1 s; otherwise nothing changes |
| Widget.TelitOutputAtMostOneStep | widget.py:302-317 | a chunk of tool output adds one step iff it carries any image marker, and never touches total or counter |
| Widget.ReactConsistent | widget.py:106-343 | every handler keeps the step non-negative, the total one a mode sets, and the value last passed to the bar equal to the current percentage |
| Widget.RunConsistent | widget.py:106-343 | any sequence of events keeps the panel consistent |
| Widget.CounterCountsBothSuccesses | widget.py:237-243 | the counter grows by exactly the number of successful programmer exits while "Beide" is shown, whatever happens afterwards |
| Widget.StepsWithinRun | widget.py:237-317 | between clicks the total stays fixed and the step never goes back and grows by at most one per event |
| Widget.TelitOutputs | widget.py:302-304 | one output event per chunk, event i carrying chunk i |
| Widget.RunCons | widget.py:139-343 | handling an event and then the rest is handling the whole sequence |
| Widget.RunAppend | widget.py:139-343 | handling two event sequences one after the other is handling their concatenation |
| Widget.MarkedChunksAdvance | widget.py:302-317 | n chunks that each carry a marker advance the count by n |
| Widget.BothRunEndsAtSevenOfEight | widget.py:139-317 | a fully successful "Beide" run ends at step 7 of 8 with 87 passed to the bar and one programming counted |
| Widget.McuOnlyOvershoots | widget.py:174-176 | after a successful "Nur MCU" programming the serial step still runs, reaching 3 of 2 with 150 passed to the bar, and schedules the Telit flash |
| Widget.McuOnlyRunReachesSevenOfTwo | widget.py:276-317 | in "Nur MCU" with a Telit image set, a successful run whose Telit flash prints the four markers ends at 7 of 2 with 350 passed to the bar, uncounted |
| Widget.TelitOnlyRunCompletes | widget.py:177-179 | a successful "Nur Telit" run ends at 6 of 6 with 100 passed to the bar, uncounted |
| Widget.FlashWidget.constructor | widget.py:61-82 | a new window has no run and shows the saved counter |
| Widget.FlashWidget.UpdateProgress | widget.py:106-110 | the step grows by the increment; the bar is passed the truncated percentage, or the call raises when the total is 0 |
| Widget.FlashWidget.UpdateCounter | widget.py:336-343 | the counter grows by one iff the chooser shows "Beide" |
| Widget.FlashWidget.SendSerialCommand | widget.py:265-278 | the window's new state, the frame written and the next action are those of `OnSerialCommandDue` |
| Widget.FlashWidget.FlashButtonClicked | widget.py:139-179 | the window's new state, the frame written and the next action are those of `OnFlashClicked` |
| Widget.FlashWidget.FlashFinished | widget.py:237-248 | the window's new state and the next action are those of `OnProgrammerFinished` |
| Widget.FlashWidget.ReadTelitOutput | widget.py:302-317 | the window's new state and the next action are those of `OnTelitOutput` |
| Widget.VerifyFirmware | widget.py:25-46 | verified iff COM6 opens and some received line contains `SW-VER: V2`; the loop stops at the first such line and reads every line otherwise |

## Left out

- The Qt user interface is not modelled. This covers the debug window messages,
  the ClearDebug and IPECMDOutput check boxes, the hotkey, the AutoFlash label,
  the file dialogs, and the counter display.
- JSON persistence of paths and counter (`save_paths`, `load_paths`) is not
  modelled. It is I/O; the constructor takes the loaded counter as a parameter.
- `find_ipecmd` (a glob over a fixed Windows install path) is not modelled. It
  is filesystem I/O outside the sequence.
- QProcess, the serial port, QTimer and the working-directory listing become
  parameters and `Next` values. This covers the process exit code, whether COM6
  opens and can be written, the delays of 5000 ms and 1000 ms, the output
  chunks, and the directory entries. Process launch, real timing and
  concurrency are not modelled.
- Widget.VerifyFirmware: the 30-second deadline and the 20-second read timeout
  are not modelled. The lines given are the lines received before the
  deadline. Undecodable UTF-8 input is not modelled either.
- `start_firmware_verification` and `on_verification_complete` are not
  modelled, because nothing calls them. Their only call site is commented out
  in `flash_finished`.
- `telit_finished`, `read_flash_output`, `read_flash_error` and
  `read_telit_error` are not modelled. They only log and change no state.
- Widget.FlashWidget.UpdateProgress: the floating-point expression
  `int((current / total) * 100)` is modelled as integer division truncating
  toward zero. For the totals 2, 6 and 8, at the step counts a run reaches,
  the two agree, because the quotient is exact in binary or the truncation
  absorbs the rounding.
- Widget.FlashWidget.UpdateProgress: the model records the value passed to
  `QProgressBar.setValue`, not what the bar displays. A value outside the
  bar's range (150 at 3 of 2, with a 0..100 bar) leaves the bar as it was; the
  bar's range is set in the form file, which is not part of this model.
- Widget.FlashWidget.ReadTelitOutput: the chunk is taken as already decoded
  text. In widget.py `.decode()` raises on output that is not valid UTF-8,
  including a chunk that splits a multi-byte character, before the marker
  test, so such a chunk never advances the count; the model cannot express
  that chunk.
- The exit status argument of `flash_finished` is not modelled. The handler
  ignores it.
- Widget.RemoveWe310Folders: a failing `shutil.rmtree` is only reported by the
  source. The model lists the removals attempted, not their success.
- Widget.FlashWidget.SendSerialCommand: an open that succeeds followed by a
  failing write is not modelled separately. Both raise the same exception, so
  they are covered by `portOpens == false`.
- The command-line entry point of `ota_generate.py` is not modelled. It checks
  the argument count and prints the destination.
- OtaGenerate.OtaGenerate: the file size is taken to be the number of bytes
  read. The source reads the binary twice and takes its size from the
  filesystem. A file that changes while it is read is not modelled.
- OtaGenerate.OtaGenerate: memory is taken as unbounded. Under Python 2 the
  source reads the whole binary into memory and `range(bin_size)` builds a
  list of `bin_size` integers, so a binary of 2^32 bytes or more would in
  practice fail with MemoryError or OverflowError before the checksum field is
  written, leaving 16 bytes. The model's `PayloadTooLarge` outcome with 20
  bytes is what the code does only with enough memory.
- OtaGenerate.OtaGenerate: failures of the destination file itself (an open
  error, or a full disk) are not modelled.
- The `ota generate success` message is not modelled.
- Unicode normalisation is not modelled. Strings are sequences of code points.
