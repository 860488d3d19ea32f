// The backplane MCU firmware updater (mcu/updater.cpp): runImageUpdate, which
// writes an image to the MCU, reboots it and checks the new firmware, and the
// command line rules of its main.
module Updater {
  import opened Wrappers
  import opened McuApi
  import opened Flashing

  /** The exit code of a failed update. */
  const ExitUpdateFailed: int := 10
  const ExitSuccess: int := 0
  const ExitFailure: int := 1

  /** The calls runImageUpdate makes and its result, for an image file whose
    * contents are `image` (None when it cannot be read), the first call
    * getting answer `k`, and at most `attempts` pings after the reboot
    * (runImageUpdate makes 20). The version and board type read before
    * flashing are only displayed. */
  function UpdateRun(ans: seq<Answer>, k: nat, image: Option<seq<Byte>>, expected: string, forceErase: bool, attempts: nat)
    : (run: (seq<Call>, bool))
  {
    if image.None? || !SizeAccepted(|image.value|) then ([], false)
    else if At(ans, k).fails then ([Open], false)
    else if forceErase && At(ans, k + 3).fails then ([Open, GetFwVersion, GetBoardType, EraseFlash], false)
    else
      var pre := [Open, GetFwVersion, GetBoardType] + (if forceErase then [EraseFlash] else []);
      var rest := WriteRun(ans, k + |pre|, image.value, expected, forceErase, attempts);
      (pre + rest.0, rest.1)
  }

  /** From the first write on: a failed write ends the run, after the
    * recovery reboot unless the flash was erased first. */
  function WriteRun(ans: seq<Answer>, k: nat, image: seq<Byte>, expected: string, forceErase: bool, attempts: nat)
    : (run: (seq<Call>, bool))
  {
    var w := Writes(ans, k, image, 0);
    if w.1 then (w.0 + (if forceErase then [] else [Reboot]), false)
    else
      var rest := RebootRun(ans, k + |w.0|, expected, attempts);
      (w.0 + rest.0, rest.1)
  }

  /** From the reboot on: reboot, up to 20 pings, then a new driver whatever
    * the pings gave. */
  function RebootRun(ans: seq<Answer>, k: nat, expected: string, attempts: nat): (run: (seq<Call>, bool))
  {
    if At(ans, k).fails then ([Reboot], false)
    else
      var p := Pings(ans, k + 1, attempts);
      var rest := ReopenRun(ans, k + 1 + |p.0|, expected);
      ([Reboot] + p.0 + rest.0, rest.1)
  }

  /** A new driver, then the checks of the version and board type it reads:
    * both non-empty, and the version the expected one when one is given. */
  function ReopenRun(ans: seq<Answer>, k: nat, expected: string): (run: (seq<Call>, bool))
  {
    if At(ans, k).fails then ([Open], false)
    else
      var version := At(ans, k + 1).text;
      var boardType := At(ans, k + 2).text;
      ([Open, GetFwVersion, GetBoardType],
       version != "" && boardType != "" && (expected == "" || version == expected))
  }

  /** The write loop: reads the image 128 bytes at a time until a read comes
    * up empty or short, writing each chunk; a failed write ends the loop.
    * `bytesRead`, the bytes of the chunks written successfully, is also the
    * position in the file. */
  method WriteImage(mcu: Mcu, image: seq<Byte>) returns (failed: bool, bytesRead: nat)
    modifies mcu`trace
    ensures var w := Writes(mcu.answers, |old(mcu.trace)|, image, 0);
      mcu.trace == old(mcu.trace) + w.0 && failed == w.1
    ensures !failed ==> bytesRead == |image|
    ensures failed ==> bytesRead < |image|
  {
    ghost var t0 := mcu.trace;
    ghost var ans := mcu.answers;
    ghost var whole := Writes(ans, |t0|, image, 0);
    ghost var done: seq<Call> := [];
    assert done + whole.0 == whole.0;
    var eof := false;
    failed := false;
    bytesRead := 0;
    while !eof && !failed
      invariant bytesRead <= |image|
      invariant mcu.trace == t0 + done && mcu.answers == ans
      invariant eof && !failed ==> bytesRead == |image|
      invariant failed ==> bytesRead < |image| && whole.0 == done && whole.1
      invariant !failed ==>
        whole == (done + Writes(ans, |t0| + |done|, image, bytesRead).0, Writes(ans, |t0| + |done|, image, bytesRead).1)
      decreases |image| - bytesRead, !eof, !failed
    {
      var bytes := Min(ChunkSize, |image| - bytesRead);
      eof := bytes < ChunkSize;
      if bytes > 0 {
        var chunk := image[bytesRead..bytesRead + bytes];
        WriteOneChunk(ans, |t0| + |done|, image, bytesRead, done, whole);
        assert chunk == Chunk(image, bytesRead);
        var r := mcu.WriteFlash(chunk);
        done := done + [WriteFlash(chunk)];
        if r.Err? {
          failed := true;
        } else {
          bytesRead := bytesRead + bytes;
        }
      }
    }
  }

  /** A new driver and the final checks. */
  method ReopenAndCheck(mcu: Mcu, expected: string) returns (ok: bool)
    modifies mcu`trace
    ensures var run := ReopenRun(mcu.answers, |old(mcu.trace)|, expected);
      mcu.trace == old(mcu.trace) + run.0 && ok == run.1
  {
    var factory := mcu.Open();
    if factory.Err? {
      return false;
    }
    var fwVer := mcu.GetFwVersion();
    var devType := mcu.GetBoardType();
    if fwVer == "" || devType == "" {
      return false;
    }
    if expected != "" && fwVer != expected {
      return false;
    }
    ok := true;
  }

  /** The reboot, the ping loop, a new driver and the final checks. */
  method RebootAndCheck(mcu: Mcu, expected: string, attempts: nat) returns (ok: bool)
    modifies mcu`trace
    ensures var run := RebootRun(mcu.answers, |old(mcu.trace)|, expected, attempts);
      mcu.trace == old(mcu.trace) + run.0 && ok == run.1
  {
    ghost var t0 := mcu.trace;
    var rebooted := mcu.Reboot();
    if rebooted.Err? {
      return false;
    }
    ghost var ans := mcu.answers;
    ghost var p := Pings(ans, |t0| + 1, attempts);
    var alive := PingUntilBack(mcu, attempts);
    ghost var t1 := mcu.trace;
    assert t1 == t0 + [Reboot] + p.0;
    ghost var r := ReopenRun(ans, |t1|, expected);
    ok := ReopenAndCheck(mcu, expected);
    assert mcu.trace == t1 + r.0 && ok == r.1;
    assert RebootRun(ans, |t0|, expected, attempts) == ([Reboot] + p.0 + r.0, r.1);
    assert mcu.trace == t0 + ([Reboot] + p.0 + r.0);
  }

  /** The write loop and what follows it: the recovery reboot after a failed
    * write, skipped when the flash was erased first; otherwise the reboot
    * and the checks. */
  method WriteAndCheck(mcu: Mcu, image: seq<Byte>, expected: string, forceErase: bool, attempts: nat) returns (ok: bool)
    modifies mcu`trace
    ensures var run := WriteRun(mcu.answers, |old(mcu.trace)|, image, expected, forceErase, attempts);
      mcu.trace == old(mcu.trace) + run.0 && ok == run.1
  {
    ghost var t0 := mcu.trace;
    ghost var w := Writes(mcu.answers, |t0|, image, 0);
    var failed, bytesRead := WriteImage(mcu, image);
    assert mcu.trace == t0 + w.0 && failed == w.1;
    if failed {
      if !forceErase {
        var _ := mcu.Reboot();
      }
      return false;
    }
    ghost var t1 := mcu.trace;
    ok := RebootAndCheck(mcu, expected, attempts);
    assert mcu.trace == t0 + (w.0 + mcu.trace[|t1|..]);
  }

  /** runImageUpdate. `image` is what the file holds, None when its size
    * cannot be taken or it cannot be opened. */
  method RunImageUpdate(mcu: Mcu, image: Option<seq<Byte>>, expected: string, forceErase: bool)
    returns (ok: bool)
    modifies mcu`trace
    ensures var run := UpdateRun(mcu.answers, |old(mcu.trace)|, image, expected, forceErase, PingAttempts);
      mcu.trace == old(mcu.trace) + run.0 && ok == run.1
  {
    if image.None? || !SizeAccepted(|image.value|) {
      return false;
    }
    var factory := mcu.Open();
    if factory.Err? {
      return false;
    }
    var fwVer := mcu.GetFwVersion();
    var devType := mcu.GetBoardType();
    if forceErase {
      var erased := mcu.EraseFlash();
      if erased.Err? {
        return false;
      }
    }
    ok := WriteAndCheck(mcu, image.value, expected, forceErase, PingAttempts);
  }

  /** Images outside [64, 128 KiB] are turned down before the MCU is
    * contacted; the bounds themselves are accepted. */
  lemma UpdateRejectsSize(ans: seq<Answer>, k: nat, image: Option<seq<Byte>>, expected: string, forceErase: bool, attempts: nat)
    ensures UpdateRun(ans, k, image, expected, forceErase, attempts).0 == [] <==>
      image.None? || !SizeAccepted(|image.value|)
    ensures UpdateRun(ans, k, image, expected, forceErase, attempts).0 == [] ==> !UpdateRun(ans, k, image, expected, forceErase, attempts).1
    ensures SizeAccepted(64) && SizeAccepted(131072) && !SizeAccepted(63) && !SizeAccepted(131073)
  {
  }

  /** The last three of `calls`, the first of them getting answer `k`, are
    * a new driver that read a non-empty version and board type, and the
    * expected version when one is given. */
  predicate Reidentified(ans: seq<Answer>, k: nat, calls: seq<Call>, expected: string)
  {
    var n := |calls|;
    n >= 3 && calls[n - 3] == Open && calls[n - 2] == GetFwVersion && calls[n - 1] == GetBoardType &&
    var version := At(ans, k + n - 2).text;
    version != "" && At(ans, k + n - 1).text != "" && (expected == "" || version == expected)
  }

  lemma ReidentifiedAfter(ans: seq<Answer>, k: nat, a: seq<Call>, b: seq<Call>, expected: string)
    requires Reidentified(ans, k + |a|, b, expected)
    ensures Reidentified(ans, k, a + b, expected)
  {
    var n := |a + b|;
    assert (a + b)[n - 3] == b[|b| - 3] && (a + b)[n - 2] == b[|b| - 2] && (a + b)[n - 1] == b[|b| - 1];
  }

  /** After a successful reboot command the phase makes only the reboot,
    * pings and the re-identification, none of which touches the flash; its
    * success means it ended with a successful re-identification. */
  lemma {:induction false} RebootRunShape(ans: seq<Answer>, k: nat, expected: string, attempts: nat)
    ensures var run := RebootRun(ans, k, expected, attempts);
      NoFlashing(run.0) && |run.0| >= 1 && run.0[0] == Reboot
    ensures var run := RebootRun(ans, k, expected, attempts);
      run.1 ==> Reidentified(ans, k, run.0, expected)
  {
    PingsShape(ans, k + 1, attempts);
  }

  /** The re-identification follows the pings even when none of them got an
    * answer: the reboot, all `attempts` pings, then a new driver. */
  lemma RebootRunAfterTimeout(ans: seq<Answer>, k: nat, expected: string, attempts: nat)
    requires !At(ans, k).fails
    requires Failed(ans, k + 1, attempts)
    ensures var run := RebootRun(ans, k, expected, attempts);
      |run.0| >= attempts + 2 && run.0[attempts + 1] == Open &&
      forall j :: 1 <= j <= attempts ==> run.0[j] == Ping
  {
    PingsShape(ans, k + 1, attempts);
    var p := Pings(ans, k + 1, attempts);
    var run := RebootRun(ans, k, expected, attempts);
    forall j | 1 <= j <= attempts
      ensures run.0[j] == Ping
    {
      assert run.0[j] == p.0[j - 1];
    }
  }

  /** ... and that re-identification can succeed: an MCU that answers no
    * ping but then opens and reports its version still passes. */
  lemma RebootRunSucceedsAfterTimeout(attempts: nat)
    ensures var up := Answer(false, "1.0", false, McuDriver.DriveType.Unknown, 0);
      var ans := [up] + seq(attempts, _ => Silent) + [up, up, up];
      Failed(ans, 1, attempts) && RebootRun(ans, 0, "", attempts).1
  {
    var up := Answer(false, "1.0", false, McuDriver.DriveType.Unknown, 0);
    var ans := [up] + seq(attempts, _ => Silent) + [up, up, up];
    assert Failed(ans, 1, attempts) by {
      forall j | 1 <= j < 1 + attempts
        ensures At(ans, j).fails
      {
        assert ans[j] == Silent;
      }
    }
    PingsShape(ans, 1, attempts);
    var p := Pings(ans, 1, attempts);
    assert |p.0| == attempts;
    assert ans[1 + attempts] == up && ans[2 + attempts] == up && ans[3 + attempts] == up;
  }

  /** A failed write ends the run: it fails, wrote a prefix of the image,
    * never reconnects, and its last call is the recovery reboot exactly when
    * the flash was not erased first. */
  lemma WriteRunFailure(ans: seq<Answer>, k: nat, image: seq<Byte>, expected: string, forceErase: bool, attempts: nat)
    requires Writes(ans, k, image, 0).1
    ensures var run := WriteRun(ans, k, image, expected, forceErase, attempts);
      !run.1 && |run.0| > 0 && (run.0[|run.0| - 1] == Reboot <==> !forceErase)
    ensures var run := WriteRun(ans, k, image, expected, forceErase, attempts);
      |Written(run.0)| <= |image| && Written(run.0) == image[..|Written(run.0)|]
    ensures var run := WriteRun(ans, k, image, expected, forceErase, attempts);
      forall j :: 0 <= j < |run.0| ==> run.0[j] != Ping && run.0[j] != Open
  {
    var w := Writes(ans, k, image, 0).0;
    WritesShape(ans, k, image, 0);
    WritesStopAtFailure(ans, k, image, 0);
    var tail: seq<Call> := if forceErase then [] else [Reboot];
    WrittenAppend(w, tail);
    WrittenNoWrites(tail);
    assert w + tail == WriteRun(ans, k, image, expected, forceErase, attempts).0;
    assert w + [] == w;
  }

  /** A write phase that does not fail, and what follows it, never erases. */
  lemma WriteRunNoErase(ans: seq<Answer>, k: nat, image: seq<Byte>, expected: string, forceErase: bool, attempts: nat)
    ensures var run := WriteRun(ans, k, image, expected, forceErase, attempts);
      forall j :: 0 <= j < |run.0| ==> !run.0[j].EraseFlash?
  {
    var w := Writes(ans, k, image, 0);
    WritesShape(ans, k, image, 0);
    if !w.1 {
      RebootRunShape(ans, k + |w.0|, expected, attempts);
    }
  }

  /** The erase is issued only when it is forced, and then as the fourth
    * call, after the identification reads and before any write; without it
    * the first write is the fourth call. */
  lemma UpdateEraseFirst(ans: seq<Answer>, k: nat, image: Option<seq<Byte>>, expected: string, forceErase: bool, attempts: nat)
    ensures var run := UpdateRun(ans, k, image, expected, forceErase, attempts);
      forall j :: 0 <= j < |run.0| && run.0[j].EraseFlash? ==> forceErase && j == 3
    ensures var run := UpdateRun(ans, k, image, expected, forceErase, attempts);
      forall j :: 0 <= j < |run.0| && run.0[j].WriteFlash? ==> j >= (if forceErase then 4 else 3)
  {
    if image.Some? && SizeAccepted(|image.value|) && !At(ans, k).fails && !(forceErase && At(ans, k + 3).fails) {
      var pre := [Open, GetFwVersion, GetBoardType] + (if forceErase then [EraseFlash] else []);
      var rest := WriteRun(ans, k + |pre|, image.value, expected, forceErase, attempts).0;
      WriteRunNoErase(ans, k + |pre|, image.value, expected, forceErase, attempts);
      var run := UpdateRun(ans, k, image, expected, forceErase, attempts).0;
      assert run == pre + rest;
      forall j | 0 <= j < |run|
        ensures run[j].EraseFlash? ==> forceErase && j == 3
        ensures run[j].WriteFlash? ==> j >= |pre|
      {
        if j >= |pre| {
          assert run[j] == rest[j - |pre|];
        }
      }
    }
  }

  /** A write run that succeeds wrote exactly the image, in order, and ends
    * with the successful re-identification. */
  lemma WriteRunSucceeds(ans: seq<Answer>, k: nat, image: seq<Byte>, expected: string, forceErase: bool, attempts: nat)
    requires WriteRun(ans, k, image, expected, forceErase, attempts).1
    ensures var run := WriteRun(ans, k, image, expected, forceErase, attempts).0;
      Written(run) == image && Reidentified(ans, k, run, expected)
  {
    var w := Writes(ans, k, image, 0).0;
    var rb := RebootRun(ans, k + |w|, expected, attempts);
    WriteRunRebooted(ans, k, image, expected, forceErase, attempts);
    WritesCover(ans, k, image, 0);
    assert image[0..] == image;
    RebootWritesNothing(ans, k + |w|, expected, attempts);
    WrittenAppend(w, rb.0);
    assert Written(w + rb.0) == image + [];
    RebootRunReidentifies(ans, k + |w|, expected, attempts);
    ReidentifiedAfter(ans, k, w, rb.0, expected);
  }

  /** The reboot phase writes nothing to the flash. */
  lemma RebootWritesNothing(ans: seq<Answer>, k: nat, expected: string, attempts: nat)
    ensures Written(RebootRun(ans, k, expected, attempts).0) == []
  {
    RebootRunShape(ans, k, expected, attempts);
    WrittenNoWrites(RebootRun(ans, k, expected, attempts).0);
  }

  /** A reboot phase that succeeds ends with the re-identification. */
  lemma RebootRunReidentifies(ans: seq<Answer>, k: nat, expected: string, attempts: nat)
    requires RebootRun(ans, k, expected, attempts).1
    ensures Reidentified(ans, k, RebootRun(ans, k, expected, attempts).0, expected)
  {
    RebootRunShape(ans, k, expected, attempts);
  }

  /** A successful update wrote exactly the image, in order, then read a
    * non-empty version and board type from a new driver, matching the
    * expected version when one is given. */
  lemma UpdateSucceeds(ans: seq<Answer>, k: nat, image: Option<seq<Byte>>, expected: string, forceErase: bool, attempts: nat)
    requires UpdateRun(ans, k, image, expected, forceErase, attempts).1
    ensures image.Some? && SizeAccepted(|image.value|)
    ensures Written(UpdateRun(ans, k, image, expected, forceErase, attempts).0) == image.value
    ensures Reidentified(ans, k, UpdateRun(ans, k, image, expected, forceErase, attempts).0, expected)
  {
    var pre := [Open, GetFwVersion, GetBoardType] + (if forceErase then [EraseFlash] else []);
    UpdateRunWrites(ans, k, image, expected, forceErase, attempts);
    var rest := WriteRun(ans, k + |pre|, image.value, expected, forceErase, attempts).0;
    WriteRunSucceeds(ans, k + |pre|, image.value, expected, forceErase, attempts);
    WrittenNoWrites(pre);
    WrittenAppend(pre, rest);
    ReidentifiedAfter(ans, k, pre, rest, expected);
  }

  /** A write run that succeeds wrote without failure, then rebooted. */
  lemma WriteRunRebooted(ans: seq<Answer>, k: nat, image: seq<Byte>, expected: string, forceErase: bool, attempts: nat)
    requires WriteRun(ans, k, image, expected, forceErase, attempts).1
    ensures var w := Writes(ans, k, image, 0);
      var rb := RebootRun(ans, k + |w.0|, expected, attempts);
      !w.1 && WriteRun(ans, k, image, expected, forceErase, attempts) == (w.0 + rb.0, rb.1)
  {
  }

  /** An update that succeeds identified the MCU, erased it when forced,
    * and then ran a successful write run. */
  lemma UpdateRunWrites(ans: seq<Answer>, k: nat, image: Option<seq<Byte>>, expected: string, forceErase: bool, attempts: nat)
    requires UpdateRun(ans, k, image, expected, forceErase, attempts).1
    ensures image.Some? && SizeAccepted(|image.value|)
    ensures var pre := [Open, GetFwVersion, GetBoardType] + (if forceErase then [EraseFlash] else []);
      var rest := WriteRun(ans, k + |pre|, image.value, expected, forceErase, attempts);
      rest.1 && UpdateRun(ans, k, image, expected, forceErase, attempts) == (pre + rest.0, rest.1)
  {
  }

  // The command line of the updater's main.

  /** One option as getopt_long hands it back: its code and argument. For
    * `a` the argument is also given as the number std::stoi(arg, nullptr, 0)
    * reads from it, None when stoi throws. */
  datatype Opt = Opt(code: char, arg: string, number: Option<int>)

  /** The code getopt_long returns for a short option: the letter itself
    * when the option string "f:b:a:v:eph" lists it, '?' otherwise. `-E` is
    * therefore unknown, and `-e` is known but has no case of its own. */
  function ShortCode(letter: char): (c: char)
    ensures letter in "fbaveph" ==> c == letter
    ensures letter !in "fbaveph" ==> c == '?'
  {
    if letter in "fbaveph" then letter else '?'
  }

  /** The code of a long option, None for a name the table does not hold. */
  function LongCode(name: string): (c: Option<char>)
    ensures c == Some('E') <==> name == "force-erase"
    ensures c.Some? ==> c.value in "fbaEvph"
  {
    match name
    case "file" => Some('f')
    case "bus" => Some('b')
    case "addr" => Some('a')
    case "force-erase" => Some('E')
    case "version" => Some('v')
    case "progress" => Some('p')
    case "help" => Some('h')
    case _ => None
  }

  /** Only the long spelling reaches the force-erase case. */
  lemma ForceEraseOnlyLong(letter: char, name: string)
    ensures ShortCode(letter) != 'E'
    ensures LongCode(name) == Some('E') <==> name == "force-erase"
    ensures ShortCode('e') !in "fbaEvph"
  {
  }

  /** What main collects from its options. */
  datatype Settings = Settings(file: string, bus: string, addr: int, version: string,
                               forceErase: bool, progress: bool, showHelp: bool)

  const Defaults: Settings := Settings("", "", 0, "", false, false, false)

  /** One option's effect; None when stoi throws on the address, which ends
    * the program. An address of 0 or above 0x7F asks for the usage text but
    * is stored; a negative one passes. Any code without a case of its own
    * asks for the usage text. */
  function Apply(s: Settings, o: Opt): Option<Settings>
  {
    match o.code
    case 'f' => Some(s.(file := o.arg))
    case 'b' => Some(s.(bus := o.arg))
    case 'a' =>
      if o.number.None? then None
      else
        var addr := o.number.value;
        Some(s.(addr := addr, showHelp := s.showHelp || addr == 0 || addr > 0x7f))
    case 'E' => Some(s.(forceErase := true))
    case 'v' => Some(s.(version := o.arg))
    case 'p' => Some(s.(progress := true))
    case _ => Some(s.(showHelp := true))
  }

  /** The options applied in order. */
  function ApplyAll(s: Settings, opts: seq<Opt>): Option<Settings>
    decreases |opts|
  {
    if opts == [] then Some(s)
    else
      match Apply(s, opts[0])
      case None => None
      case Some(s1) => ApplyAll(s1, opts[1..])
  }

  /** The getopt loop. */
  method ParseOptions(opts: seq<Opt>) returns (r: Option<Settings>)
    ensures r == ApplyAll(Defaults, opts)
  {
    var s := Defaults;
    var i := 0;
    while i < |opts|
      invariant i <= |opts|
      invariant ApplyAll(Defaults, opts) == ApplyAll(s, opts[i..])
    {
      assert opts[i..][1..] == opts[i + 1..];
      var o := opts[i];
      match o.code {
      case 'f' => s := s.(file := o.arg);
      case 'b' => s := s.(bus := o.arg);
      case 'a' =>
        if o.number.None? {
          return None;
        }
        var addr := o.number.value;
        if addr == 0 || addr > 0x7f {
          s := s.(addr := addr, showHelp := true);
        } else {
          s := s.(addr := addr);
        }
      case 'E' => s := s.(forceErase := true);
      case 'v' => s := s.(version := o.arg);
      case 'p' => s := s.(progress := true);
      case _ => s := s.(showHelp := true);
      }
      i := i + 1;
    }
    assert opts[i..] == [];
    r := Some(s);
  }

  /** Whether main goes on to the update: no usage request, and a file, a
    * bus and a non-zero address given. */
  predicate Launches(s: Settings)
  {
    !s.showHelp && s.file != "" && s.bus != "" && s.addr != 0
  }

  /** How the program ends: with an exit code, or aborted by the exception
    * stoi throws on an unreadable address. */
  datatype Termination = Exit(code: int) | Aborted

  /** main: the options, then the update of the MCU behind `mcu` with the
    * image file `files` holds under the given name. */
  method UpdaterMain(opts: seq<Opt>, files: map<string, seq<Byte>>, mcu: Mcu) returns (t: Termination)
    modifies mcu`trace
    ensures var s := ApplyAll(Defaults, opts);
      if s.None? then t == Aborted && mcu.trace == old(mcu.trace)
      else if !Launches(s.value) then t == Exit(ExitFailure) && mcu.trace == old(mcu.trace)
      else
        var image := if s.value.file in files then Some(files[s.value.file]) else None;
        var run := UpdateRun(mcu.answers, |old(mcu.trace)|, image, s.value.version, s.value.forceErase, PingAttempts);
        mcu.trace == old(mcu.trace) + run.0 && t == Exit(if run.1 then ExitSuccess else ExitUpdateFailed)
  {
    var parsed := ParseOptions(opts);
    if parsed.None? {
      return Aborted;
    }
    var s := parsed.value;
    if s.showHelp || s.file == "" || s.bus == "" || s.addr == 0 {
      return Exit(ExitFailure);
    }
    var image := if s.file in files then Some(files[s.file]) else None;
    var updated := RunImageUpdate(mcu, image, s.version, s.forceErase);
    t := Exit(if updated then ExitSuccess else ExitUpdateFailed);
  }

  /** Once asked for, the usage text stays asked for. */
  lemma {:induction false} HelpSticks(s: Settings, opts: seq<Opt>)
    requires s.showHelp
    ensures ApplyAll(s, opts).Some? ==> ApplyAll(s, opts).value.showHelp
    decreases |opts|
  {
    if opts != [] && Apply(s, opts[0]).Some? {
      HelpSticks(Apply(s, opts[0]).value, opts[1..]);
    }
  }

  /** An option code without a case of its own (such as `-e`, or the `?`
    * of an unknown option) anywhere makes main print the usage text and
    * fail. */
  lemma {:induction false} UnknownOptionFails(s: Settings, opts: seq<Opt>, i: nat)
    requires i < |opts| && opts[i].code !in "fbaEvp"
    ensures ApplyAll(s, opts).Some? ==> !Launches(ApplyAll(s, opts).value)
    decreases i
  {
    if Apply(s, opts[0]).Some? {
      if i == 0 {
        HelpSticks(Apply(s, opts[0]).value, opts[1..]);
      } else {
        UnknownOptionFails(Apply(s, opts[0]).value, opts[1..], i - 1);
      }
    }
  }

  /** No address above 0x7F reaches the update: the address is in range or
    * the usage text was asked for. */
  lemma {:induction false} AddressBounded(s: Settings, opts: seq<Opt>)
    requires s.showHelp || s.addr <= 0x7f
    ensures ApplyAll(s, opts).Some? ==>
      ApplyAll(s, opts).value.showHelp || ApplyAll(s, opts).value.addr <= 0x7f
    decreases |opts|
  {
    if opts != [] && Apply(s, opts[0]).Some? {
      AddressBounded(Apply(s, opts[0]).value, opts[1..]);
    }
  }

  /** The address check lets a launch happen only for a non-zero address no
    * larger than 0x7F ... */
  lemma LaunchedAddress(opts: seq<Opt>)
    requires ApplyAll(Defaults, opts).Some? && Launches(ApplyAll(Defaults, opts).value)
    ensures ApplyAll(Defaults, opts).value.addr != 0 && ApplyAll(Defaults, opts).value.addr <= 0x7f
  {
    AddressBounded(Defaults, opts);
  }

  /** ... but the lower bound is not checked: a negative address passes. */
  lemma NegativeAddressLaunches()
    ensures var opts := [Opt('f', "fw.bin", None), Opt('b', "/dev/i2c-1", None), Opt('a', "-1", Some(-1))];
      ApplyAll(Defaults, opts) == Some(Settings("fw.bin", "/dev/i2c-1", -1, "", false, false, false)) &&
      Launches(ApplyAll(Defaults, opts).value)
  {
    var opts := [Opt('f', "fw.bin", None), Opt('b', "/dev/i2c-1", None), Opt('a', "-1", Some(-1))];
    assert opts[1..] == [Opt('b', "/dev/i2c-1", None), Opt('a', "-1", Some(-1))];
    assert opts[1..][1..] == [Opt('a', "-1", Some(-1))];
  }
}
