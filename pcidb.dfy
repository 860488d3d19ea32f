// pciLookup (src/pcidb.hpp): the vendor and model names of a PCI device,
// looked up line by line in the pci.ids database. The file is given as its
// lines (None when it cannot be opened); a `std::out_of_range` thrown by
// `std::string::substr` or `compare` on a short line is an `Err`.
module PciDb {
  import opened Wrappers

  /** Columns of a vendor line: the 4-digit id at column 0, two spaces,
    * the name from column 6. A device line is indented by one tab, so its
    * id is at column 1 and its name starts at column 7. */
  const VidPrefixLen: nat := 0
  const DidPrefixLen: nat := 1
  const WordLen: nat := 4
  const SepLen: nat := 2

  const OutOfRange: string := "std::out_of_range"

  /** `vendorId.compare(0, 2, "0x") == 0`: the ids carry the "0x" prefix. */
  predicate HasHexPrefix(id: string)
  {
    |id| >= 2 && id[..2] == "0x"
  }

  /** How many leading characters of the ids the comparisons skip. */
  function PrefixLen(vendorId: string): (p: nat)
    ensures p <= |vendorId|
  {
    if HasHexPrefix(vendorId) then 2 else 0
  }

  /** `line.substr(pos, WordLen)`: up to four characters from `pos`. */
  function Word(line: string, pos: nat): string
    requires pos <= |line|
  {
    line[pos..Min(pos + WordLen, |line|)]
  }

  /** The `(vendor, model)` pair found so far. */
  type Names = (string, string)

  /** Scanning stops once the vendor is known and either the model is known
    * or no device was asked for. */
  predicate Finished(n: Names, deviceId: string)
  {
    n.0 != "" && (n.1 != "" || deviceId == "")
  }

  /** One line of the scan: while no vendor is known a line whose id
    * matches names the vendor; otherwise (the branches exclude each other)
    * while no model is known and a device was asked for, a line longer than
    * its tab whose id at column 1 matches names the model. The device id is
    * typed out in the "0x" form of the vendor id, so `deviceId.substr(2)`
    * on a device id shorter than 2 throws. */
  function Step(line: string, vendorId: string, deviceId: string, n: Names): Result<Names>
  {
    var p := PrefixLen(vendorId);
    if n.0 == "" && Word(line, VidPrefixLen) == vendorId[p..] then
      if |line| < VidPrefixLen + WordLen + SepLen then Err(OutOfRange)
      else Ok((line[VidPrefixLen + WordLen + SepLen..], n.1))
    else if n.1 == "" && deviceId != "" && |line| > DidPrefixLen then
      if p > |deviceId| then Err(OutOfRange)
      else if Word(line, DidPrefixLen) == deviceId[p..] then
        if |line| < DidPrefixLen + WordLen + SepLen then Err(OutOfRange)
        else Ok((n.0, line[DidPrefixLen + WordLen + SepLen..]))
      else Ok(n)
    else Ok(n)
  }

  /** The scan of `lines[i..]` from the names found so far. */
  function ScanFrom(lines: seq<string>, i: nat, vendorId: string, deviceId: string, n: Names): Result<Names>
    decreases |lines| - i
  {
    if i >= |lines| then Ok(n)
    else match Step(lines[i], vendorId, deviceId, n)
      case Err(m) => Err(m)
      case Ok(n') => if Finished(n', deviceId) then Ok(n') else ScanFrom(lines, i + 1, vendorId, deviceId, n')
  }

  /** What `pciLookup` returns: two empty names without a database. */
  function Lookup(file: Option<seq<string>>, vendorId: string, deviceId: string): Result<Names>
  {
    if file.None? then Ok(("", "")) else ScanFrom(file.value, 0, vendorId, deviceId, ("", ""))
  }

  /** The line loop of `pciLookup`, with its early `break`. */
  method PciLookup(file: Option<seq<string>>, vendorId: string, deviceId: string) returns (r: Result<Names>)
    ensures r == Lookup(file, vendorId, deviceId)
  {
    var p := if |vendorId| >= 2 && vendorId[..2] == "0x" then 2 else 0;
    if file.None? {
      return Ok(("", ""));
    }
    var lines := file.value;
    var vendorName, modelName := "", "";
    var i := 0;
    var done := false;
    r := Ok(("", ""));
    while i < |lines| && !done
      invariant 0 <= i <= |lines|
      invariant !done ==> Lookup(file, vendorId, deviceId) == ScanFrom(lines, i, vendorId, deviceId, (vendorName, modelName))
      invariant done ==> Lookup(file, vendorId, deviceId) == r
      invariant !done ==> r == Ok((vendorName, modelName))
      decreases |lines| - i, !done
    {
      var line := lines[i];
      if vendorName == "" && line[..Min(WordLen, |line|)] == vendorId[p..] {
        if |line| < WordLen + SepLen {
          r := Err(OutOfRange);
          done := true;
        } else {
          vendorName := line[WordLen + SepLen..];
        }
      } else if modelName == "" && deviceId != "" && |line| > DidPrefixLen {
        if p > |deviceId| {
          r := Err(OutOfRange);
          done := true;
        } else if line[DidPrefixLen..Min(DidPrefixLen + WordLen, |line|)] == deviceId[p..] {
          if |line| < DidPrefixLen + WordLen + SepLen {
            r := Err(OutOfRange);
            done := true;
          } else {
            modelName := line[DidPrefixLen + WordLen + SepLen..];
          }
        }
      }
      if !done {
        r := Ok((vendorName, modelName));
        if vendorName != "" && (modelName != "" || deviceId == "") {
          done := true;
        }
      }
      i := i + 1;
    }
  }

  /** The line `line` names vendor `vendorId`. */
  predicate VendorLine(line: string, vendorId: string)
  {
    Word(line, VidPrefixLen) == vendorId[PrefixLen(vendorId)..]
  }

  /** The line `line` names device `deviceId` (in the id form of `vendorId`). */
  predicate DeviceLine(line: string, vendorId: string, deviceId: string)
  {
    |line| > DidPrefixLen && PrefixLen(vendorId) <= |deviceId| &&
    Word(line, DidPrefixLen) == deviceId[PrefixLen(vendorId)..]
  }

  /** A name once found is kept to the end of the scan. */
  lemma {:induction false} ScanKeeps(lines: seq<string>, i: nat, vendorId: string, deviceId: string, n: Names)
    requires ScanFrom(lines, i, vendorId, deviceId, n).Ok?
    ensures n.0 != "" ==> ScanFrom(lines, i, vendorId, deviceId, n).value.0 == n.0
    ensures n.1 != "" ==> ScanFrom(lines, i, vendorId, deviceId, n).value.1 == n.1
    decreases |lines| - i
  {
    if i < |lines| {
      var s := Step(lines[i], vendorId, deviceId, n);
      if !Finished(s.value, deviceId) {
        ScanKeeps(lines, i + 1, vendorId, deviceId, s.value);
      }
    }
  }

  /** A vendor name found by the scan from line `i` on is the name on a
    * vendor line, and every vendor line before that one had an empty name;
    * without such a line the vendor name stays as it was. */
  lemma {:induction false} ScanVendor(lines: seq<string>, i: nat, vendorId: string, deviceId: string, n: Names)
    requires n.0 == ""
    requires ScanFrom(lines, i, vendorId, deviceId, n).Ok?
    ensures var v := ScanFrom(lines, i, vendorId, deviceId, n).value.0;
      v != "" ==>
        exists j :: i <= j < |lines| && VendorLine(lines[j], vendorId) && |lines[j]| >= 6 && lines[j][6..] == v &&
          forall k :: i <= k < j && VendorLine(lines[k], vendorId) ==> |lines[k]| == 6
    decreases |lines| - i
  {
    if i < |lines| {
      var s := Step(lines[i], vendorId, deviceId, n);
      if !Finished(s.value, deviceId) && s.value.0 == "" {
        ScanVendor(lines, i + 1, vendorId, deviceId, s.value);
        var v := ScanFrom(lines, i, vendorId, deviceId, n).value.0;
        if v != "" {
          var j :| i + 1 <= j < |lines| && VendorLine(lines[j], vendorId) && |lines[j]| >= 6 && lines[j][6..] == v &&
            forall k :: i + 1 <= k < j && VendorLine(lines[k], vendorId) ==> |lines[k]| == 6;
          assert VendorLine(lines[i], vendorId) ==> |lines[i]| == 6;
        }
      } else if !Finished(s.value, deviceId) {
        ScanKeeps(lines, i + 1, vendorId, deviceId, s.value);
      }
    }
  }

  /** A model name found by the scan is the name on a device line, and is
    * only looked for when a device id was given. */
  lemma {:induction false} ScanModel(lines: seq<string>, i: nat, vendorId: string, deviceId: string, n: Names)
    requires n.1 == ""
    requires ScanFrom(lines, i, vendorId, deviceId, n).Ok?
    ensures var m := ScanFrom(lines, i, vendorId, deviceId, n).value.1;
      m != "" ==>
        deviceId != "" &&
        exists j :: i <= j < |lines| && DeviceLine(lines[j], vendorId, deviceId) && |lines[j]| >= 7 && lines[j][7..] == m
    decreases |lines| - i
  {
    if i < |lines| {
      var s := Step(lines[i], vendorId, deviceId, n);
      if !Finished(s.value, deviceId) && s.value.1 == "" {
        ScanModel(lines, i + 1, vendorId, deviceId, s.value);
      } else if !Finished(s.value, deviceId) {
        ScanKeeps(lines, i + 1, vendorId, deviceId, s.value);
      }
    }
  }

  /** Once the vendor is known, a vendor line with a name reached by the
    * scan from line `i` on names it: the scan never misses one. */
  lemma {:induction false} ScanFindsVendor(lines: seq<string>, i: nat, vendorId: string, deviceId: string, n: Names)
    requires n.0 == ""
    requires ScanFrom(lines, i, vendorId, deviceId, n).Ok?
    requires exists j :: i <= j < |lines| && VendorLine(lines[j], vendorId) && |lines[j]| > 6
    ensures ScanFrom(lines, i, vendorId, deviceId, n).value.0 != ""
    decreases |lines| - i
  {
    var j :| i <= j < |lines| && VendorLine(lines[j], vendorId) && |lines[j]| > 6;
    var s := Step(lines[i], vendorId, deviceId, n);
    if s.value.0 != "" {
      if !Finished(s.value, deviceId) {
        ScanKeeps(lines, i + 1, vendorId, deviceId, s.value);
      }
    } else {
      assert j != i;
      ScanFindsVendor(lines, i + 1, vendorId, deviceId, s.value);
    }
  }

  /** The names after the first `k` lines, scanning on past the point
    * where `pciLookup` breaks (a finished scan changes nothing more). */
  function Before(lines: seq<string>, k: nat, vendorId: string, deviceId: string): Result<Names>
    requires k <= |lines|
  {
    if k == 0 then Ok(("", ""))
    else match Before(lines, k - 1, vendorId, deviceId)
      case Err(m) => Err(m)
      case Ok(n) => Step(lines[k - 1], vendorId, deviceId, n)
  }

  /** A failed or finished scan stays as it is to the last line. */
  lemma {:induction false} BeforeAbsorbs(lines: seq<string>, k: nat, vendorId: string, deviceId: string)
    requires k <= |lines|
    requires Before(lines, k, vendorId, deviceId).Err? || Finished(Before(lines, k, vendorId, deviceId).value, deviceId)
    ensures Before(lines, |lines|, vendorId, deviceId) == Before(lines, k, vendorId, deviceId)
    decreases |lines| - k
  {
    if k < |lines| {
      assert Before(lines, k + 1, vendorId, deviceId) == Before(lines, k, vendorId, deviceId);
      BeforeAbsorbs(lines, k + 1, vendorId, deviceId);
    }
  }

  /** The scan with its early break ends where scanning every line ends. */
  lemma {:induction false} ScanIsBefore(lines: seq<string>, i: nat, vendorId: string, deviceId: string)
    requires i <= |lines| && Before(lines, i, vendorId, deviceId).Ok?
    ensures ScanFrom(lines, i, vendorId, deviceId, Before(lines, i, vendorId, deviceId).value) == Before(lines, |lines|, vendorId, deviceId)
    decreases |lines| - i
  {
    if i < |lines| {
      var s := Before(lines, i + 1, vendorId, deviceId);
      if s.Err? || Finished(s.value, deviceId) {
        BeforeAbsorbs(lines, i + 1, vendorId, deviceId);
      } else {
        ScanIsBefore(lines, i + 1, vendorId, deviceId);
      }
    }
  }

  /** Line `k` reaches the device branch of the loop: a device was asked
    * for, no model is known yet, and the line is not taken as the vendor
    * line. */
  predicate DeviceBranchAt(lines: seq<string>, k: nat, vendorId: string, deviceId: string)
    requires k < |lines|
  {
    var b := Before(lines, k, vendorId, deviceId);
    deviceId != "" && b.Ok? && b.value.1 == "" && !(b.value.0 == "" && VendorLine(lines[k], vendorId))
  }

  /** Every matching device line the device branch saw before line `j`
    * had an empty name. */
  predicate EmptyModelsBefore(lines: seq<string>, j: nat, vendorId: string, deviceId: string)
    requires j <= |lines|
  {
    forall i :: 0 <= i < j && DeviceBranchAt(lines, i, vendorId, deviceId) && DeviceLine(lines[i], vendorId, deviceId) ==>
      |lines[i]| == 7
  }

  /** After `k` lines the model is empty exactly while every matching
    * device line the device branch saw had an empty name; a model found
    * is the name of the first matching device line with a name. */
  lemma {:induction false} BeforeModel(lines: seq<string>, k: nat, vendorId: string, deviceId: string)
    requires k <= |lines| && Before(lines, k, vendorId, deviceId).Ok?
    ensures var m := Before(lines, k, vendorId, deviceId).value.1;
      (m == "" ==> EmptyModelsBefore(lines, k, vendorId, deviceId)) &&
      (m != "" ==>
        exists j :: 0 <= j < k && DeviceBranchAt(lines, j, vendorId, deviceId) && DeviceLine(lines[j], vendorId, deviceId) &&
          |lines[j]| > 7 && lines[j][7..] == m && EmptyModelsBefore(lines, j, vendorId, deviceId))
    decreases k
  {
    if k > 0 {
      var b := Before(lines, k - 1, vendorId, deviceId);
      BeforeModel(lines, k - 1, vendorId, deviceId);
      var m := Before(lines, k, vendorId, deviceId).value.1;
      if b.value.1 != "" {
        assert m == b.value.1;
        assert !DeviceBranchAt(lines, k - 1, vendorId, deviceId);
      } else if DeviceBranchAt(lines, k - 1, vendorId, deviceId) && DeviceLine(lines[k - 1], vendorId, deviceId) {
        assert m == lines[k - 1][7..];
        if m == "" {
          assert |lines[k - 1]| == 7;
        }
      } else {
        assert m == "";
      }
    }
  }

  /** The model, like the vendor, persists from line `j` to line `k`. */
  lemma {:induction false} BeforeKeeps(lines: seq<string>, j: nat, k: nat, vendorId: string, deviceId: string)
    requires j <= k <= |lines| && Before(lines, k, vendorId, deviceId).Ok?
    ensures Before(lines, j, vendorId, deviceId).Ok?
    ensures Before(lines, j, vendorId, deviceId).value.1 != "" ==>
      Before(lines, k, vendorId, deviceId).value.1 == Before(lines, j, vendorId, deviceId).value.1
    decreases k - j
  {
    if j < k {
      BeforeKeeps(lines, j + 1, k, vendorId, deviceId);
    }
  }

  /** A matching device line with a name that the device branch reaches
    * names the model. */
  lemma ModelFound(lines: seq<string>, j: nat, vendorId: string, deviceId: string)
    requires j < |lines| && Before(lines, |lines|, vendorId, deviceId).Ok?
    requires DeviceBranchAt(lines, j, vendorId, deviceId) && DeviceLine(lines[j], vendorId, deviceId) && |lines[j]| > 7
    ensures Before(lines, |lines|, vendorId, deviceId).value.1 == lines[j][7..] != ""
  {
    BeforeKeeps(lines, j + 1, |lines|, vendorId, deviceId);
    assert Before(lines, j + 1, vendorId, deviceId).value.1 == lines[j][7..];
  }

  /** The result of a lookup in a database. Without one both names are
    * empty. Otherwise the vendor is the name of the first vendor line with
    * a name, and is empty only when no vendor line has one. The model is
    * the name of the first matching device line with a name that the
    * device branch of the loop reaches, and is empty only when the device
    * branch reaches none. */
  lemma LookupFindsNames(file: Option<seq<string>>, vendorId: string, deviceId: string)
    requires Lookup(file, vendorId, deviceId).Ok?
    ensures file.None? ==> Lookup(file, vendorId, deviceId) == Ok(("", ""))
    ensures var r := Lookup(file, vendorId, deviceId).value;
      file.Some? && r.0 != "" ==>
        exists j :: 0 <= j < |file.value| && VendorLine(file.value[j], vendorId) &&
          |file.value[j]| >= 6 && file.value[j][6..] == r.0 &&
          forall k :: 0 <= k < j && VendorLine(file.value[k], vendorId) ==> |file.value[k]| == 6
    ensures var r := Lookup(file, vendorId, deviceId).value;
      file.Some? && (exists j :: 0 <= j < |file.value| && VendorLine(file.value[j], vendorId) && |file.value[j]| > 6) ==>
        r.0 != ""
    ensures var r := Lookup(file, vendorId, deviceId).value;
      file.Some? && r.1 != "" ==>
        deviceId != "" &&
        exists j :: 0 <= j < |file.value| && DeviceBranchAt(file.value, j, vendorId, deviceId) &&
          DeviceLine(file.value[j], vendorId, deviceId) && |file.value[j]| > 7 && file.value[j][7..] == r.1 &&
          EmptyModelsBefore(file.value, j, vendorId, deviceId)
    ensures var r := Lookup(file, vendorId, deviceId).value;
      file.Some? &&
      (exists j :: 0 <= j < |file.value| && DeviceBranchAt(file.value, j, vendorId, deviceId) &&
        DeviceLine(file.value[j], vendorId, deviceId) && |file.value[j]| > 7) ==>
        r.1 != ""
  {
    if file.Some? {
      var lines := file.value;
      ScanVendor(lines, 0, vendorId, deviceId, ("", ""));
      if exists j :: 0 <= j < |lines| && VendorLine(lines[j], vendorId) && |lines[j]| > 6 {
        ScanFindsVendor(lines, 0, vendorId, deviceId, ("", ""));
      }
      ScanIsBefore(lines, 0, vendorId, deviceId);
      BeforeModel(lines, |lines|, vendorId, deviceId);
      ScanModel(lines, 0, vendorId, deviceId, ("", ""));
      if exists j :: 0 <= j < |lines| && DeviceBranchAt(lines, j, vendorId, deviceId) &&
          DeviceLine(lines[j], vendorId, deviceId) && |lines[j]| > 7 {
        var j :| 0 <= j < |lines| && DeviceBranchAt(lines, j, vendorId, deviceId) &&
          DeviceLine(lines[j], vendorId, deviceId) && |lines[j]| > 7;
        ModelFound(lines, j, vendorId, deviceId);
      }
    }
  }

  /** One scan step reads the ids the same way with or without the "0x"
    * prefix. */
  lemma StepPrefixed(line: string, v: string, d: string, n: Names)
    requires !HasHexPrefix(v) && d != ""
    ensures Step(line, "0x" + v, "0x" + d, n) == Step(line, v, d, n)
  {
    assert ("0x" + v)[..2] == "0x" && ("0x" + v)[2..] == v && ("0x" + d)[2..] == d;
  }

  /** The "0x" prefix on both ids makes no difference to the lookup. */
  lemma {:induction false} ScanPrefixed(lines: seq<string>, i: nat, v: string, d: string, n: Names)
    requires !HasHexPrefix(v) && d != ""
    ensures ScanFrom(lines, i, "0x" + v, "0x" + d, n) == ScanFrom(lines, i, v, d, n)
    decreases |lines| - i
  {
    if i < |lines| {
      StepPrefixed(lines[i], v, d, n);
      var s := Step(lines[i], v, d, n);
      if s.Ok? {
        ScanPrefixed(lines, i + 1, v, d, s.value);
      }
    }
  }

  /** The model search is not confined to the block of the vendor: a
    * device line before the vendor line is taken. */
  lemma ModelOutsideVendorBlock()
    ensures Lookup(Some(["\tabcd  M", "wxyz  V"]), "wxyz", "abcd") == Ok(("V", "M"))
  {
    var l0, l1 := "\tabcd  M", "wxyz  V";
    var lines := [l0, l1];
    assert "wxyz"[..2] == "wx";
    assert PrefixLen("wxyz") == 0;
    assert "wxyz"[0..] == "wxyz" && "abcd"[0..] == "abcd";
    assert Word(l0, VidPrefixLen) == "\tabc" != "wxyz";
    assert Word(l0, DidPrefixLen) == "abcd" && l0[7..] == "M";
    assert Step(l0, "wxyz", "abcd", ("", "")) == Ok(("", "M"));
    assert Word(l1, VidPrefixLen) == "wxyz" && l1[6..] == "V";
    assert Step(l1, "wxyz", "abcd", ("", "M")) == Ok(("V", "M"));
    assert ScanFrom(lines, 1, "wxyz", "abcd", ("", "M")) == Ok(("V", "M"));
  }
}
