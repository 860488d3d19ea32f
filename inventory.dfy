// The storage inventory item of a drive (src/storage/inventory.cpp): its
// size rendered from the decimal byte count with 1KB = 1000B, and its
// manufacturer looked up in the pci.ids database by vendor id.
module Inventory {
  import opened Wrappers
  import Dbus
  import PciDb

  // ---------------------------------------------------------------------
  // pciVenorLookup

  /** `line.substr(0, 4)`. */
  function Head(line: string): string
  {
    line[..Min(PciDb.WordLen, |line|)]
  }

  /** The first line whose first four characters are the vendor id. */
  function FirstVendorLine(lines: seq<string>, vendorId: string): (j: Option<nat>)
    ensures j.Some? ==> j.value < |lines| && Head(lines[j.value]) == vendorId
    ensures j.Some? ==> forall k :: 0 <= k < j.value ==> Head(lines[k]) != vendorId
    ensures j.None? ==> forall k :: 0 <= k < |lines| ==> Head(lines[k]) != vendorId
  {
    if lines == [] then None
    else if Head(lines[0]) == vendorId then Some(0)
    else match FirstVendorLine(lines[1..], vendorId)
      case None => None
      case Some(j) => Some(j + 1)
  }

  /** What `pciVenorLookup` returns: the name from column 6 of the first
    * matching line, "" without a match or without a database, and a thrown
    * `std::out_of_range` when that line is shorter than six characters. */
  function VendorOf(file: Option<seq<string>>, vendorId: string): Result<string>
  {
    if file.None? then Ok("")
    else match FirstVendorLine(file.value, vendorId)
      case None => Ok("")
      case Some(j) =>
        if |file.value[j]| < PciDb.WordLen + PciDb.SepLen then Err(PciDb.OutOfRange)
        else Ok(file.value[j][PciDb.WordLen + PciDb.SepLen..])
  }

  /** The line loop of `pciVenorLookup`, stopping at the first match. */
  method PciVenorLookup(file: Option<seq<string>>, vendorId: string) returns (r: Result<string>)
    ensures r == VendorOf(file, vendorId)
  {
    if file.None? {
      return Ok("");
    }
    var lines := file.value;
    var i := 0;
    r := Ok("");
    while i < |lines|
      invariant 0 <= i <= |lines|
      invariant forall k :: 0 <= k < i ==> Head(lines[k]) != vendorId
    {
      var line := lines[i];
      if line[..Min(PciDb.WordLen, |line|)] == vendorId {
        assert FirstVendorLine(lines, vendorId) == Some(i);
        if |line| < PciDb.WordLen + PciDb.SepLen {
          return Err(PciDb.OutOfRange);
        }
        return Ok(line[PciDb.WordLen + PciDb.SepLen..]);
      }
      i := i + 1;
    }
  }

  /** For a vendor id without the "0x" prefix whose first line carries a
    * name, this lookup and the vendor part of `pciLookup` without a device
    * agree. */
  lemma VendorLookupsAgree(lines: seq<string>, vendorId: string)
    requires !PciDb.HasHexPrefix(vendorId)
    requires VendorOf(Some(lines), vendorId).Ok? && VendorOf(Some(lines), vendorId).value != ""
    ensures PciDb.Lookup(Some(lines), vendorId, "") == Ok((VendorOf(Some(lines), vendorId).value, ""))
  {
    var j := FirstVendorLine(lines, vendorId).value;
    ScanUpTo(lines, 0, j, vendorId);
  }

  /** No line before the first match changes the scan of `pciLookup`. */
  lemma {:induction false} ScanUpTo(lines: seq<string>, i: nat, j: nat, vendorId: string)
    requires !PciDb.HasHexPrefix(vendorId)
    requires i <= j < |lines| && |lines[j]| > 6 && Head(lines[j]) == vendorId
    requires forall k :: i <= k < j ==> Head(lines[k]) != vendorId
    ensures PciDb.ScanFrom(lines, i, vendorId, "", ("", "")) == Ok((lines[j][6..], ""))
    decreases j - i
  {
    assert PciDb.PrefixLen(vendorId) == 0;
    if i < j {
      ScanUpTo(lines, i + 1, j, vendorId);
    }
  }

  // ---------------------------------------------------------------------
  // Drive size

  predicate IsDigit(c: char)
  {
    '0' <= c <= '9'
  }

  predicate AllDigits(s: string)
  {
    forall i :: 0 <= i < |s| ==> IsDigit(s[i])
  }

  function Pow10(n: nat): (p: nat)
    ensures p >= 1
  {
    if n == 0 then 1 else 10 * Pow10(n - 1)
  }

  function Pow1000(n: nat): (p: nat)
    ensures p >= 1
  {
    if n == 0 then 1 else 1000 * Pow1000(n - 1)
  }

  /** The number a string of decimal digits stands for. */
  function Value(s: string): nat
    requires AllDigits(s)
  {
    if s == [] then 0 else Value(s[..|s| - 1]) * 10 + (s[|s| - 1] as int - '0' as int)
  }

  /** The leading decimal digits of `s`. */
  function DigitPrefix(s: string): (d: string)
    ensures AllDigits(d) && |d| <= |s| && d == s[..|d|]
    ensures |d| < |s| ==> !IsDigit(s[|d|])
  {
    if s == [] || !IsDigit(s[0]) then [] else [s[0]] + DigitPrefix(s[1..])
  }

  lemma {:induction false} DigitPrefixOfDigits(s: string)
    ensures AllDigits(s) ==> DigitPrefix(s) == s
  {
    if s != [] && AllDigits(s) {
      assert AllDigits(s[1..]) by {
        forall i | 0 <= i < |s[1..]|
          ensures IsDigit(s[1..][i])
        {
          assert s[1..][i] == s[i + 1];
        }
      }
      DigitPrefixOfDigits(s[1..]);
    }
  }

  /** The run of leading digits ends at one place only. */
  lemma LeadingDigitsUnique(s: string)
    ensures forall k :: 0 <= k <= |s| && AllDigits(s[..k]) && (k == |s| || !IsDigit(s[k])) ==> s[..k] == DigitPrefix(s)
  {
    var d := DigitPrefix(s);
    forall k | 0 <= k <= |s| && AllDigits(s[..k]) && (k == |s| || !IsDigit(s[k]))
      ensures s[..k] == d
    {
      assert forall i :: 0 <= i < |d| ==> IsDigit(s[i]) by {
        forall i | 0 <= i < |d| ensures IsDigit(s[i]) { assert s[i] == d[i]; }
      }
      assert forall i :: 0 <= i < k ==> IsDigit(s[i]) by {
        forall i | 0 <= i < k ensures IsDigit(s[i]) { assert s[i] == s[..k][i]; }
      }
    }
  }

  const U64Limit: nat := 0x1_0000_0000_0000_0000

  /** `capacity`: `std::from_chars` into a `uint64_t` reads the leading
    * digits; no digit, or a value past 64 bits, is an error and gives 0. */
  function Capacity(sizeBytes: string): (c: nat)
    ensures c < U64Limit
    ensures AllDigits(sizeBytes) && Value(sizeBytes) < U64Limit ==> c == Value(sizeBytes)
    ensures forall k :: 0 <= k <= |sizeBytes| && AllDigits(sizeBytes[..k]) && (k == |sizeBytes| || !IsDigit(sizeBytes[k])) ==>
      (k == 0 || Value(sizeBytes[..k]) >= U64Limit ==> c == 0) &&
      (k > 0 && Value(sizeBytes[..k]) < U64Limit ==> c == Value(sizeBytes[..k]))
  {
    DigitPrefixOfDigits(sizeBytes);
    var d := DigitPrefix(sizeBytes);
    LeadingDigitsUnique(sizeBytes);
    if d == [] || Value(d) >= U64Limit then 0 else Value(d)
  }

  /** How many groups of three digits the rendering drops: a length that
    * is a multiple of three keeps three digits, not none. */
  function Order(n: nat): (order: nat)
    requires n >= 1
    ensures 1 <= n - 3 * order <= 3
  {
    if n == (n / 3) * 3 then n / 3 - 1 else n / 3
  }

  const Units: seq<string> := ["B", "KB", "MB", "GB", "TB", "PB"]

  /** The leading digits the rendering keeps, with one decimal digit
    * appended when only one is left. */
  function Mantissa(s: string): string
    requires s != []
  {
    var order := Order(|s|);
    var head := s[..|s| - 3 * order];
    if |head| <= 1 && |s| > 1 then head + "." + s[|head|..|head| + 1] else head
  }

  /** The size text of the item: empty for an empty byte count, "??" from a
    * petabyte-plus-three-digits count on. */
  function SizeText(sizeBytes: string): string
  {
    if sizeBytes == [] then ""
    else
      var order := Order(|sizeBytes|);
      if order < |Units| then Mantissa(sizeBytes) + Units[order] else "??"
  }

  /** The number of dropped groups is one less than the number of groups of
    * three the digits fill, and between one and three digits are kept. */
  lemma OrderShape(n: nat)
    requires n >= 1
    ensures Order(n) == (n - 1) / 3
    ensures n - 3 * Order(n) == (n - 1) % 3 + 1
  {
  }

  lemma SizeExamples()
    ensures SizeText("1000") == "1.0KB"
    ensures SizeText("500107862016") == "500GB"
    ensures SizeText("999") == "999B"
    ensures SizeText("") == ""
    ensures SizeText("1000000000000000000") == "??"
  {
    assert Order(4) == 1 && Order(12) == 3 && Order(3) == 0 && Order(19) == 6;
    assert "1000"[..1] == "1" && "1000"[1..2] == "0";
    assert "500107862016"[..3] == "500";
    assert "999"[..3] == "999";
  }

  lemma {:induction false} ValueAppend(a: string, b: string)
    requires AllDigits(a) && AllDigits(b)
    ensures AllDigits(a + b)
    ensures Value(a + b) == Value(a) * Pow10(|b|) + Value(b)
    decreases |b|
  {
    assert AllDigits(a + b) by {
      forall i | 0 <= i < |a + b|
        ensures IsDigit((a + b)[i])
      {
        if i >= |a| {
          assert (a + b)[i] == b[i - |a|];
        }
      }
    }
    if b != [] {
      var b' := b[..|b| - 1];
      assert (a + b)[..|a + b| - 1] == a + b';
      assert (a + b)[|a + b| - 1] == b[|b| - 1];
      ValueAppend(a, b');
      var d := b[|b| - 1] as int - '0' as int;
      var va, vb', p' := Value(a), Value(b'), Pow10(|b'|);
      assert Value(a + b) == (va * p' + vb') * 10 + d;
      assert Value(b) == vb' * 10 + d;
      assert Pow10(|b|) == p' * 10;
      ShiftDigit(va, p', vb', d);
    } else {
      assert a + b == a;
    }
  }

  lemma ShiftDigit(h: int, p: int, t: int, d: int)
    ensures (h * p + t) * 10 + d == h * (p * 10) + (t * 10 + d)
  {
    assert (h * p) * 10 == h * (p * 10);
  }

  lemma {:induction false} ValueBelow(s: string)
    requires AllDigits(s)
    ensures Value(s) < Pow10(|s|)
    decreases |s|
  {
    if s != [] {
      ValueBelow(s[..|s| - 1]);
    }
  }

  lemma {:induction false} Pow1000IsPow10(k: nat)
    ensures Pow1000(k) == Pow10(3 * k)
  {
    if k > 0 {
      Pow1000IsPow10(k - 1);
      calc {
        Pow10(3 * k);
        10 * Pow10(3 * k - 1);
        100 * Pow10(3 * k - 2);
        1000 * Pow10(3 * (k - 1));
      }
    }
  }

  /** The kept digits, scaled by the unit, are the byte count rounded down
    * to that unit. */
  lemma SizeRoundsDown(s: string)
    requires s != [] && AllDigits(s)
    ensures var order := Order(|s|);
      var head := s[..|s| - 3 * order];
      AllDigits(head) &&
      Value(head) * Pow1000(order) <= Value(s) < (Value(head) + 1) * Pow1000(order)
  {
    var order := Order(|s|);
    var k := |s| - 3 * order;
    var head, tail := s[..k], s[k..];
    assert s == head + tail;
    assert AllDigits(tail) by {
      forall i | 0 <= i < |tail|
        ensures IsDigit(tail[i])
      {
        assert tail[i] == s[k + i];
      }
    }
    ValueAppend(head, tail);
    ValueBelow(tail);
    Pow1000IsPow10(order);
    assert |tail| == 3 * order;
    Bracket(Value(head), Value(tail), Pow10(|tail|));
  }

  lemma Bracket(h: nat, t: nat, p: nat)
    requires t < p
    ensures h * p <= h * p + t < (h + 1) * p
  {
  }

  // ---------------------------------------------------------------------
  // The inventory item

  const InventoryPathBase: string := "/xyz/openbmc_project/inventory"
  const InventorySubPath: string := "/system/chassis/"

  /** What the item publishes. */
  datatype DriveItem = DriveItem(
    objectPath: string,
    prettyName: string,
    present: bool,
    capacity: nat,
    serialNumber: string,
    manufacturer: string,
    model: string,
    functional: bool)

  /** The `StorageDrive` constructor: the object path is the escaped
    * inventory path of the drive, the pretty name joins type, size text and
    * name, and the manufacturer is looked up only for an NVMe drive with a
    * vendor id. A throwing lookup fails the construction. */
  function StorageDrive(pciIds: Option<seq<string>>, name: string, driveType: string, vendor: string,
                        model: string, serial: string, sizeBytes: string): (r: Result<DriveItem>)
    ensures r.Ok? ==> r.value.objectPath == Dbus.DbusEscape(InventoryPathBase + InventorySubPath + name)
    ensures r.Ok? ==> Dbus.AllAllowed(r.value.objectPath)
    ensures r.Ok? ==> r.value.serialNumber == serial && r.value.model == model
    ensures r.Ok? ==> r.value.prettyName == driveType + " " + SizeText(sizeBytes) + " " + name
    ensures r.Ok? ==> r.value.capacity == Capacity(sizeBytes) && r.value.present && r.value.functional
    ensures r.Ok? && (vendor == "" || driveType != "NVMe") ==> r.value.manufacturer == ""
    ensures r.Err? <==> vendor != "" && driveType == "NVMe" && VendorOf(pciIds, vendor).Err?
    ensures r.Ok? && vendor != "" && driveType == "NVMe" ==> r.value.manufacturer == VendorOf(pciIds, vendor).value
  {
    var manuf := if vendor != "" && driveType == "NVMe" then VendorOf(pciIds, vendor) else Ok("");
    var path := Dbus.DbusEscape(InventoryPathBase + InventorySubPath + name);
    Dbus.EscapeAllowedShorter(InventoryPathBase + InventorySubPath + name);
    if manuf.Err? then Err(manuf.msg)
    else Ok(DriveItem(path, driveType + " " + SizeText(sizeBytes) + " " + name, true,
                      Capacity(sizeBytes), serial, manuf.value, model, true))
  }
}
