/** The bus-address name of an I2C device: `deviceDirName` of src/DeviceMgmt.cpp prints it,
    `getDeviceBusAddr` of src/Utils.hpp reads it. */
module DeviceNames {
  import opened Digits

  const UINT64_END := 0x1_0000_0000_0000_0000

  function DeviceDirName(bus: nat, address: nat): string {
    Print(bus, Dec) + "-" + Padded(Print(address, Hex), 4)
  }

  /** The position of the first hyphen, or the length of the string. */
  function FindHyphen(s: string): (i: nat)
    ensures i <= |s|
    ensures i < |s| ==> s[i] == '-'
    ensures forall j :: 0 <= j < i ==> s[j] != '-'
  {
    if s == [] || s[0] == '-' then 0 else 1 + FindHyphen(s[1..])
  }

  /** The target of one `from_chars` call, and whether it took the whole string. */
  function Target(s: string, r: Radix, was: nat): nat {
    match FromChars(s, r, UINT64_END) case Read(v, _) => v case _ => was
  }

  predicate Whole(s: string, r: Radix) {
    match FromChars(s, r, UINT64_END) case Read(_, used) => used == |s| case _ => false
  }

  /** The result and the final values of both reference parameters, which may have been written
      even when the result is false. */
  function BusAddr(name: string, bus: nat, addr: nat): (bool, nat, nat) {
    var i := FindHyphen(name);
    if i == |name| then (false, bus, addr)
    else
      var busStr, addrStr := name[..i], name[i + 1..];
      if !Whole(busStr, Dec) then (false, Target(busStr, Dec, bus), addr)
      else (Whole(addrStr, Hex), Target(busStr, Dec, bus), Target(addrStr, Hex, addr))
  }

  method GetDeviceBusAddr(deviceName: string, busIn: nat, addrIn: nat) returns (ok: bool, bus: nat, addr: nat)
    ensures (ok, bus, addr) == BusAddr(deviceName, busIn, addrIn)
  {
    bus, addr := busIn, addrIn;
    var findHyphen := 0;
    while findHyphen < |deviceName| && deviceName[findHyphen] != '-'
      invariant findHyphen <= |deviceName|
      invariant forall j :: 0 <= j < findHyphen ==> deviceName[j] != '-'
    {
      findHyphen := findHyphen + 1;
    }
    if findHyphen == |deviceName| {
      return false, bus, addr;
    }
    var busStr := deviceName[..findHyphen];
    var addrStr := deviceName[findHyphen + 1..];
    var res := FromChars(busStr, Dec, UINT64_END);
    if res.Read? {
      bus := res.value;
    }
    if !res.Read? || res.used != |busStr| {
      return false, bus, addr;
    }
    res := FromChars(addrStr, Hex, UINT64_END);
    if res.Read? {
      addr := res.value;
    }
    if !res.Read? || res.used != |addrStr| {
      return false, bus, addr;
    }
    return true, bus, addr;
  }

  lemma HyphenSplits(left: string, right: string, r: Radix)
    requires AllDigits(left, r)
    ensures var name := left + "-" + right;
      && FindHyphen(name) == |left| && |left| < |name|
      && name[..|left|] == left && name[|left| + 1..] == right
  {
    var name := left + "-" + right;
    assert name[|left|] == '-';
    forall j | 0 <= j < |left| ensures name[j] != '-' {
      assert DigitVal(left[j]) < r.Base();
    }
  }

  /** Every 64-bit bus and address survive printing and reading back. */
  lemma NameRoundTrip(bus: nat, address: nat, busWas: nat, addrWas: nat)
    requires bus < UINT64_END && address < UINT64_END
    ensures BusAddr(DeviceDirName(bus, address), busWas, addrWas) == (true, bus, address)
  {
    var busStr, addrStr := Print(bus, Dec), Padded(Print(address, Hex), 4);
    PrintRoundTrip(bus, Dec);
    PaddedRoundTrip(address, Hex, 4);
    HyphenSplits(busStr, addrStr, Dec);
    FromCharsReadsDigits(busStr, Dec, UINT64_END);
    FromCharsReadsDigits(addrStr, Hex, UINT64_END);
  }

  /** Different devices have different names. */
  lemma NamesAreInjective(bus: nat, address: nat, bus': nat, address': nat)
    requires bus < UINT64_END && address < UINT64_END && bus' < UINT64_END && address' < UINT64_END
    requires DeviceDirName(bus, address) == DeviceDirName(bus', address')
    ensures bus == bus' && address == address'
  {
    NameRoundTrip(bus, address, 0, 0);
    NameRoundTrip(bus', address', 0, 0);
  }

  /** The shape of the address part: lower case, at least four digits, and no leading zero
      beyond four. */
  predicate AddressShape(s: string) {
    LowerDigits(s, Hex) && (|s| == 4 || (|s| > 4 && s[0] != '0'))
  }

  lemma PaddedShape(n: nat)
    ensures AddressShape(Padded(Print(n, Hex), 4))
  {
    PrintIsMinimal(n, Hex);
  }

  lemma PaddedOneMore(p: string, width: nat)
    requires |p| <= width
    ensures Padded(p, width + 1) == Zeros(1) + Padded(p, width)
  {
  }

  lemma {:induction false} PaddedIsPrinted(s: string, width: nat)
    requires LowerDigits(s, Hex) && 1 <= |s| <= width
    ensures |Print(Value(s, Hex), Hex)| <= |s|
    ensures Padded(Print(Value(s, Hex), Hex), |s|) == s
  {
    if |s| == 1 || s[0] != '0' {
      MinimalIsPrinted(s, Hex);
    } else {
      var rest := s[1..];
      PaddedIsPrinted(rest, width);
      assert s == Zeros(1) + rest;
      ZerosDoNotCount(1, rest, Hex);
      PaddedOneMore(Print(Value(rest, Hex), Hex), |rest|);
    }
  }

  lemma WholeIsValue(s: string, r: Radix, was: nat)
    requires Whole(s, r)
    ensures s != [] && AllDigits(s, r) && Target(s, r, was) == Value(s, r)
  {
    assert s[..|s|] == s;
  }

  lemma PrintedFromShape(busStr: string, addrStr: string)
    requires busStr != [] && AllDigits(busStr, Dec) && Minimal(busStr) && AddressShape(addrStr)
    ensures DeviceDirName(Value(busStr, Dec), Value(addrStr, Hex)) == busStr + "-" + addrStr
  {
    forall j | 0 <= j < |busStr| ensures !('A' <= busStr[j] <= 'Z') {
      assert DigitVal(busStr[j]) < 10;
    }
    MinimalIsPrinted(busStr, Dec);
    if |addrStr| == 4 { PaddedIsPrinted(addrStr, 4); } else { MinimalIsPrinted(addrStr, Hex); }
  }

  /** A name of the printed shape. */
  predicate Canonical(name: string) {
    var i := FindHyphen(name);
    i < |name| && Minimal(name[..i]) && AddressShape(name[i + 1..])
  }

  lemma PrintedIsCanonical(bus: nat, address: nat)
    ensures Canonical(DeviceDirName(bus, address))
  {
    PrintIsMinimal(bus, Dec);
    PaddedShape(address);
    HyphenSplits(Print(bus, Dec), Padded(Print(address, Hex), 4), Dec);
  }

  lemma ReadParts(name: string, busWas: nat, addrWas: nat) returns (busStr: string, addrStr: string)
    requires BusAddr(name, busWas, addrWas).0
    ensures name == busStr + "-" + addrStr && busStr != [] && AllDigits(busStr, Dec)
    ensures BusAddr(name, busWas, addrWas) == (true, Value(busStr, Dec), Value(addrStr, Hex))
    ensures Canonical(name) <==> Minimal(busStr) && AddressShape(addrStr)
  {
    var i := FindHyphen(name);
    busStr, addrStr := name[..i], name[i + 1..];
    WholeIsValue(busStr, Dec, busWas);
    WholeIsValue(addrStr, Hex, addrWas);
  }

  /** A name that reads back prints to itself exactly when it has the printed shape. */
  lemma ReadNameIsPrinted(name: string, busWas: nat, addrWas: nat)
    requires BusAddr(name, busWas, addrWas).0
    ensures var (_, bus, addr) := BusAddr(name, busWas, addrWas);
      DeviceDirName(bus, addr) == name <==> Canonical(name)
  {
    var busStr, addrStr := ReadParts(name, busWas, addrWas);
    PrintedIsCanonical(Value(busStr, Dec), Value(addrStr, Hex));
    if Canonical(name) {
      PrintedFromShape(busStr, addrStr);
    }
  }

  // ----- Which names are read -----

  lemma WholeIff(s: string, r: Radix)
    ensures Whole(s, r) <==> s != [] && AllDigits(s, r) && Value(s, r) < 0x1_0000_0000_0000_0000
  {
    if AllDigits(s, r) {
      if s != [] { FromCharsReadsDigits(s, r, UINT64_END); }
    } else if Whole(s, r) {
      WholeIsValue(s, r, 0);
    }
  }

  lemma SplitsAtHyphen(left: string, right: string)
    requires forall i :: 0 <= i < |left| ==> left[i] != '-'
    ensures var name := left + "-" + right;
      FindHyphen(name) == |left| && name[..|left|] == left && name[|left| + 1..] == right
  {
    var name := left + "-" + right;
    assert name[|left|] == '-' && forall i :: 0 <= i < |left| ==> name[i] == left[i];
  }

  /** A name is read exactly when it is a decimal number, a hyphen and a hexadecimal number, both of
      64 bits; then both are returned. A bad bus leaves the address alone. */
  lemma ReadsIff(left: string, right: string, busWas: nat, addrWas: nat)
    requires forall i :: 0 <= i < |left| ==> left[i] != '-'
    ensures var (ok, bus, addr) := BusAddr(left + "-" + right, busWas, addrWas);
      var busOk := left != [] && AllDigits(left, Dec) && Value(left, Dec) < 0x1_0000_0000_0000_0000;
      var addrOk := right != [] && AllDigits(right, Hex) && Value(right, Hex) < 0x1_0000_0000_0000_0000;
      && (ok <==> busOk && addrOk)
      && (busOk ==> bus == Value(left, Dec)) && (busOk && addrOk ==> addr == Value(right, Hex))
      && (!busOk ==> addr == addrWas)
  {
    SplitsAtHyphen(left, right);
    WholeIff(left, Dec);
    WholeIff(right, Hex);
    if Whole(left, Dec) { WholeIsValue(left, Dec, busWas); }
    if Whole(right, Hex) { WholeIsValue(right, Hex, addrWas); }
  }

  /** What a bad part leaves behind: its leading digits, if there are any and they fit. */
  lemma LeadingDigitsAreWritten(digits: string, rest: string, r: Radix, was: nat)
    requires AllDigits(digits, r) && rest != [] && DigitVal(rest[0]) >= r.Base()
    ensures !Whole(digits + rest, r)
    ensures Target(digits + rest, r, was) ==
      if digits != [] && Value(digits, r) < 0x1_0000_0000_0000_0000 then Value(digits, r) else was
  {
    FromCharsStops(digits, rest, r, UINT64_END);
  }

  /** A bad bus writes its leading digits and leaves the address alone; with a good bus, a bad address
      writes its own. */
  lemma BadPartsWrite(left: string, digits: string, rest: string, right: string, busWas: nat, addrWas: nat)
    requires forall i :: 0 <= i < |left| ==> left[i] != '-'
    requires rest != []
    ensures left == digits + rest && AllDigits(digits, Dec) && DigitVal(rest[0]) >= 10 ==>
      BusAddr(left + "-" + right, busWas, addrWas) ==
        (false,
         if digits != [] && Value(digits, Dec) < 0x1_0000_0000_0000_0000 then Value(digits, Dec) else busWas,
         addrWas)
    ensures left != [] && AllDigits(left, Dec) && Value(left, Dec) < 0x1_0000_0000_0000_0000 &&
            right == digits + rest && AllDigits(digits, Hex) && DigitVal(rest[0]) >= 16 ==>
      BusAddr(left + "-" + right, busWas, addrWas) ==
        (false, Value(left, Dec),
         if digits != [] && Value(digits, Hex) < 0x1_0000_0000_0000_0000 then Value(digits, Hex) else addrWas)
  {
    SplitsAtHyphen(left, right);
    WholeIff(left, Dec);
    if left == digits + rest && AllDigits(digits, Dec) && DigitVal(rest[0]) >= 10 {
      LeadingDigitsAreWritten(digits, rest, Dec, busWas);
    }
    if Whole(left, Dec) {
      WholeIsValue(left, Dec, busWas);
      if right == digits + rest && AllDigits(digits, Hex) && DigitVal(rest[0]) >= 16 {
        LeadingDigitsAreWritten(digits, rest, Hex, addrWas);
      }
    }
  }

  /** Without a hyphen nothing is read and nothing is written. */
  lemma NoHyphenReadsNothing(name: string, busWas: nat, addrWas: nat)
    requires forall i :: 0 <= i < |name| ==> name[i] != '-'
    ensures BusAddr(name, busWas, addrWas) == (false, busWas, addrWas)
  {
  }

  /** The name of the device at bus 3, address 0x4c. */
  lemma NameExample()
    ensures DeviceDirName(3, 0x4c) == "3-004c"
  {
    assert Print(3, Dec) == "3";
    assert Print(4, Hex) == "4" && Print(0x4c, Hex) == "4" + "c";
    assert Zeros(2) == "00";
  }
}
