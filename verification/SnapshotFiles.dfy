/** The snapshot directory: how a slot's file is named, how the directory is scanned for the end
    of the recorded data, and the map from slot numbers to slots that it represents. */
module SnapshotFiles {
  import opened Common
  import opened Decimals
  import opened Ledger
  import opened RunPlan

  const PREFIX := "slot_"
  const SUFFIX := "_with_children.json"

  function FileName(number: nat): string {
    PREFIX + Padded(number, 4) + SUFFIX
  }

  function StripPrefix(s: string, prefix: string): Option<string> {
    if prefix <= s then Some(s[|prefix|..]) else None
  }

  function StripSuffix(s: string, suffix: string): Option<string> {
    if |suffix| <= |s| && s[|s| - |suffix|..] == suffix then Some(s[..|s| - |suffix|]) else None
  }

  /** The slot number a file name stands for, as the directory scan reads it. */
  function ParseName(name: string): Option<u64> {
    match StripPrefix(name, PREFIX)
    case None => None
    case Some(rest) =>
      match StripSuffix(rest, SUFFIX)
      case None => None
      case Some(digits) => ParseU64(digits)
  }

  /** Names round-trip: the scan recovers every u64 from the name it was saved under. */
  lemma NameRoundTrip(n: nat)
    ensures ParseName(FileName(n)) == if n <= 0xFFFF_FFFF_FFFF_FFFF then Some(n) else None
  {
    var name := FileName(n);
    assert name[|PREFIX|..] == Padded(n, 4) + SUFFIX;
    var rest := Padded(n, 4) + SUFFIX;
    assert rest[|rest| - |SUFFIX|..] == SUFFIX;
    assert rest[..|rest| - |SUFFIX|] == Padded(n, 4);
    ParsePadded(n, 4);
  }

  lemma ParsesAs(digits: string, n: u64)
    requires ParseU64(digits) == Some(n)
    ensures ParseName(PREFIX + digits + SUFFIX) == Some(n)
  {
    var name := PREFIX + digits + SUFFIX;
    var rest := digits + SUFFIX;
    assert name[|PREFIX|..] == rest;
    assert rest[|rest| - |SUFFIX|..] == SUFFIX;
    assert rest[..|rest| - |SUFFIX|] == digits;
  }

  /** A name as it is spelled: four digits, padded with zeros. */
  lemma NameOfSlotSeven()
    ensures FileName(7) == "slot_0007_with_children.json"
  {
    hide Padded;
    PaddedSeven();
  }

  /** A run of digits, possibly behind a plus sign, that denotes `n`. */
  ghost predicate Denotes(numeral: string, n: nat) {
    var digits := if numeral != [] && numeral[0] == '+' then numeral[1..] else numeral;
    digits != [] && AllDigits(digits) && NumberOf(digits) == n
  }

  /** Exactly which names the scan reads as number n. */
  lemma ScannedNamesAre(name: string, n: u64)
    ensures ParseName(name) == Some(n)
       <==> exists numeral :: Denotes(numeral, n) && name == "slot_" + numeral + "_with_children.json"
  {
    if ParseName(name) == Some(n) {
      var rest := name[|PREFIX|..];
      var numeral := rest[..|rest| - |SUFFIX|];
      assert rest == numeral + SUFFIX;
      assert name == PREFIX + numeral + SUFFIX;
      assert Denotes(numeral, n);
    }
    forall numeral | Denotes(numeral, n) && name == "slot_" + numeral + "_with_children.json"
      ensures ParseName(name) == Some(n)
    {
      ParsesAs(numeral, n);
    }
  }

  lemma NamesAreInjective(m: u64, n: u64)
    requires FileName(m) == FileName(n)
    ensures m == n
  {
    NameRoundTrip(m);
    NameRoundTrip(n);
  }

  /** Not every name the scan accepts is one that saving produces and the loader finds again: it
      also reads numbers padded to another width, and a leading plus sign. */
  lemma ForeignNamesParse(n: u64, width: nat)
    ensures ParseName(PREFIX + Padded(n, width) + SUFFIX) == Some(n)
    ensures ParseName(PREFIX + ("+" + Padded(n, width)) + SUFFIX) == Some(n)
    ensures |PREFIX + ("+" + Padded(n, 4)) + SUFFIX| != |FileName(n)|
    ensures width > 4 && |Decimal(n)| < width ==> |PREFIX + Padded(n, width) + SUFFIX| != |FileName(n)|
  {
    hide Padded, Decimal, ParseName, FileName, ParseU64;
    ParsePadded(n, width);
    ParsesAs(Padded(n, width), n);
    PlusParses(n, width);
    ParsesAs("+" + Padded(n, width), n);
    ForeignNamesAreLonger(n, width);
  }

  lemma PlusParses(n: u64, width: nat)
    ensures ParseU64("+" + Padded(n, width)) == Some(n)
  {
    ParsePadded(n, width);
    DecimalDoesNotStartWithPlus(n, width);
    hide Padded, NumberOf;
    assert ("+" + Padded(n, width))[1..] == Padded(n, width);
  }

  lemma ForeignNamesAreLonger(n: u64, width: nat)
    ensures |PREFIX + ("+" + Padded(n, 4)) + SUFFIX| == |FileName(n)| + 1
    ensures width > 4 && |Decimal(n)| < width ==> |PREFIX + Padded(n, width) + SUFFIX| > |FileName(n)|
  {
    hide Decimal;
  }

  // ---------------------------------------------------------------- the directory as a map

  type Files = map<string, Slot>

  function LoadSnapshot(files: Files, number: nat): Option<Slot> {
    if FileName(number) in files then Some(files[FileName(number)]) else None
  }

  function SavedNumbers(files: Files): set<u64> {
    set name | name in files && ParseName(name).Some? && FileName(ParseName(name).value) == name
             :: ParseName(name).value
  }

  /** The map from slot numbers to slots that the loader sees. */
  function Numbered(files: Files): (m: map<nat, Slot>) {
    map n: nat | n in SavedNumbers(files) :: files[FileName(n)]
  }

  lemma NumberedIsLoad(files: Files, n: nat)
    requires n < TWO_64
    ensures n in Numbered(files) <==> LoadSnapshot(files, n).Some?
    ensures n in Numbered(files) ==> Numbered(files)[n] == LoadSnapshot(files, n).value
  {
    NameRoundTrip(n);
    if FileName(n) in files {
      assert n in SavedNumbers(files);
    }
  }

  lemma SavingUpdatesOneNumber(files: Files, slot: Slot)
    ensures Numbered(files[FileName(slot.number) := slot]) == Numbered(files)[slot.number := slot]
  {
    var files' := files[FileName(slot.number) := slot];
    var expected := Numbered(files)[slot.number := slot];
    forall n: nat
      ensures n in Numbered(files') <==> n in expected
      ensures n in Numbered(files') ==> Numbered(files')[n] == expected[n]
    {
      if n < TWO_64 {
        NumberedIsLoad(files, n);
        NumberedIsLoad(files', n);
        if FileName(n) == FileName(slot.number) {
          NamesAreInjective(n, slot.number);
        }
      }
    }
  }

  /** No name in the directory stands for a larger number than every saved slot. */
  ghost predicate SavedSlotsLead(files: Files) {
    forall name :: name in files && ParseName(name).Some? ==>
      exists s :: s in Numbered(files) && ParseName(name).value <= s
  }

  lemma SavingKeepsTheLead(files: Files, slot: Slot)
    requires SavedSlotsLead(files)
    ensures SavedSlotsLead(files[FileName(slot.number) := slot])
  {
    var files' := files[FileName(slot.number) := slot];
    SavingUpdatesOneNumber(files, slot);
    NameRoundTrip(slot.number);
    hide Numbered, FileName, ParseName;
    assert slot.number in Numbered(files');
    forall name | name in files' && ParseName(name).Some?
      ensures exists s :: s in Numbered(files') && ParseName(name).value <= s
    {
      if name in files {
        var s :| s in Numbered(files) && ParseName(name).value <= s;
        assert s in Numbered(files');
      }
    }
  }

  class SnapshotDir {
    var files: Files

    constructor ()
      ensures files == map[]
    {
      files := map[];
    }

    function Slots(): map<nat, Slot>
      reads this
    {
      Numbered(files)
    }

    method SaveSlotSnapshot(slot: Slot)
      modifies this
      ensures files == old(files)[FileName(slot.number) := slot]
      ensures Slots() == old(Slots())[slot.number := slot]
      ensures old(SavedSlotsLead(files)) ==> SavedSlotsLead(files)
    {
      SavingUpdatesOneNumber(files, slot);
      if SavedSlotsLead(files) {
        SavingKeepsTheLead(files, slot);
      }
      files := files[FileName(slot.number) := slot];
    }

    method HasSnapshot(number: u64) returns (exists': bool)
      ensures exists' <==> number in Slots()
    {
      NumberedIsLoad(files, number);
      exists' := FileName(number) in files;
    }
  }

  // ---------------------------------------------------------------- the directory scan

  /** The largest number any file name in the directory stands for. */
  ghost predicate IsLargestNumber(names: set<string>, largest: u64) {
    && (exists name :: name in names && ParseName(name) == Some(largest))
    && (forall name :: name in names && ParseName(name).Some? ==> ParseName(name).value <= largest)
  }

  datatype ScanError = FinalSnapshotUnreadable(slot: nat)

  /** What the scan reports about a directory. */
  ghost predicate ScanReports(files: Files, r: Result<Option<RecordedDataBounds>, ScanError>) {
    match r
    case Ok(None) => forall name :: name in files ==> ParseName(name).None?
    case Ok(Some(bounds)) =>
      && bounds.lastSlotNumber < TWO_64
      && IsLargestNumber(files.Keys, bounds.lastSlotNumber)
      && FileName(bounds.lastSlotNumber) in files
      && bounds.endRollupHeight == files[FileName(bounds.lastSlotNumber)].batchEnd
    case Err(FinalSnapshotUnreadable(n)) =>
      n < TWO_64 && IsLargestNumber(files.Keys, n) && FileName(n) !in files
  }

  /** Scans the directory, whose entries come in no particular order. */
  method ScanRecordedDataBounds(files: Files) returns (r: Result<Option<RecordedDataBounds>, ScanError>)
    ensures ScanReports(files, r)
  {
    var lastSlotNumber: Option<u64> := None;
    var remaining := files.Keys;
    while remaining != {}
      invariant remaining <= files.Keys
      invariant match lastSlotNumber
        case None => forall name :: name in files.Keys - remaining ==> ParseName(name).None?
        case Some(largest) => IsLargestNumber(files.Keys - remaining, largest)
      decreases remaining
    {
      ghost var seen := files.Keys - remaining;
      var name :| name in remaining;
      remaining := remaining - {name};
      assert files.Keys - remaining == seen + {name};
      var number := ParseName(name);
      if number.Some? {
        assert name in files.Keys - remaining && ParseName(name) == number;
        lastSlotNumber :=
          Some(if lastSlotNumber.Some? && number.value < lastSlotNumber.value then lastSlotNumber.value else number.value);
      }
    }
    assert files.Keys - remaining == files.Keys;
    if lastSlotNumber.None? {
      return Ok(None);
    }
    var last := lastSlotNumber.value;
    r := match LoadSnapshot(files, last)
      case Some(slot) => Ok(Some(RecordedDataBounds(last, slot.batchEnd)))
      case None => Err(FinalSnapshotUnreadable(last));
  }

  lemma SavedNumberIsNoLarger(files: Files, largest: u64, s: nat)
    requires IsLargestNumber(files.Keys, largest) && s in Numbered(files)
    ensures s <= largest && FileName(s) in files
  {
    NameRoundTrip(s);
  }

  /** The scan against the saved slots: its bounds are the largest saved slot and that slot's
      cumulative batch end, and it fails exactly when a foreign file name outranks all of them. */
  lemma ScanFindsLargestSavedSlot(files: Files, r: Result<Option<RecordedDataBounds>, ScanError>)
    requires ScanReports(files, r)
    ensures r.Ok? <==> SavedSlotsLead(files)
    ensures match r
      case Ok(None) => Numbered(files) == map[]
      case Ok(Some(bounds)) =>
        && bounds.lastSlotNumber in Numbered(files)
        && bounds.endRollupHeight == Numbered(files)[bounds.lastSlotNumber].batchEnd
        && forall s :: s in Numbered(files) ==> s <= bounds.lastSlotNumber
      case Err(FinalSnapshotUnreadable(n)) =>
        && (exists name :: name in files && ParseName(name) == Some(n) && name != FileName(n))
        && forall s :: s in Numbered(files) ==> s < n
  {
    match r
    case Ok(None) =>
      assert SavedNumbers(files) == {};
    case Ok(Some(bounds)) =>
      NumberedIsLoad(files, bounds.lastSlotNumber);
      forall s | s in Numbered(files) ensures s <= bounds.lastSlotNumber {
        SavedNumberIsNoLarger(files, bounds.lastSlotNumber, s);
      }
    case Err(FinalSnapshotUnreadable(n)) =>
      var name :| name in files && ParseName(name) == Some(n);
      assert name != FileName(n);
      forall s | s in Numbered(files) ensures s < n {
        SavedNumberIsNoLarger(files, n, s);
      }
  }
}
