/** The image-layout rules of internal/image/part.go: size strings, the
    percentage layout of the partitions, and the per-partition naming,
    formatting and source-directory rules of CreateRawImage. */
module Part {
  import opened Wrappers
  import opened GoStrings
  import opened GoFilepath

  /** One partition of the raw image, as the build configuration lists it. */
  datatype PartitionConfig = PartitionConfig(
    name: string,
    size: string,        // "512M", "1G", ... or "*" for the rest of the disk
    filesystem: string,  // "ext4" or "vfat"
    mount: string,       // where the partition is mounted in the built system
    flags: seq<string>)  // e.g. ["boot"]

  /** The settings of one raw image. */
  datatype RawConfig = RawConfig(
    outputPath: string,
    size: string,        // total image size, e.g. "1G"
    partitions: seq<PartitionConfig>,
    templateDir: string)

  // ---------------------------------------------------------------------------
  // ParseSizeToMB
  // ---------------------------------------------------------------------------

  /** ParseSizeToMB's run-time panic: a three-character cut of a two-character string. */
  datatype SizePanic = SliceOutOfRange

  /** ParseSizeToMB: upper-case the size, strip a G/GB/GiB suffix (multiplier 1024)
      or an M/MB/MiB suffix (multiplier 1), and read the rest with Atoi,
      taking 0 when Atoi fails. The two-letter suffixes GB and MB are cut like
      the three-letter ones, so an input that is exactly "GB" or "MB" panics. */
  function ParseSizeToMB(size: string): (r: Result<int, SizePanic>)
    ensures r.Failure? <==> ToUpper(size) == "GB" || ToUpper(size) == "MB"
  {
    ParseUpperSize(ToUpper(size))
  }

  /** ParseSizeToMB after its first statement, on the upper-cased size s. */
  function ParseUpperSize(s: string): (r: Result<int, SizePanic>)
    ensures r.Failure? <==> s == "GB" || s == "MB"
  {
    if HasSuffix(s, "GIB") || HasSuffix(s, "GB") then
      if |s| < 3 then Failure(SliceOutOfRange) else Success(AtoiOrZeroOf(s[..|s| - 3]) * 1024)
    else if HasSuffix(s, "G") then
      Success(AtoiOrZeroOf(s[..|s| - 1]) * 1024)
    else if HasSuffix(s, "MIB") || HasSuffix(s, "MB") then
      if |s| < 3 then Failure(SliceOutOfRange) else Success(AtoiOrZeroOf(s[..|s| - 3]))
    else if HasSuffix(s, "M") then
      Success(AtoiOrZeroOf(s[..|s| - 1]))
    else
      Success(AtoiOrZeroOf(s))
  }

  /** Sizes are case-insensitive: ParseSizeToMB reads a size and its upper-cased form alike. */
  lemma ParseSizeIgnoresCase(size: string)
    ensures ParseSizeToMB(ToUpper(size)) == ParseSizeToMB(size)
  {
    ToUpperIdempotent(size);
  }

  /** Upper-casing a number followed by a unit upper-cases only the unit. */
  lemma UpperNumberWithUnit(n: int, unit: string)
    ensures ToUpper(Itoa(n) + unit) == Itoa(n) + ToUpper(unit)
  {
    ItoaShape(n);
    ToUpperAppend(Itoa(n), unit);
    ToUpperNoLower(Itoa(n));
  }

  /** The last characters of a number followed by a unit. */
  lemma NumberWithUnitEnds(n: int, u: string, s: string)
    requires s == Itoa(n) + u
    ensures |s| > |u| && s[..|s| - |u|] == Itoa(n) && s[|s| - |u|..] == u
    ensures IsDigit(s[|s| - |u| - 1])
  {
    ItoaShape(n);
  }

  /** A number with a G or GiB unit, in any letter case, is that many GiB: n * 1024 MB. */
  lemma ParseSizeGibibytes(n: int, unit: string)
    requires ToUpper(unit) == "G" || ToUpper(unit) == "GIB"
    ensures ParseSizeToMB(Itoa(n) + unit) == Success(n * 1024)
  {
    UpperNumberWithUnit(n, unit);
    ItoaAtoi(n);
    var u := ToUpper(unit);
    var s := Itoa(n) + u;
    NumberWithUnitEnds(n, u, s);
    if u == "G" {
      assert s[|s| - 1] == 'G';
      assert !HasSuffix(s, "GIB") && !HasSuffix(s, "GB");
      assert HasSuffix(s, "G");
    } else {
      assert HasSuffix(s, "GIB");
    }
  }

  /** The upper-cased size n with no unit. */
  lemma ParseUpperBareNumber(n: int)
    ensures ParseUpperSize(Itoa(n)) == Success(AtoiOrZeroOf(Itoa(n)))
  {
    var s := Itoa(n);
    ItoaShape(n);
    assert IsDigit(s[|s| - 1]);
    assert !HasSuffix(s, "GIB") && !HasSuffix(s, "GB") && !HasSuffix(s, "G");
    assert !HasSuffix(s, "MIB") && !HasSuffix(s, "MB") && !HasSuffix(s, "M");
  }

  /** A number with an M or MiB unit, in any letter case, or with no unit, is that many MB. */
  lemma ParseSizeMebibytes(n: int, unit: string)
    requires ToUpper(unit) == "M" || ToUpper(unit) == "MIB" || unit == ""
    ensures ParseSizeToMB(Itoa(n) + unit) == Success(n)
  {
    UpperNumberWithUnit(n, unit);
    ItoaAtoi(n);
    var u := ToUpper(unit);
    if u == "M" {
      ParseUpperAfterM(Itoa(n));
    } else if u == "MIB" {
      ParseUpperAfterMib(Itoa(n));
    } else {
      assert Itoa(n) + u == Itoa(n);
      ParseUpperBareNumber(n);
    }
  }

  /** The GB and MB units lose the number's last digit along with the unit, because
      both are cut as three characters: "10GB" is 1024 MB and "512MB" is 51 MB. In
      general n GB gives Go's (n / 10) * 1024, truncating toward zero. */
  lemma ParseSizeTwoLetterUnits(n: int, unit: string)
    requires ToUpper(unit) == "GB" || ToUpper(unit) == "MB"
    ensures ParseSizeToMB(Itoa(n) + unit) ==
      Success(if ToUpper(unit) == "GB" then Quo(n, 10) * 1024 else Quo(n, 10))
  {
    UpperNumberWithUnit(n, unit);
    ItoaDropLast(n);
    var u := ToUpper(unit);
    var t := Itoa(n);
    var s := t + u;
    NumberWithUnitEnds(n, u, s);
    assert s[..|s| - 3] == t[..|t| - 1];
    if u == "MB" {
      assert s[|s| - 2..] == "MB" && s[|s| - 1] == 'B' && s[|s| - 2] == 'M';
      assert !HasSuffix(s, "GIB") && !HasSuffix(s, "GB") && !HasSuffix(s, "G");
      assert HasSuffix(s, "MB");
    } else {
      assert HasSuffix(s, "GB");
    }
  }

  /** The unit's letter case does not matter: "512m" is "512M", "1g" is "1G". */
  lemma ParseSizeCaseExamples()
    ensures ParseSizeToMB("512m") == ParseSizeToMB("512M") == Success(512)
    ensures ParseSizeToMB("1g") == ParseSizeToMB("1G") == Success(1024)
  {
    ItoaExamples();
    assert ParseSizeToMB("512m") == Success(512) by {
      assert Itoa(512) + "m" == "512m";
      ParseSizeMebibytes(512, "m");
    }
    assert ParseSizeToMB("512M") == Success(512) by {
      assert Itoa(512) + "M" == "512M";
      ParseSizeMebibytes(512, "M");
    }
    assert ParseSizeToMB("1g") == Success(1024) by {
      assert Itoa(1) + "g" == "1g";
      ParseSizeGibibytes(1, "g");
    }
    assert ParseSizeToMB("1G") == Success(1024) by {
      assert Itoa(1) + "G" == "1G";
      ParseSizeGibibytes(1, "G");
    }
  }

  /** "10GB" is 1024 MB and "512MB" is 51 MB. */
  lemma ParseSizeTwoLetterExamples()
    ensures ParseSizeToMB("10GB") == Success(1024)
    ensures ParseSizeToMB("512MB") == Success(51)
  {
    ItoaExamples();
    assert ParseSizeToMB("10GB") == Success(1024) by {
      assert Itoa(10) + "GB" == "10GB";
      ParseSizeTwoLetterUnits(10, "GB");
    }
    assert ParseSizeToMB("512MB") == Success(51) by {
      assert Itoa(512) + "MB" == "512MB";
      ParseSizeTwoLetterUnits(512, "MB");
      assert ToUpper("MB") == "MB" && Quo(512, 10) == 51;
    }
  }

  /** A sign is read: "-3M" is -3 MB. */
  lemma ParseSizeNegative()
    ensures ParseSizeToMB("-3M") == Success(-3)
  {
    ItoaExamples();
    assert Itoa(-3) + "M" == "-3M";
    ParseSizeMebibytes(-3, "M");
  }

  /** What is left after a recognised unit, or the whole size, must be a number,
      or the size is 0: "5KIB" is 0 MB. */
  lemma ParseSizeUnknownUnit()
    ensures ParseSizeToMB("5KIB") == Success(0)
  {
    var s := "5KIB";
    assert ToUpper(s) == s;
    assert !AllDigits(s) by { assert !IsDigit(s[1]); }
    assert !HasSuffix(s, "GIB") by { assert s[1] != 'G'; }
    assert !HasSuffix(s, "GB") by { assert s[2] != 'G'; }
    assert !HasSuffix(s, "G") by { assert s[3] != 'G'; }
    assert !HasSuffix(s, "MIB") by { assert s[1] != 'M'; }
    assert !HasSuffix(s, "MB") by { assert s[2] != 'M'; }
    assert !HasSuffix(s, "M") by { assert s[3] != 'M'; }
  }

  /** A size whose upper-cased form ends in none of the units and is not a
      number is 0 MB: the Atoi error is dropped. */
  lemma ParseSizeNotANumber(size: string)
    requires var u := ToUpper(size);
      && !HasSuffix(u, "GIB") && !HasSuffix(u, "GB") && !HasSuffix(u, "G")
      && !HasSuffix(u, "MIB") && !HasSuffix(u, "MB") && !HasSuffix(u, "M")
      && Atoi(u).None?
    ensures ParseSizeToMB(size) == Success(0)
  {
  }

  /** The parse rule for a one- or three-letter unit, over every input: with G,
      GiB, M or MiB after any text, in any letter case, the text before the unit
      is read by Atoi (0 when Atoi rejects it) and multiplied by 1024 for G and
      GiB. This covers "+5G", "05M" and "1.5G" alike. */
  lemma ParseSizeUnitRule(rest: string, unit: string)
    requires ToUpper(unit) == "G" || ToUpper(unit) == "GIB" || ToUpper(unit) == "M" || ToUpper(unit) == "MIB"
    ensures ParseSizeToMB(rest + unit) ==
      Success(AtoiOrZeroOf(ToUpper(rest)) * (if ToUpper(unit) in {"G", "GIB"} then 1024 else 1))
  {
    ToUpperAppend(rest, unit);
    var r := ToUpper(rest);
    var u := ToUpper(unit);
    if u == "G" {
      ParseUpperAfterG(r);
    } else if u == "GIB" {
      ParseUpperAfterGib(r);
    } else if u == "M" {
      ParseUpperAfterM(r);
    } else {
      ParseUpperAfterMib(r);
    }
  }

  lemma ParseUpperAfterG(r: string)
    ensures ParseUpperSize(r + "G") == Success(AtoiOrZeroOf(r) * 1024)
  {
    var s := r + "G";
    assert s[..|s| - 1] == r && s[|s| - 1] == 'G';
    assert !HasSuffix(s, "GIB") && !HasSuffix(s, "GB");
  }

  lemma ParseUpperAfterGib(r: string)
    ensures ParseUpperSize(r + "GIB") == Success(AtoiOrZeroOf(r) * 1024)
  {
    var s := r + "GIB";
    assert s[..|s| - 3] == r && s[|s| - 3..] == "GIB";
  }

  lemma ParseUpperAfterM(r: string)
    ensures ParseUpperSize(r + "M") == Success(AtoiOrZeroOf(r))
  {
    var s := r + "M";
    assert s[..|s| - 1] == r && s[|s| - 1] == 'M';
    assert !HasSuffix(s, "GIB") && !HasSuffix(s, "GB") && !HasSuffix(s, "G");
    assert !HasSuffix(s, "MIB") && !HasSuffix(s, "MB");
  }

  lemma ParseUpperAfterMib(r: string)
    ensures ParseUpperSize(r + "MIB") == Success(AtoiOrZeroOf(r))
  {
    var s := r + "MIB";
    assert s[..|s| - 3] == r && s[|s| - 3..] == "MIB" && s[|s| - 2] == 'I' && s[|s| - 1] == 'B';
    assert !HasSuffix(s, "GIB") && !HasSuffix(s, "GB") && !HasSuffix(s, "G");
  }

  /** The parse rule for the two-letter units GB and MB, over every input: after
      any non-empty text the unit and the text's last character are cut, and the
      rest is read by Atoi (0 when Atoi rejects it), times 1024 for GB. */
  lemma ParseSizeTwoLetterRule(rest: string, unit: string)
    requires ToUpper(unit) == "GB" || ToUpper(unit) == "MB"
    requires rest != ""
    ensures ParseSizeToMB(rest + unit) ==
      Success(AtoiOrZeroOf(ToUpper(rest)[..|rest| - 1]) * (if ToUpper(unit) == "GB" then 1024 else 1))
  {
    ToUpperAppend(rest, unit);
    var r := ToUpper(rest);
    var u := ToUpper(unit);
    var s := r + u;
    assert s[..|s| - 3] == r[..|r| - 1];
    assert s[|s| - 2..] == u;
    if u == "MB" {
      assert s[|s| - 2] == 'M';
      assert !HasSuffix(s, "GIB") && !HasSuffix(s, "GB") && !HasSuffix(s, "G");
      assert HasSuffix(s, "MB");
    } else {
      assert HasSuffix(s, "GB");
    }
  }

  /** A G, GiB, M or MiB unit after something that is not a number gives 0. */
  lemma ParseSizeUnitAfterNonNumber(rest: string, unit: string)
    requires ToUpper(unit) == "G" || ToUpper(unit) == "GIB" || ToUpper(unit) == "M" || ToUpper(unit) == "MIB"
    requires Atoi(ToUpper(rest)).None?
    ensures ParseSizeToMB(rest + unit) == Success(0)
  {
    ParseSizeUnitRule(rest, unit);
  }

  /** The units GB and MB alone, in any letter case, panic. */
  lemma ParseSizeBareUnitPanics()
    ensures ParseSizeToMB("gb").Failure? && ParseSizeToMB("MB").Failure?
  {
    assert ToUpper("gb") == "GB";
    assert ToUpper("MB") == "MB";
  }

  lemma ItoaExamples()
    ensures Itoa(1) == "1" && Itoa(10) == "10" && Itoa(512) == "512" && Itoa(-3) == "-3"
  {
    assert NatDigits(5) == "5";
    assert NatDigits(51) == "51";
    assert NatDigits(1) == "1";
    assert NatDigits(3) == "3";
  }

  // ---------------------------------------------------------------------------
  // contains
  // ---------------------------------------------------------------------------

  /** contains: a linear scan that stops at the first element equal to item. */
  method Contains(slice: seq<string>, item: string) returns (found: bool)
    ensures found <==> item in slice
  {
    for i := 0 to |slice|
      invariant forall j :: 0 <= j < i ==> slice[j] != item
    {
      if slice[i] == item {
        return true;
      }
    }
    return false;
  }

  // ---------------------------------------------------------------------------
  // Image size and percentage layout
  // ---------------------------------------------------------------------------

  /** The total image size in MB as CreateRawImage computes it for the layout:
      only an exact, upper-case G (times 1024) or M suffix is recognised, and
      any other size string gives 0. */
  function TotalSizeMB(size: string): (r: int)
    ensures r != 0 ==> |size| > 0 && (size[|size| - 1] == 'G' || size[|size| - 1] == 'M')
  {
    if HasSuffix(size, "G") then AtoiOrZeroOf(TrimSuffix(size, "G")) * 1024
    else if HasSuffix(size, "M") then AtoiOrZeroOf(TrimSuffix(size, "M"))
    else 0
  }

  /** The image sizes the layout understands: n followed by G or by M. */
  lemma TotalSizeUnits(n: int)
    ensures TotalSizeMB(Itoa(n) + "G") == n * 1024
    ensures TotalSizeMB(Itoa(n) + "M") == n
  {
    ItoaAtoi(n);
    ItoaShape(n);
    var g := Itoa(n) + "G";
    var m := Itoa(n) + "M";
    assert TrimSuffix(g, "G") == Itoa(n);
    assert !HasSuffix(m, "G") by { assert m[|m| - 1] == 'M'; }
    assert TrimSuffix(m, "M") == Itoa(n);
  }

  /** The disk-image size and the layout disagree on every other unit: "1GiB"
      makes a 1024 MB image, but the layout sees a total of 0 MB. */
  lemma TotalSizeIgnoresGiB()
    ensures ParseSizeToMB("1GiB") == Success(1024) && TotalSizeMB("1GiB") == 0
  {
    assert ParseSizeToMB("1GiB") == Success(1024) by {
      assert Itoa(1) + "GiB" == "1GiB";
      ParseSizeGibibytes(1, "GiB");
    }
    assert !HasSuffix("1GiB", "G") && !HasSuffix("1GiB", "M") by {
      assert "1GiB"[3..] == "B";
    }
  }

  /** The same holds for a lower-case unit: "1g" is 1024 MB, and 0 MB for the layout. */
  lemma TotalSizeIsCaseSensitive()
    ensures ParseSizeToMB("1g") == Success(1024) && TotalSizeMB("1g") == 0
  {
    assert ParseSizeToMB("1g") == Success(1024) by {
      assert Itoa(1) + "g" == "1g";
      ParseSizeGibibytes(1, "g");
    }
    assert !HasSuffix("1g", "G") && !HasSuffix("1g", "M") by {
      assert "1g"[1..] == "g";
    }
  }

  /** One `parted mkpart primary <start>% <end>%` call: the partition's number
      (counted from 1), its range in percent of the disk, and whether
      `parted set <number> boot on` follows it. */
  datatype PartitionRange = PartitionRange(number: nat, startPercent: int, endPercent: int, boot: bool)

  /** The run-time panics of the layout loop. */
  datatype LayoutError =
    | SizeSlicePanic(size: string)  // ParseSizeToMB panicked on a partition size
    | DivideByZero                  // a fixed-size partition, and a total size of 0 MB

  /** The partitions laid out before the loop ended, and the panic that ended it, if any. */
  datatype Layout = Layout(ranges: seq<PartitionRange>, error: Option<LayoutError>)

  /** How the layout loop reads a partition size: "*" is the rest of the disk,
      and any other size is whatever ParseSizeToMB makes of it. */
  datatype SizeClass = Rest | Fixed(parsed: Result<int, SizePanic>)

  function SizeClassOf(p: PartitionConfig): SizeClass
  {
    if p.size == "*" then Rest else Fixed(ParseSizeToMB(p.size))
  }

  /** The size class of every partition, in order. */
  function SizeClasses(parts: seq<PartitionConfig>): (cs: seq<SizeClass>)
    ensures |cs| == |parts|
  {
    seq(|parts|, k requires 0 <= k < |parts| => SizeClassOf(parts[k]))
  }

  /** Where a partition of size class c that starts at startPercent ends: at 100
      for "*", and otherwise after its share (sizeMB * 100) / totalSizeMB of the
      disk, in Go's truncating division, but never past 100. */
  function PartitionEnd(totalSizeMB: int, p: PartitionConfig, c: SizeClass, startPercent: int): (r: Result<int, LayoutError>)
    ensures r.Failure? <==> c.Fixed? && (c.parsed.Failure? || totalSizeMB == 0)
    ensures r.Success? ==> r.value <= 100
    ensures c.Rest? ==> r == Success(100)
    ensures r.Failure? ==> (r.error == DivideByZero <==> c.parsed.Success?)
  {
    match c
    case Rest => Success(100)
    case Fixed(Failure(_)) => Failure(SizeSlicePanic(p.size))
    case Fixed(Success(sizeMB)) =>
      if totalSizeMB == 0 then Failure(DivideByZero)
      else
        var endPercent := startPercent + Quo(sizeMB * 100, totalSizeMB);
        Success(if endPercent > 100 then 100 else endPercent)
  }

  /** The layout of parts[i..], whose size classes are cs[i..], the first of
      them starting at startPercent. */
  function LayoutFrom(totalSizeMB: int, parts: seq<PartitionConfig>, cs: seq<SizeClass>, i: nat, startPercent: int): Layout
    requires |cs| == |parts| && i <= |parts|
    decreases |parts| - i
  {
    if i == |parts| then Layout([], None)
    else
      var end := PartitionEnd(totalSizeMB, parts[i], cs[i], startPercent);
      if end.Failure? then Layout([], Some(end.error))
      else
        var rest := LayoutFrom(totalSizeMB, parts, cs, i + 1, end.value);
        Layout([RangeOf(parts, i, startPercent, end.value)] + rest.ranges, rest.error)
  }

  /** The range of parts[i]: number i + 1, boot flag when its flags contain "boot". */
  function RangeOf(parts: seq<PartitionConfig>, i: nat, startPercent: int, endPercent: int): PartitionRange
    requires i < |parts|
  {
    PartitionRange(i + 1, startPercent, endPercent, "boot" in parts[i].flags)
  }

  /** A fixed-size partition whose size makes ParseSizeToMB panic. */
  predicate SizePanics(p: PartitionConfig)
  {
    p.size != "*" && ParseSizeToMB(p.size).Failure?
  }

  /** The first partition from position i on whose size panics, or |parts| when none does. */
  function FirstSizePanic(parts: seq<PartitionConfig>, i: nat): (f: nat)
    requires i <= |parts|
    ensures i <= f <= |parts|
    ensures f < |parts| ==> SizePanics(parts[f])
    ensures forall k :: i <= k < f ==> !SizePanics(parts[k])
    decreases |parts| - i
  {
    if i == |parts| then i
    else if SizePanics(parts[i]) then i
    else FirstSizePanic(parts, i + 1)
  }

  /** The layout CreateRawImage creates for a configuration. The image size is
      parsed for dd, and every fixed partition size for the fixed-size total,
      before the first partition is created, so a size that panics there stops
      the build with no partition; otherwise the layout loop runs from 0%. */
  function PlanLayout(config: RawConfig): Layout
  {
    var ps := config.partitions;
    var f := FirstSizePanic(ps, 0);
    if ParseSizeToMB(config.size).Failure? then Layout([], Some(SizeSlicePanic(config.size)))
    else if f < |ps| then Layout([], Some(SizeSlicePanic(ps[f].size)))
    else LayoutFrom(TotalSizeMB(config.size), ps, SizeClasses(ps), 0, 0)
  }

  /** The body of the percentage-layout loop for one partition: "*" ends at 100;
      otherwise the size is parsed, the share of the disk computed and the end
      clamped at 100, or the loop panics. These are the loop's own statements,
      in the source's order; PartitionEnd is their specification, which the
      layout lemmas reason about. */
  method EndOfPartition(totalSizeMB: int, partitions: seq<PartitionConfig>, i: nat, startPercent: int)
    returns (end: Result<int, LayoutError>)
    requires i < |partitions|
    ensures end == PartitionEnd(totalSizeMB, partitions[i], SizeClasses(partitions)[i], startPercent)
  {
    var partition := partitions[i];
    assert SizeClasses(partitions)[i] == SizeClassOf(partition);
    if partition.size == "*" {
      return Success(100);
    }
    var parsed := ParseSizeToMB(partition.size);
    if parsed.Failure? {
      return Failure(SizeSlicePanic(partition.size));
    }
    if totalSizeMB == 0 {
      return Failure(DivideByZero);
    }
    var partPercent := Quo(parsed.value * 100, totalSizeMB);
    var endPercent := startPercent + partPercent;
    if endPercent > 100 {
      endPercent := 100;
    }
    return Success(endPercent);
  }

  /** The loop that adds up the fixed partition sizes before any partition is
      created: it parses each size that is not "*", so it panics at the first
      size ParseSizeToMB cannot cut. The total itself is not used afterwards. */
  method FixedSizePass(partitions: seq<PartitionConfig>) returns (panic: Option<string>)
    ensures var f := FirstSizePanic(partitions, 0);
      panic == if f < |partitions| then Some(partitions[f].size) else None
  {
    var totalFixedSize := 0;
    for i := 0 to |partitions|
      invariant forall k :: 0 <= k < i ==> !SizePanics(partitions[k])
    {
      var p := partitions[i];
      if p.size != "*" {
        var parsed := ParseSizeToMB(p.size);
        if parsed.Failure? {
          FirstSizePanicAt(partitions, i);
          return Some(p.size);
        }
        totalFixedSize := totalFixedSize + parsed.value;
      }
    }
    FirstSizePanicAt(partitions, |partitions|);
    return None;
  }

  /** Helper for FixedSizePass: when no size before position i panics, and the
      one at i does (or i is the end), the first panic is at i. */
  lemma FirstSizePanicAt(parts: seq<PartitionConfig>, i: nat)
    requires i <= |parts|
    requires forall k :: 0 <= k < i ==> !SizePanics(parts[k])
    requires i < |parts| ==> SizePanics(parts[i])
    ensures FirstSizePanic(parts, 0) == i
  {
  }

  /** The layout steps of CreateRawImage: the image size parsed for dd, the
      fixed-size total, the image size read as TotalSizeMB, then the
      percentage-layout loop over the partitions. */
  method LayoutPartitions(config: RawConfig) returns (ranges: seq<PartitionRange>, error: Option<LayoutError>)
    ensures Layout(ranges, error) == PlanLayout(config)
  {
    var imageSizeMB := ParseSizeToMB(config.size);
    if imageSizeMB.Failure? {
      return [], Some(SizeSlicePanic(config.size));
    }
    var panic := FixedSizePass(config.partitions);
    if panic.Some? {
      return [], Some(SizeSlicePanic(panic.value));
    }
    var totalSizeMB := TotalSizeMB(config.size);
    ranges, error := LayoutLoop(totalSizeMB, config.partitions);
  }

  /** The percentage-layout loop of CreateRawImage, one partition at a time. */
  method LayoutLoop(totalSizeMB: int, partitions: seq<PartitionConfig>)
    returns (ranges: seq<PartitionRange>, error: Option<LayoutError>)
    ensures Layout(ranges, error) == LayoutFrom(totalSizeMB, partitions, SizeClasses(partitions), 0, 0)
  {
    ghost var classes := SizeClasses(partitions);
    ghost var whole := LayoutFrom(totalSizeMB, partitions, classes, 0, 0);
    var startPercent := 0;
    ranges := [];
    for i := 0 to |partitions|
      invariant whole.ranges == ranges + LayoutFrom(totalSizeMB, partitions, classes, i, startPercent).ranges
      invariant whole.error == LayoutFrom(totalSizeMB, partitions, classes, i, startPercent).error
    {
      var partition := partitions[i];
      var end := EndOfPartition(totalSizeMB, partitions, i, startPercent);
      LayoutFromStep(totalSizeMB, partitions, classes, i, startPercent);
      if end.Failure? {
        return ranges, Some(end.error);
      }
      var boot := Contains(partition.flags, "boot");
      var range := PartitionRange(i + 1, startPercent, end.value, boot);
      ghost var rest := LayoutFrom(totalSizeMB, partitions, classes, i + 1, end.value);
      assert ranges + ([range] + rest.ranges) == (ranges + [range]) + rest.ranges;
      ranges := ranges + [range];
      startPercent := end.value;
    }
    assert LayoutFrom(totalSizeMB, partitions, classes, |partitions|, startPercent) == Layout([], None);
    assert ranges + [] == ranges;
    error := None;
  }

  /** One step of LayoutFrom: a partition that PartitionEnd refuses stops the
      layout with its error; one it accepts gets its range, in front of the
      layout of the partitions after it. */
  lemma LayoutFromStep(total: int, parts: seq<PartitionConfig>, cs: seq<SizeClass>, i: nat, start: int)
    requires |cs| == |parts| && i < |parts|
    ensures var e := PartitionEnd(total, parts[i], cs[i], start);
      && (e.Failure? ==> LayoutFrom(total, parts, cs, i, start) == Layout([], Some(e.error)))
      && (e.Success? ==>
            var rest := LayoutFrom(total, parts, cs, i + 1, e.value);
            LayoutFrom(total, parts, cs, i, start) ==
              Layout([PartitionRange(i + 1, start, e.value, "boot" in parts[i].flags)] + rest.ranges, rest.error))
  {
  }

  /** LayoutFrom's shape: at most one range per remaining partition, all of them
      unless it stopped in error, numbered on from i + 1, and contiguous from start. */
  lemma {:induction false} LayoutFromShape(total: int, parts: seq<PartitionConfig>, cs: seq<SizeClass>, i: nat, start: int)
    requires |cs| == |parts| && i <= |parts|
    ensures var l := LayoutFrom(total, parts, cs, i, start); var r := l.ranges;
      && |r| <= |parts| - i
      && (l.error.None? ==> |r| == |parts| - i)
      && (|r| > 0 ==> r[0].startPercent == start)
      && (forall k :: 0 <= k < |r| ==> r[k].number == i + k + 1)
      && (forall k :: 0 <= k < |r| - 1 ==> r[k + 1].startPercent == r[k].endPercent)
    decreases |parts| - i
  {
    if i < |parts| {
      var e := PartitionEnd(total, parts[i], cs[i], start);
      if e.Success? {
        var rest := LayoutFrom(total, parts, cs, i + 1, e.value);
        var r := [RangeOf(parts, i, start, e.value)] + rest.ranges;
        assert LayoutFrom(total, parts, cs, i, start) == Layout(r, rest.error);
        LayoutFromShape(total, parts, cs, i + 1, e.value);
        assert forall k :: 1 <= k < |r| ==> r[k] == rest.ranges[k - 1];
      }
    }
  }

  /** Each range of LayoutFrom ends where PartitionEnd puts it, and carries the
      boot flag exactly when its partition's flags contain "boot". */
  lemma {:induction false} LayoutFromEnds(total: int, parts: seq<PartitionConfig>, cs: seq<SizeClass>, i: nat, start: int)
    requires |cs| == |parts| && i <= |parts|
    ensures var r := LayoutFrom(total, parts, cs, i, start).ranges;
      && |r| <= |parts| - i
      && (forall k :: 0 <= k < |r| ==>
            PartitionEnd(total, parts[i + k], cs[i + k], r[k].startPercent) == Success(r[k].endPercent))
      && (forall k :: 0 <= k < |r| ==> (r[k].boot <==> "boot" in parts[i + k].flags))
    decreases |parts| - i
  {
    if i < |parts| {
      var e := PartitionEnd(total, parts[i], cs[i], start);
      if e.Success? {
        var rest := LayoutFrom(total, parts, cs, i + 1, e.value);
        var r := [RangeOf(parts, i, start, e.value)] + rest.ranges;
        assert LayoutFrom(total, parts, cs, i, start) == Layout(r, rest.error);
        LayoutFromEnds(total, parts, cs, i + 1, e.value);
        assert forall k :: 1 <= k < |r| ==> r[k] == rest.ranges[k - 1];
      }
    }
  }

  /** When LayoutFrom stops in error, the partition after its last range is the
      one PartitionEnd refused, with that error. */
  lemma {:induction false} LayoutFromError(total: int, parts: seq<PartitionConfig>, cs: seq<SizeClass>, i: nat, start: int)
    requires |cs| == |parts| && i <= |parts|
    ensures var l := LayoutFrom(total, parts, cs, i, start); var r := l.ranges;
      l.error.Some? ==>
        var j := i + |r|;
        j < |parts| &&
        PartitionEnd(total, parts[j], cs[j], if |r| == 0 then start else r[|r| - 1].endPercent) == Failure(l.error.value)
    decreases |parts| - i
  {
    if i < |parts| {
      var e := PartitionEnd(total, parts[i], cs[i], start);
      if e.Success? {
        var rest := LayoutFrom(total, parts, cs, i + 1, e.value);
        var r := [RangeOf(parts, i, start, e.value)] + rest.ranges;
        assert LayoutFrom(total, parts, cs, i, start) == Layout(r, rest.error);
        LayoutFromError(total, parts, cs, i + 1, e.value);
        LayoutFromShape(total, parts, cs, i + 1, e.value);
        if rest.error.Some? && |rest.ranges| > 0 {
          assert r[|r| - 1] == rest.ranges[|rest.ranges| - 1];
        }
      }
    }
  }

  /** PlanLayout either stops before the first partition, or is the layout loop's result. */
  lemma PlanLayoutCases(config: RawConfig)
    ensures var l := PlanLayout(config); var ps := config.partitions;
      if ParseSizeToMB(config.size).Failure? || FirstSizePanic(ps, 0) < |ps| then l.ranges == []
      else l == LayoutFrom(TotalSizeMB(config.size), ps, SizeClasses(ps), 0, 0)
  {
  }

  /** The ranges are contiguous from 0%: the first partition starts at 0, each one
      starts where the previous one ended, partition k is numbered k + 1, every
      end is at most 100, a "*" partition ends at 100, and a fixed one ends at
      min(100, start + (sizeMB * 100) / totalSizeMB). */
  lemma LayoutContiguous(config: RawConfig)
    ensures var r := PlanLayout(config).ranges; var ps := config.partitions; var total := TotalSizeMB(config.size);
      && |r| <= |ps|
      && (|r| > 0 ==> r[0].startPercent == 0)
      && (forall k :: 0 <= k < |r| - 1 ==> r[k + 1].startPercent == r[k].endPercent)
      && (forall k :: 0 <= k < |r| ==> r[k].number == k + 1 && r[k].endPercent <= 100)
      && (forall k :: 0 <= k < |r| && ps[k].size == "*" ==> r[k].endPercent == 100)
      && (forall k :: 0 <= k < |r| && ps[k].size != "*" ==>
            && ParseSizeToMB(ps[k].size).Success? && total != 0
            && var end := r[k].startPercent + Quo(ParseSizeToMB(ps[k].size).value * 100, total);
               r[k].endPercent == if end > 100 then 100 else end)
  {
    var total := TotalSizeMB(config.size);
    var ps := config.partitions;
    var cs := SizeClasses(ps);
    PlanLayoutCases(config);
    LayoutFromShape(total, ps, cs, 0, 0);
    LayoutFromEnds(total, ps, cs, 0, 0);
    var r := PlanLayout(config).ranges;
    if r != [] {
      assert r == LayoutFrom(total, ps, cs, 0, 0).ranges;
      forall k | 0 <= k < |r|
        ensures ps[k].size == "*" ==> r[k].endPercent == 100
        ensures ps[k].size != "*" ==>
          && ParseSizeToMB(ps[k].size).Success? && total != 0
          && var end := r[k].startPercent + Quo(ParseSizeToMB(ps[k].size).value * 100, total);
             r[k].endPercent == if end > 100 then 100 else end
      {
        assert cs[k] == SizeClassOf(ps[k]);
        assert PartitionEnd(total, ps[k], cs[k], r[k].startPercent) == Success(r[k].endPercent);
      }
    }
  }

  /** The boot flag is set on exactly the partitions whose flags contain "boot". */
  lemma LayoutBootFlag(config: RawConfig)
    ensures var r := PlanLayout(config).ranges;
      && |r| <= |config.partitions|
      && forall k :: 0 <= k < |r| ==> (r[k].boot <==> "boot" in config.partitions[k].flags)
  {
    var ps := config.partitions;
    var cs := SizeClasses(ps);
    var r := PlanLayout(config).ranges;
    PlanLayoutCases(config);
    if r != [] {
      var total := TotalSizeMB(config.size);
      assert r == LayoutFrom(total, ps, cs, 0, 0).ranges;
      LayoutFromEnds(total, ps, cs, 0, 0);
      forall k | 0 <= k < |r|
        ensures r[k].boot <==> "boot" in ps[k].flags
      {
        assert ps[0 + k] == ps[k];
      }
    }
  }

  /** A partition can be laid out unless it has a fixed size and either its size
      panics ParseSizeToMB or the total image size was read as 0 MB. */
  predicate CanLayOut(totalSizeMB: int, p: PartitionConfig)
  {
    p.size == "*" || (ParseSizeToMB(p.size).Success? && totalSizeMB != 0)
  }

  /** PartitionEnd fails exactly on the partitions that cannot be laid out, and
      on a partition whose size does not panic it can only divide by zero. */
  lemma CanLayOutClass(total: int, ps: seq<PartitionConfig>, k: nat, start: int)
    requires k < |ps|
    ensures var e := PartitionEnd(total, ps[k], SizeClasses(ps)[k], start);
      && (e.Success? <==> CanLayOut(total, ps[k]))
      && (e.Failure? && !SizePanics(ps[k]) ==> e.error == DivideByZero)
  {
    assert SizeClasses(ps)[k] == SizeClassOf(ps[k]);
  }

  /** Helper for LayoutLoopErrors: every partition the layout loop gives a
      range is "*", or has a size that parses on a disk of positive size. */
  lemma {:induction false} LaidOutClasses(total: int, ps: seq<PartitionConfig>, cs: seq<SizeClass>, i: nat, start: int)
    requires |cs| == |ps| && i <= |ps|
    ensures |LayoutFrom(total, ps, cs, i, start).ranges| <= |ps| - i
    ensures forall k :: i <= k < i + |LayoutFrom(total, ps, cs, i, start).ranges| ==>
      cs[k].Rest? || (cs[k].parsed.Success? && total != 0)
    decreases |ps| - i
  {
    if i < |ps| {
      var e := PartitionEnd(total, ps[i], cs[i], start);
      LayoutFromStep(total, ps, cs, i, start);
      if e.Success? {
        LaidOutClasses(total, ps, cs, i + 1, e.value);
      }
    }
  }

  /** When every size can be parsed, the layout loop's only possible panic is
      the division by zero, at the first partition that cannot be laid out. */
  lemma LayoutLoopErrors(total: int, ps: seq<PartitionConfig>)
    requires FirstSizePanic(ps, 0) == |ps|
    ensures var l := LayoutFrom(total, ps, SizeClasses(ps), 0, 0);
      && (forall k :: 0 <= k < |ps| ==> !SizePanics(ps[k]))
      && |l.ranges| <= |ps|
      && (forall k :: 0 <= k < |l.ranges| ==> CanLayOut(total, ps[k]))
      && (l.error.None? ==> |l.ranges| == |ps|)
      && (l.error.Some? ==> |l.ranges| < |ps| && !CanLayOut(total, ps[|l.ranges|]) && l.error == Some(DivideByZero))
  {
    var cs := SizeClasses(ps);
    LayoutFromShape(total, ps, cs, 0, 0);
    LayoutFromError(total, ps, cs, 0, 0);
    LaidOutClasses(total, ps, cs, 0, 0);
    var l := LayoutFrom(total, ps, cs, 0, 0);
    forall k | 0 <= k < |l.ranges|
      ensures CanLayOut(total, ps[k])
    {
      assert cs[k] == SizeClassOf(ps[k]);
    }
    if l.error.Some? {
      var j := |l.ranges|;
      var start := if j == 0 then 0 else l.ranges[j - 1].endPercent;
      CanLayOutClass(total, ps, j, start);
    }
  }

  /** A size that panics stops the build before any partition is created: the
      image size first, then the first fixed partition size that panics; a
      layout panic on a size happens exactly then. */
  lemma LayoutSizePanics(config: RawConfig)
    ensures var l := PlanLayout(config); var ps := config.partitions;
      var panics := ParseSizeToMB(config.size).Failure? || exists k :: 0 <= k < |ps| && SizePanics(ps[k]);
      && (panics <==> l.error.Some? && l.error.value.SizeSlicePanic?)
      && (panics ==> l.ranges == [])
      && (ParseSizeToMB(config.size).Failure? ==> l.error == Some(SizeSlicePanic(config.size)))
      && (ParseSizeToMB(config.size).Success? && panics ==>
            exists k :: && 0 <= k < |ps| && SizePanics(ps[k])
                        && (forall j :: 0 <= j < k ==> !SizePanics(ps[j]))
                        && l.error == Some(SizeSlicePanic(ps[k].size)))
  {
    var ps := config.partitions;
    var f := FirstSizePanic(ps, 0);
    PlanLayoutCases(config);
    if ParseSizeToMB(config.size).Success? {
      if f < |ps| {
        assert SizePanics(ps[f]);
      } else {
        LayoutLoopErrors(TotalSizeMB(config.size), ps);
      }
    }
  }

  /** The layout covers every partition exactly when the image size can be
      parsed and every partition can be laid out. A division by zero happens
      only with a total of 0 MB, at the first fixed partition, after the "*"
      partitions before it were created. */
  lemma LayoutErrors(config: RawConfig)
    ensures var l := PlanLayout(config); var ps := config.partitions; var total := TotalSizeMB(config.size);
      && (l.error.None? <==> ParseSizeToMB(config.size).Success? && forall k :: 0 <= k < |ps| ==> CanLayOut(total, ps[k]))
      && (l.error.None? ==> |l.ranges| == |ps|)
      && (l.error == Some(DivideByZero) ==>
            && total == 0 && |l.ranges| < |ps| && ps[|l.ranges|].size != "*"
            && (forall k :: 0 <= k < |l.ranges| ==> ps[k].size == "*"))
  {
    var ps := config.partitions;
    var total := TotalSizeMB(config.size);
    var f := FirstSizePanic(ps, 0);
    var l := PlanLayout(config);
    if ParseSizeToMB(config.size).Failure? {
      assert l.error == Some(SizeSlicePanic(config.size));
    } else if f < |ps| {
      assert l.error == Some(SizeSlicePanic(ps[f].size));
      assert SizePanics(ps[f]) && !CanLayOut(total, ps[f]);
    } else {
      assert l == LayoutFrom(total, ps, SizeClasses(ps), 0, 0);
      LayoutLoopErrors(total, ps);
      if l.error == Some(DivideByZero) {
        var j := |l.ranges|;
        NotLaidOutDividesByZero(total, ps[j]);
        forall k | 0 <= k < j
          ensures ps[k].size == "*"
        {
          LaidOutAtZero(ps[k]);
        }
      }
    }
  }

  /** A partition whose size does not panic but cannot be laid out is a fixed
      one on a disk of 0 MB. */
  lemma NotLaidOutDividesByZero(total: int, p: PartitionConfig)
    requires !SizePanics(p) && !CanLayOut(total, p)
    ensures total == 0 && p.size != "*"
  {
  }

  /** On a disk of 0 MB only "*" partitions can be laid out. */
  lemma LaidOutAtZero(p: PartitionConfig)
    requires CanLayOut(0, p)
    ensures p.size == "*"
  {
  }

  /** With a recognised image size and non-negative partition sizes, every range
      lies within the disk, 0 <= start <= end <= 100, and no two ranges overlap. */
  lemma LayoutWithinDisk(config: RawConfig)
    requires TotalSizeMB(config.size) > 0
    requires forall k :: 0 <= k < |config.partitions| && config.partitions[k].size != "*" ==>
      ParseSizeToMB(config.partitions[k].size).Success? && ParseSizeToMB(config.partitions[k].size).value >= 0
    ensures var r := PlanLayout(config).ranges;
      && (forall k :: 0 <= k < |r| ==> 0 <= r[k].startPercent <= r[k].endPercent <= 100)
      && (forall k, l :: 0 <= k < l < |r| ==> r[k].endPercent <= r[l].startPercent)
  {
    var total := TotalSizeMB(config.size);
    var ps := config.partitions;
    var cs := SizeClasses(ps);
    PlanLayoutCases(config);
    LayoutFromShape(total, ps, cs, 0, 0);
    LayoutFromEnds(total, ps, cs, 0, 0);
    var r := PlanLayout(config).ranges;
    if r != [] {
      assert r == LayoutFrom(total, ps, cs, 0, 0).ranges;
      forall k | 0 <= k < |r|
        ensures r[k].startPercent <= r[k].endPercent
      {
        assert r[k].startPercent <= 100 by {
          if k > 0 {
            assert PartitionEnd(total, ps[k - 1], cs[k - 1], r[k - 1].startPercent) == Success(r[k - 1].endPercent);
          }
        }
        EndNotBeforeStart(total, ps[k], cs[k], r[k].startPercent, r[k].endPercent);
      }
    }
    BoundsByInduction(r);
  }

  /** Helper for LayoutWithinDisk: on a disk of positive size, a partition whose
      size is "*" or a non-negative number of MiB, starting within the disk,
      does not end before it starts. */
  lemma EndNotBeforeStart(total: int, p: PartitionConfig, c: SizeClass, start: int, end: int)
    requires total > 0 && start <= 100
    requires c == SizeClassOf(p)
    requires p.size != "*" ==> ParseSizeToMB(p.size).Success? && ParseSizeToMB(p.size).value >= 0
    requires PartitionEnd(total, p, c, start) == Success(end)
    ensures start <= end
  {
    if p.size != "*" {
      var mb := ParseSizeToMB(p.size).value;
      assert mb * 100 >= 0;
      QuoNonNegative(mb * 100, total);
    }
  }

  /** Helper for LayoutWithinDisk: contiguous non-decreasing ranges from 0 that end
      at most at 100 stay within [0, 100] and follow one another. */
  lemma {:induction false} BoundsByInduction(r: seq<PartitionRange>)
    requires |r| > 0 ==> r[0].startPercent == 0
    requires forall k :: 0 <= k < |r| - 1 ==> r[k + 1].startPercent == r[k].endPercent
    requires forall k :: 0 <= k < |r| ==> r[k].startPercent <= r[k].endPercent <= 100
    ensures forall k :: 0 <= k < |r| ==> 0 <= r[k].startPercent
    ensures forall k, l :: 0 <= k < l < |r| ==> r[k].endPercent <= r[l].startPercent
  {
    if |r| > 0 {
      var r' := r[..|r| - 1];
      BoundsByInduction(r');
      forall k, l | 0 <= k < l < |r|
        ensures r[k].endPercent <= r[l].startPercent
      {
        if l == |r| - 1 && k < l - 1 {
          assert r'[k].endPercent <= r'[l - 1].startPercent;
        }
      }
    }
  }

  /** When the image size is not recognised, any fixed-size partition stops the
      layout with a division by zero: "1GiB" with a "512M" partition. */
  lemma UnrecognisedSizeDividesByZero(p: PartitionConfig)
    requires p.size == "512M"
    ensures PlanLayout(RawConfig("disk.img", "1GiB", [p], "tpl")) == Layout([], Some(DivideByZero))
  {
    var config := RawConfig("disk.img", "1GiB", [p], "tpl");
    assert TotalSizeMB(config.size) == 0 by { TotalSizeIgnoresGiB(); }
    assert ParseSizeToMB(p.size).Success? by {
      assert Itoa(512) + "M" == "512M";
      ParseSizeMebibytes(512, "M");
    }
    var cs := SizeClasses(config.partitions);
    assert cs[0] == SizeClassOf(p);
    assert PartitionEnd(0, p, cs[0], 0) == Failure(DivideByZero);
  }

  // ---------------------------------------------------------------------------
  // Per-partition rules of the format-and-fill loop
  // ---------------------------------------------------------------------------

  /** The device of the partition at index i (from 0) on the loop device:
      `loopDevice + "p" + (i + 1)`. */
  function PartitionDevice(loopDevice: string, index: nat): string
  {
    loopDevice + "p" + Itoa(index + 1)
  }

  /** The partition created k-th is formatted on the device named after the
      number its `mkpart` range carries. */
  lemma PartitionDeviceOfRange(config: RawConfig, loopDevice: string, k: nat)
    requires k < |PlanLayout(config).ranges|
    ensures PartitionDevice(loopDevice, k) == loopDevice + "p" + Itoa(PlanLayout(config).ranges[k].number)
  {
    LayoutContiguous(config);
  }

  /** Different partitions get different devices. */
  lemma PartitionDevicesDistinct(loopDevice: string, i: nat, j: nat)
    ensures PartitionDevice(loopDevice, i) == PartitionDevice(loopDevice, j) <==> i == j
  {
    if PartitionDevice(loopDevice, i) == PartitionDevice(loopDevice, j) {
      PrefixCancels(loopDevice + "p", Itoa(i + 1), Itoa(j + 1));
      ItoaInjective(i + 1, j + 1);
    }
  }

  /** The error of the format dispatch: a filesystem it does not know. */
  datatype FillError = UnsupportedFilesystem(filesystem: string)

  /** The formatting command for a partition: mkfs.vfat or mkfs.ext4 -F; any
      other filesystem is refused. */
  function FormatCommand(filesystem: string, device: string): (r: Result<seq<string>, FillError>)
    ensures r.Success? <==> filesystem == "ext4" || filesystem == "vfat"
    ensures r.Success? ==> |r.value| >= 2 && r.value[0] == "mkfs." + filesystem && r.value[|r.value| - 1] == device
    ensures r.Failure? ==> r.error == UnsupportedFilesystem(filesystem)
  {
    match filesystem
    case "vfat" => Success(["mkfs.vfat", device])
    case "ext4" => Success(["mkfs.ext4", "-F", device])
    case _ => Failure(UnsupportedFilesystem(filesystem))
  }

  /** The directory a partition's content is copied from: TemplateDir/root for
      the "/" partition, otherwise TemplateDir joined with the last element of
      the mount path. */
  function SourceDir(templateDir: string, mount: string): string
  {
    if mount == "/" then Join(templateDir, "root") else Join(templateDir, Base(mount))
  }

  /** The source directory is named "root" for "/" and after the mount path's
      last element otherwise, and lies directly inside the cleaned template
      directory. */
  lemma SourceDirName(templateDir: string, mount: string)
    requires mount == "/" || IsName(Base(mount))
    ensures var name := if mount == "/" then "root" else Base(mount);
      && Base(SourceDir(templateDir, mount)) == name
      && SourceDir(templateDir, mount) ==
        (if templateDir == "" || Clean(templateDir) == "." then name
         else if Clean(templateDir) == "/" then "/" + name
         else Clean(templateDir) + "/" + name)
  {
    var name := if mount == "/" then "root" else Base(mount);
    JoinBase(templateDir, name);
    JoinName(templateDir, name);
  }

  /** Only the last element of the mount path counts: "/boot/efi" and "/efi"
      are filled from the same template directory. */
  lemma NestedMountsShareSource(templateDir: string)
    ensures SourceDir(templateDir, "/boot/efi") == SourceDir(templateDir, "/efi")
  {
    BaseOfName("/boot", "efi");
    BaseOfName("", "efi");
    assert "/boot/efi" == "/boot" + "/" + "efi";
    assert "/efi" == "" + "/" + "efi";
  }

  /** A partition with no mount path has base "." and is filled from the whole
      cleaned template directory, scripts and the root tree included. */
  lemma SourceDirNoMount(templateDir: string)
    ensures SourceDir(templateDir, "") == Clean(templateDir)
  {
    JoinDot(templateDir);
  }

  /** A mount path of two or more separators is not "/": its base is "/", so the
      partition is filled from the whole cleaned template directory as well. */
  lemma SourceDirSlashesMount(templateDir: string, mount: string)
    requires templateDir != ""
    requires |mount| >= 2 && forall i :: 0 <= i < |mount| ==> mount[i] == '/'
    ensures SourceDir(templateDir, mount) == Clean(templateDir)
  {
    assert mount != "/" by { assert |mount| != |"/"|; }
    BaseOfSlashes(mount);
    JoinRoot(templateDir);
  }

  /** A mount path whose last element is ".." is filled from the template
      directory's parent: for a template parent/name, from the cleaned parent. */
  lemma SourceDirParentMount(parent: string, name: string, mount: string)
    requires parent != "" && IsName(name)
    requires mount == ".." || (|mount| >= 3 && mount[|mount| - 3..] == "/..")
    ensures SourceDir(parent + "/" + name, mount) == Clean(parent)
  {
    if mount == ".." {
      BaseOfName("", "..");
    } else {
      var p := mount[..|mount| - 3];
      assert mount == p + "/" + "..";
      BaseOfName(p, "..");
    }
    JoinParent(parent, name);
  }

  /** The copy command: `cp -r --no-preserve=ownership` for vfat, `cp -a`
      (which keeps ownership) otherwise, from sourceDir/. into mountPoint/. */
  function CopyCommand(filesystem: string, sourceDir: string, mountPoint: string): (argv: seq<string>)
    ensures |argv| >= 3 && argv[0] == "cp"
    ensures argv[|argv| - 2] == sourceDir + "/." && argv[|argv| - 1] == mountPoint + "/"
    ensures ("-a" in argv) <==> filesystem != "vfat"
  {
    assert (sourceDir + "/.")[|sourceDir| + 1] != "-a"[1];
    assert (mountPoint + "/")[|mountPoint|] != "-a"[1];
    if filesystem == "vfat" then ["cp", "-r", "--no-preserve=ownership", sourceDir + "/.", mountPoint + "/"]
    else ["cp", "-a", sourceDir + "/.", mountPoint + "/"]
  }
}
