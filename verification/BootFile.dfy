/** Inspection of boot files: the chunked search for iPXE signatures and the
    parsing of PE headers. Bytes are numbers below 256. */
module BootFile {
  import opened Domain

  type Bytes = seq<Byte>

  const IPXE: Bytes := [0x69, 0x50, 0x58, 0x45]
  const GPXE: Bytes := [0x67, 0x50, 0x58, 0x45]
  const UNDI: Bytes :=
    [0x55, 0x4E, 0x44, 0x49, 0x20, 0x63, 0x6F, 0x64, 0x65, 0x20, 0x73, 0x65, 0x67, 0x6D, 0x65, 0x6E, 0x74]
  const SIGNATURES: seq<Bytes> := [IPXE, UNDI, GPXE]

  predicate At(data: Bytes, pattern: Bytes, i: int) {
    0 <= i && i + |pattern| <= |data| && data[i..i + |pattern|] == pattern
  }

  ghost predicate Contains(data: Bytes, pattern: Bytes) {
    exists i :: At(data, pattern, i)
  }

  // ---------------------------------------------------------------- searching

  method ContainsBytes(data: Bytes, pattern: Bytes) returns (found: bool)
    ensures found <==> Contains(data, pattern)
  {
    var i := 0;
    while i <= |data| - |pattern|
      invariant i >= 0
      invariant forall k :: 0 <= k < i ==> !At(data, pattern, k)
    {
      var matches := true;
      for j := 0 to |pattern|
        invariant matches ==> data[i..i + j] == pattern[..j]
        invariant matches
      {
        assert data[i..i + |pattern|][j] == data[i + j];
        if data[i + j] != pattern[j] {
          matches := false;
          break;
        }
        assert data[i..i + j + 1] == data[i..i + j] + [data[i + j]];
      }
      if matches {
        assert pattern[..|pattern|] == pattern;
        assert At(data, pattern, i);
        return true;
      }
      i := i + 1;
    }
    return false;
  }

  method MatchesAnySignature(data: Bytes) returns (found: bool)
    ensures found <==> exists sig :: sig in SIGNATURES && Contains(data, sig)
  {
    for k := 0 to |SIGNATURES|
      invariant forall j :: 0 <= j < k ==> !Contains(data, SIGNATURES[j])
    {
      found := ContainsBytes(data, SIGNATURES[k]);
      if found {
        return;
      }
    }
    found := false;
  }

  const HEADER := 4096
  const CHUNK := 8192

  /** Where the k-th read after the header begins. */
  function ChunkStart(k: nat): nat { HEADER + CHUNK * k }

  /** Bytes from..to were seen together, by the header read of n bytes or by
      one of the chunk reads. */
  ghost predicate InOneRead(n: nat, from: int, to: int) {
    to <= n || exists k: nat :: ChunkStart(k) <= from && to <= ChunkStart(k) + CHUNK
  }

  ghost predicate Visible(file: Bytes, n: nat, sig: Bytes, p: int) {
    sig in SIGNATURES && At(file, sig, p) && InOneRead(n, p, p + |sig|)
  }

  lemma PartHolds(file: Bytes, from: nat, to: nat, sig: Bytes, i: int)
    requires from <= to <= |file|
    ensures At(file[from..to], sig, i) <==> i >= 0 && from + i + |sig| <= to && At(file, sig, from + i)
  {
    if i >= 0 && from + i + |sig| <= to {
      var whole, part := file[from + i..from + i + |sig|], file[from..to][i..i + |sig|];
      assert forall j :: 0 <= j < |sig| ==> part[j] == file[from..to][i + j] == file[from + i + j] == whole[j];
      assert part == whole;
    }
  }

  /** What file.ReadAt gives: short, with an error, exactly at the end. */
  function ReadAt(file: Bytes, offset: nat): (r: (Bytes, bool))
  {
    if offset + CHUNK <= |file| then (file[offset..offset + CHUNK], false)
    else if offset <= |file| then (file[offset..], true)
    else ([], true)
  }

  /** A signature is reported exactly when one of its occurrences was read in
      one piece; file holds the bytes that can be read, of which the header
      read gave the first n. */
  method ScanForIPXE(file: Bytes, n: nat) returns (found: bool)
    requires n <= |file| && n <= HEADER
    ensures found <==> exists sig, p :: Visible(file, n, sig, p)
  {
    found := MatchesAnySignature(file[..n]);
    if found {
      ghost var sig :| sig in SIGNATURES && Contains(file[..n], sig);
      ghost var i :| At(file[..n], sig, i);
      PartHolds(file, 0, n, sig, i);
      assert Visible(file, n, sig, i);
      return;
    }
    forall sig, p | sig in SIGNATURES && At(file, sig, p) ensures p + |sig| > n {
      PartHolds(file, 0, n, sig, p);
    }
    var offset := HEADER;
    ghost var k: nat := 0;
    while true
      invariant offset == ChunkStart(k)
      invariant forall sig, p :: Visible(file, n, sig, p) ==> p >= offset && p + |sig| > n
      decreases |file| - offset
    {
      var (buf, failed) := ReadAt(file, offset);
      if |buf| > 0 {
        found := MatchesAnySignature(buf);
        if found {
          InChunk(file, n, k, buf);
          return;
        }
      }
      NotInChunk(file, n, k, buf);
      if failed {
        break;
      }
      offset, k := offset + CHUNK, k + 1;
    }
    found := false;
  }

  lemma InChunk(file: Bytes, n: nat, k: nat, buf: Bytes)
    requires buf == ReadAt(file, ChunkStart(k)).0
    requires exists sig :: sig in SIGNATURES && Contains(buf, sig)
    ensures exists sig, p :: Visible(file, n, sig, p)
  {
    var sig :| sig in SIGNATURES && Contains(buf, sig);
    var i :| At(buf, sig, i);
    PartHolds(file, ChunkStart(k), ChunkStart(k) + |buf|, sig, i);
    assert InOneRead(n, ChunkStart(k) + i, ChunkStart(k) + i + |sig|);
    assert Visible(file, n, sig, ChunkStart(k) + i);
  }

  lemma NotInChunk(file: Bytes, n: nat, k: nat, buf: Bytes)
    requires buf == ReadAt(file, ChunkStart(k)).0
    requires buf == [] || forall sig :: sig in SIGNATURES ==> !Contains(buf, sig)
    requires forall sig, p :: Visible(file, n, sig, p) ==> p >= ChunkStart(k) && p + |sig| > n
    ensures forall sig, p :: Visible(file, n, sig, p) ==> p >= ChunkStart(k + 1)
    ensures ReadAt(file, ChunkStart(k)).1 ==> forall sig, p :: !Visible(file, n, sig, p)
  {
    forall sig, p | Visible(file, n, sig, p)
      ensures p >= ChunkStart(k + 1) && !ReadAt(file, ChunkStart(k)).1
    {
      var j: nat :| ChunkStart(j) <= p && p + |sig| <= ChunkStart(j) + CHUNK;
      PartHolds(file, ChunkStart(k), ChunkStart(k) + |buf|, sig, p - ChunkStart(k));
      assert At(buf, sig, p - ChunkStart(k)) ==> Contains(buf, sig);
      assert j > k;
    }
  }

  /** After a full header read, what the scan misses are exactly the
      signatures lying across the start of a chunk. */
  lemma MissedExactly(file: Bytes, sig: Bytes, p: int)
    requires sig in SIGNATURES && At(file, sig, p)
    ensures var n := if |file| < 4096 then |file| else 4096;
            Visible(file, n, sig, p) <==> !exists k: nat {:trigger ChunkStart(k)} :: p < 4096 + 8192 * k < p + |sig|
  {
    var n := if |file| < HEADER then |file| else HEADER;
    if p + |sig| > n {
      if p < HEADER {
        assert p < ChunkStart(0) < p + |sig|;
        assert !InOneRead(n, p, p + |sig|);
      } else {
        var k: nat := (p - HEADER) / CHUNK;
        assert ChunkStart(k) <= p < ChunkStart(k + 1);
        if p + |sig| <= ChunkStart(k + 1) {
          assert InOneRead(n, p, p + |sig|);
        } else {
          assert p < ChunkStart(k + 1) < p + |sig|;
        }
      }
    }
  }

  function SplitFile(): Bytes { seq(HEADER - 2, _ => 0) + IPXE }

  /** In such a file the scan does not see a signature that is there. */
  lemma SplitSignatureIsMissed()
    ensures Contains(SplitFile(), IPXE)
    ensures forall sig, p :: !Visible(SplitFile(), HEADER, sig, p)
  {
    var file := SplitFile();
    assert file[HEADER - 2..HEADER + 2] == IPXE;
    assert At(file, IPXE, HEADER - 2);
    forall sig, p ensures !Visible(file, HEADER, sig, p) {
      if sig in SIGNATURES && At(file, sig, p) {
        assert file[p..p + |sig|][0] == file[p] == sig[0];
        assert p == HEADER - 2 && |sig| >= 4;
      }
    }
  }

  // ---------------------------------------------------------------- PE headers

  /** Little-endian numbers. */
  function LE(n: nat, width: nat): (r: Bytes)
    ensures |r| == width
  {
    if width == 0 then [] else [n % 256] + LE(n / 256, width - 1)
  }

  function Value(b: Bytes): nat {
    if b == [] then 0 else b[0] + 256 * Value(b[1..])
  }

  function Limit(width: nat): nat { if width == 0 then 1 else 256 * Limit(width - 1) }

  lemma {:induction false} ValueOfLE(n: nat, width: nat)
    requires n < Limit(width)
    ensures Value(LE(n, width)) == n
  {
    if width > 0 {
      ValueOfLE(n / 256, width - 1);
      assert LE(n, width)[1..] == LE(n / 256, width - 1);
    }
  }

  lemma {:induction false} LEOfValue(b: Bytes)
    ensures Value(b) < Limit(|b|) && LE(Value(b), |b|) == b
  {
    if b != [] {
      LEOfValue(b[1..]);
      assert Value(b) / 256 == Value(b[1..]) && Value(b) % 256 == b[0];
    }
  }

  const PE_SIGNATURE: Bytes := [0x50, 0x45, 0, 0]
  const I386 := 0x014c
  const AMD64 := 0x8664
  const ARM_64 := 0xAA64

  /** The header says that the PE part is at this offset. */
  ghost predicate Points(header: Bytes, offset: nat) {
    offset < Limit(4) && At(header, LE(offset, 4), 0x3C)
  }

  /** The header is that of a PE file for this machine. */
  ghost predicate PEFor(header: Bytes, machine: nat) {
    machine < Limit(2) && exists o: nat :: Points(header, o) && At(header, PE_SIGNATURE + LE(machine, 2), o)
  }

  function ArchOf(machine: nat): Option<string> {
    if machine == AMD64 then Some("x86_64")
    else if machine == I386 then Some("i386")
    else if machine == ARM_64 then Some("arm64")
    else None
  }

  predicate ArchMatches(detected: string, expected: string) {
    if expected == "x86_64" || expected == "uefi_x64" || expected == "UEFI x64" then detected == "x86_64"
    else if expected == "i386" || expected == "uefi_x86" || expected == "UEFI x86" then detected == "i386"
    else if expected == "arm64" || expected == "ARM64" then detected == "arm64"
    else if expected == "bios" || expected == "BIOS" then true
    else detected == expected
  }

  predicate Fits(machine: nat, expected: string) {
    && ArchOf(machine).Some?
    && (expected == "" || ArchMatches(ArchOf(machine).value, expected))
  }

  datatype Problem =
    | CannotRead(reason: string)
    | EmptyFile
    | CannotOpen(reason: string)
    | NotEFI(expected: string)
    | HeaderTooShort
    | OffsetBeyondData
    | BadSignature
    | UnknownMachine(machine: nat)
    | Mismatch(found: string, expected: string)

  /** Which machines fit which label, by their numbers. */
  lemma FitsExactly(machine: nat, expected: string)
    ensures expected in ["x86_64", "uefi_x64", "UEFI x64"] ==> (Fits(machine, expected) <==> machine == 0x8664)
    ensures expected in ["i386", "uefi_x86", "UEFI x86"] ==> (Fits(machine, expected) <==> machine == 0x14C)
    ensures expected in ["arm64", "ARM64"] ==> (Fits(machine, expected) <==> machine == 0xAA64)
    ensures expected in ["", "bios", "BIOS"] ==> (Fits(machine, expected) <==> machine in {0x8664, 0x14C, 0xAA64})
    ensures Fits(machine, expected) ==>
              expected in ["x86_64", "uefi_x64", "UEFI x64", "i386", "uefi_x86", "UEFI x86", "arm64", "ARM64", "",
                           "bios", "BIOS"]
  {
    var x, i, a, b := ["x86_64", "uefi_x64", "UEFI x64"], ["i386", "uefi_x86", "UEFI x86"], ["arm64", "ARM64"],
      ["", "bios", "BIOS"];
    assert forall s :: s in x <==> s == "x86_64" || s == "uefi_x64" || s == "UEFI x64";
    assert forall s :: s in i <==> s == "i386" || s == "uefi_x86" || s == "UEFI x86";
    assert forall s :: s in a <==> s == "arm64" || s == "ARM64";
    assert forall s :: s in b <==> s == "" || s == "bios" || s == "BIOS";
    var all := x + i + a + b;
    assert "x86_64" != "i386" && "x86_64" != "arm64" && "i386" != "arm64";
    assert forall s :: s in all <==> s in x || s in i || s in a || s in b;
    assert all == ["x86_64", "uefi_x64", "UEFI x64", "i386", "uefi_x86", "UEFI x86", "arm64", "ARM64", "",
                   "bios", "BIOS"];
  }

  /** The bytes are this text in ASCII. */
  predicate Spells(b: Bytes, s: string) {
    |b| == |s| && forall i :: 0 <= i < |s| ==> b[i] == s[i] as int < 128
  }

  /** The three signatures are words, and no others. */
  lemma SignaturesSpelled(sig: Bytes)
    ensures sig in SIGNATURES <==> Spells(sig, "iPXE") || Spells(sig, "UNDI code segment") || Spells(sig, "gPXE")
  {
    assert Spells(IPXE, "iPXE") && Spells(GPXE, "gPXE") && Spells(UNDI, "UNDI code segment");
    assert Spells(sig, "iPXE") ==> sig == IPXE;
    assert Spells(sig, "gPXE") ==> sig == GPXE;
    assert Spells(sig, "UNDI code segment") ==> sig == UNDI;
    assert sig in SIGNATURES <==> sig == SIGNATURES[0] || sig == SIGNATURES[1] || sig == SIGNATURES[2];
  }

  /** Which complaint about a PE header is the right one. */
  ghost predicate Explains(header: Bytes, expected: string, p: Problem) {
    match p
    case HeaderTooShort => |header| < 0x40
    case OffsetBeyondData => exists o: nat :: Points(header, o) && o + 6 > |header|
    case BadSignature => exists o: nat :: Points(header, o) && o + 6 <= |header| && !At(header, PE_SIGNATURE, o)
    case UnknownMachine(m) => PEFor(header, m) && ArchOf(m).None?
    case Mismatch(found, e) =>
      e == expected != "" && !ArchMatches(found, e) && exists m :: PEFor(header, m) && ArchOf(m) == Some(found)
    case _ => false
  }

  /** There is one offset and at most one machine in a header. */
  lemma PointsOnce(header: Bytes, o: nat)
    requires |header| >= 0x40
    ensures Points(header, o) <==> o == Value(header[0x3C..0x40])
  {
    LEOfValue(header[0x3C..0x40]);
    if Points(header, o) {
      ValueOfLE(o, 4);
    }
  }

  lemma MachineOnce(header: Bytes, o: nat, m: nat)
    requires |header| >= 0x40 && o == Value(header[0x3C..0x40])
    ensures PEFor(header, m) <==>
            o + 6 <= |header| && At(header, PE_SIGNATURE, o) && m == Value(header[o + 4..o + 6])
  {
    PointsOnce(header, o);
    if o + 6 <= |header| {
      var tail := header[o + 4..o + 6];
      LEOfValue(tail);
      assert header[o..o + 6] == header[o..o + 4] + tail;
      if m < Limit(2) {
        ValueOfLE(m, 2);
        assert At(header, PE_SIGNATURE + LE(m, 2), o) <==> At(header, PE_SIGNATURE, o) && tail == LE(m, 2) by {
          assert (PE_SIGNATURE + LE(m, 2))[..4] == PE_SIGNATURE && (PE_SIGNATURE + LE(m, 2))[4..] == LE(m, 2);
          assert (header[o..o + 4] + tail)[..4] == header[o..o + 4] && (header[o..o + 4] + tail)[4..] == tail;
        }
      }
    }
    if PEFor(header, m) {
      var q: nat :| Points(header, q) && At(header, PE_SIGNATURE + LE(m, 2), q);
      PointsOnce(header, q);
    }
  }

  datatype Format = NoFormat | PE | PXE

  /** An unrecognised machine is shown by its number. */
  datatype Arch = NoArch | Known(name: string) | Unrecognised(machine: nat)

  class BootFileInfo {
    const path: string
    var size: nat
    var format: Format
    var arch: Arch
    var hasIPXE: bool
    var valid: bool
    var problems: seq<Problem>

    constructor (path: string)
      ensures this.path == path && size == 0 && format == NoFormat && arch == NoArch
      ensures !hasIPXE && !valid && problems == []
    {
      this.path := path;
      size, format, arch, hasIPXE, valid, problems := 0, NoFormat, NoArch, false, false, [];
    }

    method Complain(p: Problem)
      modifies this`problems
      ensures problems == old(problems) + [p]
    {
      problems := problems + [p];
    }
  }

  /** A header is accepted exactly when it is a PE header for a known machine
      that fits the expected label; otherwise there is one complaint, and it
      is the right one. No byte outside the header is looked at. */
  method ValidatePE(info: BootFileInfo, header: Bytes, expected: string)
    requires !info.valid && info.problems == []
    modifies info`arch, info`valid, info`problems
    ensures info.valid <==> exists m :: PEFor(header, m) && Fits(m, expected)
    ensures info.valid ==> exists m :: PEFor(header, m) && info.arch.Known? && ArchOf(m) == Some(info.arch.name)
    ensures !info.valid ==> |info.problems| == 1 && Explains(header, expected, info.problems[0])
    ensures info.valid ==> info.problems == []
    ensures info.problems != [] && info.problems[0].UnknownMachine? ==>
              info.arch == Unrecognised(info.problems[0].machine)
  {
    if |header| < 0x40 {
      info.Complain(HeaderTooShort);
      return;
    }
    var offset := Value(header[0x3C..0x40]);
    PointsOnce(header, offset);
    forall m ensures PEFor(header, m) <==>
      offset + 6 <= |header| && At(header, PE_SIGNATURE, offset) && m == Value(header[offset + 4..offset + 6])
    {
      MachineOnce(header, offset, m);
    }
    if offset + 6 > |header| {
      info.Complain(OffsetBeyondData);
      return;
    }
    if header[offset] != 0x50 || header[offset + 1] != 0x45 || header[offset + 2] != 0 || header[offset + 3] != 0 {
      assert header[offset..offset + 4][0] == header[offset] && header[offset..offset + 4][1] == header[offset + 1];
      assert header[offset..offset + 4][2] == header[offset + 2] && header[offset..offset + 4][3] == header[offset + 3];
      info.Complain(BadSignature);
      return;
    }
    var machine := Value(header[offset + 4..offset + 6]);
    assert PEFor(header, machine);
    match ArchOf(machine) {
      case None =>
        info.arch := Unrecognised(machine);
        info.Complain(UnknownMachine(machine));
      case Some(a) =>
        info.arch := Known(a);
        info.valid := true;
        if expected != "" && !ArchMatches(a, expected) {
          info.valid := false;
          info.Complain(Mismatch(a, expected));
        }
    }
  }

  // ---------------------------------------------------------------- the whole file

  /** What the operating system answers: the reported size, the bytes that can
      be read, and how many of them the first read gave. */
  datatype Disk =
    | StatFails(reason: string)
    | OpenFails(size: nat, reason: string)
    | ReadFails(size: nat, reason: string)
    | Readable(size: nat, file: Bytes, n: nat)
  {
    predicate Possible() {
      Readable? ==> n <= |file| && n <= HEADER && n <= size
    }
  }

  predicate IsMZ(header: Bytes) { [0x4D, 0x5A] <= header }

  ghost predicate Accepted(header: Bytes, expected: string) {
    if IsMZ(header) then exists m :: PEFor(header, m) && Fits(m, expected) else expected == "bios"
  }

  method ValidateBootFile(path: string, expected: string, disk: Disk) returns (info: BootFileInfo)
    requires disk.Possible()
    ensures fresh(info) && info.path == path
    ensures info.valid <==> info.problems == []
    ensures |info.problems| <= 1
    ensures info.valid <==> disk.Readable? && disk.size > 0 && Accepted(disk.file[..disk.n], expected)
    ensures info.valid && IsMZ(disk.file[..disk.n]) ==>
              && info.format == PE
              && exists m :: PEFor(disk.file[..disk.n], m) && info.arch.Known? && ArchOf(m) == Some(info.arch.name)
    ensures info.hasIPXE <==>
              disk.Readable? && disk.size > 0 && exists sig, p :: Visible(disk.file, disk.n, sig, p)
  {
    info := new BootFileInfo(path);
    if disk.StatFails? {
      info.Complain(CannotRead(disk.reason));
      return;
    }
    info.size := disk.size;
    if info.size == 0 {
      info.Complain(EmptyFile);
      return;
    }
    match disk {
      case OpenFails(_, reason) =>
        info.Complain(CannotOpen(reason));
      case ReadFails(_, reason) =>
        info.Complain(CannotRead(reason));
      case Readable(_, file, n) =>
        var header := file[..n];
        if n >= 2 && header[0] == 0x4D && header[1] == 0x5A {
          info.format := PE;
          ValidatePE(info, header, expected);
        } else {
          info.format := PXE;
          if expected == "bios" {
            info.valid := true;
          } else {
            info.Complain(NotEFI(expected));
          }
        }
        var found := ScanForIPXE(file, n);
        info.hasIPXE := found;
    }
  }
}
