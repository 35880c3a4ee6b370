/**
  The test image's binary, hugetlb-tester: it maps `length` bytes backed by
  huge pages of a given size, first anonymously and then through a file on a
  hugetlbfs mount, fills each mapping with a byte pattern, reads the pattern
  back, and reports the outcome as its exit status.

  The system calls (mmap, munmap, open, unlink) are outcomes handed in as a
  `Host` value; the mapped memory is a Dafny array.
 */
module HugetlbTester {
  import opened MachineInts
  import opened Decimal

  newtype byte = x: int | 0 <= x < 256

  // ---------------------------------------------------------------------------
  // write_bytes / read_bytes

  /** The byte write_bytes stores at offset `i`: `(char)i`, the low 8 bits of i. */
  function PatternByte(i: nat): byte {
    (i % 256) as byte
  }

  /** The first `n` bytes of `s` carry the write_bytes pattern. */
  predicate HoldsPattern(s: seq<byte>, n: nat) {
    n <= |s| && forall i :: 0 <= i < n ==> s[i] == PatternByte(i)
  }

  /** write_bytes: stores the pattern in the first `length` bytes and nothing else. */
  method WriteBytes(buf: array<byte>, length: nat)
    requires length <= buf.Length
    modifies buf
    ensures HoldsPattern(buf[..], length)
    ensures forall i :: length <= i < buf.Length ==> buf[i] == old(buf[i])
  {
    var i := 0;
    while i < length
      invariant 0 <= i <= length
      invariant forall j :: 0 <= j < i ==> buf[j] == PatternByte(j)
      invariant forall j :: length <= j < buf.Length ==> buf[j] == old(buf[j])
    {
      buf[i] := PatternByte(i);
      i := i + 1;
    }
  }

  /**
    read_bytes: 0 when the first `length` bytes carry the pattern, otherwise 1
    together with the offset of the first mismatch (the offset it prints).
   */
  method ReadBytes(buf: array<byte>, length: nat) returns (ret: int, mismatchAt: nat)
    requires length <= buf.Length
    ensures ret == 0 || ret == 1
    ensures ret == 0 <==> HoldsPattern(buf[..], length)
    ensures ret == 1 ==> mismatchAt < length && buf[mismatchAt] != PatternByte(mismatchAt)
    ensures ret == 1 ==> HoldsPattern(buf[..], mismatchAt)
  {
    var i := 0;
    while i < length
      invariant 0 <= i <= length
      invariant forall j :: 0 <= j < i ==> buf[j] == PatternByte(j)
    {
      if buf[i] != PatternByte(i) {
        return 1, i;
      }
      i := i + 1;
    }
    return 0, 0;
  }

  // ---------------------------------------------------------------------------
  // pretty_bytes

  const SuffixLen: nat := 4
  const Suffixes: seq<string> := ["B", "KiB", "MiB", "GiB"]

  /** Capacity of the `human_length` and `human_pagesize` buffers in main, NUL included. */
  const HumanBufferSize: nat := 10

  /** How many times `n` can be divided by 1024 before it drops below 1024. */
  function Log1024(n: nat): nat
    decreases n
  {
    if n < 1024 then 0 else 1 + Log1024(n / 1024)
  }

  function Min(a: nat, b: nat): nat {
    if a <= b then a else b
  }

  /** Log1024 counts exactly the 1024-fold thresholds: below k steps iff below 2^(10k). */
  lemma {:induction false} Log1024BelowIff(n: nat, k: nat)
    requires k >= 1
    ensures Log1024(n) < k <==> n < Pow2(10 * k)
    decreases k
  {
    Pow2Values();
    Pow2Add(10 * (k - 1), 10);
    if k > 1 {
      Log1024BelowIff(n / 1024, k - 1);
      DivBelowIff(n, 1024, Pow2(10 * (k - 1)));
      if n < 1024 {
        Pow2StrictlyIncreasing(10, 10 * k);
      }
    }
  }

  /**
    The loop of pretty_bytes with its suffix cap as a parameter: divide by 1024
    (`rel >>= 10`) while `rel >= 1024 && s < cap`. The source uses cap 4.
   */
  method ScaleDown(bytes: SizeT, cap: nat) returns (s: nat, rel: nat)
    ensures s == Min(Log1024(bytes), cap)
    ensures rel == bytes / Pow2(10 * s)
    ensures rel < 1024 || s == cap
  {
    Pow2Values();
    s, rel := 0, bytes;
    while rel >= 1024 && s < cap
      invariant s <= cap
      invariant rel == bytes / Pow2(10 * s)
      invariant Log1024(bytes) == s + Log1024(rel)
    {
      DivDiv(bytes, Pow2(10 * s), 1024);
      Pow2Add(10 * s, 10);
      s, rel := s + 1, rel / 1024;
    }
  }

  /**
    pretty_bytes as written: guard `s < 4` with a 4-entry suffix table, so the
    index reaches 4 (one past the table) exactly for sizes of 2^40 bytes and up.
   */
  method PrettyBytesIndexAsWritten(bytes: SizeT) returns (s: nat)
    ensures s <= SuffixLen
    ensures s < |Suffixes| <==> bytes < 0x100_0000_0000
  {
    var rel;
    s, rel := ScaleDown(bytes, SuffixLen);
    Log1024BelowIff(bytes, 4);
    Pow2Values();
  }

  /** 1 TiB is the smallest size for which pretty_bytes reads past its suffix table. */
  lemma PrettyBytesOverrunsAtOneTebibyte()
    ensures Min(Log1024(0x100_0000_0000), SuffixLen) == |Suffixes|
    ensures forall b: nat :: b < 0x100_0000_0000 ==> Log1024(b) < |Suffixes|
  {
    Pow2Values();
    Log1024BelowIff(0x100_0000_0000, 4);
    forall b: nat | b < 0x100_0000_0000
      ensures Log1024(b) < |Suffixes|
    {
      Log1024BelowIff(b, 4);
    }
  }

  /**
    pretty_bytes with the guard corrected to `s < suffix_len - 1`: the text is
    `(int)rel` in decimal followed by the suffix, the suffix index never leaves
    the table, and below 2^40 bytes the result is the same as the source's and
    fits the 10-byte buffer with its terminating NUL.
   */
  method PrettyBytes(bytes: SizeT) returns (text: string, s: nat)
    ensures s < |Suffixes|
    ensures s == Min(Log1024(bytes), SuffixLen - 1)
    ensures text == FormatInt(CInt(bytes / Pow2(10 * s))) + Suffixes[s]
    ensures bytes < 0x100_0000_0000 ==> s == Log1024(bytes) && bytes / Pow2(10 * s) < 1024
    ensures bytes < 0x100_0000_0000 ==> |text| + 1 <= HumanBufferSize
  {
    var rel;
    s, rel := ScaleDown(bytes, SuffixLen - 1);
    text := FormatInt(CInt(rel)) + Suffixes[s];
    if bytes < 0x100_0000_0000 {
      Pow2Values();
      Log1024BelowIff(bytes, 4);
      if s == SuffixLen - 1 {
        DivBelowIff(bytes, Pow2(30), 1024);
      }
      assert FormatInt(CInt(rel)) == FormatNat(rel);
      assert Pow10(4) == 10000;
      FormatNatLength(rel, 4);
    }
  }

  // ---------------------------------------------------------------------------
  // The page-size shift and the mmap flags

  /**
    main's loop `while (!(rel_pagesize & 1)) shift++, rel_pagesize >>= 1;`
    starting from `int rel_pagesize = pagesize`. On a C int, `x & 1` is the
    Euclidean `x % 2` and the arithmetic `x >> 1` is the floor `x / 2`.
    It terminates only when the int conversion of the page size is nonzero.
   */
  method PageShift(pagesize: SizeT) returns (shift: nat, rel: int)
    requires CInt(pagesize) != 0
    ensures rel % 2 == 1
    ensures CInt(pagesize) == rel * Pow2(shift)
    ensures shift == TrailingZeros(CInt(pagesize))
    ensures shift <= 31
  {
    shift, rel := 0, CInt(pagesize);
    while rel % 2 == 0
      invariant rel != 0
      invariant CInt(pagesize) == rel * Pow2(shift)
      invariant TrailingZeros(CInt(pagesize)) == shift + TrailingZeros(rel)
      decreases Abs(rel)
    {
      HalveEven(CInt(pagesize), rel, shift);
      shift, rel := shift + 1, rel / 2;
    }
    CIntTrailingZerosAtMost31(CInt(pagesize));
  }

  /** The state (rel_pagesize, shift) of main's shift loop after at most `n` iterations. */
  function ShiftLoopAfter(rel: int, shift: nat, n: nat): (int, nat)
    decreases n
  {
    if n == 0 || rel % 2 != 0 then (rel, shift) else ShiftLoopAfter(rel / 2, shift + 1, n - 1)
  }

  lemma {:induction false} ShiftLoopFromZero(shift: nat, n: nat)
    ensures ShiftLoopAfter(0, shift, n) == (0, shift + n)
    decreases n
  {
    if n > 0 {
      ShiftLoopFromZero(shift + 1, n - 1);
    }
  }

  /**
    As written, the shift loop never exits when the page size converts to the
    int 0: page size 0, and also 2^32 (4 GiB), whose low 32 bits are all zero.
    After any number of iterations the guard still holds.
   */
  lemma ShiftLoopNeverExits(pagesize: SizeT, n: nat)
    requires CInt(pagesize) == 0
    ensures ShiftLoopAfter(CInt(pagesize), 0, n) == (0, n)
    ensures ShiftLoopAfter(CInt(pagesize), 0, n).0 % 2 == 0
  {
    ShiftLoopFromZero(0, n);
  }

  /** Page sizes 0 and 2^32 both convert to the int 0. */
  lemma HangingPageSizes()
    ensures CInt(0) == 0 && CInt(TwoTo32) == 0
  {
  }

  /** For any other page size the loop exits after exactly TrailingZeros iterations. */
  lemma {:induction false} ShiftLoopExits(x: int, shift: nat, n: nat)
    requires x != 0 && n >= TrailingZeros(x)
    ensures ShiftLoopAfter(x, shift, n).1 == shift + TrailingZeros(x)
    ensures ShiftLoopAfter(x, shift, n).0 % 2 == 1
    decreases Abs(x)
  {
    if x % 2 == 0 {
      ShiftLoopExits(x / 2, shift + 1, n - 1);
    }
  }

  const MapPrivate: bv32 := 0x02
  const MapAnonymous: bv32 := 0x20
  const MapHugetlb: bv32 := 0x4_0000
  const MapHugeShift: bv32 := 26
  const MapHugeMask: bv32 := 0x3f

  /** FLAGS: MAP_PRIVATE | MAP_ANONYMOUS | MAP_HUGETLB. */
  const BaseFlags: bv32 := MapPrivate | MapAnonymous | MapHugetlb

  /** The bits below MAP_HUGE_SHIFT, and the six-bit page-size field above them. */
  const LowBits: bv32 := 0x3ff_ffff
  const HugeField: bv32 := 0xfc00_0000

  /** The page-size logarithm the kernel reads from mmap's flags. */
  function DecodeHugeShift(flags: bv32): bv32 {
    (flags >> MapHugeShift) & MapHugeMask
  }

  /**
    `flags |= (shift & MAP_HUGE_MASK) << MAP_HUGE_SHIFT`, with the C ints
    `flags` and `shift` as their 32-bit patterns.
   */
  function HugeFlags(base: bv32, shift: bv32): (flags: bv32)
    ensures flags & LowBits == base & LowBits
    ensures base & HugeField == 0 ==> DecodeHugeShift(flags) == shift & MapHugeMask
  {
    base | ((shift & MapHugeMask) << MapHugeShift)
  }

  /** FLAGS leaves the page-size field clear, so any shift below 64 decodes back unchanged. */
  lemma HugeFlagsRoundTrip(shift: nat)
    requires shift < 64
    ensures BaseFlags & HugeField == 0
    ensures DecodeHugeShift(HugeFlags(BaseFlags, shift as bv32)) == shift as bv32
    ensures HugeFlags(BaseFlags, shift as bv32) & LowBits == BaseFlags
  {
    assert (shift as bv32) & MapHugeMask == shift as bv32;
  }

  /** The OR never clears a bit of the flags it starts from. */
  lemma HugeFlagsKeepsBase(base: bv32, shift: bv32)
    ensures HugeFlags(base, shift) & base == base
  {
  }

  // ---------------------------------------------------------------------------
  // verify_using_mmap, verify_using_hugetlb_file, main

  /** What the system calls main makes do on a given host. */
  datatype Host = Host(anonMapOk: bool, anonUnmapOk: bool, fileOpenOk: bool, fileMapOk: bool)
  {
    predicate AllSucceed() {
      anonMapOk && anonUnmapOk && fileOpenOk && fileMapOk
    }
  }

  /** A helper either returns to main or ends the process through exit(). */
  datatype Outcome = Return(ret: int) | Exit(status: int)

  /**
    verify_using_mmap: a failed mmap or munmap exits with status 1; otherwise
    the result of reading back what was just written, which is always 0.
   */
  method VerifyUsingMmap(length: SizeT, host: Host) returns (o: Outcome)
    ensures !host.anonMapOk || !host.anonUnmapOk <==> o == Exit(1)
    ensures host.anonMapOk && host.anonUnmapOk <==> o == Return(0)
  {
    if !host.anonMapOk {
      return Exit(1);
    }
    var buf := new byte[length];
    WriteBytes(buf, length);
    var ret, _ := ReadBytes(buf, length);
    if !host.anonUnmapOk {
      return Exit(1);
    }
    return Return(ret);
  }

  /**
    verify_using_hugetlb_file: a failed open or mmap exits with status 1; the
    results of munmap, close and unlink are ignored.
   */
  method VerifyUsingHugetlbFile(length: SizeT, host: Host) returns (o: Outcome)
    ensures !host.fileOpenOk || !host.fileMapOk <==> o == Exit(1)
    ensures host.fileOpenOk && host.fileMapOk <==> o == Return(0)
  {
    if !host.fileOpenOk {
      return Exit(1);
    }
    if !host.fileMapOk {
      return Exit(1);
    }
    var buf := new byte[length];
    WriteBytes(buf, length);
    var ret, _ := ReadBytes(buf, length);
    return Return(ret);
  }

  /**
    What main does between the shift loop and the first mapping, as written:
    pretty_bytes on both sizes and the test `length % (1 << shift)`. The result
    is true exactly when neither reads past the suffix table nor overflows
    the int `1 << shift`.
   */
  method DefinedAfterShift(length: SizeT, pagesize: SizeT, shift: nat) returns (defined: bool)
    ensures defined <==> length < 0x100_0000_0000 && pagesize < 0x100_0000_0000 && shift < 31
  {
    var lengthSuffix := PrettyBytesIndexAsWritten(length);
    var pageSuffix := PrettyBytesIndexAsWritten(pagesize);
    // `1 << shift` is an int: 2^31 does not fit, so shift 31 overflows.
    defined := lengthSuffix < |Suffixes| && pageSuffix < |Suffixes| && shift < 31;
  }

  /**
    main, for `argc` arguments (program name included) whose numbers parse to
    `length` and `pagesize`. Fewer than three arguments print the usage and
    return 1. A page size whose int conversion is 0 is rejected with 1 here,
    where the source loops forever. `flags` is the mmap flag word main builds.

    Before mapping anything, main formats both sizes with pretty_bytes (as
    written, with its 4-entry table) and tests `length % (1 << shift)`. For a
    size of 2^40 bytes or more the suffix index leaves the table, and at shift
    31 the int `1 << 31` overflows: both are undefined behaviour in C.
    `definedAsWritten` is true exactly when the source, as written, runs to its
    end without either and so returns the same `code`.
   */
  method RunTester(argc: int, length: SizeT, pagesize: SizeT, host: Host)
    returns (code: int, flags: bv32, definedAsWritten: bool)
    ensures code == 0 || code == 1
    ensures argc < 4 ==> code == 1 && flags == BaseFlags
    ensures code == 0 <==> argc >= 4 && CInt(pagesize) != 0 && host.AllSucceed()
    ensures argc >= 4 && CInt(pagesize) != 0 ==> TrailingZeros(CInt(pagesize)) <= 31
    ensures argc >= 4 && CInt(pagesize) != 0 ==>
              flags == HugeFlags(BaseFlags, TrailingZeros(CInt(pagesize)) as bv32)
              && DecodeHugeShift(flags) == TrailingZeros(CInt(pagesize)) as bv32
    ensures definedAsWritten <==>
              argc < 4
              || (CInt(pagesize) != 0 && length < 0x100_0000_0000 && pagesize < 0x100_0000_0000
                  && TrailingZeros(CInt(pagesize)) < 31)
  {
    flags := BaseFlags;
    if argc < 4 {
      return 1, flags, true;
    }
    if CInt(pagesize) == 0 {
      return 1, flags, false;
    }
    var shift, _ := PageShift(pagesize);
    flags := HugeFlags(flags, shift as bv32);
    HugeFlagsRoundTrip(shift);
    definedAsWritten := DefinedAfterShift(length, pagesize, shift);
    var viaMmap := VerifyUsingMmap(length, host);
    if viaMmap.Exit? {
      return viaMmap.status, flags, definedAsWritten;
    }
    var viaFile := VerifyUsingHugetlbFile(length, host);
    if viaFile.Exit? {
      return viaFile.status, flags, definedAsWritten;
    }
    code := viaMmap.ret + viaFile.ret;
  }
}
