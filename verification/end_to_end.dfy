/**
  How the test's scenarios reach the tester binary: the numbers formatted into
  the command line are the numbers main reads back, and the page-size shift
  main encodes into its mmap flags tells the scenarios apart.
 */
module EndToEnd {
  import opened MachineInts
  import opened Decimal
  import opened HugePagesTest
  import opened HugetlbTester

  /**
    For huge pages of 2^k bytes (k from 10 to 34, 1 KiB to 16 GiB) the test
    values are exact: the size is 2^k, the count is 2 from 1 GiB pages on,
    and the total, at most 2^35 bytes, does not wrap.
   */
  lemma PowerOfTwoTestValues(kB: Int64, k: nat)
    requires 10 <= k <= 34 && kB * 1024 == Pow2(k)
    ensures Value(GetTestValues(kB).hugePageSize) == Pow2(k)
    ensures GetTestValues(kB).pageCount == (if k >= 30 then 2 else 20)
    ensures Value(GetTestValues(kB).totalMemory) == Pow2(k) * GetTestValues(kB).pageCount
    ensures 0 < Value(GetTestValues(kB).totalMemory) <= 0x8_0000_0000
  {
    Pow2Values();
    Pow2Add(30, 4);
    Pow2Add(30, 5);
    if k < 30 {
      Pow2StrictlyIncreasing(k, 30);
    } else if k > 30 {
      Pow2StrictlyIncreasing(30, k);
    }
    if k < 34 {
      Pow2StrictlyIncreasing(k, 34);
    }
    var v := GetTestValues(kB);
    if k < 30 {
      MulLe(20, Pow2(k), 0x4000_0000);
    } else {
      MulLe(2, Pow2(k), Pow2(34));
    }
  }

  /**
    Every scenario's length is positive and at most 2^36 and its page size
    at most 2^35, so main's pretty_bytes calls keep their suffix index inside
    the table.
   */
  lemma ScenarioSizesBelowOneTebibyte(sc: Scenario, kB: Int64, k: nat)
    requires 10 <= k <= 34 && kB * 1024 == Pow2(k)
    ensures var cmd := TesterArgs(sc, GetTestValues(kB));
      0 < cmd.length <= 0x10_0000_0000 && 0 < cmd.pageSize <= 0x8_0000_0000
      && cmd.pageSize == Pow2(if sc == WrongPageSize then k + 1 else k)
  {
    PowerOfTwoTestValues(kB, k);
    Pow2Values();
    Pow2Add(30, 5);
    if k < 34 {
      Pow2StrictlyIncreasing(k, 34);
    }
    Pow2Add(30, 4);
    assert Pow2(k + 1) == 2 * Pow2(k);
  }

  /**
    On a host whose default huge page is 2^k bytes (2 MiB is k = 21, 1 GiB is
    k = 30, 16 GiB is k = 34), every scenario calls the tester with all three
    arguments and a page size of 2^p, where p is k, or k + 1 in the wrong-size
    scenario. That page size reaches main's shift loop as a nonzero int iff
    p <= 31, and then the shift main encodes is p. At p = 31 the int is
    negative (-2^31) but still has 31 trailing zeros; from p = 32 on it is 0.
   */
  lemma TesterShiftPerScenario(sc: Scenario, kB: Int64, k: nat)
    requires 10 <= k <= 34 && kB * 1024 == Pow2(k)
    ensures var cmd := TesterArgs(sc, GetTestValues(kB));
      var p := if sc == WrongPageSize then k + 1 else k;
      |TesterArgv(cmd)| >= 4
      && 0 < cmd.pageSize < TwoTo64 && 0 < cmd.length < TwoTo64
      && (CInt(cmd.pageSize) != 0 <==> p <= 31)
      && (p <= 31 ==> TrailingZeros(CInt(cmd.pageSize)) == p)
  {
    ScenarioSizesBelowOneTebibyte(sc, kB, k);
    CIntOfPow2(if sc == WrongPageSize then k + 1 else k);
  }

  /**
    The tester's exit status on a scenario's command line, as the shell splits
    it and main reads the numbers back: 0 exactly when all of its system calls
    succeed and the page size converts to a nonzero int, which fails from
    4 GiB pages on (k = 32, or k = 31 in the wrong-size scenario), where the
    source's shift loop never ends. The source, as written, reaches the status
    without undefined behaviour iff the page size it is given is below 2^31:
    at 2^31, `1 << shift` overflows (the wrong-size scenario on 1 GiB pages,
    every scenario on 2 GiB pages).
   */
  method RunScenarioTester(sc: Scenario, kB: Int64, k: nat, host: Host) returns (code: int, definedAsWritten: bool)
    requires 10 <= k <= 34 && kB * 1024 == Pow2(k)
    ensures code == 0 || code == 1
    ensures code == 0 <==> host.AllSucceed() && (k < 31 || (k == 31 && sc != WrongPageSize))
    ensures definedAsWritten <==> k < 30 || (k == 30 && sc != WrongPageSize)
  {
    var cmd := TesterArgs(sc, GetTestValues(kB));
    TesterShiftPerScenario(sc, kB, k);
    ScenarioSizesBelowOneTebibyte(sc, kB, k);
    ShellSplitsCommandLine(cmd);
    var argv := SplitWords(CommandLine(cmd));
    var length, pagesize := ParseInt(argv[1]), ParseInt(argv[2]);
    assert |argv| >= 4 && length == cmd.length && pagesize == cmd.pageSize;
    var flags;
    code, flags, definedAsWritten := RunTester(|argv|, length, pagesize, host);
  }
}
