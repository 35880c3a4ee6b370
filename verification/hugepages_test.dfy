/**
  The pure logic of the node end-to-end huge-pages test: the page size probe,
  the test values derived from it, the read-back check after reserving pages,
  the capacity lookup, the kubelet feature-gate toggle, the pod the scenarios
  submit and the arguments each scenario hands to hugetlb-tester.

  Shell commands, the cluster API and polling are left out: their results are
  parameters. A resource.Quantity is reduced to its exact value, and its
  String() form is an opaque `render` function supplied by the caller.
 */
module HugePagesTest {
  import opened MachineInts
  import opened Decimal

  datatype Option<T> = None | Some(value: T)

  // ---------------------------------------------------------------------------
  // Quantities

  /** A resource.Quantity, as its exact value in thousandths of its unit (10m of CPU is 10). */
  datatype Quantity = Quantity(milli: int)

  /** resource.NewQuantity(n, resource.BinarySI). */
  function NewQuantity(n: int): Quantity {
    Quantity(n * 1000)
  }

  /**
    Quantity.Value(): the value as a whole number, a fraction rounded up. The
    library rounds away from zero, which agrees on every non-negative quantity.
   */
  function Value(q: Quantity): int {
    (q.milli + 999) / 1000
  }

  lemma ValueOfNewQuantity(n: int)
    ensures Value(NewQuantity(n)) == n
  {
    assert (n * 1000 + 999) / 1000 == n;
  }

  /** The resource.MustParse("10m") CPU limit and resource.MustParse("100Mi") memory limit. */
  const Cpu10m: Quantity := Quantity(10)
  const Memory100Mi: Quantity := NewQuantity(100 * 1024 * 1024)

  // ---------------------------------------------------------------------------
  // getDefaultHugePageSize and getTestValues

  /** The huge page size and whether the host supports huge pages at all. */
  datatype PageSizeProbe = PageSizeProbe(size: Quantity, supported: bool)

  /**
    getDefaultHugePageSize, given the `Hugepagesize:` figure in kB that it reads
    from /proc/meminfo: 0 means unsupported (with the zero Quantity), anything
    else is converted to bytes with Go's wrapping 64-bit multiplication.
   */
  function DefaultHugePageSize(kB: Int64): (r: PageSizeProbe)
    ensures r.supported <==> kB != 0
    ensures !r.supported ==> r.size == Quantity(0)
    ensures r.supported ==> Value(r.size) == WrapInt64(kB * 1024)
    ensures r.supported && Abs(kB) < 0x20_0000_0000_0000 ==> Value(r.size) == kB * 1024
  {
    if kB == 0 then
      PageSizeProbe(Quantity(0), false)
    else
      ValueOfNewQuantity(WrapInt64(kB * 1024));
      PageSizeProbe(NewQuantity(WrapInt64(kB * 1024)), true)
  }

  const OneGiB: int := 0x4000_0000

  datatype TestValues = TestValues(hugePageSize: Quantity, totalMemory: Quantity, pageCount: Int64)

  /**
    getTestValues: two pages when the huge page size is at least 1 GiB, twenty
    otherwise, and the total is the Go int64 product of size and count.
   */
  function GetTestValues(kB: Int64): (r: TestValues)
    ensures r.hugePageSize == DefaultHugePageSize(kB).size
    ensures r.pageCount == 2 || r.pageCount == 20
    ensures r.pageCount == 2 <==> Value(r.hugePageSize) >= OneGiB
    ensures Value(r.totalMemory) == WrapInt64(Value(r.hugePageSize) * r.pageCount)
  {
    var size := DefaultHugePageSize(kB).size;
    var count: Int64 := if Value(size) >= OneGiB then 2 else 20;
    ValueOfNewQuantity(WrapInt64(Value(size) * count));
    TestValues(size, NewQuantity(WrapInt64(Value(size) * count)), count)
  }

  /**
    For any page size /proc/meminfo can report (below 2^52 kB) the total is the
    exact product of the page size in bytes and the page count: nothing wraps.
   */
  lemma TotalMemoryIsExactProduct(kB: Int64)
    requires 0 <= kB < 0x10_0000_0000_0000
    ensures Value(GetTestValues(kB).hugePageSize) == kB * 1024
    ensures Value(GetTestValues(kB).totalMemory) == kB * 1024 * GetTestValues(kB).pageCount
  {
    var v := GetTestValues(kB);
    if kB == 0 {
      assert Value(v.hugePageSize) == 0;
    } else {
      assert Value(v.hugePageSize) == kB * 1024;
    }
    assert 0 <= Value(v.hugePageSize) * v.pageCount < TwoTo63;
  }

  // ---------------------------------------------------------------------------
  // configureHugePages

  /** What the shell commands of configureHugePages report: a failure, or the HugePages_Total read back. */
  datatype MeminfoReading = WriteFailed | ReadFailed | NotANumber | HugePagesTotal(count: Int64)

  datatype ConfigureResult = Configured | CommandFailed | ParseFailed | Mismatch(expected: Int64, found: Int64)

  /**
    configureHugePages: after asking for `pageCount` pages it succeeds only if
    HugePages_Total reads back as exactly that count.
   */
  function ConfigureHugePages(pageCount: Int64, reading: MeminfoReading): (r: ConfigureResult)
    ensures r.Configured? <==> reading.HugePagesTotal? && reading.count == pageCount
    ensures r.Mismatch? <==> reading.HugePagesTotal? && reading.count != pageCount
    ensures r.Mismatch? ==> r.expected == pageCount && r.found == reading.count
    ensures r.CommandFailed? <==> reading.WriteFailed? || reading.ReadFailed?
    ensures r.ParseFailed? <==> reading.NotANumber?
  {
    match reading
    case WriteFailed => CommandFailed
    case ReadFailed => CommandFailed
    case NotANumber => ParseFailed
    case HugePagesTotal(n) => if n == pageCount then Configured else Mismatch(pageCount, n)
  }

  // ---------------------------------------------------------------------------
  // amountOfResourceAsString

  /**
    amountOfResourceAsString: the empty string when the node does not advertise
    the resource, otherwise the advertised quantity's string form.
   */
  function AmountOfResourceAsString(capacity: map<string, Quantity>, resourceName: string,
                                    render: Quantity -> string): (r: string)
    requires forall q :: render(q) != ""
    ensures r == "" <==> resourceName !in capacity
    ensures resourceName in capacity ==> r == render(capacity[resourceName])
  {
    if resourceName in capacity then render(capacity[resourceName]) else ""
  }

  /** The amount AfterEach waits for. */
  const ReleasedAmount: string := "0"

  /**
    AfterEach waits for the literal "0": it is satisfied only while the node
    still advertises the resource, with a quantity whose string form is "0",
    never by the resource disappearing.
   */
  lemma TeardownWaitNeedsAdvertisedZero(capacity: map<string, Quantity>, resourceName: string,
                                        render: Quantity -> string)
    requires forall q :: render(q) != ""
    ensures AmountOfResourceAsString(capacity, resourceName, render) == ReleasedAmount
            <==> resourceName in capacity && render(capacity[resourceName]) == ReleasedAmount
  {
  }

  // ---------------------------------------------------------------------------
  // enableHugePagesInKubelet

  /** The part of the kubelet configuration the test touches; a nil map is None. */
  datatype KubeletConfig = KubeletConfig(featureGates: Option<map<string, bool>>, settings: map<string, string>)

  /** The configuration pushed to the kubelet, and the one returned for restoring later. */
  datatype ConfigUpdate = ConfigUpdate(pushed: KubeletConfig, original: KubeletConfig)

  const HugePagesGate: string := "HugePages"

  predicate GateEnabled(cfg: KubeletConfig, gate: string) {
    cfg.featureGates.Some? && gate in cfg.featureGates.value && cfg.featureGates.value[gate]
  }

  /**
    The read-modify-write of enableHugePagesInKubelet: only a nil FeatureGates
    map is replaced, by one holding HugePages=true; an existing map is pushed
    as it is, and the original configuration comes back unmodified.
   */
  function EnableHugePagesInKubelet(current: KubeletConfig): (u: ConfigUpdate)
    ensures u.original == current
    ensures u.pushed.settings == current.settings
    ensures current.featureGates.None? ==> u.pushed.featureGates == Some(map[HugePagesGate := true])
    ensures current.featureGates.Some? ==> u.pushed == current
  {
    var pushed :=
      if current.featureGates.None? then current.(featureGates := Some(map[HugePagesGate := true]))
      else current;
    ConfigUpdate(pushed, current)
  }

  /**
    After the toggle the HugePages gate is on exactly when FeatureGates was nil
    or already had the gate on; a map without the key stays without it.
   */
  lemma HugePagesGateAfterEnable(current: KubeletConfig)
    ensures GateEnabled(EnableHugePagesInKubelet(current).pushed, HugePagesGate)
            <==> current.featureGates.None? || GateEnabled(current, HugePagesGate)
    ensures current.featureGates.Some? && HugePagesGate !in current.featureGates.value ==>
              !GateEnabled(EnableHugePagesInKubelet(current).pushed, HugePagesGate)
  {
  }

  // ---------------------------------------------------------------------------
  // makeHugePagePod

  datatype RestartPolicy = RestartPolicyAlways | RestartPolicyOnFailure | RestartPolicyNever

  datatype StorageMedium = MediumDefault | MediumMemory | MediumHugePages

  datatype VolumeMount = VolumeMount(name: string, mountPath: string)

  /** An emptyDir volume with its storage medium. */
  datatype Volume = Volume(name: string, medium: StorageMedium)

  datatype Container = Container(name: string, image: string, command: seq<string>,
                                 limits: map<string, Quantity>, volumeMounts: seq<VolumeMount>)

  datatype Pod = Pod(name: string, restartPolicy: RestartPolicy, containers: seq<Container>, volumes: seq<Volume>)

  const HugetlbVolume: string := "hugetlb"
  const HugetlbMountPath: string := "/hugetlb"

  /** The resource name `"hugepages-" + hugePageSize.String()`. */
  function HugePagesResource(pageSize: Quantity, render: Quantity -> string): (name: string)
    ensures |name| >= 10 && name != "cpu" && name != "memory"
  {
    "hugepages-" + render(pageSize)
  }

  /** Some volume of `volumes` is called `name` and is backed by huge pages. */
  predicate HasHugePagesVolume(volumes: seq<Volume>, name: string) {
    exists v :: 0 <= v < |volumes| && volumes[v].name == name && volumes[v].medium == MediumHugePages
  }

  /** Every volume mount of every container names a volume of the pod backed by huge pages. */
  predicate MountsBackedByHugePages(pod: Pod) {
    forall c, m :: 0 <= c < |pod.containers| && 0 <= m < |pod.containers[c].volumeMounts| ==>
      HasHugePagesVolume(pod.volumes, pod.containers[c].volumeMounts[m].name)
  }

  /**
    makeHugePagePod. The UUIDs and the image name are parameters; `baseName` is
    accepted but, as in the source, never used.
   */
  function MakeHugePagePod(baseName: string, command: string, totalHugePageMemory: Quantity,
                           hugePageSize: Quantity, podUid: string, containerUid: string,
                           image: string, render: Quantity -> string): (pod: Pod)
    ensures pod.name == "pod" + podUid
    ensures pod.restartPolicy == RestartPolicyNever
    ensures |pod.containers| == 1
    ensures pod.containers[0].name == "container" + containerUid
    ensures pod.containers[0].command == ["sh", "-c", command]
    ensures pod.containers[0].limits.Keys == {"cpu", "memory", HugePagesResource(hugePageSize, render)}
    ensures pod.containers[0].limits["cpu"] == Cpu10m
    ensures pod.containers[0].limits["memory"] == Memory100Mi
    ensures pod.containers[0].limits[HugePagesResource(hugePageSize, render)] == totalHugePageMemory
    ensures pod.containers[0].volumeMounts == [VolumeMount(HugetlbVolume, HugetlbMountPath)]
    ensures MountsBackedByHugePages(pod)
  {
    var limits := map["cpu" := Cpu10m, "memory" := Memory100Mi,
                      HugePagesResource(hugePageSize, render) := totalHugePageMemory];
    var container := Container("container" + containerUid, image, ["sh", "-c", command], limits,
                               [VolumeMount(HugetlbVolume, HugetlbMountPath)]);
    var pod := Pod("pod" + podUid, RestartPolicyNever, [container], [Volume(HugetlbVolume, MediumHugePages)]);
    assert HasHugePagesVolume(pod.volumes, HugetlbVolume) by {
      assert pod.volumes[0].name == HugetlbVolume;
    }
    pod
  }

  /** Pods built from different UUIDs have different names, whatever the base name. */
  lemma PodNamesFollowUids(b1: string, b2: string, command: string, total: Quantity,
                                              size: Quantity, uid1: string, uid2: string,
                                              containerUid: string, image: string, render: Quantity -> string)
    ensures MakeHugePagePod(b1, command, total, size, uid1, containerUid, image, render).name
            == MakeHugePagePod(b2, command, total, size, uid2, containerUid, image, render).name
            <==> uid1 == uid2
  {
    var n1 := MakeHugePagePod(b1, command, total, size, uid1, containerUid, image, render).name;
    var n2 := MakeHugePagePod(b2, command, total, size, uid2, containerUid, image, render).name;
    if n1 == n2 {
      assert uid1 == n1[3..] && uid2 == n2[3..];
    }
  }

  // ---------------------------------------------------------------------------
  // The three scenarios

  datatype Scenario = ExactMatch | OverAllocation | WrongPageSize

  /** The numbers and path a scenario passes to hugetlb-tester. */
  datatype TesterCommand = TesterCommand(length: int, pageSize: int, path: string)

  const TesterBinary: string := "./hugetlb-tester"
  const TesterFile: string := "/hugetlb/file"

  /**
    The tester arguments of each scenario: the exact case asks for the total
    with the page size, over-allocation for twice the total, and the wrong-size
    case for the total with twice the page size (Go int64 products).
   */
  function TesterArgs(sc: Scenario, v: TestValues): (cmd: TesterCommand)
    ensures cmd.path == TesterFile
    ensures sc == ExactMatch ==> cmd.length == Value(v.totalMemory) && cmd.pageSize == Value(v.hugePageSize)
    ensures sc == OverAllocation ==> cmd.length == WrapInt64(2 * Value(v.totalMemory))
                                     && cmd.pageSize == Value(v.hugePageSize)
    ensures sc == WrongPageSize ==> cmd.length == Value(v.totalMemory)
                                    && cmd.pageSize == WrapInt64(2 * Value(v.hugePageSize))
  {
    match sc
    case ExactMatch => TesterCommand(Value(v.totalMemory), Value(v.hugePageSize), TesterFile)
    case OverAllocation => TesterCommand(WrapInt64(Value(v.totalMemory) * 2), Value(v.hugePageSize), TesterFile)
    case WrongPageSize => TesterCommand(Value(v.totalMemory), WrapInt64(Value(v.hugePageSize) * 2), TesterFile)
  }

  /** The `./hugetlb-tester %d %d %s` command line. */
  function CommandLine(cmd: TesterCommand): string {
    TesterBinary + " " + FormatInt(cmd.length) + " " + FormatInt(cmd.pageSize) + " " + cmd.path
  }

  /** The position of the first blank in `s`. */
  function BlankIndex(s: string): (i: nat)
    requires ' ' in s
    ensures i < |s| && s[i] == ' '
    ensures forall j :: 0 <= j < i ==> s[j] != ' '
  {
    if s[0] == ' ' then 0 else 1 + BlankIndex(s[1..])
  }

  /**
    `sh -c` field splitting of a command whose words are separated by single
    blanks: the text up to each blank is one word.
   */
  function SplitWords(s: string): (words: seq<string>)
    ensures |words| >= 1
    ensures forall k :: 0 <= k < |words| ==> ' ' !in words[k]
    decreases |s|
  {
    if ' ' !in s then [s]
    else
      var i := BlankIndex(s);
      [s[..i]] + SplitWords(s[i + 1..])
  }

  lemma SplitAfterWord(w: string, rest: string)
    requires ' ' !in w
    ensures SplitWords(w + " " + rest) == [w] + SplitWords(rest)
  {
    var s := w + " " + rest;
    assert forall j :: 0 <= j < |w| ==> s[j] == w[j];
    assert s[|w|] == ' ';
    var i := BlankIndex(s);
    assert i == |w|;
    assert s[..i] == w;
    assert s[i + 1..] == rest;
  }

  lemma JoinFourWords(a: string, b: string, c: string, d: string)
    ensures a + " " + b + " " + c + " " + d == a + " " + (b + " " + (c + " " + d))
  {
  }

  /** Four blank-free words joined by single blanks split back into those words. */
  lemma SplitFourWords(a: string, b: string, c: string, d: string)
    requires ' ' !in a && ' ' !in b && ' ' !in c && ' ' !in d
    ensures SplitWords(a + " " + b + " " + c + " " + d) == [a, b, c, d]
  {
    JoinFourWords(a, b, c, d);
    SplitRightNested(a, b, c, d);
  }

  lemma SplitRightNested(a: string, b: string, c: string, d: string)
    requires ' ' !in a && ' ' !in b && ' ' !in c && ' ' !in d
    ensures SplitWords(a + " " + (b + " " + (c + " " + d))) == [a, b, c, d]
  {
    var cd := c + " " + d;
    var bcd := b + " " + cd;
    assert SplitWords(d) == [d];
    SplitAfterWord(c, d);
    assert SplitWords(cd) == [c, d];
    SplitAfterWord(b, cd);
    assert SplitWords(bcd) == [b, c, d];
    SplitAfterWord(a, bcd);
  }

  /** The words the shell passes to the tester as argv. */
  function TesterArgv(cmd: TesterCommand): (argv: seq<string>)
    ensures |argv| == 4 && argv[0] == TesterBinary && argv[3] == cmd.path
    ensures IsNumeral(argv[1]) && ParseInt(argv[1]) == cmd.length
    ensures IsNumeral(argv[2]) && ParseInt(argv[2]) == cmd.pageSize
  {
    ParseFormatInt(cmd.length);
    ParseFormatInt(cmd.pageSize);
    [TesterBinary, FormatInt(cmd.length), FormatInt(cmd.pageSize), cmd.path]
  }

  /**
    The command line the pod runs splits, at its blanks, into exactly the four
    words TesterArgv lists, none of them empty, whenever the path has no blank.
   */
  lemma ShellSplitsCommandLine(cmd: TesterCommand)
    requires ' ' !in cmd.path
    ensures var argv := TesterArgv(cmd);
      CommandLine(cmd) == argv[0] + " " + argv[1] + " " + argv[2] + " " + argv[3]
      && SplitWords(CommandLine(cmd)) == argv
      && (cmd.path != "" ==> forall k :: 0 <= k < 4 ==> argv[k] != "")
  {
    var argv := TesterArgv(cmd);
    FormatIntHasNoBlank(cmd.length);
    FormatIntHasNoBlank(cmd.pageSize);
    assert ' ' !in TesterBinary;
    SplitFourWords(argv[0], argv[1], argv[2], argv[3]);
  }

  datatype ScenarioRun = ScenarioRun(command: TesterCommand, pod: Pod)

  /**
    One `It` block: the test values, the tester command and the pod that runs it.
    Whatever the scenario, the pod's huge-page limit is the unmodified total.
   */
  function RunScenario(sc: Scenario, kB: Int64, podUid: string, containerUid: string, image: string,
                       render: Quantity -> string): (run: ScenarioRun)
    ensures run.command == TesterArgs(sc, GetTestValues(kB))
    ensures |run.pod.containers| == 1
    ensures run.pod.containers[0].command == ["sh", "-c", CommandLine(run.command)]
    ensures var limits := run.pod.containers[0].limits;
            var resource := HugePagesResource(GetTestValues(kB).hugePageSize, render);
            resource in limits && limits[resource] == GetTestValues(kB).totalMemory
  {
    var v := GetTestValues(kB);
    var cmd := TesterArgs(sc, v);
    var pod := MakeHugePagePod("hugepage-pod", CommandLine(cmd), v.totalMemory, v.hugePageSize,
                               podUid, containerUid, image, render);
    ScenarioRun(cmd, pod)
  }

  /**
    The assertion after WaitForPodSuccessInNamespace: the exact case passes
    when the wait reports no error, the two negative cases only when it does.
   */
  function ScenarioPasses(sc: Scenario, waitFailed: bool): (pass: bool)
    ensures pass <==> (waitFailed <==> sc != ExactMatch)
  {
    if sc == ExactMatch then !waitFailed else waitFailed
  }

  // ---------------------------------------------------------------------------
  // BeforeEach

  /** What BeforeEach does: skip, or reserve pages and wait for the node to advertise them. */
  datatype Setup = Skip | Prepare(pageCount: Int64, resourceName: string, expectedAmount: string)

  /**
    BeforeEach: skip when huge pages are unsupported; otherwise reserve the
    test's page count and wait for the node to advertise the test's total
    under the page size's resource name.
   */
  function BeforeEachPlan(kB: Int64, render: Quantity -> string): (s: Setup)
    ensures s.Skip? <==> kB == 0
    ensures s.Prepare? ==> s.pageCount == GetTestValues(kB).pageCount
    ensures s.Prepare? ==> s.expectedAmount == render(GetTestValues(kB).totalMemory)
    ensures s.Prepare? ==> s.resourceName == HugePagesResource(GetTestValues(kB).hugePageSize, render)
  {
    var probe := DefaultHugePageSize(kB);
    var v := GetTestValues(kB);
    if !probe.supported then Skip
    else Prepare(v.pageCount, HugePagesResource(probe.size, render), render(v.totalMemory))
  }

  /**
    The capacity BeforeEach waits for is the very resource and amount every
    scenario's pod puts in its limits, so a pod whose limit fits the node was
    admitted against the pages configured for it.
   */
  lemma SetupWaitsForPodLimit(sc: Scenario, kB: Int64, podUid: string, containerUid: string, image: string,
                              render: Quantity -> string)
    requires kB != 0
    ensures var s := BeforeEachPlan(kB, render);
      var limits := RunScenario(sc, kB, podUid, containerUid, image, render).pod.containers[0].limits;
      s.Prepare? && s.resourceName in limits && render(limits[s.resourceName]) == s.expectedAmount
  {
  }

  /**
    configureHugePages succeeds on the count BeforeEach asks for exactly when
    the kernel reports a HugePages_Total whose pages, at the default page size,
    add up to the total memory every scenario's pod is limited to.
   */
  lemma ReservedPagesCoverTotal(kB: Int64, reading: MeminfoReading, render: Quantity -> string)
    requires 0 < kB < 0x10_0000_0000_0000
    ensures var s := BeforeEachPlan(kB, render);
      var v := GetTestValues(kB);
      s.Prepare?
      && (ConfigureHugePages(s.pageCount, reading).Configured?
          <==> reading.HugePagesTotal? && reading.count * Value(v.hugePageSize) == Value(v.totalMemory))
  {
    var v := GetTestValues(kB);
    TotalMemoryIsExactProduct(kB);
    if reading.HugePagesTotal? {
      var size := Value(v.hugePageSize);
      if reading.count < v.pageCount {
        MulStrict(reading.count, v.pageCount, size);
      } else if reading.count > v.pageCount {
        MulStrict(v.pageCount, reading.count, size);
      }
    }
  }
}
