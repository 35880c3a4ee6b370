# Huge pages node test: a Dafny model

This project models the pure logic of the Kubernetes node end-to-end test for
huge pages (`test/e2e_node/hugepages_test.go`) and of the small C program its
pods run, `hugetlb-tester` (`test/images/hugepage-tester/hugetlb-tester.c`).

The test reads the host's default huge page size and reserves 2 or 20 pages
of it. It checks that the reservation took effect and, when the kubelet has no
feature-gate map, turns the HugePages gate on. It then runs three pods, each limited to the reserved
total. One pod asks the tester for exactly that total, one for twice the
total, and one for the total in pages twice as large. The tester maps the
requested memory with huge pages, writes a byte pattern, reads it back and
exits with 0 or 1.

Files and modules:

- `machine_ints.dfy` (`MachineInts`): C `size_t` and `int`, Go `int64`, and
  the wrap-around and truncation both programs perform. Also trailing zero
  bits, powers of two, and the nonlinear arithmetic facts the proofs need.
- `decimal.dfy` (`Decimal`): the `%d` conversion and its inverse, with a
  round-trip proof.
- `hugetlb_tester.dfy` (`HugetlbTester`): `write_bytes`, `read_bytes`,
  `pretty_bytes`, the page-size shift loop, the mmap flag encoding, the two
  verify helpers and `main`.
- `hugepages_test.dfy` (`HugePagesTest`): the Go test's helpers:
  - the page size probe and the test values;
  - the read-back check and the capacity lookup;
  - the feature-gate toggle and the pod builder;
  - the scenario arguments and assertions.
- `end_to_end.dfy` (`EndToEnd`): what each scenario's arguments become inside
  the tester.

Modelling choices:

- A `resource.Quantity` is its exact value in thousandths of its unit.
  `Value()` rounds a fractional value up. The library rounds away from zero instead, which is the same for the non-negative quantities the test builds. The string form of a quantity is
  an opaque `render` function passed in by the caller. The model assumes only
  that `render` never returns the empty string.
- Go's `int64` products wrap modulo 2^64 (`WrapInt64`). The C conversion
  `int rel_pagesize = pagesize` keeps the low 32 bits as a signed value, as
  GCC does (`CInt`).
- On a C `int`, `x & 1` is written as Dafny's `x % 2` and the arithmetic
  `x >> 1` as `x / 2`. Dafny's Euclidean division with a positive divisor
  gives exactly those results for negative `x` too.
- The system calls are inputs: a `Host` value says which of mmap, munmap and
  open succeed. Memory is a Dafny array of bytes, and `(char)i` is `i % 256`.
- `MAP_PRIVATE`, `MAP_ANONYMOUS` and `MAP_HUGETLB` take their values from the
  Linux headers: 0x02, 0x20 and 0x40000. The file's fallback that defines
  `MAP_HUGETLB` as empty when the headers lack it is not modelled.

Where the code and the written description of the test differ, the model
follows the code:

- Teardown waits for the resource's amount to read `"0"`. That means the
  resource is still advertised with a zero quantity. It does not wait for
  the resource to disappear: a missing resource reads `""` and never
  satisfies the wait (`TeardownWaitNeedsAdvertisedZero`).
- The feature gate is set only when the kubelet's FeatureGates map is nil. An
  existing map without the key is pushed unchanged, so the gate is not turned
  on (`HugePagesGateAfterEnable`).
- `makeHugePagePod` takes a base name but never uses it. The pod is named
  `"pod" + uuid`.

## Model

| member | source | states |
|---|---|---|
| `MachineInts.CInt` | test/images/hugepage-tester/hugetlb-tester.c:126 | converting a `size_t` page size to `int` gives the value in [-2^31, 2^31) congruent to it modulo 2^32; values below 2^31 are unchanged |
| `MachineInts.WrapInt64` | test/e2e_node/hugepages_test.go:150 | a Go int64 product is the int64 congruent to the true product modulo 2^64, and equals it when it fits |
| `Decimal.ParseFormatInt` | test/images/hugepage-tester/hugetlb-tester.c:122-123 | reading back a number written with `%d` gives the same number, so the tester receives the values the test formatted |
| `HugetlbTester.WriteBytes` | test/images/hugepage-tester/hugetlb-tester.c:23-28 | after the call, `buf[i] == i mod 256` for every `i < length`, and every byte at or beyond `length` is unchanged |
| `HugetlbTester.ReadBytes` | test/images/hugepage-tester/hugetlb-tester.c:30-39 | returns 0 iff every byte below `length` holds `i mod 256`; otherwise returns 1 at the first mismatching offset, with every earlier byte matching |
| `HugetlbTester.ScaleDown` | test/images/hugepage-tester/hugetlb-tester.c:44-47 | the pretty_bytes loop ends with `rel == bytes >> 10s`, with `s` the number of 1024-fold steps capped at the guard's bound, and with `rel < 1024` unless the cap was hit |
| `HugetlbTester.Log1024BelowIff` | test/images/hugepage-tester/hugetlb-tester.c:46 | fewer than k divisions by 1024 are possible iff `bytes < 2^(10k)` |
| `HugetlbTester.PrettyBytesIndexAsWritten` | test/images/hugepage-tester/hugetlb-tester.c:41-48 | with the guard `s < 4`, the suffix index stays inside the 4-entry table iff `bytes < 2^40`; otherwise it is 4 |
| `HugetlbTester.PrettyBytesOverrunsAtOneTebibyte` | test/images/hugepage-tester/hugetlb-tester.c:41-48 | 2^40 bytes gives suffix index 4, one past the table; every smaller size stays inside |
| `HugetlbTester.PrettyBytes` | test/images/hugepage-tester/hugetlb-tester.c:43-49 | with the corrected guard, the index is always below 4 and the text is `(int)rel` in decimal followed by the suffix; below 2^40 bytes the index and value match the source's and the text plus NUL fits the 10-byte buffer |
| `HugetlbTester.PageShift` | test/images/hugepage-tester/hugetlb-tester.c:125-129 | for a page size whose int conversion is nonzero, the loop ends with `rel_pagesize` odd, the converted size equal to `rel_pagesize * 2^shift`, and `shift` equal to its trailing zero bits, at most 31 |
| `HugetlbTester.ShiftLoopNeverExits` | test/images/hugepage-tester/hugetlb-tester.c:126-129 | when the page size converts to int 0, the loop's guard still holds after any number of iterations |
| `MachineInts.CIntOfPow2` | test/images/hugepage-tester/hugetlb-tester.c:126 | 2^p converts to int unchanged for p < 31, to -2^31 (still with 31 trailing zeros) for p = 31, and to 0 from p = 32 on; for p <= 31 the trailing zero count is p |
| `HugetlbTester.HangingPageSizes` | test/images/hugepage-tester/hugetlb-tester.c:123-126 | page sizes 0 and 2^32 both convert to int 0 |
| `HugetlbTester.ShiftLoopExits` | test/images/hugepage-tester/hugetlb-tester.c:127-129 | for any nonzero int the loop exits after exactly its number of trailing zeros, with that count as `shift` |
| `HugetlbTester.HugeFlags` | test/images/hugepage-tester/hugetlb-tester.c:130 | OR-ing `(shift & 0x3f) << 26` leaves bits 0..25 of the flags unchanged; when the page-size field was clear, decoding it gives `shift & 0x3f` |
| `HugetlbTester.HugeFlagsKeepsBase` | test/images/hugepage-tester/hugetlb-tester.c:130 | the `|=` never clears a bit of the flags it starts from |
| `HugetlbTester.HugeFlagsRoundTrip` | test/images/hugepage-tester/hugetlb-tester.c:9-21 | FLAGS has bits 26..31 clear, so for `shift < 64` the encoded flags decode to `shift` and keep FLAGS in their low bits |
| `HugetlbTester.VerifyUsingMmap` | test/images/hugepage-tester/hugetlb-tester.c:51-72 | exits with 1 iff mmap or munmap fails; otherwise returns 0, because reading back the pattern just written always matches |
| `HugetlbTester.VerifyUsingHugetlbFile` | test/images/hugepage-tester/hugetlb-tester.c:74-99 | exits with 1 iff open or mmap fails; otherwise returns 0 |
| `HugetlbTester.DefinedAfterShift` | test/images/hugepage-tester/hugetlb-tester.c:131-139 | formatting both sizes with pretty_bytes as written and testing `length % (1 << shift)` stays clear of undefined behaviour iff both sizes are below 2^40 bytes and the shift is below 31 |
| `HugetlbTester.RunTester` | test/images/hugepage-tester/hugetlb-tester.c:105-144 | with fewer than 3 arguments returns 1 without doing any work; otherwise the result is 0 iff the page size is usable and every system call succeeds, and 1 in every other case; the flags carry the page size's trailing zero count; the source, as written, reaches the same result iff there are too few arguments or the page size converts to a nonzero int, both sizes are below 2^40 bytes and the shift is below 31 |
| `HugePagesTest.DefaultHugePageSize` | test/e2e_node/hugepages_test.go:131-140 | reports unsupported, with the zero quantity, iff the kB figure is 0; otherwise the size is the kB figure times 1024 (wrapped to int64; exact below 2^53 kB) |
| `HugePagesTest.GetTestValues` | test/e2e_node/hugepages_test.go:142-152 | the page count is 2 iff the huge page size is at least 2^30 bytes and 20 otherwise; the total is the int64 product of size and count |
| `HugePagesTest.TotalMemoryIsExactProduct` | test/e2e_node/hugepages_test.go:150 | for every nonnegative kB figure below 2^52, the total is exactly size times count, with no wrap-around |
| `HugePagesTest.ConfigureHugePages` | test/e2e_node/hugepages_test.go:105-123 | succeeds iff HugePages_Total reads back equal to the requested count; a different count gives a mismatch error carrying both numbers; command and parse failures are passed on |
| `HugePagesTest.AmountOfResourceAsString` | test/e2e_node/hugepages_test.go:164-170 | returns `""` iff the node's capacity lacks the resource; otherwise returns the stored quantity's string form |
| `HugePagesTest.TeardownWaitNeedsAdvertisedZero` | test/e2e_node/hugepages_test.go:262-266 | the teardown wait for `"0"` is met iff the resource is still advertised with a quantity that prints as `"0"` |
| `HugePagesTest.EnableHugePagesInKubelet` | test/e2e_node/hugepages_test.go:83-102 | a nil FeatureGates map becomes `{HugePages: true}`; an existing map is pushed unchanged; other settings are kept; the returned old configuration is the unmodified original |
| `HugePagesTest.HugePagesGateAfterEnable` | test/e2e_node/hugepages_test.go:86-90 | after the toggle the gate is on iff the map was nil or already had the gate on; a map lacking the key stays without it |
| `HugePagesTest.HugePagesResource` | test/e2e_node/hugepages_test.go:58 | the huge-page resource name never collides with `cpu` or `memory` |
| `HugePagesTest.MakeHugePagePod` | test/e2e_node/hugepages_test.go:41-79 | the pod has `RestartPolicy` Never and one container running `sh -c command`; its limits are exactly cpu=10m, memory=100Mi and `hugepages-<size>`=total; its one mount, `hugetlb` at `/hugetlb`, names a volume with medium HugePages |
| `HugePagesTest.PodNamesFollowUids` | test/e2e_node/hugepages_test.go:45 | two pods have the same name iff they were built from the same UUID, whatever base name was passed |
| `HugePagesTest.TesterArgs` | test/e2e_node/hugepages_test.go:177-200 | the tester gets (total, size) in the exact case, (2·total, size) for over-allocation and (total, 2·size) for the wrong size, all with the file `/hugetlb/file` |
| `HugePagesTest.TesterArgv` | test/e2e_node/hugepages_test.go:177 | the tester's four words are the binary, the two numbers and the path, and the two numbers read back as the values formatted |
| `HugePagesTest.ShellSplitsCommandLine` | test/e2e_node/hugepages_test.go:177 | the `./hugetlb-tester %d %d %s` command line is the four words of TesterArgv joined by blanks, and the shell splits it back into exactly those words, none empty, whenever the path has no blank |
| `HugePagesTest.RunScenario` | test/e2e_node/hugepages_test.go:174-208 | each scenario runs the tester command inside a pod whose huge-page limit is the unmodified total, whatever the scenario |
| `HugePagesTest.ScenarioPasses` | test/e2e_node/hugepages_test.go:181-206 | the exact scenario passes iff the wait reports no error; the two negative scenarios pass iff it reports one |
| `HugePagesTest.BeforeEachPlan` | test/e2e_node/hugepages_test.go:218-243 | setup skips iff the host reports a huge page size of 0 kB; otherwise it reserves the test's page count and waits for the test's total under the page size's resource name |
| `HugePagesTest.ReservedPagesCoverTotal` | test/e2e_node/hugepages_test.go:105-123 | for a page size the kernel can report, configureHugePages accepts the setup's count iff HugePages_Total pages of the default size add up exactly to the total every scenario's pod is limited to |
| `HugePagesTest.SetupWaitsForPodLimit` | test/e2e_node/hugepages_test.go:239-242 | the resource and amount setup waits for are the key and the printed value of every scenario pod's huge-page limit |
| `EndToEnd.PowerOfTwoTestValues` | test/e2e_node/hugepages_test.go:142-152 | for huge pages of 2^k bytes, k from 10 to 34 (1 KiB to 16 GiB), the size is exactly 2^k, the count is 2 from k = 30 (1 GiB) on and 20 below, and the total is exactly 2^k times the count, at most 2^35 |
| `EndToEnd.TesterShiftPerScenario` | test/e2e_node/hugepages_test.go:197-202 | for huge pages of 2^k bytes, k from 10 to 34, every scenario passes three arguments and a page size 2^p, with p = k, or k+1 in the wrong-size scenario; that page size converts to a nonzero int iff p <= 31, and then the tester's shift is p (31 via a negative int) |
| `EndToEnd.ScenarioSizesBelowOneTebibyte` | test/e2e_node/hugepages_test.go:177-200 | for huge pages of 2^k bytes, k from 10 to 34, every scenario's length is positive and at most 2^36 and its page size is 2^k, or 2^(k+1) for the wrong size, so both stay below pretty_bytes' 2^40 limit |
| `EndToEnd.RunScenarioTester` | test/e2e_node/hugepages_test.go:177-181 | for huge pages of 2^k bytes, k from 10 to 34 (1 KiB to 16 GiB): on a scenario's command line, split by the shell and parsed back by main, the tester returns 0 iff every system call succeeds and the page size is below 4 GiB; the source reaches that result without undefined behaviour iff the page size is below 2^31, so not in the wrong-size scenario on 1 GiB pages, nor on 2 GiB pages, and from 4 GiB on its shift loop never ends |

## Left out

- Shell commands: writing `/proc/sys/vm/nr_hugepages` and reading `/proc/meminfo`. Only the values they produce are inputs (`kB`, `MeminfoReading`). `releaseHugePages` is only such a command, so it is not modelled.
- `exec`/`Atoi` failures inside `getDefaultHugePageSize`: these abort the test through `ExpectNoError`. The model takes the parsed kB figure as given.
- The kubelet configuration API, `restartKubelet`, node listing, pod creation, `WaitForPodSuccessInNamespace` and restoring the old configuration. These are cluster operations. The model only states which configuration is pushed and which is returned.
- `Eventually` polling and timeouts, Ginkgo's `BeforeEach`/`AfterEach` ordering, and `Skipf`. These are test-harness timing. `BeforeEachPlan` only says whether setup skips, how many pages it reserves and what it waits for.
- `resource.Quantity` parsing and printing. `10m` and `100Mi` are written as their values, and `String()` is the `render` parameter.
- UUID generation, the image name and logging. They are parameters or dropped.
- mmap, munmap, open, close and unlink. Their success is a `Host` input. The kernel's own behaviour is not modelled: refusing an over-sized or wrong-sized mapping, or killing the process on a page fault when the reservation runs out. So the model cannot decide which scenario's pod fails; it only states what the tester returns for each host outcome.
- `printf` output: the "Mapping ..." line, the "not a multiple of the pagesize" warning and `length / pagesize`. Of main's two `pretty_bytes` calls and its `length % (1 << shift)` test, `RunTester` models only whether they are defined (`DefinedAfterShift`), not the text printed.
- The shell's parsing of `sh -c`: `SplitWords` splits at single blanks only. Quoting, repeated blanks and other separators do not occur in the test's command lines.
- EndToEnd.RunScenarioTester: covers default huge page sizes that are powers of two from 1 KiB to 16 GiB (k from 10 to 34), the sizes Linux kernels offer. Other page sizes are covered by `RunTester` itself but not traced through a scenario.
- `strtol`: it is modelled only on strings written by `%d` (`ParseInt`). Leading blanks, trailing garbage and overflow are left out.
- The signedness of `char`: bytes are the values 0..255.
- HugetlbTester.HugeFlags: models the bit pattern for every shift. For `shift & 0x3f` of 32 and above the C shift `<< 26` overflows a signed int; main never reaches that, since its shift is at most 31.
- HugetlbTester.PrettyBytes: the fit in the 10-byte buffer is proved only below 2^40 bytes. Above that the corrected formatter prints a number of 1024 or more, and for sizes of about 10^6 GiB and up the text overruns the buffer.
- HugePagesTest.ConfigureHugePages: the mismatch error keeps both numbers but not the message text.

## Findings

| source | as written | input that shows it | evidently intended | confidence | as-written member | corrected member |
|---|---|---|---|---|---|---|
| test/images/hugepage-tester/hugetlb-tester.c:46-48 | the loop guard `s < 4` lets `s` reach 4, and `suffixes[s]` then reads past the 4-entry table | `bytes = 2^40` (1 TiB) gives `s = 4` | the guard `s < suffix_len - 1`, which keeps the index in 0..3 | high; not executed | `HugetlbTester.PrettyBytesIndexAsWritten` | `HugetlbTester.PrettyBytes` |
| test/images/hugepage-tester/hugetlb-tester.c:126-129 | the shift loop never ends when `int rel_pagesize = pagesize` is 0 | page size 0, or 2^32 (4 GiB), whose low 32 bits are zero | reject such a page size, as for a usage error, and return 1 | high; not executed | `HugetlbTester.ShiftLoopNeverExits` | `HugetlbTester.RunTester` |

`RunTester` is the model of `main` used everywhere else. It returns 1 for the
page sizes in the second row, where the source loops forever. Its
`definedAsWritten` result is false in that case, and also when the source's
behaviour is undefined: a size of 2^40 bytes or more (the first row) or a
shift of 31, where `1 << shift` overflows an int. There the status it returns
is the corrected program's. `PageShift` is the loop as written, on the inputs where
it terminates.
