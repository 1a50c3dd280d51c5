# rhel-log, modelled in Dafny

rhel-log reads the changelog pages of a RHEL kernel git web front end.
It builds a map from kernel version to that kernel's record: a description
and its subsystems, each holding the drivers changed under it with their
change log. It then prints the records in version order. This project models
the core of that program:

- the line grammar of `parseOneLine` (`main.go`). `* <description> [<version>]`
  starts a kernel record. `- [<subsystem>] <driver>: <change log>` adds a
  driver. Any other line is ignored. Both regular expressions are written
  out as the greedy, leftmost-first matches Go's `regexp` performs (module
  `LineGrammar`);
- the `DocumentManager` state machine (module `Document`). It is described
  twice. On values, `Step` handles one line and `Run` handles a page. As the
  program's own objects, the `DocumentManager`, `RhelKernel` and `SubSystem`
  classes are updated in place, and every method is proved to change the
  manager exactly as `Step` / `Run` say;
- the block filter of `fetchOneBranch`. A block is normalised by replacing
  no-break spaces and trimming leading line feeds. It is parsed only when it
  mentions "The rest of" or "RHEL kernel";
- version parsing and ordering (`version.go`, module `Versions`):
  - `NewVersion` splits a version on dots and dashes and reads six numbers
    with `strconv.Atoi`;
  - the six per-field predicates and the tie-break comparator `Less` built by
    `OrderedBy`;
  - a `VersionSorter` class whose `Sort` orders an array of versions in
    place. It is proved to give a permutation ordered by that comparator, and
    the comparator is proved to be the lexicographic order on the six
    numbers;
- the Go library functions the core relies on (module `Strings`):
  `strings.Split`, `Contains`, `TrimLeft(s, "\n")`, the no-break-space
  `Replace`, and `strconv.Atoi` with its error discarded.

In these places the model follows the code as written:

- nothing commits the record still pending after the last page (see
  Findings);
- the description group of the header expression is greedy, so
  `* A [1] b [2]` has description `A [1] b` and version `2`;
- a driver line read before any header dereferences a nil record in Go. Here
  it is a precondition (`CanStep`, `Runnable`);
- a header that repeats a committed version starts a record that is never
  committed, and its driver lines are lost (`RepeatedVersionIsDropped`);
- `NewVersion("4.18.0-123.2.5")` gives rc1 = 2 and rc2 = 0, because rc2 is
  read only when there are at least six segments;
- `sort.Sort` is not stable, so no stability is claimed.

## Model

| member | source | states |
|---|---|---|
| Strings.Split | main.go:126 | at least one piece; no piece contains the separator; more than one piece exactly when the separator occurs |
| Strings.JoinSplit | version.go:94 | joining the pieces of `strings.Split` with the separator gives the string back |
| Strings.SplitJoin | version.go:94-101 | splitting separator-free pieces joined by the separator gives the pieces back |
| Strings.SplitNoSeparator | version.go:99 | a string without the separator splits into itself alone |
| Strings.SplitAfterPiece | version.go:94 | splitting `p + sep + t` cuts exactly after the separator-free `p` |
| Strings.Contains | main.go:59-61 | true exactly when the pattern occurs at some position |
| Strings.OccursAtTail | main.go:59 | an occurrence at k >= 1 is an occurrence at k - 1 in the tail |
| Strings.TrimLeadingNewlines | main.go:57 | the result is a suffix of the input, does not start with a line feed, and only line feeds were dropped |
| Strings.ReplaceNoBreakSpaces | main.go:56 | same length, no no-break space left, every no-break space becomes a space, every other character is kept |
| Strings.Atoi | version.go:95-109 | 0 for text Atoi rejects; the sign of the result follows the sign of the text |
| Strings.DecimalString | version.go:95 | a non-empty run of decimal digits without a leading zero |
| Strings.DigitsValueOfDecimalString | version.go:95 | the digit value of the decimal text of n is n |
| Strings.AtoiDecimalString | version.go:95-109 | Atoi reads back n from its decimal text, with "+" or with "-" in front |
| Versions.NewVersion | version.go:82-111 | the version's String() is the text it was parsed from |
| Versions.NewVersionOfSegments | version.go:94-111 | for any dot-separated segments whose third segment is dash-separated pieces: major, minor, revise and patch come from the first pieces, rc1 only with five or more segments, rc2 only with six or more, and the string is kept |
| Versions.NewVersionThreeSegments | version.go:94-104 | "A.B.C" with no dash gives Atoi of A, B and C, and zero patch, rc1 and rc2 |
| Versions.NewVersionIgnoresLastSegment | version.go:105-110 | "4.18.0-123.2.5" parses to 4, 18, 0, 123, rc1 2, rc2 0 |
| Versions.NewVersionOfDistroTag | version.go:97-110 | "4.18.0-123.el8" parses to 4, 18, 0, 123, 0, 0 |
| Versions.Version.String | version.go:82-84 | the text the version was parsed from, which is its record's key in the map |
| Versions.Major | version.go:35-37 | true exactly when the first key number (major) of v1 is smaller |
| Versions.Minor | version.go:39-41 | true exactly when the second key number (minor) of v1 is smaller |
| Versions.Revise | version.go:43-45 | true exactly when the third key number (revise) of v1 is smaller |
| Versions.Patch | version.go:47-49 | true exactly when the fourth key number (patch) of v1 is smaller |
| Versions.Rc1 | version.go:51-53 | true exactly when the fifth key number (rc1) of v1 is smaller |
| Versions.Rc2 | version.go:55-57 | true exactly when the sixth key number (rc2) of v1 is smaller |
| Versions.ByVersionFields | main.go:163 | the six predicates `main` passes to `OrderedBy`, one per key position: the n-th compares key position n |
| Versions.LessBy | version.go:59-72 | the comparator holds only when some predicate in the list puts p before q |
| Versions.LessByFirstDiscriminating | version.go:59-72 | when no predicate before the last tells p and q apart, the last one decides; otherwise the first predicate that tells them apart decides |
| Versions.LessByAsymmetric | version.go:59-72 | with asymmetric predicates, Less(p, q) excludes Less(q, p) |
| Versions.LessByConsIsLex | version.go:62-71 | a predicate in front of a lexicographic tie-break extends the lexicographic order by one position |
| Versions.LessByLastFourIsLex | version.go:43-72 | the last four predicates in tie-break order compare as the lexicographic order on the last four numbers |
| Versions.LessByVersionFieldsIsLex | version.go:35-72 | `OrderedBy(Major, Minor, Revise, Patch, Rc1, Rc2)` orders exactly as the lexicographic order on the six numbers |
| Versions.LexLessIrreflexive | version.go:59-72 | no key sequence is before itself |
| Versions.LexLessTransitive | version.go:59-72 | the lexicographic order is transitive |
| Versions.LexLessTotal | version.go:59-72 | two keys of equal length are equal or ordered one way |
| Versions.VersionOrderIsStrict | version.go:59-72 | the comparator used by main is irreflexive and transitive, and versions it cannot tell apart have the same six numbers |
| Versions.VersionFieldsAsymmetric | version.go:35-57 | each of the six field predicates is asymmetric |
| Versions.AdjacentOrderIsTotalOrder | version.go:26-29 | a sequence in order at each adjacent pair has no later version before an earlier one |
| Versions.LessByNotAfter | version.go:26-29 | in a sorted sequence the keys of earlier versions are lexicographically no greater |
| Versions.VersionSorter.OrderedBy | version.go:31-33 | a sorter holding the given predicates and no versions yet |
| Versions.VersionSorter.Len | version.go:78-80 | the number of versions held, 0 before Sort |
| Versions.VersionSorter.Less | version.go:59-72 | the tie-break comparator applied to the versions at i and j |
| Versions.VersionSorter.Swap | version.go:74-76 | the two entries trade places, nothing else changes, and the contents stay a permutation |
| Versions.VersionSorter.Sort | version.go:26-29 | the sorter holds the given array, which ends up a permutation of its old contents with no entry Less than the one before it |
| Versions.VersionSorter.SinkLast | version.go:28 | moving the entry at i back to its place keeps the permutation and extends the ordered prefix by one |
| LineGrammar.MatchHeader | main.go:87 | a match splits the line at a " [" and a "]" with no line feed in the groups |
| LineGrammar.MatchHeaderIsGreedy | main.go:87-94 | a match is the greedy leftmost-first split of `^\* (.*) \[(.*)\]`; no match means no split exists |
| LineGrammar.MatchDriver | main.go:88 | a match splits the line at "] " and ": ", and the change log runs to the end of the line |
| LineGrammar.MatchDriverIsGreedy | main.go:88-109 | a match is the greedy split of `^- \[(.*)\] (.*): (.*)`; no match means no split exists |
| LineGrammar.Classify | main.go:94-108 | a header when the header expression matches; a driver line only when it does not and the driver expression does; the two never both apply |
| LineGrammar.HeaderLineRoundTrip | main.go:103-106 | a header written from a description and a version reads back as that description and version |
| LineGrammar.HeaderLineShape | main.go:103-106 | every single-line header is such a written header, so the round trip covers all of them |
| LineGrammar.HeaderMatchAt | main.go:87-106 | a split with no later " [" and no later "]" is the one the header expression picks |
| LineGrammar.DriverLineRoundTrip | main.go:109-117 | a driver line written from subsystem, driver and change log reads back as those three |
| LineGrammar.DriverLineShape | main.go:109-117 | every single-line driver line is such a written line |
| LineGrammar.DriverMatchAt | main.go:109-117 | a split with no later ": " and no later "] " is the one the driver expression picks |
| LineExamples.HeaderExample | main.go:103-106 | "* Fix things [1.2.3]" is a header for version 1.2.3 |
| LineExamples.DriverExample | main.go:109-117 | "- [net] e1000: bugfix" adds driver e1000 to subsystem net |
| LineExamples.IgnoredExamples | main.go:94-108 | the empty line and plain text change nothing |
| LineExamples.ColonInChangeLog | main.go:88 | the driver name takes everything up to the last ": " |
| LineExamples.BracketAfterVersion | main.go:87 | the version is taken from the last bracket pair |
| Document.NewKernel | main.go:100-106 | a record with the header's version and description and no subsystems |
| Document.Commit | main.go:95-99 | the record is stored under its version only if that key is absent; existing entries are kept |
| Document.AddDriver | main.go:111-121 | the subsystem is created empty when absent and the driver goes at the end of its list; version, description and every other subsystem stay |
| Document.CanStep | main.go:93-121 | a line is refused only when it is a driver line and no record is pending; with a record pending every line can be processed |
| Document.Step | main.go:86-123 | a header commits the pending record and starts a new one; a driver line changes only the pending record; other lines change nothing; committed records never change |
| Document.Runnable | main.go:125-132 | once a record is pending, every page can be processed |
| Document.Run | main.go:125-132 | no page ever drops the pending record: once one is pending, one stays pending |
| Document.StepLine | main.go:127-130 | empty lines are skipped |
| Document.RunSnoc | main.go:127-131 | processing one more line is one more step |
| Document.RunnablePrefix | main.go:127-131 | a prefix of processable lines is processable |
| Document.RunGrows | main.go:95-99 | over any lines the committed map only grows and no committed record changes |
| Document.RunConcat | main.go:125-132 | processing two pages one after the other is processing their concatenation, both for processability and for the result |
| Document.RepeatedVersionIsDropped | main.go:93-101 | a header after a pending record whose version is already committed leaves the committed map as it was |
| Document.DriverLinesKeepPendingVersion | main.go:108-122 | driver and ignored lines never commit anything and keep the pending version |
| Document.Flush | main.go:155-160 | after the flush nothing is pending, and the pending version is committed |
| Document.StepRecords | main.go:94-106 | a step forgets no committed or pending version, and a header records its own version |
| Document.EmptyLineIsIgnored | main.go:128 | the empty line is never a header or driver line |
| Document.RunRecordsHeaders | main.go:125-132 | after any lines, every version read from a header is committed or pending |
| Document.FlushedRunHasEveryHeader | main.go:155-160 | with the flush, every version read from a header is a key of the map |
| Document.Normalize | main.go:56-57 | the block with only its leading line feeds dropped and every no-break space turned into a space: every dropped character is a line feed, every kept character is the block's own character at the same place from the end (a space where that was a no-break space), and the result neither starts with a line feed nor holds a no-break space |
| Document.ShouldParse | main.go:59-63 | a block is parsed exactly when its normalised text contains one of the two markers |
| Document.SubSystem.constructor | main.go:113 | a subsystem with the given name and no drivers |
| Document.RhelKernel.constructor | main.go:100-106 | a kernel with the header's version and description and an empty subsystem map |
| Document.KernelValuesUpdate | main.go:97 | storing one more kernel object adds its record and keeps the others |
| Document.RecordsUnchanged | main.go:95-99 | changing only the manager's own fields keeps every record's value |
| Document.CommittedUnchanged | main.go:108-121 | changes to pending objects leave the committed records as they were |
| Document.SubSystemAdded | main.go:112-114 | adding an empty subsystem object adds an empty record under its key and nothing else |
| Document.DriverAppended | main.go:120-121 | appending to one subsystem object changes that subsystem's record and no other |
| Document.DocumentManager.constructor | main.go:153 | a manager with nothing committed and nothing pending, owning no kernel or subsystem objects yet, so a caller may go on to feed it pages |
| Document.DocumentManager.CommitPending | main.go:95-99 | the committed map becomes the pending record committed into it |
| Document.DocumentManager.StartKernel | main.go:94-106 | the committed map is as a header step leaves it; a fresh, empty record is pending |
| Document.DocumentManager.AddSubSystem | main.go:112-114 | the pending record gains an empty subsystem and the committed map is unchanged |
| Document.DocumentManager.EnsureSubSystem | main.go:111-114 | the pending record has the subsystem afterwards, created empty when absent |
| Document.DocumentManager.AppendDriver | main.go:108-121 | the pending record becomes `AddDriver` of it; the committed map is unchanged |
| Document.DocumentManager.ParseOneLine | main.go:86-123 | the manager's value after the call is `Step` of its value before |
| Document.DocumentManager.ParseOnePage | main.go:125-132 | the manager's value after the call is `Run` of its value before over the page's lines |
| Document.DocumentManager.Finish | main.go:155-160 | the manager's value becomes `Flush` of its value before |
| Document.DocumentManager.ParseBlock | main.go:54-64 | a block is run through ParseOnePage after normalisation exactly when `ShouldParse` holds; otherwise nothing changes |
| DocumentExamples.FirstHeader | main.go:103-106 | the page's first line is a header for 1.0.0 |
| DocumentExamples.FirstDriver | main.go:109-117 | the page's second line adds drv1 to net |
| DocumentExamples.SecondHeader | main.go:103-106 | the page's third line is a header for 1.1.0 |
| DocumentExamples.SecondDriver | main.go:109-117 | the page's fourth line adds drv2 to net |
| DocumentExamples.StepOne | main.go:94-106 | the first header opens 1.0.0 with nothing committed |
| DocumentExamples.FirstDriverOfKernel | main.go:111-121 | the first driver line for a record without subsystems leaves it with the one subsystem holding that one driver |
| DocumentExamples.StepTwo | main.go:108-121 | the first driver line creates net holding drv1 |
| DocumentExamples.StepThree | main.go:94-106 | the second header commits 1.0.0 and opens 1.1.0 |
| DocumentExamples.StepFour | main.go:108-121 | the last driver line goes to the pending 1.1.0 |
| DocumentExamples.RunFourLines | main.go:125-132 | four non-empty lines are processed one step after the other |
| DocumentExamples.PageLeavesLastKernelPending | main.go:125-132 | after the page only 1.0.0 is committed and 1.1.0 is still pending |
| DocumentExamples.RunLosesLastVersion | main.go:155-168 | the header of 1.1.0 is read, yet 1.1.0 is not a key of the map main prints |
| DocumentExamples.FlushKeepsLastVersion | main.go:155-160 | with the flush, both 1.0.0 and 1.1.0 are committed |
| DocumentExamples.PageIsItsLines | main.go:126 | the page's text, joined with line feeds, splits back into its four lines |
| DocumentExamples.ParsePageThenFinish | main.go:153-168 | on the class, as `main` runs it: a new manager fed the page does not hold 1.1.0 in `RhelKernels`; after `Finish` it does |

## Left out

- Fetching pages: goquery, the HTTP requests and the HTML selectors (`main.go:48-54`, `main.go:134-157`) are I/O. The model starts from a block's text.
- `log.Fatal` on a regular-expression compile error cannot happen with the two fixed expressions.
- The `String` formatters of `RhelKernel` and `DocumentManager` (`main.go:68-84`) and the final printing (`main.go:166-168`) only produce output text. Go's map iteration order is random anyway.
- The collection of map keys into versions in `main` (`main.go:159-164`) is a loop over an unordered map. Only its parts are modelled: `NewVersion` and `VersionSorter.Sort`.
- Regular expressions in general: only the two expressions of `parseOneLine` are modelled, each by its match positions.
- Strings.Atoi: does not model the clamping of out-of-range values to the 64-bit limits that `strconv.Atoi` reports with an error. The value is the unbounded integer.
- Versions.NewVersion: a version with fewer than three dot segments panics in Go, so it is a precondition here. The `*Version` pointers become values, because nothing mutates a version after it is built.
- Versions.VersionSorter.Sort: `sort.Sort`'s own algorithm (pattern-defeating quicksort) is replaced by an insertion sort that uses only `Len`, `Less` and `Swap`. The contract is what `sort.Sort` promises, an ordered permutation, without stability. It requires asymmetric predicates, as `sort.Interface` demands a strict weak order, and a non-empty predicate list only when the array holds more than one version, since with fewer `sort.Sort` never calls `Less`.
- Versions.LessBy: requires a non-empty predicate list. With none, Go's `Less` indexes `vs.less[0]` and panics (`version.go:71`); the model excludes that call rather than modelling the panic.
- Document.DocumentManager.ParseOneLine: a driver line before any header is a nil dereference in Go and is excluded by the precondition `CanStep`, rather than modelled as a crash.
- Text is a sequence of characters. The no-break space is the one character U+00A0, which is what the bytes C2 A0 decode to.

## Findings

| source | as written | input that shows it | evidently intended | confidence | as-written member | corrected member |
|---|---|---|---|---|---|---|
| main.go:155-168 | after the last block nothing commits `cur_rk`, so the last version read is never stored in `RhelKernels` and never printed | the page "* Desc A [1.0.0]", "- [net] drv1: fix1", "* Desc B [1.1.0]", "- [net] drv2: fix2" leaves 1.1.0 out of the map | commit the pending record once every block of every branch is parsed, so every version read is printed | high for the behaviour, medium for the intent; not executed | DocumentExamples.RunLosesLastVersion | Document.Flush |
