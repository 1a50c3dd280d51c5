/** The changelog document builder: the DocumentManager of main.go, which
    reads changelog lines one at a time and assembles a map from kernel
    version to the kernel's subsystems and their drivers.

    The state machine is written twice. `Step` and `Run` describe it on
    values; the `DocumentManager` class is the program's own form, with
    kernel and subsystem records as heap objects updated in place, and its
    methods are proved to change the manager exactly as `Step` and `Run` say. */
module Document {
  import opened Wrappers
  import opened Strings
  import opened LineGrammar

  // ---------------------------------------------------------------------
  // Records as values
  // ---------------------------------------------------------------------

  /** One driver entry of a subsystem: the driver's name and its change log. */
  datatype Driver = Driver(name: string, changeLog: string)

  /** The value of a SubSystem object: its name and its drivers in order. */
  datatype SubSystemRecord = SubSystemRecord(name: string, drivers: seq<Driver>)

  /** The value of a RhelKernel object. */
  datatype KernelRecord =
    KernelRecord(version: string, description: string, subSystems: map<string, SubSystemRecord>)

  /** The value of a DocumentManager: the committed kernels, keyed by version,
      and the kernel still being assembled (`cur_rk`, nil or not). */
  datatype Manager = Manager(kernels: map<string, KernelRecord>, pending: Option<KernelRecord>)

  /** A manager as main.go creates it: nothing committed, nothing pending. */
  const EmptyManager := Manager(map[], None)

  /** The record of a version most recently read from a header line, before
      any of its driver lines. */
  function NewKernel(version: string, description: string): (rk: KernelRecord)
    ensures rk.version == version && rk.description == description
    ensures rk.subSystems == map[]
  {
    KernelRecord(version, description, map[])
  }

  /** Committing the pending record: it is stored under its own version only
      when no record is stored there yet. */
  function Commit(kernels: map<string, KernelRecord>, rk: KernelRecord): (r: map<string, KernelRecord>)
    ensures r.Keys == kernels.Keys + {rk.version}
    ensures forall k :: k in kernels ==> r[k] == kernels[k]
    ensures rk.version !in kernels ==> r[rk.version] == rk
  {
    if rk.version in kernels then kernels else kernels[rk.version := rk]
  }

  /** The record with a subsystem under `sub`: the one it has, or a new,
      empty one. */
  function WithSubSystem(rk: KernelRecord, sub: string): KernelRecord
  {
    if sub in rk.subSystems then rk
    else rk.(subSystems := rk.subSystems[sub := SubSystemRecord(sub, [])])
  }

  /** The record with `d` appended to the drivers of its subsystem `sub`. */
  function AppendTo(rk: KernelRecord, sub: string, d: Driver): KernelRecord
    requires sub in rk.subSystems
  {
    var s := rk.subSystems[sub];
    rk.(subSystems := rk.subSystems[sub := s.(drivers := s.drivers + [d])])
  }

  /** A driver line: the subsystem is created empty when absent, and the
      driver goes at the end of its list; nothing else changes. */
  function AddDriver(rk: KernelRecord, sub: string, d: Driver): (r: KernelRecord)
    ensures r.version == rk.version && r.description == rk.description
    ensures r.subSystems.Keys == rk.subSystems.Keys + {sub}
    ensures sub in rk.subSystems ==>
      r.subSystems[sub] == rk.subSystems[sub].(drivers := rk.subSystems[sub].drivers + [d])
    ensures sub !in rk.subSystems ==> r.subSystems[sub] == SubSystemRecord(sub, [d])
    ensures forall k :: k in rk.subSystems && k != sub ==> r.subSystems[k] == rk.subSystems[k]
  {
    AppendTo(WithSubSystem(rk, sub), sub, d)
  }

  // ---------------------------------------------------------------------
  // The state machine on values
  // ---------------------------------------------------------------------

  /** A line can be processed unless it is a driver line and no kernel is
      pending: main.go then dereferences a nil record. */
  predicate CanStep(m: Manager, line: string): (b: bool)
    ensures m.pending.Some? ==> b
    ensures !Classify(line).DriverLine? ==> b
  {
    m.pending.Some? || !Classify(line).DriverLine?
  }

  /** parseOneLine on values. */
  function Step(m: Manager, line: string): (r: Manager)
    requires CanStep(m, line)
    // the committed map only grows, and a committed record never changes
    ensures m.kernels.Keys <= r.kernels.Keys
    ensures forall k :: k in m.kernels ==> r.kernels[k] == m.kernels[k]
    // a header commits the pending record under its version, if that is new,
    // and starts an empty record with the header's description and version
    ensures Classify(line).KernelHeader? ==>
      r.kernels == (if m.pending.Some? then Commit(m.kernels, m.pending.value) else m.kernels) &&
      r.pending == Some(NewKernel(Classify(line).version, Classify(line).description))
    // a driver line touches the pending record only
    ensures Classify(line).DriverLine? ==>
      r.kernels == m.kernels &&
      r.pending == Some(AddDriver(m.pending.value, Classify(line).subSystem,
                                  Driver(Classify(line).driver, Classify(line).changeLog)))
    // any other line changes nothing
    ensures Classify(line).Ignored? ==> r == m
  {
    match Classify(line)
    case KernelHeader(d, v) =>
      var kernels := if m.pending.Some? then Commit(m.kernels, m.pending.value) else m.kernels;
      Manager(kernels, Some(NewKernel(v, d)))
    case DriverLine(sub, d, c) =>
      Manager(m.kernels, Some(AddDriver(m.pending.value, sub, Driver(d, c))))
    case Ignored =>
      m
  }

  /** One line as ParseOnePage treats it: empty lines are skipped. */
  function StepLine(m: Manager, line: string): (r: Manager)
    requires |line| == 0 || CanStep(m, line)
    ensures |line| == 0 ==> r == m
  {
    if |line| == 0 then m else Step(m, line)
  }

  /** Every line of `lines`, processed in order from `m`, finds a pending
      kernel when it needs one. */
  predicate Runnable(m: Manager, lines: seq<string>): (b: bool)
    // once a kernel is pending, every line can be processed
    ensures m.pending.Some? ==> b
    decreases |lines|, 0
  {
    lines == [] ||
    (Runnable(m, lines[..|lines| - 1]) &&
     var last := lines[|lines| - 1];
     |last| == 0 || CanStep(Run(m, lines[..|lines| - 1]), last))
  }

  /** The manager after processing `lines` in order from `m`. */
  function Run(m: Manager, lines: seq<string>): (r: Manager)
    requires Runnable(m, lines)
    // no line ever drops the pending kernel
    ensures m.pending.Some? ==> r.pending.Some?
    decreases |lines|, 1
  {
    if lines == [] then m
    else StepLine(Run(m, lines[..|lines| - 1]), lines[|lines| - 1])
  }

  /** Processing one more line after `lines`. */
  lemma RunSnoc(m: Manager, lines: seq<string>, line: string)
    requires Runnable(m, lines)
    requires |line| == 0 || CanStep(Run(m, lines), line)
    ensures Runnable(m, lines + [line])
    ensures Run(m, lines + [line]) == StepLine(Run(m, lines), line)
  {
    assert (lines + [line])[..|lines|] == lines;
  }

  /** Any prefix of a runnable sequence of lines is runnable. */
  lemma {:induction false} RunnablePrefix(m: Manager, lines: seq<string>, n: nat)
    requires n <= |lines| && Runnable(m, lines)
    ensures Runnable(m, lines[..n])
    decreases |lines|
  {
    if n < |lines| {
      RunnablePrefix(m, lines[..|lines| - 1], n);
      assert lines[..|lines| - 1][..n] == lines[..n];
    } else {
      assert lines[..n] == lines;
    }
  }

  /** Over any number of lines, the committed map only grows and a committed
      record never changes: nothing is ever overwritten or removed. */
  lemma {:induction false} RunGrows(m: Manager, lines: seq<string>)
    requires Runnable(m, lines)
    ensures m.kernels.Keys <= Run(m, lines).kernels.Keys
    ensures forall k :: k in m.kernels ==> Run(m, lines).kernels[k] == m.kernels[k]
    decreases |lines|
  {
    if lines != [] {
      RunGrows(m, lines[..|lines| - 1]);
    }
  }

  /** Processing two sequences of lines one after the other is processing
      their concatenation: the state carries over from one page to the next. */
  lemma {:induction false} RunConcat(m: Manager, a: seq<string>, b: seq<string>)
    ensures Runnable(m, a + b) <==> Runnable(m, a) && Runnable(Run(m, a), b)
    ensures Runnable(m, a + b) ==> Run(m, a + b) == Run(Run(m, a), b)
    decreases |b|
  {
    if b == [] {
      assert a + b == a;
    } else {
      var b' := b[..|b| - 1];
      assert (a + b)[..|a + b| - 1] == a + b';
      assert (a + b)[|a + b| - 1] == b[|b| - 1];
      RunConcat(m, a, b');
    }
  }

  /** A header that repeats a committed version starts a record that is
      never committed: when the next header arrives the committed map stays
      as it was, so the driver lines read in between are lost. */
  lemma RepeatedVersionIsDropped(m: Manager, line: string)
    requires m.pending.Some? && m.pending.value.version in m.kernels
    requires Classify(line).KernelHeader?
    ensures Step(m, line).kernels == m.kernels
  {
  }

  /** Driver lines never change the version of the pending record, so a
      record started by a repeated version keeps that version until the next
      header drops it. */
  lemma {:induction false} DriverLinesKeepPendingVersion(m: Manager, lines: seq<string>)
    requires Runnable(m, lines) && m.pending.Some?
    requires forall k :: 0 <= k < |lines| ==> !Classify(lines[k]).KernelHeader?
    ensures Run(m, lines).kernels == m.kernels
    ensures Run(m, lines).pending.Some?
    ensures Run(m, lines).pending.value.version == m.pending.value.version
    decreases |lines|
  {
    if lines != [] {
      DriverLinesKeepPendingVersion(m, lines[..|lines| - 1]);
    }
  }

  // ---------------------------------------------------------------------
  // Committing the last record
  // ---------------------------------------------------------------------

  /** End of input with the pending record committed as a header would
      commit it; main.go never does this, see `RunLosesLastVersion`. */
  function Flush(m: Manager): (r: Manager)
    ensures r.pending == None
    ensures m.kernels.Keys <= r.kernels.Keys
    ensures forall k :: k in m.kernels ==> r.kernels[k] == m.kernels[k]
    ensures m.pending.Some? ==>
      m.pending.value.version in r.kernels &&
      (m.pending.value.version !in m.kernels ==> r.kernels[m.pending.value.version] == m.pending.value)
    ensures m.pending.None? ==> r.kernels == m.kernels
  {
    Manager(if m.pending.Some? then Commit(m.kernels, m.pending.value) else m.kernels, None)
  }

  /** Version `v` is committed or is the version of the pending record. */
  predicate Recorded(m: Manager, v: string)
  {
    v in m.kernels || (m.pending.Some? && m.pending.value.version == v)
  }

  /** A step forgets no version, and a header records its own. */
  lemma StepRecords(m: Manager, line: string, v: string)
    requires CanStep(m, line)
    ensures Recorded(m, v) ==> Recorded(Step(m, line), v)
    ensures Classify(line).KernelHeader? ==> Recorded(Step(m, line), Classify(line).version)
  {
  }

  /** The empty line is no header: ParseOnePage skips nothing that counts. */
  lemma EmptyLineIsIgnored(line: string)
    requires |line| == 0
    ensures Classify(line).Ignored?
  {
    assert MatchHeader(line).None?;
    assert MatchDriver(line).None?;
  }

  /** `line` is a header line naming version `v`. */
  predicate HeaderOf(line: string, v: string)
  {
    Classify(line).KernelHeader? && Classify(line).version == v
  }

  /** After any lines, every version read from a header, and every version
      recorded at the start, is committed or pending. */
  lemma {:induction false} RunRecordsHeaders(m: Manager, lines: seq<string>, v: string)
    requires Runnable(m, lines)
    requires Recorded(m, v) || exists k :: 0 <= k < |lines| && HeaderOf(lines[k], v)
    ensures Recorded(Run(m, lines), v)
    decreases |lines|
  {
    if lines == [] {
      return;
    }
    var n := |lines|;
    var front := lines[..n - 1];
    var last := lines[n - 1];
    if Recorded(m, v) || exists k :: 0 <= k < n - 1 && HeaderOf(front[k], v) {
      RunRecordsHeaders(m, front, v);
      if |last| > 0 {
        StepRecords(Run(m, front), last, v);
      }
    } else {
      assert HeaderOf(last, v);
      if |last| == 0 {
        EmptyLineIsIgnored(last);
      }
      StepRecords(Run(m, front), last, v);
    }
  }

  /** With the final flush, every version read from a header line is a key
      of the committed map. */
  lemma FlushedRunHasEveryHeader(m: Manager, lines: seq<string>, k: nat)
    requires Runnable(m, lines)
    requires k < |lines| && Classify(lines[k]).KernelHeader?
    ensures Classify(lines[k]).version in Flush(Run(m, lines)).kernels
  {
    RunRecordsHeaders(m, lines, Classify(lines[k]).version);
  }

  // ---------------------------------------------------------------------
  // The block filter of fetchOneBranch
  // ---------------------------------------------------------------------

  const RestMarker := "The rest of"
  const KernelMarker := "RHEL kernel"

  /** The text of a log block after no-break spaces become spaces and the
      leading line feeds are trimmed. */
  function Normalize(text: string): (r: string)
    ensures NoBreakSpace !in r
    ensures r == [] || r[0] != '\n'
    ensures |r| <= |text|
    // only leading line feeds are dropped ...
    ensures forall k :: 0 <= k < |text| - |r| ==> text[k] == '\n'
    // ... and every other character is kept, a no-break space as a space
    ensures forall k :: 0 <= k < |r| ==>
      r[k] == (if text[|text| - |r| + k] == NoBreakSpace then ' ' else text[|text| - |r| + k])
  {
    TrimLeadingNewlines(ReplaceNoBreakSpaces(text))
  }

  /** A block is parsed exactly when its normalised text mentions one of the
      two markers. */
  function ShouldParse(text: string): (b: bool)
    ensures b <==> exists k :: OccursAt(Normalize(text), RestMarker, k) ||
                               OccursAt(Normalize(text), KernelMarker, k)
  {
    var n := Normalize(text);
    Contains(n, RestMarker) || Contains(n, KernelMarker)
  }

  // ---------------------------------------------------------------------
  // The program's objects
  // ---------------------------------------------------------------------

  class SubSystem {
    const name: string
    var drivers: seq<Driver>

    constructor (name: string)
      ensures this.name == name && drivers == []
    {
      this.name := name;
      drivers := [];
    }
  }

  class RhelKernel {
    var version: string
    var description: string
    var subSystems: map<string, SubSystem>

    /** `&RhelKernel{SubSystems: make(map[string]*SubSystem)}` with the
        description and version of the header filled in. */
    constructor (version: string, description: string)
      ensures this.version == version && this.description == description
      ensures subSystems == map[]
    {
      this.version := version;
      this.description := description;
      subSystems := map[];
    }
  }

  /** No two keys share one subsystem object, so an append under one key
      shows under no other. */
  ghost predicate Injective(m: map<string, SubSystem>)
  {
    forall k1, k2 :: k1 in m && k2 in m && k1 != k2 ==> m[k1] != m[k2]
  }

  ghost function SubSystemValue(s: SubSystem): SubSystemRecord
    reads s
  {
    SubSystemRecord(s.name, s.drivers)
  }

  ghost function KernelValue(rk: RhelKernel): KernelRecord
    reads rk, rk.subSystems.Values
  {
    KernelRecord(rk.version, rk.description,
                 map k | k in rk.subSystems :: SubSystemValue(rk.subSystems[k]))
  }

  /** The records of a map of kernel objects. */
  ghost function KernelValues(m: map<string, RhelKernel>): (r: map<string, KernelRecord>)
    reads m.Values, set rk, s | rk in m.Values && s in rk.subSystems.Values :: s
    ensures r.Keys == m.Keys
  {
    map k | k in m :: KernelValue(m[k])
  }

  /** Storing one more kernel object adds its record and keeps the others. */
  lemma KernelValuesUpdate(m: map<string, RhelKernel>, v: string, rk: RhelKernel)
    requires v !in m
    ensures KernelValues(m[v := rk]) == KernelValues(m)[v := KernelValue(rk)]
  {
  }

  /** The records of the manager's kernels stay as they were while no
      kernel or subsystem object changes, whatever happens to the manager's
      own fields. */
  twostate lemma RecordsUnchanged(dm: DocumentManager)
    requires old(dm.Valid())
    requires unchanged(old(dm.committedRepr) + old(dm.pendingRepr))
    ensures KernelValues(old(dm.rhelKernels)) == old(dm.Committed())
    ensures old(dm.curRk) != null ==> KernelValue(old(dm.curRk)) == old(KernelValue(dm.curRk))
  {
  }

  /** The committed kernels keep their value while neither the map nor any
      committed object changes. */
  twostate lemma CommittedUnchanged(dm: DocumentManager)
    requires old(dm.CommittedValid())
    requires unchanged(dm`rhelKernels, dm`committedRepr)
    requires unchanged(old(dm.committedRepr))
    ensures dm.CommittedValid() && dm.Committed() == old(dm.Committed())
  {
  }

  /** Adding an empty subsystem object under a new key adds an empty
      subsystem record under that key and changes nothing else. */
  twostate lemma SubSystemAdded(rk: RhelKernel, new sub: string, new s: SubSystem)
    requires sub !in old(rk.subSystems)
    requires rk.subSystems == old(rk.subSystems)[sub := s] && s.name == sub && s.drivers == []
    requires unchanged(rk`version, rk`description) && unchanged(old(rk.subSystems).Values)
    ensures KernelValue(rk) == WithSubSystem(old(KernelValue(rk)), sub)
  {
    var before := old(KernelValue(rk)).subSystems;
    var after := KernelValue(rk).subSystems;
    assert after.Keys == before.Keys + {sub};
    assert forall k :: k in before ==> after[k] == before[k];
  }

  /** Appending to one subsystem object changes that subsystem's record and
      no other. */
  twostate lemma DriverAppended(rk: RhelKernel, new sub: string, new d: Driver)
    requires sub in rk.subSystems && Injective(rk.subSystems)
    requires unchanged(rk) && unchanged(rk.subSystems.Values - {rk.subSystems[sub]})
    requires rk.subSystems[sub].drivers == old(rk.subSystems[sub].drivers) + [d]
    requires rk.subSystems[sub].name == old(rk.subSystems[sub].name)
    ensures KernelValue(rk) == AppendTo(old(KernelValue(rk)), sub, d)
  {
    var before := old(KernelValue(rk)).subSystems;
    var after := KernelValue(rk).subSystems;
    assert after.Keys == before.Keys;
    assert forall k :: k in before && k != sub ==> rk.subSystems[k] != rk.subSystems[sub];
    assert forall k :: k in before && k != sub ==> after[k] == before[k];
  }

  class DocumentManager {
    var rhelKernels: map<string, RhelKernel>
    var curRk: RhelKernel?
    /** The committed kernels and their subsystems. */
    ghost var committedRepr: set<object>
    /** The pending kernel and its subsystems: the only records that change. */
    ghost var pendingRepr: set<object>

    ghost predicate CommittedValid()
      reads this`rhelKernels, this`committedRepr, committedRepr
    {
      forall k :: k in rhelKernels ==>
        rhelKernels[k] in committedRepr && rhelKernels[k].subSystems.Values <= committedRepr
    }

    ghost predicate PendingValid()
      reads this`curRk, this`pendingRepr, pendingRepr
    {
      curRk != null ==>
        curRk in pendingRepr && curRk.subSystems.Values <= pendingRepr && Injective(curRk.subSystems)
    }

    /** The objects of the pending record are disjoint from those of the
        committed ones; in particular `curRk` is never a value of the map. */
    ghost predicate Valid()
      reads this, committedRepr, pendingRepr
    {
      CommittedValid() && PendingValid() && committedRepr !! pendingRepr &&
      this !in committedRepr && this !in pendingRepr
    }

    ghost function Committed(): map<string, KernelRecord>
      requires CommittedValid()
      reads this`rhelKernels, this`committedRepr, committedRepr
    {
      KernelValues(rhelKernels)
    }

    ghost function Pending(): Option<KernelRecord>
      requires PendingValid()
      reads this`curRk, this`pendingRepr, pendingRepr
    {
      if curRk == null then None else Some(KernelValue(curRk))
    }

    ghost function Model(): Manager
      requires Valid()
      reads this, committedRepr, pendingRepr
    {
      Manager(Committed(), Pending())
    }

    /** `&DocumentManager{RhelKernels: make(map[string]*RhelKernel)}`. */
    constructor ()
      ensures Valid() && Model() == EmptyManager
      ensures curRk == null
      ensures committedRepr == {} && pendingRepr == {}
    {
      rhelKernels := map[];
      curRk := null;
      committedRepr := {};
      pendingRepr := {};
    }

    /** The first half of the header branch of parseOneLine: the pending
        record, if any, is stored under its version when that key is absent.
        Until `curRk` is replaced, it may be both pending and committed. */
    method CommitPending()
      requires Valid()
      modifies this`rhelKernels, this`committedRepr
      ensures CommittedValid() && this !in committedRepr
      ensures Committed() ==
        (if old(curRk) != null then Commit(old(Committed()), old(KernelValue(curRk)))
         else old(Committed()))
    {
      var rk := curRk;
      if rk != null && rk.version !in rhelKernels {
        label Committing:
        ghost var kernels := rhelKernels;
        rhelKernels := rhelKernels[rk.version := rk];
        committedRepr := committedRepr + pendingRepr;
        RecordsUnchanged@Committing(this);
        KernelValuesUpdate(kernels, rk.version, rk);
      }
    }

    /** The header branch of parseOneLine: commit the pending record, then
        start an empty record for the header. */
    method StartKernel(d: string, v: string)
      requires Valid()
      modifies this
      ensures Valid() && fresh(pendingRepr)
      ensures Model().kernels ==
        (if old(Model()).pending.Some? then Commit(old(Model()).kernels, old(Model()).pending.value)
         else old(Model()).kernels)
      ensures Model().pending == Some(NewKernel(v, d))
    {
      CommitPending();
      label Committed:
      var rk := new RhelKernel(v, d);
      curRk := rk;
      pendingRepr := {rk};
      CommittedUnchanged@Committed(this);
      assert KernelValue(rk) == NewKernel(v, d);
    }

    /** A new, empty subsystem object under a name the pending record lacks. */
    method AddSubSystem(sub: string)
      requires Valid() && curRk != null && sub !in curRk.subSystems
      modifies curRk, this`pendingRepr
      ensures Valid() && fresh(pendingRepr - old(pendingRepr))
      ensures curRk == old(curRk) && sub in curRk.subSystems
      ensures Model().kernels == old(Model()).kernels
      ensures Model().pending == Some(WithSubSystem(old(Model()).pending.value, sub))
    {
      var rk := curRk;
      label Adding:
      var created := new SubSystem(sub);
      rk.subSystems := rk.subSystems[sub := created];
      pendingRepr := pendingRepr + {created};
      SubSystemAdded@Adding(rk, sub, created);
      CommittedUnchanged@Adding(this);
    }

    /** The subsystem lookup of the driver branch of parseOneLine: an empty
        subsystem is created under the name when the pending record has none. */
    method EnsureSubSystem(sub: string)
      requires Valid() && curRk != null
      modifies curRk, this`pendingRepr
      ensures Valid() && fresh(pendingRepr - old(pendingRepr))
      ensures curRk == old(curRk) && sub in curRk.subSystems
      ensures Model().kernels == old(Model()).kernels
      ensures Model().pending == Some(WithSubSystem(old(Model()).pending.value, sub))
    {
      if sub !in curRk.subSystems {
        AddSubSystem(sub);
      }
    }

    /** The driver branch of parseOneLine: append the driver to its subsystem
        of the pending record, creating the subsystem when absent. */
    method AppendDriver(sub: string, d: string, c: string)
      requires Valid() && curRk != null
      modifies pendingRepr, this`pendingRepr
      ensures Valid() && fresh(pendingRepr - old(pendingRepr))
      ensures Model().kernels == old(Model()).kernels
      ensures Model().pending == Some(AddDriver(old(Model()).pending.value, sub, Driver(d, c)))
    {
      EnsureSubSystem(sub);
      var rk := curRk;
      label Appending:
      var s := rk.subSystems[sub];
      s.drivers := s.drivers + [Driver(d, c)];
      DriverAppended@Appending(rk, sub, Driver(d, c));
      CommittedUnchanged@Appending(this);
    }

    /** parseOneLine: a header line starts a new pending record, a driver
        line extends the pending one, and any other line changes nothing. */
    method ParseOneLine(line: string)
      requires Valid() && CanStep(Model(), line)
      modifies this, pendingRepr
      ensures Valid() && fresh(pendingRepr - old(pendingRepr))
      ensures Model() == Step(old(Model()), line)
      ensures curRk != null ==> curRk !in rhelKernels.Values
    {
      match Classify(line) {
        case KernelHeader(d, v) =>
          StartKernel(d, v);
        case DriverLine(sub, d, c) =>
          AppendDriver(sub, d, c);
        case Ignored =>
      }
    }

    /** ParseOnePage: the non-empty lines of the text, in order. The state
        carries over from earlier pages, and the record pending after the
        last line stays pending. */
    method ParseOnePage(text: string)
      requires Valid() && Runnable(Model(), Split(text, '\n'))
      modifies this, pendingRepr
      ensures Valid() && fresh(pendingRepr - old(pendingRepr))
      ensures Model() == Run(old(Model()), Split(text, '\n'))
    {
      var lines := Split(text, '\n');
      ghost var m0 := Model();
      var i := 0;
      while i < |lines|
        invariant 0 <= i <= |lines|
        invariant Valid() && fresh(pendingRepr - old(pendingRepr))
        invariant Runnable(m0, lines[..i])
        invariant Model() == Run(m0, lines[..i])
      {
        RunnablePrefix(m0, lines, i + 1);
        assert lines[..i + 1][..i] == lines[..i];
        var line := lines[i];
        if |line| > 0 {
          ParseOneLine(line);
        }
        i := i + 1;
      }
      assert lines[..i] == lines;
    }

    /** The flush main.go lacks: commit the pending record, as a header
        would, and leave nothing pending. */
    method Finish()
      requires Valid()
      modifies this
      ensures Valid() && pendingRepr == {}
      ensures Model() == Flush(old(Model()))
    {
      ghost var before := Model();
      CommitPending();
      label Committed:
      curRk := null;
      pendingRepr := {};
      CommittedUnchanged@Committed(this);
      assert Committed() == Flush(before).kernels;
    }

    /** The callback fetchOneBranch runs on each log block: normalise the
        text and parse it when it carries one of the two markers. */
    method ParseBlock(text: string)
      requires Valid()
      requires ShouldParse(text) ==> Runnable(Model(), Split(Normalize(text), '\n'))
      modifies this, pendingRepr
      ensures Valid() && fresh(pendingRepr - old(pendingRepr))
      ensures ShouldParse(text) ==> Model() == Run(old(Model()), Split(Normalize(text), '\n'))
      ensures !ShouldParse(text) ==> Model() == old(Model())
    {
      var normalized := ReplaceNoBreakSpaces(text);
      normalized := TrimLeadingNewlines(normalized);
      if Contains(normalized, RestMarker) {
        ParseOnePage(normalized);
      } else if Contains(normalized, KernelMarker) {
        ParseOnePage(normalized);
      }
    }
  }
}
