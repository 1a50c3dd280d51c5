/** A four-line changelog page run through the builder. The second kernel
    is still pending after the last line: nothing flushes it into the map. */
module DocumentExamples {
  import opened Wrappers
  import opened LineGrammar
  import opened Document
  import opened Strings

  const Page := ["* Desc A [1.0.0]", "- [net] drv1: fix1", "* Desc B [1.1.0]", "- [net] drv2: fix2"]

  lemma FirstHeader()
    ensures Classify(Page[0]) == KernelHeader("Desc A", "1.0.0")
  {
    var line := "* " + "Desc A" + " [" + "1.0.0" + "]" + "";
    assert line == Page[0];
    HeaderLineRoundTrip("Desc A", "1.0.0", "");
  }

  lemma FirstDriver()
    ensures Classify(Page[1]) == DriverLine("net", "drv1", "fix1")
  {
    var line := "- [" + "net" + "] " + "drv1" + ": " + "fix1";
    assert line == Page[1];
    DriverLineRoundTrip("net", "drv1", "fix1");
  }

  lemma SecondHeader()
    ensures Classify(Page[2]) == KernelHeader("Desc B", "1.1.0")
  {
    var line := "* " + "Desc B" + " [" + "1.1.0" + "]" + "";
    assert line == Page[2];
    HeaderLineRoundTrip("Desc B", "1.1.0", "");
  }

  lemma SecondDriver()
    ensures Classify(Page[3]) == DriverLine("net", "drv2", "fix2")
  {
    var line := "- [" + "net" + "] " + "drv2" + ": " + "fix2";
    assert line == Page[3];
    DriverLineRoundTrip("net", "drv2", "fix2");
  }

  const RecordA := KernelRecord("1.0.0", "Desc A", map["net" := SubSystemRecord("net", [Driver("drv1", "fix1")])])
  const RecordB := KernelRecord("1.1.0", "Desc B", map["net" := SubSystemRecord("net", [Driver("drv2", "fix2")])])

  /** The first header opens "1.0.0" with nothing committed. */
  lemma StepOne()
    ensures Step(EmptyManager, Page[0]) == Manager(map[], Some(NewKernel("1.0.0", "Desc A")))
  {
    FirstHeader();
  }

  /** The first driver of an empty record creates its one subsystem. */
  lemma FirstDriverOfKernel(rk: KernelRecord, sub: string, d: Driver)
    requires rk.subSystems == map[]
    ensures AddDriver(rk, sub, d) == rk.(subSystems := map[sub := SubSystemRecord(sub, [d])])
  {
    var r := AddDriver(rk, sub, d);
    assert r.subSystems.Keys == {sub};
  }

  /** Its driver line creates subsystem "net" holding "drv1". */
  lemma StepTwo()
    ensures Step(Manager(map[], Some(NewKernel("1.0.0", "Desc A"))), Page[1]) == Manager(map[], Some(RecordA))
  {
    FirstDriver();
    FirstDriverOfKernel(NewKernel("1.0.0", "Desc A"), "net", Driver("drv1", "fix1"));
  }

  /** The second header commits "1.0.0" and opens "1.1.0". */
  lemma StepThree()
    ensures Step(Manager(map[], Some(RecordA)), Page[2]) ==
      Manager(map["1.0.0" := RecordA], Some(NewKernel("1.1.0", "Desc B")))
  {
    SecondHeader();
    assert Commit(map[], RecordA) == map["1.0.0" := RecordA];
  }

  /** The last driver line goes to the still pending "1.1.0". */
  lemma StepFour()
    ensures Step(Manager(map["1.0.0" := RecordA], Some(NewKernel("1.1.0", "Desc B"))), Page[3]) ==
      Manager(map["1.0.0" := RecordA], Some(RecordB))
  {
    SecondDriver();
    FirstDriverOfKernel(NewKernel("1.1.0", "Desc B"), "net", Driver("drv2", "fix2"));
  }

  /** Four non-empty lines are processed one after the other. */
  lemma RunFourLines(m: Manager, lines: seq<string>)
    requires |lines| == 4
    requires |lines[0]| > 0 && |lines[1]| > 0 && |lines[2]| > 0 && |lines[3]| > 0
    requires CanStep(m, lines[0]) && CanStep(Step(m, lines[0]), lines[1])
    requires CanStep(Step(Step(m, lines[0]), lines[1]), lines[2])
    requires CanStep(Step(Step(Step(m, lines[0]), lines[1]), lines[2]), lines[3])
    ensures Runnable(m, lines)
    ensures Run(m, lines) == Step(Step(Step(Step(m, lines[0]), lines[1]), lines[2]), lines[3])
  {
    RunSnoc(m, [], lines[0]);
    assert [] + [lines[0]] == lines[..1];
    RunSnoc(m, lines[..1], lines[1]);
    assert lines[..1] + [lines[1]] == lines[..2];
    RunSnoc(m, lines[..2], lines[2]);
    assert lines[..2] + [lines[2]] == lines[..3];
    RunSnoc(m, lines[..3], lines[3]);
    assert lines[..3] + [lines[3]] == lines;
  }

  /** Only "1.0.0" is committed, holding subsystem "net" with driver "drv1";
      "1.1.0" with "drv2" is still the pending record. */
  lemma PageLeavesLastKernelPending()
    ensures Runnable(EmptyManager, Page)
    ensures Run(EmptyManager, Page) == Manager(map["1.0.0" := RecordA], Some(RecordB))
  {
    StepOne();
    StepTwo();
    StepThree();
    StepFour();
    RunFourLines(EmptyManager, Page);
  }

  /** As main.go is written: the header of "1.1.0" is read, yet after the
      last page "1.1.0" is not a key of the map, so main never prints it. */
  lemma RunLosesLastVersion()
    ensures Runnable(EmptyManager, Page)
    ensures HeaderOf(Page[2], "1.1.0")
    ensures "1.1.0" !in Run(EmptyManager, Page).kernels
  {
    SecondHeader();
    PageLeavesLastKernelPending();
  }

  /** With the flush at the end of input, both versions are committed. */
  lemma FlushKeepsLastVersion()
    ensures Runnable(EmptyManager, Page)
    ensures Flush(Run(EmptyManager, Page)).kernels == map["1.0.0" := RecordA, "1.1.0" := RecordB]
    ensures "1.1.0" in Flush(Run(EmptyManager, Page)).kernels
  {
    PageLeavesLastKernelPending();
    assert Commit(map["1.0.0" := RecordA], RecordB) == map["1.0.0" := RecordA, "1.1.0" := RecordB];
  }

  /** The page's text splits back into its four lines. */
  lemma PageIsItsLines()
    ensures Split(Join(Page, '\n'), '\n') == Page
  {
    forall k | 0 <= k < |Page| ensures '\n' !in Page[k] {
      assert Page[k] in Page;
    }
    SplitJoin(Page, '\n');
  }

  /** main as written, on the one page: after the page "1.1.0" is not a key
      of `RhelKernels`; with the flush it is. */
  method ParsePageThenFinish() returns (keptWithoutFlush: bool, keptWithFlush: bool)
    ensures !keptWithoutFlush && keptWithFlush
  {
    var dm := new DocumentManager();
    var text := Join(Page, '\n');
    PageIsItsLines();
    RunLosesLastVersion();
    FlushKeepsLastVersion();
    dm.ParseOnePage(text);
    assert dm.Committed() == Run(EmptyManager, Page).kernels;
    keptWithoutFlush := "1.1.0" in dm.rhelKernels;
    dm.Finish();
    assert dm.Committed() == Flush(Run(EmptyManager, Page)).kernels;
    keptWithFlush := "1.1.0" in dm.rhelKernels;
  }
}
