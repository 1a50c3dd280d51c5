/** Sample lines and the events they yield, including
    the lines where greedy matching splits differently from what a reader
    might expect. */
module LineExamples {
  import opened LineGrammar

  /** An ordinary header line. */
  lemma HeaderExample()
    ensures Classify("* Fix things [1.2.3]") == KernelHeader("Fix things", "1.2.3")
  {
    var line := "* " + "Fix things" + " [" + "1.2.3" + "]" + "";
    assert line == "* Fix things [1.2.3]";
    HeaderLineRoundTrip("Fix things", "1.2.3", "");
  }

  /** An ordinary driver line. */
  lemma DriverExample()
    ensures Classify("- [net] e1000: bugfix") == DriverLine("net", "e1000", "bugfix")
  {
    var line := "- [" + "net" + "] " + "e1000" + ": " + "bugfix";
    assert line == "- [net] e1000: bugfix";
    NoPairWithout("e1000", ']', ' ');
    NoPairWithout("bugfix", ':', ' ');
    DriverLineRoundTrip("net", "e1000", "bugfix");
  }

  /** An empty line and a line of plain prose match neither pattern. */
  lemma IgnoredExamples()
    ensures Classify("") == Ignored
    ensures Classify("random text") == Ignored
  {
  }

  /** A change log that itself contains ": " is split at its last ": ", so
      part of it is taken as the driver name. */
  lemma ColonInChangeLog()
    ensures Classify("- [net] drv: fix: more") == DriverLine("net", "drv: fix", "more")
  {
    var line := "- [" + "net" + "] " + "drv: fix" + ": " + "more";
    assert line == "- [net] drv: fix: more";
    NoPairWithoutFirst("drv: fix", ']', ' ');
    NoPairWithout("more", ':', ' ');
    DriverLineRoundTrip("net", "drv: fix", "more");
  }

  /** A bracketed remark after the version moves the version to the remark:
      the description runs up to the last " [" before the last "]". */
  lemma BracketAfterVersion()
    ensures Classify("* Desc [1.2.3] see [bz]") == KernelHeader("Desc [1.2.3] see", "bz")
  {
    var line := "* " + "Desc [1.2.3] see" + " [" + "bz" + "]" + "";
    assert line == "* Desc [1.2.3] see [bz]";
    NoPairWithout("bz", ' ', '[');
    HeaderLineRoundTrip("Desc [1.2.3] see", "bz", "");
  }
}
