/**
  The result classifier of the hpsum controller: it turns the exit code of
  the hpsum firmware-update utility, together with the contents of the
  utility's log file (`/var/hp/log/localhost/hpsum_log.txt`), into a summary
  string, or into None for an exit code it does not know.  The log file is an
  input here: `None` when the file does not exist, `Some(data)` for its
  contents.
*/
module HpsumOutput {
  import opened Wrappers
  import opened PyLib

  /** What each known hpsum exit code means. */
  const ExitCodeToString: map<int, string> := map[
    0 := "The smart component was installed successfully.",
    1 := "The smart component was installed successfully, but the system must be restarted.",
    3 := "The smart component was not installed. Node is already up-to-date.",
    253 := "The installation of the component failed."
  ]

  /** Exit codes whose summary is built from the log file. */
  const LogCodes: set<int> := {0, 1, 253}

  const DeployedMarker := "Deployed Components:"
  const ExitMarker := "Exit status:"
  const SegmentSeparator := "\n\n"
  const SuccessWord := "Success"
  const UnknownStatus := "UPDATE STATUS: UNKNOWN"

  /**
    The part of the log between the two markers, located with `str.find`:
    a missing start marker makes the region start at index 19 (-1 plus the
    marker's length), and a missing end marker makes the stop bound -1, which
    drops the last character of the log.
  */
  function LogRegion(data: string): string
  {
    Slice(data, Find(data, DeployedMarker) + |DeployedMarker|, Find(data, ExitMarker))
  }

  /** The region split at every blank line (every two consecutive newlines). */
  function Segments(data: string): seq<string>
  {
    Split(LogRegion(data), SegmentSeparator)
  }

  predicate SegmentSucceeded(seg: string) {
    seg != [] && Contains(seg, SuccessWord)
  }

  predicate SegmentFailed(seg: string) {
    seg != [] && !Contains(seg, SuccessWord)
  }

  /** The segments, in order, that report a successful component. */
  function Succeeded(segs: seq<string>): seq<string>
  {
    if segs == [] then []
    else Succeeded(segs[..|segs| - 1]) + (if SegmentSucceeded(segs[|segs| - 1]) then [segs[|segs| - 1]] else [])
  }

  /** The non-empty segments, in order, that do not report a success. */
  function FailedSegments(segs: seq<string>): seq<string>
  {
    if segs == [] then []
    else FailedSegments(segs[..|segs| - 1]) + (if SegmentFailed(segs[|segs| - 1]) then [segs[|segs| - 1]] else [])
  }

  /** The non-empty segments, in order. */
  function NonEmpty(segs: seq<string>): seq<string>
  {
    if segs == [] then []
    else NonEmpty(segs[..|segs| - 1]) + (if segs[|segs| - 1] != [] then [segs[|segs| - 1]] else [])
  }

  /** The summary line for a log-based exit code and its component counts. */
  function StatusLine(description: string, success: nat, failed: nat): string
  {
    "Summary: " + description + " Status of updated components: Total: " + NatToString(success + failed) +
    " Success: " + NatToString(success) + " Failed: " + NatToString(failed) + "."
  }

  /** The classification of an exit code and a log, as a value. */
  function Summary(exitCode: int, log: Option<string>): Option<string>
  {
    if exitCode == 3 then Some("Summary: " + ExitCodeToString[3])
    else if exitCode in LogCodes then
      match log
      case None => Some(UnknownStatus)
      case Some(data) =>
        var segs := Segments(data);
        Some(StatusLine(ExitCodeToString[exitCode], |Succeeded(segs)|, |FailedSegments(segs)|))
    else None
  }

  /**
    The classifier itself: for a log-based exit code it slices the log,
    splits it and counts the successful and failed segments with two
    counters.
  */
  method ParseHpsumOutput(exitCode: int, log: Option<string>) returns (r: Option<string>)
    ensures r == Summary(exitCode, log)
    ensures exitCode == 3 ==> r == Some("Summary: " + ExitCodeToString[3])
    ensures exitCode in LogCodes && log.None? ==> r == Some("UPDATE STATUS: UNKNOWN")
    ensures r.Some? <==> exitCode in ExitCodeToString
  {
    if exitCode == 3 {
      return Some("Summary: " + ExitCodeToString[exitCode]);
    }
    if exitCode in LogCodes {
      if log.Some? {
        var data := log.value;
        var region := Slice(data, Find(data, DeployedMarker) + |DeployedMarker|, Find(data, ExitMarker));
        var lines := Split(region, SegmentSeparator);
        var failed, success := 0, 0;
        for i := 0 to |lines|
          invariant success == |Succeeded(lines[..i])|
          invariant failed == |FailedSegments(lines[..i])|
        {
          assert lines[..i + 1][..i] == lines[..i];
          var line := lines[i];
          if line != [] {
            if !Contains(line, SuccessWord) {
              failed := failed + 1;
            } else {
              success := success + 1;
            }
          }
        }
        assert lines[..|lines|] == lines;
        return Some(StatusLine(ExitCodeToString[exitCode], success, failed));
      }
      return Some(UnknownStatus);
    }
    return None;
  }

  /** Exit code 3 gives the fixed "already up-to-date" summary, whatever the log holds and even without a log. */
  lemma NotInstalledIgnoresLog(log: Option<string>)
    ensures Summary(3, log) == Some("Summary: " + ExitCodeToString[3])
  {
  }

  /** Exactly the exit codes of the table are classified; every other code yields None, with or without a log. */
  lemma ClassifiedExactlyTableCodes(exitCode: int, log: Option<string>)
    ensures Summary(exitCode, log).Some? <==> exitCode in {0, 1, 3, 253}
  {
  }

  /** A log-based exit code without a log file gives the "unknown" sentinel. */
  lemma MissingLogIsUnknown(exitCode: int)
    requires exitCode in {0, 1, 253}
    ensures Summary(exitCode, None) == Some("UPDATE STATUS: UNKNOWN")
  {
  }

  /** Every classification is a non-empty string, so Python's truth test on it is the same as a test for None. */
  lemma ClassificationIsNonEmpty(exitCode: int, log: Option<string>)
    ensures Summary(exitCode, log).Some? ==> |Summary(exitCode, log).value| > 0
  {
  }

  /** Every segment is either empty, successful or failed, and never two of these. */
  lemma {:induction false} CountsPartition(segs: seq<string>)
    ensures multiset(Succeeded(segs)) + multiset(FailedSegments(segs)) == multiset(NonEmpty(segs))
    ensures |Succeeded(segs)| + |FailedSegments(segs)| == |NonEmpty(segs)|
  {
    if segs != [] {
      CountsPartition(segs[..|segs| - 1]);
    }
  }

  /** A segment is counted as a success exactly when it is one of the segments and contains "Success". */
  lemma {:induction false} SucceededMembers(segs: seq<string>, x: string)
    ensures x in Succeeded(segs) <==> x in segs && Contains(x, SuccessWord)
  {
    if segs != [] {
      var init := segs[..|segs| - 1];
      SucceededMembers(init, x);
      assert segs == init + [segs[|segs| - 1]];
      if x == [] {
        assert !OccursAt(x, SuccessWord, 0);
      }
    }
  }

  /** A segment is counted as a failure exactly when it is a non-empty segment without "Success". */
  lemma {:induction false} FailedMembers(segs: seq<string>, x: string)
    ensures x in FailedSegments(segs) <==> x in segs && x != [] && !Contains(x, SuccessWord)
  {
    if segs != [] {
      var init := segs[..|segs| - 1];
      FailedMembers(init, x);
      assert segs == init + [segs[|segs| - 1]];
    }
  }

  /**
    For a log-based exit code and a log, the summary is the status line of
    the code's description whose total is the number of non-empty segments
    and is the sum of the success and failure counts.
  */
  lemma LogSummary(exitCode: int, data: string)
    requires exitCode in {0, 1, 253}
    ensures var segs := Segments(data);
      var success, failed := |Succeeded(segs)|, |FailedSegments(segs)|;
      && success + failed == |NonEmpty(segs)|
      && Summary(exitCode, Some(data)) == Some(
        "Summary: " + ExitCodeToString[exitCode] + " Status of updated components: Total: " +
        NatToString(|NonEmpty(segs)|) + " Success: " + NatToString(success) +
        " Failed: " + NatToString(failed) + ".")
  {
    CountsPartition(Segments(data));
  }

  /** When both markers are present in order, the region is exactly the text between them. */
  lemma RegionBetweenMarkers(data: string, p: nat, q: nat)
    requires Find(data, DeployedMarker) == p && Find(data, ExitMarker) == q
    requires p + |DeployedMarker| <= q
    ensures LogRegion(data) == data[p + |DeployedMarker|..q]
  {
  }

  /** Without an end marker the region stops one character before the end of the log. */
  lemma RegionWithoutExitMarker(data: string)
    requires Find(data, ExitMarker) == -1 && data != []
    requires Find(data, DeployedMarker) + |DeployedMarker| < |data| - 1
    ensures LogRegion(data) == data[Find(data, DeployedMarker) + |DeployedMarker|..|data| - 1]
  {
  }

  /** Without a start marker the region starts at index 19. */
  lemma RegionWithoutDeployedMarker(data: string)
    requires Find(data, DeployedMarker) == -1
    requires 19 <= Find(data, ExitMarker)
    ensures LogRegion(data) == data[19..Find(data, ExitMarker)]
  {
  }

  /**
    When the end marker is found before the end of the start marker, the
    normalised start is not below the stop, so the region is empty and forms
    one empty segment.
  */
  lemma RegionCrossed(data: string)
    requires Find(data, ExitMarker) >= 0
    requires Find(data, ExitMarker) < Find(data, DeployedMarker) + |DeployedMarker|
    ensures LogRegion(data) == [] && Segments(data) == [[]]
  {
  }

  /** A log whose markers cross reports no components at all. */
  lemma CrossedMarkersSummary(exitCode: int, data: string)
    requires exitCode in {0, 1, 253}
    requires Find(data, ExitMarker) >= 0
    requires Find(data, ExitMarker) < Find(data, DeployedMarker) + |DeployedMarker|
    ensures Summary(exitCode, Some(data)) ==
      Some("Summary: " + ExitCodeToString[exitCode] + " Status of updated components: Total: " + "0" +
           " Success: " + "0" + " Failed: " + "0" + ".")
  {
    RegionCrossed(data);
    var segs: seq<string> := [[]];
    assert segs[..0] == [];
    assert |Succeeded(segs)| == 0 && |FailedSegments(segs)| == 0;
    assert NatToString(0) == "0";
  }

  /** Two segments, one reporting "Success" and one not, count as one success and one failure. */
  lemma TwoSegmentExample()
    ensures Succeeded(["nic: Success", "bios: Failed"]) == ["nic: Success"]
    ensures FailedSegments(["nic: Success", "bios: Failed"]) == ["bios: Failed"]
  {
    assert OccursAt("nic: Success", SuccessWord, 5);
    AbsentFirstChar("bios: Failed", SuccessWord);
  }

  /** The start marker holds no "E", the first character of the end marker. */
  lemma DeployedMarkerLacksE()
    ensures Lacks(DeployedMarker, 'E')
  {
  }

  /** A region that ends at the start of the end marker, with no "E" before it, is found between the markers. */
  lemma FramedRegion(region: string, tail: string)
    requires Lacks(region, 'E')
    ensures LogRegion(DeployedMarker + (region + (ExitMarker + tail))) == region
  {
    DeployedMarkerLacksE();
    LacksAppend(DeployedMarker, region, 'E');
    SliceBetween(DeployedMarker, region, ExitMarker, tail);
  }

  /** A line without newlines, followed by one newline, holds no blank line. */
  lemma LineHasNoBlankLine(b: string)
    requires Lacks(b, '\n')
    ensures forall j: nat :: !OccursAt(b + "\n", SegmentSeparator, j)
  {
    forall j: nat ensures !OccursAt(b + "\n", SegmentSeparator, j) {
      if j + 2 <= |b + "\n"| {
        assert (b + "\n")[j..j + 2][0] == b[j];
      }
    }
  }

  /**
    A log that lists two components, separated by a blank line, between the
    start marker and a line holding the end marker is split into exactly those
    two segments, provided neither holds a newline or an "E".
  */
  lemma TwoSegmentLog(a: string, b: string, tail: string)
    requires Lacks(a, '\n') && Lacks(a, 'E') && Lacks(b, '\n') && Lacks(b, 'E')
    ensures Segments(DeployedMarker + ((a + (SegmentSeparator + (b + "\n"))) + (ExitMarker + tail))) == [a, b + "\n"]
  {
    var region := a + (SegmentSeparator + (b + "\n"));
    assert Lacks(SegmentSeparator, 'E') && Lacks("\n", 'E');
    LacksAppend(b, "\n", 'E');
    LacksAppend(SegmentSeparator, b + "\n", 'E');
    LacksAppend(a, SegmentSeparator + (b + "\n"), 'E');
    FramedRegion(region, tail);
    LineHasNoBlankLine(b);
    SplitAtFirst(a, SegmentSeparator, b + "\n");
  }

  /** Of a successful and a failed segment, each is counted once, in its own list. */
  lemma CountsOfTwo(a: string, b: string)
    requires SegmentSucceeded(a) && SegmentFailed(b)
    ensures Succeeded([a, b]) == [a] && FailedSegments([a, b]) == [b]
  {
    assert [a, b][..1] == [a] && [a][..0] == [];
    assert Succeeded([a]) == [a] && FailedSegments([a]) == [];
    assert Succeeded([a, b]) == Succeeded([a]);
    assert FailedSegments([a, b]) == FailedSegments([a]) + [b];
  }

  /** A log whose two segments are one success and one failure reports two components, one of each. */
  lemma OneSuccessOneFailure(exitCode: int, data: string, a: string, b: string)
    requires exitCode in {0, 1, 253}
    requires Segments(data) == [a, b] && SegmentSucceeded(a) && SegmentFailed(b)
    ensures Summary(exitCode, Some(data)) == Some(StatusLine(ExitCodeToString[exitCode], 1, 1))
  {
    CountsOfTwo(a, b);
  }

  /** The sample success entry is a single line without an "E" that reports a success. */
  lemma SuccessLine()
    ensures Lacks(" nic: Success", '\n') && Lacks(" nic: Success", 'E') && SegmentSucceeded(" nic: Success")
  {
    assert OccursAt(" nic: Success", SuccessWord, 6);
  }

  /** The sample failure entry is a single line without an "E" that, with its newline, reports a failure. */
  lemma FailureLine()
    ensures Lacks("bios: Failed", '\n') && Lacks("bios: Failed", 'E') && SegmentFailed("bios: Failed" + "\n")
  {
    AbsentFirstChar("bios: Failed" + "\n", SuccessWord);
  }

  /** A log listing one installed and one failed component, as exit code 0 reports it. */
  lemma TwoComponentLog()
    ensures Summary(0, Some(DeployedMarker + ((" nic: Success" + ("\n\n" + ("bios: Failed" + "\n"))) +
                                              (ExitMarker + " 0")))) ==
      Some("Summary: " + ExitCodeToString[0] + " Status of updated components: Total: " + "2" +
           " Success: " + "1" + " Failed: " + "1" + ".")
  {
    SuccessLine();
    FailureLine();
    TwoSegmentLog(" nic: Success", "bios: Failed", " 0");
    OneSuccessOneFailure(0, DeployedMarker + ((" nic: Success" + ("\n\n" + ("bios: Failed" + "\n"))) +
                                              (ExitMarker + " 0")), " nic: Success", "bios: Failed" + "\n");
    assert NatToString(2) == "2" && NatToString(1) == "1";
  }
}
