/** Reading and writing RTTM files in the backend (app.py): `parse_rttm`
    tokenises the lines of a file, keeps the `SPEAKER` records, sorts them by
    start time and merges consecutive segments of one speaker separated by at
    most half a second; `write_rttm` emits one 10-field line per segment.

    The RTTM line layout (NIST Rich Transcription Time-Marked) is
    `SPEAKER file_id channel start duration <NA> <NA> speaker_id <NA> <NA>`.
    Python's `float()` is the oracle `parseFloat`, which gives `None` where
    `float()` raises; file opening and reading are replaced by the sequence
    of the file's lines. */
module Rttm {
  import opened Optional
  import opened Text
  import opened Segments

  // ---------------------------------------------------------------------
  // Reading

  /** What one line of the file contributes to the raw segment list. */
  datatype LineResult =
    | Skipped                   // fewer than eight fields, or not a SPEAKER record
    | Unreadable                // float() raised on the start time or the duration
    | Read(segment: Segment)

  /** The body of the reading loop for one line: a segment read from a line
      ends at its start plus its duration and has non-empty ids. */
  function ReadLine(line: string, parseFloat: string -> Option<real>): (r: LineResult)
    ensures r.Read? ==> Consistent(r.segment) && r.segment.fileId != "" && r.segment.speakerId != ""
  {
    var parts := Words(Trim(line));
    if |parts| >= 8 && parts[0] == "SPEAKER" then
      var startTime := parseFloat(parts[3]);
      var duration := parseFloat(parts[4]);
      if startTime.None? || duration.None? then Unreadable
      else Read(Segment(parts[1], startTime.value, duration.value, startTime.value + duration.value, parts[7]))
    else Skipped
  }

  /** The raw segments of a file in line order, or `None` when `float()`
      raised on some SPEAKER line (the exception handler then returns []). */
  function ReadSegments(lines: seq<string>, parseFloat: string -> Option<real>): Option<seq<Segment>>
  {
    if lines == [] then Some([])
    else
      match ReadLine(lines[0], parseFloat)
      case Unreadable => None
      case Skipped => ReadSegments(lines[1..], parseFloat)
      case Read(s) => Prepend([s], ReadSegments(lines[1..], parseFloat))
  }

  function Prepend(prefix: seq<Segment>, rest: Option<seq<Segment>>): Option<seq<Segment>>
  {
    match rest
    case None => None
    case Some(r) => Some(prefix + r)
  }

  /** Every raw segment has `end_time = start_time + duration`. */
  lemma {:induction false} ReadSegmentsConsistent(lines: seq<string>, parseFloat: string -> Option<real>)
    requires ReadSegments(lines, parseFloat).Some?
    ensures forall k :: 0 <= k < |ReadSegments(lines, parseFloat).value| ==>
              Consistent(ReadSegments(lines, parseFloat).value[k])
  {
    if lines != [] {
      var rest := ReadSegments(lines[1..], parseFloat);
      assert rest.Some?;
      ReadSegmentsConsistent(lines[1..], parseFloat);
      var r := ReadLine(lines[0], parseFloat);
      if r.Read? {
        ConsConsistent(r.segment, rest.value);
      }
    }
  }

  lemma ConsConsistent(s: Segment, rest: seq<Segment>)
    requires Consistent(s)
    requires forall k :: 0 <= k < |rest| ==> Consistent(rest[k])
    ensures forall k :: 0 <= k < |[s] + rest| ==> Consistent(([s] + rest)[k])
  {
  }

  /** A line yields a segment exactly when it has at least eight fields, the
      first is `SPEAKER` and both times parse; the segment takes its file id,
      start, duration and speaker from fields 1, 3, 4 and 7. */
  lemma ReadLineFields(line: string, parseFloat: string -> Option<real>)
    ensures var w := Words(Trim(line));
      ReadLine(line, parseFloat).Read? <==>
        |w| >= 8 && w[0] == "SPEAKER" && parseFloat(w[3]).Some? && parseFloat(w[4]).Some?
    ensures var w := Words(Trim(line));
      ReadLine(line, parseFloat).Read? ==>
        var s := ReadLine(line, parseFloat).segment;
        s.fileId == w[1] && s.speakerId == w[7] && s.fileId != "" && s.speakerId != "" &&
        Some(s.startTime) == parseFloat(w[3]) && Some(s.duration) == parseFloat(w[4]) && Consistent(s)
  {
  }

  // ---------------------------------------------------------------------
  // Merging

  /** The merge condition: the same speaker, and a gap of at most 0.5 s. */
  predicate Absorbs(current: Segment, next: Segment) {
    next.speakerId == current.speakerId && next.startTime - current.endTime <= 0.5
  }

  /** The merged segment ends where the absorbed one ends. */
  function Extend(current: Segment, next: Segment): Segment {
    current.(endTime := next.endTime, duration := next.endTime - current.startTime)
  }

  /** The merge loop from the state (current segment, remaining raw
      segments): it yields at least one segment and at most one per segment
      it started from. */
  function MergeFrom(current: Segment, rest: seq<Segment>): (r: seq<Segment>)
    ensures 1 <= |r| <= |rest| + 1
    decreases |rest|
  {
    if rest == [] then [current]
    else if Absorbs(current, rest[0]) then MergeFrom(Extend(current, rest[0]), rest[1..])
    else [current] + MergeFrom(rest[0], rest[1..])
  }

  /** The whole merge loop: empty only for an empty list, never longer than
      the list, and starting where the list starts, with its first speaker. */
  function Merge(raw: seq<Segment>): (r: seq<Segment>)
    ensures r == [] <==> raw == []
    ensures |r| <= |raw|
    ensures raw != [] ==> r[0].startTime == raw[0].startTime && r[0].speakerId == raw[0].speakerId
  {
    if raw == [] then [] else MergeFromShape(raw[0], raw[1..]); MergeFrom(raw[0], raw[1..])
  }

  /** No adjacent pair of the list would be merged again. */
  predicate Separated(s: seq<Segment>) {
    forall k :: 0 <= k < |s| - 1 ==> !Absorbs(s[k], s[k + 1])
  }

  /** What `parse_rttm` returns for the lines of a file. */
  function ParsedSegments(lines: seq<string>, parseFloat: string -> Option<real>): seq<Segment>
  {
    match ReadSegments(lines, parseFloat)
    case None => []
    case Some(raw) => Merge(SortByStart(raw))
  }

  /** The first merged segment keeps the start, speaker and file of the one
      it started from. */
  lemma {:induction false} MergeFromShape(current: Segment, rest: seq<Segment>)
    ensures var m := MergeFrom(current, rest)[0];
      m.startTime == current.startTime && m.speakerId == current.speakerId && m.fileId == current.fileId
    decreases |rest|
  {
    if rest != [] {
      if Absorbs(current, rest[0]) {
        MergeFromShape(Extend(current, rest[0]), rest[1..]);
      } else {
        MergeFromShape(rest[0], rest[1..]);
      }
    }
  }

  /** No two adjacent merged segments satisfy the merge condition: either
      their speakers differ or the gap between them exceeds 0.5 s. */
  lemma {:induction false} MergeFromSeparated(current: Segment, rest: seq<Segment>)
    ensures Separated(MergeFrom(current, rest))
    decreases |rest|
  {
    if rest != [] {
      if Absorbs(current, rest[0]) {
        MergeFromSeparated(Extend(current, rest[0]), rest[1..]);
      } else {
        var tail := MergeFrom(rest[0], rest[1..]);
        MergeFromSeparated(rest[0], rest[1..]);
        MergeFromShape(rest[0], rest[1..]);
        var r := [current] + tail;
        forall k | 0 <= k < |r| - 1 ensures !Absorbs(r[k], r[k + 1]) {
          if k > 0 { assert r[k] == tail[k - 1] && r[k + 1] == tail[k]; }
        }
      }
    }
  }

  /** Merging a list sorted by start time gives a list sorted by start time
      whose segments all start no earlier than the first raw one. */
  lemma {:induction false} MergeFromSorted(current: Segment, rest: seq<Segment>)
    requires SortedByStart(rest) && StartsNoEarlier(rest, current.startTime)
    ensures SortedByStart(MergeFrom(current, rest))
    ensures StartsNoEarlier(MergeFrom(current, rest), current.startTime)
    decreases |rest|
  {
    if rest != [] {
      if Absorbs(current, rest[0]) {
        MergeFromSorted(Extend(current, rest[0]), rest[1..]);
      } else {
        MergeFromSorted(rest[0], rest[1..]);
        SortedCons(current, MergeFrom(rest[0], rest[1..]));
      }
    }
  }

  /** Every merged segment has `duration = end_time - start_time`, and its
      end is the end of the first segment or of some raw segment absorbed
      (the last one, which need not end latest). */
  lemma {:induction false} MergeFromEnds(current: Segment, rest: seq<Segment>)
    requires current.duration == current.endTime - current.startTime
    requires forall k :: 0 <= k < |rest| ==> Consistent(rest[k])
    ensures forall m :: m in MergeFrom(current, rest) ==> m.duration == m.endTime - m.startTime
    ensures forall m :: m in MergeFrom(current, rest) ==>
              m.endTime == current.endTime || exists y :: y in rest && y.endTime == m.endTime
    decreases |rest|
  {
    if rest != [] {
      if Absorbs(current, rest[0]) {
        MergeFromEnds(Extend(current, rest[0]), rest[1..]);
      } else {
        MergeFromEnds(rest[0], rest[1..]);
      }
      forall y | y in rest[1..] ensures y in rest { }
    }
  }

  /** A merged segment ends where the last absorbed segment ends, which can
      be earlier than where the first one ended: a segment nested in the
      previous one of the same speaker cuts it short. */
  lemma MergeCanEndEarlier()
    ensures var a := Segment("f", 0.0, 5.0, 5.0, "s");
      var b := Segment("f", 1.0, 1.0, 2.0, "s");
      Merge([a, b]) == [Segment("f", 0.0, 2.0, 2.0, "s")] && Merge([a, b])[0].endTime < a.endTime
  {
    var a := Segment("f", 0.0, 5.0, 5.0, "s");
    var b := Segment("f", 1.0, 1.0, 2.0, "s");
    assert [a, b][1..] == [b];
    assert Absorbs(a, b);
    assert MergeFrom(Extend(a, b), []) == [Extend(a, b)];
  }

  /** The last merged segment ends where the last raw segment ends. */
  lemma {:induction false} MergeFromLastEnd(current: Segment, rest: seq<Segment>)
    ensures var m := MergeFrom(current, rest);
      m != [] && m[|m| - 1].endTime == if rest == [] then current.endTime else rest[|rest| - 1].endTime
    decreases |rest|
  {
    if rest != [] {
      SuffixCons(rest, 0);
      if Absorbs(current, rest[0]) {
        MergeFromLastEnd(Extend(current, rest[0]), rest[1..]);
      } else {
        MergeFromLastEnd(rest[0], rest[1..]);
      }
    }
  }

  // Merging, run by run: an independent description of the merge loop.

  /** `raw[k]` carries on the run that began at `raw[lo]`: it has the run's
      speaker and starts at most 0.5 s after `raw[k - 1]` ends. */
  predicate Continues(raw: seq<Segment>, lo: nat, k: nat)
    requires lo < k < |raw|
  {
    raw[k].speakerId == raw[lo].speakerId && raw[k].startTime - raw[k - 1].endTime <= 0.5
  }

  /** Where the run that began at `raw[lo]` stops, looking from `raw[j]` on. */
  function RunEnd(raw: seq<Segment>, lo: nat, j: nat): (r: nat)
    requires lo < j <= |raw|
    ensures j <= r <= |raw|
    decreases |raw| - j
  {
    if j == |raw| || !Continues(raw, lo, j) then j else RunEnd(raw, lo, j + 1)
  }

  /** The run is maximal: every segment from `j` up to its end carries the
      run on, and the segment at its end, if any, does not. */
  lemma {:induction false} RunEndShape(raw: seq<Segment>, lo: nat, j: nat)
    requires lo < j <= |raw|
    ensures var r := RunEnd(raw, lo, j);
      && (forall k :: j <= k < r ==> Continues(raw, lo, k))
      && (r < |raw| ==> !Continues(raw, lo, r))
    decreases |raw| - j
  {
    if j < |raw| && Continues(raw, lo, j) {
      RunEndShape(raw, lo, j + 1);
    }
  }

  /** The one segment the run `raw[lo..hi]` becomes: the start, speaker and
      file of its first segment and the end of its last one. */
  function RunSegment(raw: seq<Segment>, lo: nat, hi: nat): (r: Segment)
    requires lo < hi <= |raw|
    ensures r.fileId == raw[lo].fileId && r.speakerId == raw[lo].speakerId
    ensures r.startTime == raw[lo].startTime && r.endTime == raw[hi - 1].endTime
    ensures hi == lo + 1 ==> r == raw[lo]
    ensures hi > lo + 1 ==> r.duration == r.endTime - r.startTime
  {
    if hi == lo + 1 then raw[lo] else Extend(raw[lo], raw[hi - 1])
  }

  /** `raw[lo..]` cut into maximal runs, each replaced by its segment. */
  function MergeRuns(raw: seq<Segment>, lo: nat): seq<Segment>
    requires lo <= |raw|
    decreases |raw| - lo
  {
    if lo == |raw| then []
    else
      var hi := RunEnd(raw, lo, lo + 1);
      [RunSegment(raw, lo, hi)] + MergeRuns(raw, hi)
  }

  /** The merge loop cuts the list into maximal runs: it gives one segment
      per run, in order, with the start, speaker and file of the run's first
      segment and the end of its last one. */
  lemma MergeIsRuns(raw: seq<Segment>)
    ensures Merge(raw) == MergeRuns(raw, 0)
  {
    if raw != [] {
      SuffixCons(raw, 0);
      MergeFromRun(raw, 0, 1);
      assert MergeRuns(raw, 0) == MergeRunsAfter(raw, 0, 1);
    }
  }

  lemma {:induction false} MergeFromRun(raw: seq<Segment>, lo: nat, j: nat)
    requires lo < j <= |raw|
    ensures MergesAsRuns(raw, lo, j)
    decreases |raw| - j, 2
  {
    if j == |raw| {
      RunAtEnd(raw, lo);
    } else {
      MergeFromRunStep(raw, lo, j);
    }
  }

  lemma {:induction false} MergeFromRunStep(raw: seq<Segment>, lo: nat, j: nat)
    requires lo < j < |raw|
    ensures MergesAsRuns(raw, lo, j)
    decreases |raw| - j, 1
  {
    if Continues(raw, lo, j) {
      MergeFromRunGoesOn(raw, lo, j);
    } else {
      MergeFromRunStops(raw, lo, j);
    }
  }

  lemma {:induction false} MergeFromRunGoesOn(raw: seq<Segment>, lo: nat, j: nat)
    requires lo < j < |raw| && Continues(raw, lo, j)
    ensures MergesAsRuns(raw, lo, j)
    decreases |raw| - j, 0
  {
    MergeFromRun(raw, lo, j + 1);
    RunGoesOn(raw, lo, j);
  }

  lemma {:induction false} MergeFromRunStops(raw: seq<Segment>, lo: nat, j: nat)
    requires lo < j < |raw| && !Continues(raw, lo, j)
    ensures MergesAsRuns(raw, lo, j)
    decreases |raw| - j, 0
  {
    MergeFromRun(raw, j, j + 1);
    RunStops(raw, lo, j);
  }

  /** The merge loop, started on the run that began at `raw[lo]` and has
      reached `raw[j - 1]`, gives that run's segment and the runs after it. */
  predicate MergesAsRuns(raw: seq<Segment>, lo: nat, j: nat)
    requires lo < j <= |raw|
  {
    MergeFrom(RunSegment(raw, lo, j), raw[j..]) == MergeRunsAfter(raw, lo, j)
  }

  /** The segment of the run that began at `raw[lo]` and has reached
      `raw[j - 1]`, followed by the runs after it. */
  function MergeRunsAfter(raw: seq<Segment>, lo: nat, j: nat): seq<Segment>
    requires lo < j <= |raw|
  {
    var hi := RunEnd(raw, lo, j);
    [RunSegment(raw, lo, hi)] + MergeRuns(raw, hi)
  }

  lemma RunAtEnd(raw: seq<Segment>, lo: nat)
    requires lo < |raw|
    ensures MergesAsRuns(raw, lo, |raw|)
  {
    assert raw[|raw|..] == [];
  }

  lemma RunGoesOn(raw: seq<Segment>, lo: nat, j: nat)
    requires lo < j < |raw| && Continues(raw, lo, j)
    requires MergesAsRuns(raw, lo, j + 1)
    ensures MergesAsRuns(raw, lo, j)
  {
    SuffixCons(raw, j);
    ExtendRun(raw, lo, j);
  }

  lemma RunStops(raw: seq<Segment>, lo: nat, j: nat)
    requires lo < j < |raw| && !Continues(raw, lo, j)
    requires MergesAsRuns(raw, j, j + 1)
    ensures MergesAsRuns(raw, lo, j)
  {
    SuffixCons(raw, j);
    ExtendRun(raw, lo, j);
    assert MergeRuns(raw, j) == MergeRunsAfter(raw, j, j + 1);
  }

  /** Absorbing the next segment lengthens the run by one. */
  lemma ExtendRun(raw: seq<Segment>, lo: nat, j: nat)
    requires lo < j < |raw|
    ensures Absorbs(RunSegment(raw, lo, j), raw[j]) == Continues(raw, lo, j)
    ensures Extend(RunSegment(raw, lo, j), raw[j]) == RunSegment(raw, lo, j + 1)
  {
  }

  /** A separated list is a fixed point of merging. */
  lemma {:induction false} MergeFromSeparatedIsIdentity(current: Segment, rest: seq<Segment>)
    requires Separated([current] + rest)
    ensures MergeFrom(current, rest) == [current] + rest
    decreases |rest|
  {
    if rest != [] {
      var s := [current] + rest;
      assert s[1] == rest[0];
      assert s[1..] == [rest[0]] + rest[1..];
      assert Separated([rest[0]] + rest[1..]) by {
        forall k | 0 <= k < |rest| - 1 ensures !Absorbs(rest[k], rest[k + 1]) {
          assert s[k + 1] == rest[k] && s[k + 2] == rest[k + 1];
        }
      }
      MergeFromSeparatedIsIdentity(rest[0], rest[1..]);
      assert s[0] == current && !Absorbs(s[0], s[1]);
      assert rest == [rest[0]] + rest[1..];
    }
  }

  /** Merging leaves a list unchanged exactly when it is separated, so
      merging twice is merging once. */
  lemma MergeFixedPoints(s: seq<Segment>)
    ensures Merge(s) == s <==> Separated(s)
    ensures Merge(Merge(s)) == Merge(s)
  {
    if s != [] {
      assert s == [s[0]] + s[1..];
      MergeFromSeparated(s[0], s[1..]);
      if Separated(s) {
        MergeFromSeparatedIsIdentity(s[0], s[1..]);
      }
      var m := Merge(s);
      MergeFromShape(s[0], s[1..]);
      assert m == [m[0]] + m[1..];
      MergeFromSeparatedIsIdentity(m[0], m[1..]);
    }
  }

  /** What the source promises of the merged list, for a sorted raw list of
      consistent segments. */
  lemma MergeSorted(raw: seq<Segment>)
    requires SortedByStart(raw)
    requires forall k :: 0 <= k < |raw| ==> Consistent(raw[k])
    ensures var m := Merge(raw);
      && (raw == [] <==> m == [])
      && |m| <= |raw|
      && SortedByStart(m)
      && Separated(m)
      && (raw != [] ==> m[0].startTime == raw[0].startTime)
      && (forall k :: 0 <= k < |m| ==> m[k].duration == m[k].endTime - m[k].startTime)
  {
    if raw != [] {
      assert raw == [raw[0]] + raw[1..];
      MergeFromShape(raw[0], raw[1..]);
      MergeFromSeparated(raw[0], raw[1..]);
      MergeFromSorted(raw[0], raw[1..]);
      MergeFromEnds(raw[0], raw[1..]);
      var m := Merge(raw);
      forall k | 0 <= k < |m| ensures m[k].duration == m[k].endTime - m[k].startTime {
        assert m[k] in m;
      }
    }
  }

  lemma PrependTwice(a: seq<Segment>, b: seq<Segment>, rest: Option<seq<Segment>>)
    ensures Prepend(a, Prepend(b, rest)) == Prepend(a + b, rest)
  {
    if rest.Some? {
      assert a + (b + rest.value) == (a + b) + rest.value;
    }
  }

  /** One step of the reading loop on the suffix of the file from line `i`. */
  lemma ReadStep(lines: seq<string>, i: nat, parseFloat: string -> Option<real>)
    requires i < |lines|
    ensures ReadLine(lines[i], parseFloat) == Unreadable ==> ReadSegments(lines[i..], parseFloat) == None
    ensures ReadLine(lines[i], parseFloat) == Skipped ==>
              ReadSegments(lines[i..], parseFloat) == ReadSegments(lines[i + 1..], parseFloat)
    ensures ReadLine(lines[i], parseFloat).Read? ==>
              ReadSegments(lines[i..], parseFloat) ==
              Prepend([ReadLine(lines[i], parseFloat).segment], ReadSegments(lines[i + 1..], parseFloat))
  {
    assert lines[i..][0] == lines[i];
    assert lines[i..][1..] == lines[i + 1..];
  }

  /** The reading loop of `parse_rttm`: the raw segments in line order, or
      `None` as soon as `float()` raises. */
  method ReadRaw(lines: seq<string>, parseFloat: string -> Option<real>) returns (raw: Option<seq<Segment>>)
    ensures raw == ReadSegments(lines, parseFloat)
  {
    var segments: seq<Segment> := [];
    var i := 0;
    assert lines[0..] == lines;
    assert ReadSegments(lines, parseFloat) == Prepend([], ReadSegments(lines, parseFloat)) by {
      match ReadSegments(lines, parseFloat)
      case None =>
      case Some(r) => assert [] + r == r;
    }
    while i < |lines|
      invariant 0 <= i <= |lines|
      invariant ReadSegments(lines, parseFloat) == Prepend(segments, ReadSegments(lines[i..], parseFloat))
    {
      ReadStep(lines, i, parseFloat);
      match ReadLine(lines[i], parseFloat) {
        case Unreadable =>
          return None;
        case Skipped =>
        case Read(segment) =>
          PrependTwice(segments, [segment], ReadSegments(lines[i + 1..], parseFloat));
          segments := segments + [segment];
      }
      i := i + 1;
    }
    assert lines[i..] == [];
    assert segments + [] == segments;
    return Some(segments);
  }

  /** The merging loop of `parse_rttm` over the sorted raw segments. */
  method MergeAdjacent(raw: seq<Segment>) returns (merged: seq<Segment>)
    ensures merged == Merge(raw)
  {
    if raw == [] {
      return [];
    }
    merged := [];
    var current := raw[0];
    var j := 1;
    while j < |raw|
      invariant 1 <= j <= |raw|
      invariant merged + MergeFrom(current, raw[j..]) == Merge(raw)
    {
      assert raw[j..][1..] == raw[j + 1..];
      var next := raw[j];
      if next.speakerId == current.speakerId && next.startTime - current.endTime <= 0.5 {
        current := current.(endTime := next.endTime);
        current := current.(duration := current.endTime - current.startTime);
      } else {
        assert merged + MergeFrom(current, raw[j..]) == (merged + [current]) + MergeFrom(next, raw[j + 1..]);
        merged := merged + [current];
        current := next;
      }
      j := j + 1;
    }
    assert raw[j..] == [];
    merged := merged + [current];
  }

  /** `parse_rttm` over the lines of a file. */
  method ParseRttm(lines: seq<string>, parseFloat: string -> Option<real>) returns (segments: seq<Segment>)
    ensures segments == ParsedSegments(lines, parseFloat)
    ensures ReadSegments(lines, parseFloat).None? ==> segments == []
    ensures ReadSegments(lines, parseFloat).Some? ==>
              var raw := ReadSegments(lines, parseFloat).value;
              && (segments == [] <==> raw == [])
              && |segments| <= |raw|
              && (segments != [] ==> forall y :: y in raw ==> segments[0].startTime <= y.startTime)
              && (segments != [] ==> exists y :: y in raw && y.startTime == segments[0].startTime)
              && segments == MergeRuns(SortByStart(raw), 0)
    ensures SortedByStart(segments)
    ensures Separated(segments)
    ensures forall k :: 0 <= k < |segments| ==> segments[k].duration == segments[k].endTime - segments[k].startTime
  {
    var raw := ReadRaw(lines, parseFloat);
    if raw.None? {
      return [];
    }
    ReadSegmentsConsistent(lines, parseFloat);
    var sorted := SortByStart(raw.value);
    SortKeepsConsistent(raw.value);
    segments := MergeAdjacent(sorted);
    MergeSorted(sorted);
    MergedBounds(raw.value);
    MergeIsRuns(sorted);
  }

  /** Sorting then merging gives no more segments than were read, and the
      first merged segment starts at the earliest raw start. */
  lemma MergedBounds(raw: seq<Segment>)
    requires forall k :: 0 <= k < |raw| ==> Consistent(raw[k])
    ensures var m := Merge(SortByStart(raw));
      && |m| <= |raw|
      && (m != [] ==> forall y :: y in raw ==> m[0].startTime <= y.startTime)
      && (m != [] ==> exists y :: y in raw && y.startTime == m[0].startTime)
  {
    var sorted := SortByStart(raw);
    SortKeepsConsistent(raw);
    MergeSorted(sorted);
    assert |multiset(sorted)| == |multiset(raw)|;
    forall y | y in raw ensures sorted != [] ==> sorted[0].startTime <= y.startTime {
      assert y in multiset(sorted);
    }
    if sorted != [] {
      assert sorted[0] in multiset(raw);
    }
  }

  /** Sorting keeps every segment consistent. */
  lemma SortKeepsConsistent(raw: seq<Segment>)
    requires forall k :: 0 <= k < |raw| ==> Consistent(raw[k])
    ensures forall k :: 0 <= k < |SortByStart(raw)| ==> Consistent(SortByStart(raw)[k])
  {
    var sorted := SortByStart(raw);
    forall k | 0 <= k < |sorted| ensures Consistent(sorted[k]) {
      assert sorted[k] in multiset(raw);
    }
  }

  // ---------------------------------------------------------------------
  // Writing

  function Digit(d: nat): (c: char)
    requires d < 10
    ensures '0' <= c <= '9'
    ensures c as int - '0' as int == d
  {
    ('0' as int + d) as char
  }

  /** The decimal digits of `n`, without leading zeros. */
  function NatDigits(n: nat): (r: string)
    ensures r != ""
    ensures forall i :: 0 <= i < |r| ==> '0' <= r[i] <= '9'
    ensures r[0] == '0' <==> n == 0
    ensures |r| == 1 <==> n < 10
  {
    if n < 10 then [Digit(n)] else NatDigits(n / 10) + [Digit(n % 10)]
  }

  /** `f"{x:.2f}"` of the value `h / 100`: sign, integer digits, a point and
      exactly two decimals. */
  function FormatHundredths(h: int): (r: string)
    ensures r != "" && NoDelim(r, IsSpace)
    ensures r[0] == '-' <==> h < 0
    ensures UnsignedNumeral(if h < 0 then r[1..] else r)
  {
    if h < 0 then "-" + Numeral(-h) else Numeral(h)
  }

  /** The unsigned part: integer digits, a point and exactly two decimals. */
  function Numeral(a: nat): (r: string)
    ensures r != "" && '0' <= r[0] <= '9' && NoDelim(r, IsSpace)
    ensures UnsignedNumeral(r)
  {
    var c := a % 100;
    NatDigits(a / 100) + "." + [Digit(c / 10), Digit(c % 10)]
  }

  /** Digits, a point and two digits, with no leading zero in the integer
      part unless that part is the single digit `0`. */
  predicate UnsignedNumeral(u: string) {
    |u| >= 4 && u[|u| - 3] == '.' && IsDigits(u[..|u| - 3]) && IsDigits(u[|u| - 2..]) &&
    (u[0] == '0' ==> |u| == 4)
  }

  /** Rounding to hundredths, halves rounded up: the nearest whole number of
      hundredths. */
  function RoundHundredths(x: real): (r: int)
    ensures x * 100.0 - 0.5 < r as real <= x * 100.0 + 0.5
  {
    (x * 100.0 + 0.5).Floor
  }

  /** The `:.2f` rendering of a time: the numeral of the hundredths nearest
      to it. */
  function FormatTime(x: real): (r: string)
    ensures r != "" && NoDelim(r, IsSpace)
    ensures ParseHundredths(r) == Some(RoundHundredths(x))
    ensures r[0] == '-' <==> RoundHundredths(x) < 0
    ensures UnsignedNumeral(if r[0] == '-' then r[1..] else r)
  {
    FormatParses(RoundHundredths(x));
    FormatHundredths(RoundHundredths(x))
  }

  // Reading decimal numerals back

  predicate IsDigits(s: string) {
    forall i :: 0 <= i < |s| ==> '0' <= s[i] <= '9'
  }

  /** The number a string of decimal digits denotes. */
  function DigitsValue(s: string): nat
    requires IsDigits(s)
  {
    if s == [] then 0 else DigitsValue(s[..|s| - 1]) * 10 + (s[|s| - 1] as int - '0' as int)
  }

  /** The value, in hundredths, of one or more digits, a point and two
      digits; `None` for any other string. */
  function ParseUnsigned(body: string): Option<nat> {
    if |body| >= 4 && body[|body| - 3] == '.' && IsDigits(body[..|body| - 3]) && IsDigits(body[|body| - 2..]) then
      Some(DigitsValue(body[..|body| - 3]) * 100 + DigitsValue(body[|body| - 2..]))
    else None
  }

  /** The value, in hundredths, of such a numeral with an optional leading
      `-`; `None` for any other string. */
  function ParseHundredths(s: string): Option<int> {
    if s != [] && s[0] == '-' then
      match ParseUnsigned(s[1..])
      case Some(v) => Some(-(v as int))
      case None => None
    else
      match ParseUnsigned(s)
      case Some(v) => Some(v as int)
      case None => None
  }

  /** `float()` reads a numeral of that shape as its exact value. */
  ghost predicate ReadsDecimals(parseFloat: string -> Option<real>) {
    forall s :: ParseHundredths(s).Some? ==> parseFloat(s) == Some(ParseHundredths(s).value as real / 100.0)
  }

  /** A reader that meets `ReadsDecimals` and refuses everything else. */
  function DecimalReader(s: string): Option<real> {
    match ParseHundredths(s)
    case Some(h) => Some(h as real / 100.0)
    case None => None
  }

  lemma DecimalReaderReadsDecimals()
    ensures ReadsDecimals(DecimalReader)
  {
  }

  /** A time that is a whole number of hundredths. */
  predicate WholeHundredths(t: real) {
    (t * 100.0).Floor as real == t * 100.0
  }

  /** A whole-hundredths time written with `:.2f` reads back as itself. */
  lemma FormatTimeReadsBack(t: real, parseFloat: string -> Option<real>)
    requires ReadsDecimals(parseFloat) && WholeHundredths(t)
    ensures parseFloat(FormatTime(t)) == Some(t)
  {
    var n := RoundWhole(t);
    var r := FormatTime(t);
    assert ParseHundredths(r) == Some(n);
    assert parseFloat(r) == Some(n as real / 100.0);
  }

  /** For a whole number of hundredths, rounding is exact. */
  lemma RoundWhole(t: real) returns (n: int)
    requires WholeHundredths(t)
    ensures n == RoundHundredths(t) && n as real / 100.0 == t
  {
    n := (t * 100.0).Floor;
    assert n as real == t * 100.0;
  }

  lemma {:induction false} NatDigitsValue(n: nat)
    ensures IsDigits(NatDigits(n)) && DigitsValue(NatDigits(n)) == n
  {
    if n >= 10 {
      NatDigitsValue(n / 10);
      var s := NatDigits(n / 10) + [Digit(n % 10)];
      assert s[..|s| - 1] == NatDigits(n / 10);
    }
  }

  /** The numeral `FormatHundredths` builds parses back to its value. */
  lemma FormatParses(h: int)
    ensures ParseHundredths(FormatHundredths(h)) == Some(h)
  {
    var a := if h < 0 then -h else h;
    NumeralParses(a);
    ParseSign(Numeral(a));
  }

  lemma NumeralParses(a: nat)
    ensures ParseUnsigned(Numeral(a)) == Some(a)
  {
    var c := a % 100;
    var digits, decimals := NatDigits(a / 100), [Digit(c / 10), Digit(c % 10)];
    NatDigitsValue(a / 100);
    TwoDigitsValue(c);
    ParseNumeral(digits, decimals);
  }

  /** Digits, a point and two digits parse to their value. */
  lemma ParseNumeral(digits: string, decimals: string)
    requires |digits| >= 1 && IsDigits(digits) && |decimals| == 2 && IsDigits(decimals)
    ensures ParseUnsigned(digits + "." + decimals) == Some(DigitsValue(digits) * 100 + DigitsValue(decimals))
  {
    NumeralParts(digits, decimals);
  }

  /** A numeral that starts with a digit is read unsigned, and a `-` in front
      of it negates its value. */
  lemma ParseSign(body: string)
    requires body != [] && '0' <= body[0] <= '9'
    ensures ParseUnsigned(body).Some? ==> ParseHundredths(body) == Some(ParseUnsigned(body).value as int)
    ensures ParseUnsigned(body).Some? ==> ParseHundredths("-" + body) == Some(-(ParseUnsigned(body).value as int))
  {
    assert ("-" + body)[1..] == body;
  }

  lemma TwoDigitsValue(x: nat)
    requires x < 100
    ensures IsDigits([Digit(x / 10), Digit(x % 10)])
    ensures DigitsValue([Digit(x / 10), Digit(x % 10)]) == x
  {
    var d := [Digit(x / 10), Digit(x % 10)];
    assert d[..1] == [Digit(x / 10)];
    assert [Digit(x / 10)][..0] == [];
    assert DigitsValue([Digit(x / 10)]) == x / 10;
    assert DigitsValue(d) == (x / 10) * 10 + x % 10;
  }

  lemma NumeralParts(digits: string, decimals: string)
    requires |digits| >= 1 && |decimals| == 2
    ensures var body := digits + "." + decimals;
      && |body| >= 4 && body[|body| - 3] == '.'
      && body[..|body| - 3] == digits && body[|body| - 2..] == decimals
  {
  }

  /** The ten fields of the line `write_rttm` emits for one segment. */
  function RttmFields(fileId: string, s: Segment): seq<string> {
    ["SPEAKER", fileId, "1", FormatTime(s.startTime), FormatTime(s.duration),
     "<NA>", "<NA>", s.speakerId, "<NA>", "<NA>"]
  }

  /** The f-string `"SPEAKER {file_id} 1 {start:.2f} {duration:.2f} <NA> <NA>
      {speaker_id} <NA> <NA>\n"`: the ten fields separated by single spaces,
      then a newline. */
  function RttmLine(fileId: string, s: Segment): string {
    JoinWith(RttmFields(fileId, s), ' ') + "\n"
  }

  /** The lines of the file `write_rttm` writes. */
  function RttmLines(segments: seq<Segment>, fileId: string): (r: seq<string>)
    ensures |r| == |segments|
    ensures forall k :: 0 <= k < |r| ==> r[k] == RttmLine(fileId, segments[k])
  {
    if segments == [] then []
    else [RttmLine(fileId, segments[0])] + RttmLines(segments[1..], fileId)
  }

  /** `write_rttm`: one line per segment, in list order. */
  method WriteRttm(segments: seq<Segment>, fileId: string) returns (lines: seq<string>)
    ensures lines == RttmLines(segments, fileId)
  {
    lines := [];
    for k := 0 to |segments|
      invariant lines == RttmLines(segments[..k], fileId)
    {
      RttmLinesSnoc(segments, k, fileId);
      lines := lines + [RttmLine(fileId, segments[k])];
    }
    assert segments[..|segments|] == segments;
  }

  lemma RttmLinesSnoc(segments: seq<Segment>, k: nat, fileId: string)
    requires k < |segments|
    ensures RttmLines(segments[..k + 1], fileId) == RttmLines(segments[..k], fileId) + [RttmLine(fileId, segments[k])]
  {
    var a, b := RttmLines(segments[..k + 1], fileId), RttmLines(segments[..k], fileId) + [RttmLine(fileId, segments[k])];
    assert |a| == |b|;
    forall j | 0 <= j < |a| ensures a[j] == b[j] {
      assert segments[..k + 1][j] == segments[j];
      if j < k {
        assert segments[..k][j] == segments[j];
      }
    }
  }

  /** A non-empty identifier without whitespace, which stays one field. */
  predicate ValidId(s: string) {
    s != "" && NoDelim(s, IsSpace)
  }

  /** Each line `write_rttm` emits splits into exactly the ten fields of the
      layout: `SPEAKER`, the file id, channel `1`, the two times, the speaker
      in field 7 and the `<NA>` placeholders. */
  lemma RttmLineFields(fileId: string, s: Segment)
    requires ValidId(fileId) && ValidId(s.speakerId)
    ensures Words(Trim(RttmLine(fileId, s))) == RttmFields(fileId, s)
    ensures |Words(Trim(RttmLine(fileId, s)))| == 10
  {
    LineOfFields(fileId, FormatTime(s.startTime), FormatTime(s.duration), s.speakerId);
  }

  lemma LineOfFields(fileId: string, start: string, duration: string, speakerId: string)
    requires ValidId(fileId) && ValidId(start) && ValidId(duration) && ValidId(speakerId)
    ensures var f := ["SPEAKER", fileId, "1", start, duration, "<NA>", "<NA>", speakerId, "<NA>", "<NA>"];
      Words(Trim(JoinWith(f, ' ') + "\n")) == f
  {
    var f := ["SPEAKER", fileId, "1", start, duration, "<NA>", "<NA>", speakerId, "<NA>", "<NA>"];
    assert ValidId("SPEAKER") && ValidId("1") && ValidId("<NA>");
    assert forall k :: 0 <= k < |f| ==> ValidId(f[k]);
    WordsOfLine(f);
  }

  /** A line made of whitespace-free fields joined by single spaces and
      ended by a newline splits back into those fields. */
  lemma WordsOfLine(f: seq<string>)
    requires |f| >= 1
    requires forall k :: 0 <= k < |f| ==> ValidId(f[k])
    ensures Words(Trim(JoinWith(f, ' ') + "\n")) == f
  {
    TrimJoinedLine(f);
    FieldsOfJoin(f, ' ', IsSpace);
    NonEmptyKeepsAll(f);
  }

  lemma TrimJoinedLine(f: seq<string>)
    requires |f| >= 1
    requires forall k :: 0 <= k < |f| ==> ValidId(f[k])
    ensures Trim(JoinWith(f, ' ') + "\n") == JoinWith(f, ' ')
  {
    var joined := JoinWith(f, ' ');
    assert ValidId(f[0]) && ValidId(f[|f| - 1]);
    JoinWithHead(f, ' ');
    JoinWithLast(f, ' ');
    assert AllDelim("\n", IsSpace);
    TrimDropsTail(joined, "\n");
  }

  /** A segment whose line reads back to itself: it belongs to the file,
      its end is start plus duration, its speaker is one field, and its two
      times are whole hundredths, which `:.2f` writes without loss. */
  predicate Writable(s: Segment, fileId: string) {
    && s.fileId == fileId
    && Consistent(s)
    && ValidId(s.speakerId)
    && WholeHundredths(s.startTime)
    && WholeHundredths(s.duration)
  }

  /** Every line `write_rttm` emits passes the reader's filter and reads back
      as the segment it was written from. */
  lemma RttmLineReadsBack(fileId: string, s: Segment, parseFloat: string -> Option<real>)
    requires ValidId(fileId) && Writable(s, fileId) && ReadsDecimals(parseFloat)
    ensures ReadLine(RttmLine(fileId, s), parseFloat) == Read(s)
  {
    RttmLineFields(fileId, s);
    FormatTimeReadsBack(s.startTime, parseFloat);
    FormatTimeReadsBack(s.duration, parseFloat);
    ReadLineOfFields(RttmLine(fileId, s), s, FormatTime(s.startTime), FormatTime(s.duration), parseFloat);
  }

  /** A line whose fields are laid out as `write_rttm` emits them, with time
      fields that `float()` reads as the segment's times, reads as the
      segment. */
  lemma ReadLineOfFields(line: string, s: Segment, start: string, duration: string,
                         parseFloat: string -> Option<real>)
    requires Consistent(s)
    requires parseFloat(start) == Some(s.startTime) && parseFloat(duration) == Some(s.duration)
    requires Words(Trim(line)) == ["SPEAKER", s.fileId, "1", start, duration, "<NA>", "<NA>", s.speakerId, "<NA>", "<NA>"]
    ensures ReadLine(line, parseFloat) == Read(s)
  {
  }

  /** A file whose every line reads as a segment yields those segments, in
      line order. */
  lemma ReadEveryLine(lines: seq<string>, segments: seq<Segment>, parseFloat: string -> Option<real>)
    requires |lines| == |segments|
    requires forall k :: 0 <= k < |lines| ==> ReadLine(lines[k], parseFloat) == Read(segments[k])
    ensures ReadSegments(lines, parseFloat) == Some(segments)
  {
    ReadEveryLineFrom(lines, segments, parseFloat, 0);
    assert lines[0..] == lines && segments[0..] == segments;
  }

  lemma {:induction false} ReadEveryLineFrom(lines: seq<string>, segments: seq<Segment>,
                                             parseFloat: string -> Option<real>, i: nat)
    requires |lines| == |segments| && i <= |lines|
    requires forall k :: 0 <= k < |lines| ==> ReadLine(lines[k], parseFloat) == Read(segments[k])
    ensures ReadSegments(lines[i..], parseFloat) == Some(segments[i..])
    decreases |lines| - i
  {
    if i < |lines| {
      ReadEveryLineFrom(lines, segments, parseFloat, i + 1);
      SuffixCons(lines, i);
      SuffixCons(segments, i);
      ReadFirstLine(lines[i..], segments[i], segments[i + 1..], parseFloat);
    } else {
      assert lines[i..] == [] && segments[i..] == [];
    }
  }

  lemma SuffixCons<T>(s: seq<T>, i: nat)
    requires i < |s|
    ensures s[i..] == [s[i]] + s[i + 1..]
    ensures s[i..][0] == s[i] && s[i..][1..] == s[i + 1..]
  {
  }

  lemma ReadFirstLine(lines: seq<string>, s: Segment, rest: seq<Segment>, parseFloat: string -> Option<real>)
    requires lines != [] && ReadLine(lines[0], parseFloat) == Read(s)
    requires ReadSegments(lines[1..], parseFloat) == Some(rest)
    ensures ReadSegments(lines, parseFloat) == Some([s] + rest)
  {
  }

  /** Reading the written file gives back the segments in order. */
  lemma ReadBackWritten(segments: seq<Segment>, fileId: string, parseFloat: string -> Option<real>)
    requires ValidId(fileId)
    requires ReadsDecimals(parseFloat)
    requires forall k :: 0 <= k < |segments| ==> Writable(segments[k], fileId)
    ensures ReadSegments(RttmLines(segments, fileId), parseFloat) == Some(segments)
  {
    var lines := RttmLines(segments, fileId);
    forall k | 0 <= k < |lines| ensures ReadLine(lines[k], parseFloat) == Read(segments[k]) {
      RttmLineReadsBack(fileId, segments[k], parseFloat);
    }
    ReadEveryLine(lines, segments, parseFloat);
  }

  /** Saving a list that is sorted and already merged, then loading the file
      again, gives the same list. */
  lemma SaveThenLoad(segments: seq<Segment>, fileId: string, parseFloat: string -> Option<real>)
    requires ValidId(fileId)
    requires ReadsDecimals(parseFloat)
    requires forall k :: 0 <= k < |segments| ==> Writable(segments[k], fileId)
    requires SortedByStart(segments) && Separated(segments)
    ensures ParsedSegments(RttmLines(segments, fileId), parseFloat) == segments
  {
    ReadBackWritten(segments, fileId, parseFloat);
    SortSortedIsIdentity(segments);
    MergeFixedPoints(segments);
  }
}
