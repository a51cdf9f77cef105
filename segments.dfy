/** The segment record shared by the backend (app.py builds it while reading
    an RTTM file) and the page (static/add-segment.js adds to the list), and
    ordering by start time. */
module Segments {

  /** One annotated interval of speech: the dictionary with keys `file_id`,
      `start_time`, `duration`, `end_time` and `speaker_id`. Times are exact
      reals (the source's binary floats are not modelled). */
  datatype Segment = Segment(fileId: string, startTime: real, duration: real, endTime: real, speakerId: string)

  /** The end of a segment is its start plus its duration. */
  predicate Consistent(s: Segment) {
    s.endTime == s.startTime + s.duration
  }

  predicate SortedByStart(s: seq<Segment>) {
    forall i, j :: 0 <= i < j < |s| ==> s[i].startTime <= s[j].startTime
  }

  /** Every element of `s` starts at `t` or later. */
  predicate StartsNoEarlier(s: seq<Segment>, t: real) {
    forall k :: 0 <= k < |s| ==> t <= s[k].startTime
  }

  lemma SortedCons(x: Segment, s: seq<Segment>)
    requires SortedByStart(s) && StartsNoEarlier(s, x.startTime)
    ensures SortedByStart([x] + s)
  {
    var r := [x] + s;
    forall i, j | 0 <= i < j < |r| ensures r[i].startTime <= r[j].startTime {
      if i > 0 { assert r[i] == s[i - 1]; }
      assert r[j] == s[j - 1];
    }
  }

  /** Puts `x` before the first element that does not start earlier. */
  function InsertByStart(x: Segment, s: seq<Segment>): (r: seq<Segment>)
    requires SortedByStart(s)
    ensures SortedByStart(r)
    ensures multiset(r) == multiset(s) + multiset{x}
    ensures forall t :: StartsNoEarlier(s, t) && t <= x.startTime ==> StartsNoEarlier(r, t)
  {
    if s == [] || x.startTime <= s[0].startTime then
      SortedCons(x, s);
      [x] + s
    else
      SortedTail(s);
      var t := InsertByStart(x, s[1..]);
      SortedCons(s[0], t);
      ConsStartsNoEarlier(s[0], t);
      [s[0]] + t
  }

  lemma SortedTail(s: seq<Segment>)
    requires s != [] && SortedByStart(s)
    ensures s == [s[0]] + s[1..]
    ensures SortedByStart(s[1..]) && StartsNoEarlier(s[1..], s[0].startTime)
    ensures forall t :: StartsNoEarlier(s, t) ==> StartsNoEarlier(s[1..], t)
  {
  }

  lemma ConsStartsNoEarlier(x: Segment, s: seq<Segment>)
    ensures forall t :: t <= x.startTime && StartsNoEarlier(s, t) ==> StartsNoEarlier([x] + s, t)
  {
  }

  /** `list.sort(key=lambda x: x['start_time'])`: an insertion sort in which
      an element is inserted before the later ones with the same start, so
      that equal start times keep their input order. */
  function SortByStart(s: seq<Segment>): (r: seq<Segment>)
    ensures SortedByStart(r)
    ensures multiset(r) == multiset(s)
  {
    if s == [] then []
    else
      assert s == [s[0]] + s[1..];
      InsertByStart(s[0], SortByStart(s[1..]))
  }

  /** Sorting a list that is already sorted leaves it as it is. */
  lemma {:induction false} SortSortedIsIdentity(s: seq<Segment>)
    requires SortedByStart(s)
    ensures SortByStart(s) == s
  {
    if s != [] {
      SortSortedIsIdentity(s[1..]);
      assert s == [s[0]] + s[1..];
    }
  }
}
