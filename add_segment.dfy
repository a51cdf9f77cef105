/** The "Add Segment" dialog of the labelling page (static/add-segment.js):
    opening the form, the listeners that keep start, duration and end in
    step, taking the start from the player position, and saving a new
    segment into the shared list, which is then sorted by start time.

    `parseFloat` is an oracle returning `None` where JavaScript gives NaN;
    `toFixed` is `Number.prototype.toFixed(2)`. */
module AddSegment {
  import opened Optional
  import opened Text
  import opened Segments
  import opened BrowserSession

  /** Why a save is refused (each case raises its own alert). */
  datatype Rejection = NoFileLoaded | InvalidStart | InvalidDuration | MissingSpeaker

  datatype Outcome = Accepted(segment: Segment) | Rejected(reason: Rejection)

  /** The checks of the save handler, in their order, and the segment it
      builds when all pass: a segment of the current file with a
      non-negative start, a positive duration, the trimmed speaker, and an
      end at start plus duration. */
  function NewSegment(fileId: Option<string>, startText: string, durationText: string, speakerText: string,
                      parseFloat: string -> Option<real>): (r: Outcome)
    ensures r.Accepted? ==>
              && Some(r.segment.fileId) == fileId
              && Some(r.segment.startTime) == parseFloat(startText) && r.segment.startTime >= 0.0
              && Some(r.segment.duration) == parseFloat(durationText) && r.segment.duration > 0.0
              && r.segment.speakerId == Trim(speakerText) && r.segment.speakerId != ""
              && Consistent(r.segment)
  {
    if fileId.None? || fileId.value == "" then Rejected(NoFileLoaded)
    else
      var startTime := parseFloat(startText);
      var duration := parseFloat(durationText);
      var speakerId := Trim(speakerText);
      if startTime.None? || startTime.value < 0.0 then Rejected(InvalidStart)
      else if duration.None? || duration.value <= 0.0 then Rejected(InvalidDuration)
      else if speakerId == "" then Rejected(MissingSpeaker)
      else Accepted(Segment(fileId.value, startTime.value, duration.value, startTime.value + duration.value, speakerId))
  }

  /** A save is accepted exactly when a file is loaded, the start parses to a
      non-negative number, the duration to a positive one and the trimmed
      speaker is non-empty; each failure is reported in that order. */
  lemma NewSegmentChecks(fileId: Option<string>, startText: string, durationText: string, speakerText: string,
                         parseFloat: string -> Option<real>)
    ensures var r := NewSegment(fileId, startText, durationText, speakerText, parseFloat);
      var loaded := fileId.Some? && fileId.value != "";
      var start := parseFloat(startText);
      var duration := parseFloat(durationText);
      var startOk := start.Some? && start.value >= 0.0;
      var durationOk := duration.Some? && duration.value > 0.0;
      && (r == Rejected(NoFileLoaded) <==> !loaded)
      && (r == Rejected(InvalidStart) <==> loaded && !startOk)
      && (r == Rejected(InvalidDuration) <==> loaded && startOk && !durationOk)
      && (r == Rejected(MissingSpeaker) <==> loaded && startOk && durationOk && Trim(speakerText) == "")
      && (r.Accepted? <==> loaded && startOk && durationOk && Trim(speakerText) != "")
  {
  }

  /** `after` is `before` with `s` pushed and the whole sorted by start: it
      is one longer, holds the old segments and the new one, and is sorted. */
  predicate PushedAndSorted(before: seq<Segment>, s: Segment, after: seq<Segment>) {
    && after == SortByStart(before + [s])
    && |after| == |before| + 1
    && multiset(after) == multiset(before) + multiset{s}
    && SortedByStart(after)
  }

  /** Pushing a segment and sorting gives a sorted list holding the old
      segments and the new one. */
  lemma PushThenSort(segments: seq<Segment>, s: Segment)
    ensures PushedAndSorted(segments, s, SortByStart(segments + [s]))
  {
    var r := SortByStart(segments + [s]);
    assert |multiset(r)| == |multiset(segments + [s])|;
  }

  /** The fields of the dialog; `shown` is whether the dialog is displayed. */
  class SegmentForm {
    const session: Session
    var startField: string
    var durationField: string
    var endField: string
    var speakerField: string
    var shown: bool

    constructor (session: Session)
      ensures this.session == session
      ensures startField == "" && durationField == "" && endField == "" && speakerField == ""
      ensures !shown
    {
      this.session := session;
      startField := "";
      durationField := "";
      endField := "";
      speakerField := "";
      shown := false;
    }

    /** The Add Segment button: without a loaded file nothing happens;
        otherwise the four fields are cleared and the dialog is shown. */
    method OpenForm()
      modifies this
      ensures !session.FileLoaded() ==> unchanged(this)
      ensures session.FileLoaded() ==>
                startField == "" && durationField == "" && endField == "" && speakerField == "" && shown
    {
      if !session.FileLoaded() {
        return;
      }
      startField := "";
      durationField := "";
      endField := "";
      speakerField := "";
      shown := true;
    }

    /** Typing into the start field: when start and duration both parse, the
        end becomes their sum. */
    method OnStartInput(value: string, parseFloat: string -> Option<real>, toFixed: real -> string)
      modifies this
      ensures startField == value
      ensures durationField == old(durationField) && speakerField == old(speakerField) && shown == old(shown)
      ensures var s := parseFloat(value); var d := parseFloat(durationField);
        endField == if s.Some? && d.Some? then toFixed(s.value + d.value) else old(endField)
    {
      startField := value;
      var startTime := parseFloat(startField);
      var duration := parseFloat(durationField);
      if startTime.Some? && duration.Some? {
        endField := toFixed(startTime.value + duration.value);
      }
    }

    /** Typing into the duration field: when start and duration both parse,
        the end becomes their sum. */
    method OnDurationInput(value: string, parseFloat: string -> Option<real>, toFixed: real -> string)
      modifies this
      ensures durationField == value
      ensures startField == old(startField) && speakerField == old(speakerField) && shown == old(shown)
      ensures var s := parseFloat(startField); var d := parseFloat(value);
        endField == if s.Some? && d.Some? then toFixed(s.value + d.value) else old(endField)
    {
      durationField := value;
      var duration := parseFloat(durationField);
      var startTime := parseFloat(startField);
      if duration.Some? && startTime.Some? {
        endField := toFixed(startTime.value + duration.value);
      }
    }

    /** Typing into the end field: when end and start both parse, the
        duration becomes end minus start. */
    method OnEndInput(value: string, parseFloat: string -> Option<real>, toFixed: real -> string)
      modifies this
      ensures endField == value
      ensures startField == old(startField) && speakerField == old(speakerField) && shown == old(shown)
      ensures var s := parseFloat(startField); var e := parseFloat(value);
        durationField == if s.Some? && e.Some? then toFixed(e.value - s.value) else old(durationField)
    {
      endField := value;
      var endTime := parseFloat(endField);
      var startTime := parseFloat(startField);
      if endTime.Some? && startTime.Some? {
        durationField := toFixed(endTime.value - startTime.value);
      }
    }

    /** "Set From Current Position": `position` is the full-audio player's
        current time, `None` when there is no player or its time is NaN (an
        alert, and nothing changes). The start takes the position; when the
        duration parses, the end becomes position plus duration. */
    method SetFromPosition(position: Option<real>, parseFloat: string -> Option<real>, toFixed: real -> string)
      modifies this
      ensures position.None? ==> unchanged(this)
      ensures position.Some? ==>
                && startField == toFixed(position.value)
                && durationField == old(durationField) && speakerField == old(speakerField) && shown == old(shown)
                && var d := parseFloat(durationField);
                   endField == if d.Some? then toFixed(position.value + d.value) else old(endField)
    {
      if position.None? {
        return;
      }
      startField := toFixed(position.value);
      var duration := parseFloat(durationField);
      if duration.Some? {
        endField := toFixed(position.value + duration.value);
      }
    }

    /** The Save button. The checks of `NewSegment` run on the current file
        id and the three fields; a rejected segment (one alert) leaves the
        list and the dialog as they were. An accepted one is pushed onto the shared list, which is
        then sorted by start time (`Array.prototype.sort` is stable), and the
        dialog closes. */
    method Save(parseFloat: string -> Option<real>) returns (outcome: Outcome)
      modifies this, session
      ensures outcome == NewSegment(old(session.currentFileId), old(startField), old(durationField), old(speakerField), parseFloat)
      ensures startField == old(startField) && durationField == old(durationField)
      ensures endField == old(endField) && speakerField == old(speakerField)
      ensures session.currentFileId == old(session.currentFileId)
      ensures session.currentRttmPath == old(session.currentRttmPath)
      ensures outcome.Rejected? ==> session.segments == old(session.segments) && shown == old(shown)
      ensures outcome.Accepted? ==>
                && PushedAndSorted(old(session.segments), outcome.segment, session.segments)
                && !shown
    {
      outcome := NewSegment(session.currentFileId, startField, durationField, speakerField, parseFloat);
      if outcome.Accepted? {
        PushThenSort(session.segments, outcome.segment);
        session.segments := SortByStart(session.segments + [outcome.segment]);
        shown := false;
      }
    }
  }
}
