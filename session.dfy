/** The page-wide variables the scripts of the labelling page share: the
    segment list of the loaded file, its file id and its RTTM path
    (`segments`, `currentFileId`, `currentRttmPath`). `window.currentFileId`
    and the script variable `currentFileId` are taken to be one variable. */
module BrowserSession {
  import opened Optional
  import opened Segments

  class Session {
    var segments: seq<Segment>
    var currentFileId: Option<string>
    var currentRttmPath: Option<string>

    /** The state before any file is loaded. */
    constructor ()
      ensures segments == [] && currentFileId == None && currentRttmPath == None
    {
      segments := [];
      currentFileId := None;
      currentRttmPath := None;
    }

    /** `currentFileId` is truthy: set, and not the empty string. */
    predicate FileLoaded()
      reads this
    {
      currentFileId.Some? && currentFileId.value != ""
    }
  }
}
