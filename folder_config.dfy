/** The folder configuration panel of the labelling page
    (static/folder-config.js): the two folder inputs, the messages the
    folder-browser popup sends back, the fallback directory pickers, the
    submit-time validation and the handling of the `/update_paths` reply. */
module FolderConfig {
  import opened Optional
  import opened Text
  import opened BrowserSession
  import BackendPaths

  /** The `data` of a `message` event: `type`, `dialogId` and `path`. */
  datatype Message = Message(kind: string, dialogId: string, path: string)

  /** What submitting the form does. */
  datatype SubmitOutcome =
    | RttmFolderMissing
    | AudioFolderMissing
    | Send(rttmDir: string, audioDir: string)   // the POST to `/update_paths`

  /** How the `/update_paths` request ends. */
  datatype Reply =
    | FetchFailed                                           // the `.catch` branch
    | ErrorReply(error: string)                             // `{error: ...}`
    | Updated(categories: seq<string>, rttmFiles: seq<string>)

  /** An entry of the RTTM file list: the file and its `data-category`. */
  datatype FileOption = FileOption(file: string, category: string)

  /** `currentPath.split('/')` with its last piece popped, joined with `/`:
      the current path before its last `/`, or nothing when it has no `/`. */
  function ParentPath(currentPath: string): (r: string)
    ensures '/' in currentPath ==> currentPath == r + "/" + BackendPaths.Basename(currentPath)
    ensures '/' !in currentPath ==> r == ""
  {
    var parts := SplitOn(currentPath, '/');
    var r := JoinWith(parts[..|parts| - 1], '/');
    if '/' in currentPath then
      ParentThenLast(currentPath, r, parts[|parts| - 1]);
      r
    else
      SplitOnFirst(currentPath, '/');
      r
  }

  lemma ParentThenLast(currentPath: string, parent: string, last: string)
    requires '/' in currentPath
    requires var parts := SplitOn(currentPath, '/');
      parent == JoinWith(parts[..|parts| - 1], '/') && last == parts[|parts| - 1]
    ensures currentPath == parent + "/" + BackendPaths.Basename(currentPath)
  {
    SplitOnLast(currentPath, '/');
    assert currentPath == (parent + "/") + last;
    BackendPaths.BasenameOfSuffix(parent + "/", last);
  }

  /** `path.split('/')[0]` of the `webkitRelativePath` of the first file:
      the part of the relative path before its first `/`, or all of it. */
  function FirstComponent(relativePath: string): (r: string)
    ensures '/' !in r
    ensures '/' in relativePath ==> r + "/" <= relativePath
    ensures '/' !in relativePath ==> r == relativePath
  {
    SplitOnFirst(relativePath, '/');
    SplitOn(relativePath, '/')[0]
  }

  /** The full path the fallback picker writes into the input: the picked
      folder becomes the last component, under the current path's parent. */
  function RebuiltPath(currentPath: string, relativePath: string): (r: string)
    ensures BackendPaths.Basename(r) == FirstComponent(relativePath)
    ensures r == ParentPath(currentPath) + "/" + BackendPaths.Basename(r)
  {
    var parent, folder := ParentPath(currentPath), FirstComponent(relativePath);
    BackendPaths.BasenameOfSuffix(parent + "/", folder);
    parent + "/" + folder
  }

  class FolderForm {
    const session: Session
    var rttmFolder: string
    var audioFolder: string
    /** The category select's options after "All Categories". */
    var categoryOptions: seq<string>
    /** The RTTM file select's options after the placeholder. */
    var fileOptions: seq<FileOption>

    constructor (session: Session, rttmFolder: string, audioFolder: string)
      ensures this.session == session && this.rttmFolder == rttmFolder && this.audioFolder == audioFolder
      ensures categoryOptions == [] && fileOptions == []
    {
      this.session := session;
      this.rttmFolder := rttmFolder;
      this.audioFolder := audioFolder;
      categoryOptions := [];
      fileOptions := [];
    }

    /** A message from the folder-browser popup: a `folderSelected` message
        sets the input its dialog id names; anything else changes nothing. */
    method OnMessage(data: Option<Message>)
      modifies this
      ensures categoryOptions == old(categoryOptions) && fileOptions == old(fileOptions)
      ensures data.Some? && data.value.kind == "folderSelected" && data.value.dialogId == "rttm-browser" ==>
                rttmFolder == data.value.path && audioFolder == old(audioFolder)
      ensures data.Some? && data.value.kind == "folderSelected" && data.value.dialogId == "audio-browser" ==>
                audioFolder == data.value.path && rttmFolder == old(rttmFolder)
      ensures !(data.Some? && data.value.kind == "folderSelected" &&
                (data.value.dialogId == "rttm-browser" || data.value.dialogId == "audio-browser")) ==>
                rttmFolder == old(rttmFolder) && audioFolder == old(audioFolder)
    {
      if data.Some? && data.value.kind == "folderSelected" {
        var dialogId := data.value.dialogId;
        var path := data.value.path;
        if dialogId == "rttm-browser" {
          rttmFolder := path;
        } else if dialogId == "audio-browser" {
          audioFolder := path;
        }
      }
    }

    /** The fallback RTTM folder picker: `files` are the `webkitRelativePath`s
        of the picked files; with none, nothing changes. */
    method OnRttmFolderPicked(files: seq<string>)
      modifies this
      ensures files == [] ==> rttmFolder == old(rttmFolder)
      ensures files != [] ==> rttmFolder == RebuiltPath(old(rttmFolder), files[0])
      ensures audioFolder == old(audioFolder)
      ensures categoryOptions == old(categoryOptions) && fileOptions == old(fileOptions)
    {
      if |files| > 0 {
        rttmFolder := RebuildFrom(rttmFolder, files[0]);
      }
    }

    /** The fallback audio folder picker. */
    method OnAudioFolderPicked(files: seq<string>)
      modifies this
      ensures files == [] ==> audioFolder == old(audioFolder)
      ensures files != [] ==> audioFolder == RebuiltPath(old(audioFolder), files[0])
      ensures rttmFolder == old(rttmFolder)
      ensures categoryOptions == old(categoryOptions) && fileOptions == old(fileOptions)
    {
      if |files| > 0 {
        audioFolder := RebuildFrom(audioFolder, files[0]);
      }
    }

    /** Form submission: the trimmed RTTM folder is checked first, then the
        trimmed audio folder; only when both are non-empty is the request
        sent, with the trimmed values. */
    method Submit() returns (outcome: SubmitOutcome)
      ensures Trim(rttmFolder) == "" <==> outcome == RttmFolderMissing
      ensures Trim(rttmFolder) != "" && Trim(audioFolder) == "" <==> outcome == AudioFolderMissing
      ensures outcome.Send? <==> Trim(rttmFolder) != "" && Trim(audioFolder) != ""
      ensures outcome.Send? ==> outcome == Send(Trim(rttmFolder), Trim(audioFolder))
    {
      var rttmDir := Trim(rttmFolder);
      var audioDir := Trim(audioFolder);
      if rttmDir == "" {
        return RttmFolderMissing;
      }
      if audioDir == "" {
        return AudioFolderMissing;
      }
      return Send(rttmDir, audioDir);
    }

    /** The reply to `/update_paths`. A failed request or an error reply
        changes nothing. A successful one refills both selects and, when a
        file is loaded, unloads it: the segment list empties and the file id
        and RTTM path become null; without a loaded file the session is left
        alone. The folder inputs are not touched. */
    method OnUpdateReply(reply: Reply)
      modifies this, session
      ensures rttmFolder == old(rttmFolder) && audioFolder == old(audioFolder)
      ensures !reply.Updated? ==>
                && categoryOptions == old(categoryOptions) && fileOptions == old(fileOptions)
                && unchanged(session)
      ensures reply.Updated? ==>
                && categoryOptions == reply.categories
                && |fileOptions| == |reply.rttmFiles|
                && (forall k :: 0 <= k < |fileOptions| ==>
                      fileOptions[k] == FileOption(reply.rttmFiles[k], BackendPaths.Category(reply.rttmFiles[k])))
      ensures reply.Updated? && old(session.FileLoaded()) ==>
                session.segments == [] && session.currentFileId == None && session.currentRttmPath == None
      ensures reply.Updated? && !old(session.FileLoaded()) ==> unchanged(session)
    {
      if !reply.Updated? {
        return;
      }
      categoryOptions := [];
      for k := 0 to |reply.categories|
        modifies this
        invariant rttmFolder == old(rttmFolder) && audioFolder == old(audioFolder)
        invariant categoryOptions == reply.categories[..k]
      {
        categoryOptions := categoryOptions + [reply.categories[k]];
      }
      assert reply.categories[..|reply.categories|] == reply.categories;
      fileOptions := [];
      for k := 0 to |reply.rttmFiles|
        modifies this
        invariant rttmFolder == old(rttmFolder) && audioFolder == old(audioFolder)
        invariant categoryOptions == reply.categories
        invariant |fileOptions| == k
        invariant forall j :: 0 <= j < k ==>
                    fileOptions[j] == FileOption(reply.rttmFiles[j], BackendPaths.Category(reply.rttmFiles[j]))
      {
        var file := reply.rttmFiles[k];
        var parts := SplitOn(file, '/');
        var category := if |parts| > 1 then parts[0] else "root";
        fileOptions := fileOptions + [FileOption(file, category)];
      }
      if session.FileLoaded() {
        session.segments := [];
        session.currentFileId := None;
        session.currentRttmPath := None;
      }
    }
  }

  /** The body of the fallback pickers: split the current path on `/`, pop
      the last piece, join the rest and append the picked folder. */
  method RebuildFrom(currentPath: string, relativePath: string) returns (fullPath: string)
    ensures fullPath == RebuiltPath(currentPath, relativePath)
  {
    var folderPath := SplitOn(relativePath, '/')[0];
    var pathParts := SplitOn(currentPath, '/');
    pathParts := pathParts[..|pathParts| - 1];
    fullPath := JoinWith(pathParts, '/') + "/" + folderPath;
  }

  /** When the reply lists the categories of its own files, as
      `update_paths` builds them, every file option's category is one of the
      category options. */
  lemma OptionCategoriesListed(categories: seq<string>, rttmFiles: seq<string>)
    requires forall c :: c in categories <==> exists f :: f in rttmFiles && BackendPaths.Category(f) == c
    ensures forall k :: 0 <= k < |rttmFiles| ==> BackendPaths.Category(rttmFiles[k]) in categories
  {
    forall k | 0 <= k < |rttmFiles| ensures BackendPaths.Category(rttmFiles[k]) in categories {
      assert rttmFiles[k] in rttmFiles;
    }
  }
}
