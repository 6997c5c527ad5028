/** The two workflows of `yoto_uploader/workflow.py` as traces of page actions.
    Every page call is replaced by what it observed: whether the folder exists
    and what it lists, whether the login wait timed out, the create button's
    state and the page text at each poll check, and what the icon loop met. */
module Workflow {
  import opened Wrappers
  import opened Files
  import opened Processing
  import opened IconLoop

  /** The account page the login starts from. */
  const AccountUrl: string := "https://us.yotoplay.com/my-account"

  /** The editor page of a new playlist. */
  const NewPlaylistUrl: string := "https://my.yotoplay.com/card/edit"

  /** The batch size used when the caller gives none. */
  const DefaultChunkSize: int := 3

  /** One step the workflow takes on the page. */
  datatype Action =
    | Goto(url: string)
    | FillUsername(email: string)
    | FillPassword(password: string)
    | SubmitLogin
      /** The login wait timed out; the run waited for the operator to press Enter. */
    | AwaitManualLogin
    | SetPlaylistName(name: string)
      /** `upload_chunk` for batch `index` of `total`. */
    | UploadChunk(index: nat, total: nat, files: seq<Entry>)
    | AwaitProcessing(outcome: Outcome)
    | AssignIcons(stop: Stop)

  /** How upload mode ended. */
  datatype UploadEnd =
    | FolderMissing
    | NoAudioFiles
      /** A batch size of zero makes `range` raise; the error leaves the run. */
    | InvalidChunkSize
    | Finished(processing: Outcome)

  /** The page actions of an upload-mode run and how it ended. */
  datatype UploadRun = UploadRun(actions: seq<Action>, end: UploadEnd)

  /** Lines 201-212 (and 242-253): open the account page, fill in and submit the
      form; when the wait for the account URL times out, wait for the operator. */
  function Login(email: string, password: string, loginTimedOut: bool): seq<Action>
  {
    [Goto(AccountUrl), FillUsername(email), FillPassword(password), SubmitLogin]
      + (if loginTimedOut then [AwaitManualLogin] else [])
  }

  /** One upload per batch, numbered from 1. */
  function UploadActions(chunks: seq<seq<Entry>>): seq<Action>
  {
    seq(|chunks|, k requires 0 <= k < |chunks| => UploadChunk(k + 1, |chunks|, chunks[k]))
  }

  /** The uploads of a trace, in order. */
  function UploadsOf(actions: seq<Action>): (r: seq<Action>)
    ensures forall k :: 0 <= k < |r| ==> r[k].UploadChunk?
    decreases |actions|
  {
    if |actions| == 0 then []
    else (if actions[0].UploadChunk? then [actions[0]] else []) + UploadsOf(actions[1..])
  }

  /** The files sent by a sequence of actions, in the order they were sent. */
  function UploadedFiles(actions: seq<Action>): seq<Entry>
    decreases |actions|
  {
    if |actions| == 0 then []
    else (if actions[0].UploadChunk? then actions[0].files else []) + UploadedFiles(actions[1..])
  }

  /** Upload k sends the slice of `files` that starts at k * size, cut at the
      end of the list: the slices of Python's `range(0, len(files), size)`. */
  predicate SendsSlices(ups: seq<Action>, files: seq<Entry>, size: nat)
  {
    forall k :: 0 <= k < |ups| ==>
      && ups[k].UploadChunk?
      && 0 <= k * size < |files|
      && ups[k].files == files[k * size .. Min(k * size + size, |files|)]
  }

  /** The steps before the first upload: login, the editor, the playlist name. */
  function Setup(email: string, password: string, loginTimedOut: bool, name: string): seq<Action>
  {
    Login(email, password, loginTimedOut) + [Goto(NewPlaylistUrl), SetPlaylistName(name)]
  }

  /** The uploads and files of two traces in a row are those of each, in order. */
  lemma {:induction false} UploadsOfAppend(a: seq<Action>, b: seq<Action>)
    ensures UploadsOf(a + b) == UploadsOf(a) + UploadsOf(b)
    ensures UploadedFiles(a + b) == UploadedFiles(a) + UploadedFiles(b)
    decreases |a|
  {
    if |a| == 0 {
      assert a + b == b;
    } else {
      assert (a + b)[0] == a[0];
      assert (a + b)[1..] == a[1..] + b;
      UploadsOfAppend(a[1..], b);
    }
  }

  /** The set-up uploads nothing. */
  lemma SetupHasNoUploads(email: string, password: string, loginTimedOut: bool, name: string)
    ensures UploadsOf(Setup(email, password, loginTimedOut, name)) == []
    ensures UploadedFiles(Setup(email, password, loginTimedOut, name)) == []
  {
    var s := Setup(email, password, loginTimedOut, name);
    assert forall k :: 0 <= k < |s| ==> !s[k].UploadChunk?;
    NoUploads(s);
  }

  /** A trace without upload actions uploads nothing. */
  lemma {:induction false} NoUploads(s: seq<Action>)
    requires forall k :: 0 <= k < |s| ==> !s[k].UploadChunk?
    ensures UploadsOf(s) == [] && UploadedFiles(s) == []
    decreases |s|
  {
    if |s| > 0 {
      NoUploads(s[1..]);
    }
  }

  /** The batch uploads send every file of the batches once, in order. */
  lemma UploadActionsSendChunks(chunks: seq<seq<Entry>>)
    ensures UploadsOf(UploadActions(chunks)) == UploadActions(chunks)
    ensures UploadedFiles(UploadActions(chunks)) == Concat(chunks)
  {
    TotalsDoNotMatter(chunks, |chunks|, 1);
  }

  /** Index and total do not change which actions are uploads or what they send. */
  lemma {:induction false} TotalsDoNotMatter(chunks: seq<seq<Entry>>, total: nat, first: nat)
    ensures var u := seq(|chunks|, k requires 0 <= k < |chunks| => UploadChunk(k + first, total, chunks[k]));
      UploadsOf(u) == u && UploadedFiles(u) == Concat(chunks)
    decreases |chunks|
  {
    var u := seq(|chunks|, k requires 0 <= k < |chunks| => UploadChunk(k + first, total, chunks[k]));
    if |chunks| > 0 {
      var tail := chunks[1..];
      TotalsDoNotMatter(tail, total, first + 1);
      var v := seq(|tail|, k requires 0 <= k < |tail| => UploadChunk(k + (first + 1), total, tail[k]));
      assert UploadsOf(v) == v && UploadedFiles(v) == Concat(tail);
      assert u[1..] == v;
      assert u == [u[0]] + u[1..];
      assert u[0].UploadChunk? && u[0].files == chunks[0];
      assert UploadsOf(u) == [u[0]] + UploadsOf(u[1..]);
      assert UploadedFiles(u) == chunks[0] + UploadedFiles(u[1..]);
    }
  }

  /** The trace of a run that got past its early exits: set-up, one upload per
      batch, the processing wait. */
  function UploadTrace(setup: seq<Action>, chunks: seq<seq<Entry>>, outcome: Outcome): (actions: seq<Action>)
    requires UploadsOf(setup) == [] && UploadedFiles(setup) == []
    ensures UploadsOf(actions) == UploadActions(chunks)
    ensures UploadedFiles(actions) == Concat(chunks)
    ensures actions == setup + UploadsOf(actions) + [AwaitProcessing(outcome)]
  {
    var uploads := UploadActions(chunks);
    UploadActionsSendChunks(chunks);
    UploadsOfAppend(setup, uploads);
    UploadsOfAppend(setup + uploads, [AwaitProcessing(outcome)]);
    NoUploads([AwaitProcessing(outcome)]);
    setup + uploads + [AwaitProcessing(outcome)]
  }

  /** Lines 188-223: a missing folder or a folder without audio files ends the
      run before any page action, and so does a batch size of zero, whose error
      is raised when the batches are built; any other run logs in, opens the
      editor, waits for processing and finishes, whatever the wait's outcome. */
  function RunUploadMode(
    email: string, password: string, name: string, chunkSize: int,
    folder: string, folderExists: bool, listing: seq<Entry>,
    loginTimedOut: bool, enabled: nat -> bool, content: nat -> Option<string>)
    : (r: UploadRun)
    ensures r.end.FolderMissing? <==> !folderExists
    ensures r.end.NoAudioFiles? <==> folderExists && forall e :: e in listing ==> !IsAudioFile(e)
    ensures r.end.InvalidChunkSize? <==>
      folderExists && (exists e :: e in listing && IsAudioFile(e)) && chunkSize == 0
    ensures !r.end.Finished? <==> r.actions == []
    ensures r.end.Finished? ==> r.end.processing == WaitForProcessing(DefaultTimeout, enabled, content).outcome
  {
    GetValidAudioFilesMembers(folder, listing);
    match GetValidAudioFiles(folder, folderExists, listing)
    case Failure(_) => UploadRun([], FolderMissing)
    case Success(files) =>
      if |files| == 0 then
        UploadRun([], NoAudioFiles)
      else
        assert files[0] in listing && IsAudioFile(files[0]);
        match ChunkList(files, chunkSize)
        case Failure(_) => UploadRun([], InvalidChunkSize)
        case Success(chunks) =>
          var outcome := WaitForProcessing(DefaultTimeout, enabled, content).outcome;
          SetupHasNoUploads(email, password, loginTimedOut, name);
          UploadRun(UploadTrace(Setup(email, password, loginTimedOut, name), chunks, outcome), Finished(outcome))
  }

  /** The trace of a finished run, in terms of the batches it was given. */
  lemma FinishedRunTrace(
    email: string, password: string, name: string, chunkSize: int,
    folder: string, folderExists: bool, listing: seq<Entry>,
    loginTimedOut: bool, enabled: nat -> bool, content: nat -> Option<string>)
    requires folderExists && (exists e :: e in listing && IsAudioFile(e)) && chunkSize != 0
    ensures RunUploadMode(email, password, name, chunkSize, folder, folderExists, listing,
                          loginTimedOut, enabled, content).end.Finished?
    ensures ChunkList(GetValidAudioFiles(folder, true, listing).value, chunkSize).Success?
    ensures UploadsOf(Setup(email, password, loginTimedOut, name)) == []
    ensures UploadedFiles(Setup(email, password, loginTimedOut, name)) == []
    ensures RunUploadMode(email, password, name, chunkSize, folder, folderExists, listing,
                          loginTimedOut, enabled, content).actions
      == UploadTrace(Setup(email, password, loginTimedOut, name),
                     ChunkList(GetValidAudioFiles(folder, true, listing).value, chunkSize).value,
                     WaitForProcessing(DefaultTimeout, enabled, content).outcome)
  {
    SetupHasNoUploads(email, password, loginTimedOut, name);
  }

  /** Lines 198-223: a run that finishes consists of the set-up, then only
      uploads, numbered 1..total in order, then the processing wait. With a
      positive batch size the uploads send every audio file exactly once, in
      name order, in ceil(n / size) batches of at most `size` files, batch k
      being the slice from k * size; a negative batch size sends nothing. */
  lemma UploadModeOrder(
    email: string, password: string, name: string, chunkSize: int,
    folder: string, folderExists: bool, listing: seq<Entry>,
    loginTimedOut: bool, enabled: nat -> bool, content: nat -> Option<string>)
    requires folderExists && (exists e :: e in listing && IsAudioFile(e)) && chunkSize != 0
    ensures var r := RunUploadMode(email, password, name, chunkSize, folder, folderExists, listing,
                                   loginTimedOut, enabled, content);
      var ups := UploadsOf(r.actions);
      var files := GetValidAudioFiles(folder, true, listing).value;
      var outcome := WaitForProcessing(DefaultTimeout, enabled, content).outcome;
      && r.end == Finished(outcome)
      && r.actions == Setup(email, password, loginTimedOut, name) + ups + [AwaitProcessing(outcome)]
      && (forall k :: 0 <= k < |ups| ==> ups[k].index == k + 1 && ups[k].total == |ups|)
      && (chunkSize >= 1 ==> UploadedFiles(r.actions) == files)
      && (chunkSize >= 1 ==> |ups| == CeilDiv(|files|, chunkSize))
      && (chunkSize >= 1 ==> forall k :: 0 <= k < |ups| ==> 1 <= |ups[k].files| <= chunkSize)
      && (chunkSize >= 1 ==> SendsSlices(ups, files, chunkSize))
      && (chunkSize < 0 ==> ups == [])
  {
    FinishedRunTrace(email, password, name, chunkSize, folder, folderExists, listing,
                     loginTimedOut, enabled, content);
    var r := RunUploadMode(email, password, name, chunkSize, folder, folderExists, listing,
                           loginTimedOut, enabled, content);
    TraceOrder(r, Setup(email, password, loginTimedOut, name), GetValidAudioFiles(folder, true, listing).value,
               chunkSize, WaitForProcessing(DefaultTimeout, enabled, content).outcome);
  }

  /** The shape of a finished run, for any set-up, file list and outcome. */
  lemma TraceOrder(r: UploadRun, setup: seq<Action>, files: seq<Entry>, chunkSize: int, outcome: Outcome)
    requires UploadsOf(setup) == [] && UploadedFiles(setup) == []
    requires ChunkList(files, chunkSize).Success?
    requires r.actions == UploadTrace(setup, ChunkList(files, chunkSize).value, outcome)
    requires r.end == Finished(outcome)
    ensures var ups := UploadsOf(r.actions);
      && r.actions == setup + ups + [AwaitProcessing(r.end.processing)]
      && (forall k :: 0 <= k < |ups| ==> ups[k].index == k + 1 && ups[k].total == |ups|)
      && (chunkSize >= 1 ==> UploadedFiles(r.actions) == files)
      && (chunkSize >= 1 ==> |ups| == CeilDiv(|files|, chunkSize))
      && (chunkSize >= 1 ==> forall k :: 0 <= k < |ups| ==> 1 <= |ups[k].files| <= chunkSize)
      && (chunkSize >= 1 ==> SendsSlices(ups, files, chunkSize))
      && (chunkSize < 0 ==> ups == [])
  {
    var chunks := ChunkList(files, chunkSize).value;
    var ups := UploadsOf(r.actions);
    assert ups == UploadActions(chunks);
    if chunkSize >= 1 {
      PositiveChunkList(files, chunkSize);
      forall k | 0 <= k < |ups|
        ensures 0 <= k * chunkSize < |files|
        ensures ups[k].files == files[k * chunkSize .. Min(k * chunkSize + chunkSize, |files|)]
      {
        ChunkAt(files, chunkSize, k);
        MulSign(k, chunkSize);
      }
    }
  }

  /** The result of icon mode: its page actions and the icon stage's run. */
  datatype IconModeRun = IconModeRun(actions: seq<Action>, icons: IconRun)

  /** Lines 242-259: log in, open the playlist's edit URL, wait for processing,
      then run the icon stage. The wait never stops the icon stage: its run is
      the same whatever the wait's outcome. */
  function RunIconMode(
    email: string, password: string, editUrl: string, loginTimedOut: bool,
    enabled: nat -> bool, content: nat -> Option<string>, iconsFound: bool, tracks: seq<Track>)
    : (r: IconModeRun)
    ensures |r.actions| >= 3
    ensures r.actions[..|r.actions| - 3] == Login(email, password, loginTimedOut)
    ensures r.actions[|r.actions| - 3] == Goto(editUrl)
    ensures r.actions[|r.actions| - 2] == AwaitProcessing(WaitForProcessing(DefaultTimeout, enabled, content).outcome)
    ensures r.actions[|r.actions| - 1] == AssignIcons(r.icons.stop)
    ensures r.icons == RandomizeIcons(iconsFound, tracks)
  {
    var outcome := WaitForProcessing(DefaultTimeout, enabled, content).outcome;
    var icons := RandomizeIcons(iconsFound, tracks);
    var login := Login(email, password, loginTimedOut);
    LastThree(login, Goto(editUrl), AwaitProcessing(outcome), AssignIcons(icons.stop));
    IconModeRun(login + [Goto(editUrl), AwaitProcessing(outcome), AssignIcons(icons.stop)], icons)
  }

  /** The wait for processing changes nothing else in icon mode: two runs that
      differ only in what the page showed while waiting assign the same icons
      and take the same actions, except for the wait's own outcome. */
  lemma IconModeIgnoresWait(
    email: string, password: string, editUrl: string, loginTimedOut: bool,
    enabled1: nat -> bool, content1: nat -> Option<string>,
    enabled2: nat -> bool, content2: nat -> Option<string>,
    iconsFound: bool, tracks: seq<Track>)
    ensures var r1 := RunIconMode(email, password, editUrl, loginTimedOut, enabled1, content1, iconsFound, tracks);
      var r2 := RunIconMode(email, password, editUrl, loginTimedOut, enabled2, content2, iconsFound, tracks);
      && r1.icons == r2.icons
      && |r1.actions| == |r2.actions|
      && (forall k :: 0 <= k < |r1.actions| && k != |r1.actions| - 2 ==> r1.actions[k] == r2.actions[k])
      && r1.actions[|r1.actions| - 2].AwaitProcessing?
      && r2.actions[|r2.actions| - 2].AwaitProcessing?
  {
    var r1 := RunIconMode(email, password, editUrl, loginTimedOut, enabled1, content1, iconsFound, tracks);
    var r2 := RunIconMode(email, password, editUrl, loginTimedOut, enabled2, content2, iconsFound, tracks);
    var n := |r1.actions|;
    forall k | 0 <= k < n && k != n - 2 ensures r1.actions[k] == r2.actions[k] {
      if k < n - 3 {
        assert r1.actions[k] == r1.actions[..n - 3][k];
        assert r2.actions[k] == r2.actions[..n - 3][k];
      }
    }
  }

  /** Three actions appended after a trace are its last three. */
  lemma LastThree(front: seq<Action>, a: Action, b: Action, c: Action)
    ensures var s := front + [a, b, c];
      |s| >= 3 && s[..|s| - 3] == front && s[|s| - 3] == a && s[|s| - 2] == b && s[|s| - 1] == c
  {
    var s := front + [a, b, c];
    assert s[..|s| - 3] == front;
  }

  /** Seven audio files in batches of three are uploaded as batches 1, 2 and 3
      of 3, holding 3, 3 and 1 files. */
  lemma SevenFilesInThreeBatches(
    email: string, password: string, name: string, folder: string, listing: seq<Entry>,
    loginTimedOut: bool, enabled: nat -> bool, content: nat -> Option<string>)
    requires |listing| == 7 && forall k :: 0 <= k < 7 ==> IsAudioFile(listing[k])
    ensures var r := RunUploadMode(email, password, name, DefaultChunkSize, folder, true, listing,
                                   loginTimedOut, enabled, content);
      var ups := UploadsOf(r.actions);
      && r.end.Finished?
      && |ups| == 3
      && ups[0].index == 1 && ups[1].index == 2 && ups[2].index == 3
      && |ups[0].files| == 3 && |ups[1].files| == 3 && |ups[2].files| == 1
  {
    var r := RunUploadMode(email, password, name, DefaultChunkSize, folder, true, listing,
                           loginTimedOut, enabled, content);
    assert listing[0] in listing && IsAudioFile(listing[0]);
    assert r.end.Finished?;
    AllAudioKept(folder, listing);
    UploadModeOrder(email, password, name, DefaultChunkSize, folder, true, listing,
                    loginTimedOut, enabled, content);
    SevenSlices(UploadsOf(r.actions), GetValidAudioFiles(folder, true, listing).value);
  }

  /** Seven files sliced by three give batches of 3, 3 and 1. */
  lemma SevenSlices(ups: seq<Action>, files: seq<Entry>)
    requires |files| == 7 && |ups| == CeilDiv(|files|, 3) && SendsSlices(ups, files, 3)
    ensures |ups| == 3 && |ups[0].files| == 3 && |ups[1].files| == 3 && |ups[2].files| == 1
  {
    assert CeilDiv(7, 3) == 3;
    assert ups[0].files == files[0..3];
    assert ups[1].files == files[3..6];
    assert ups[2].files == files[6..7];
  }

  /** A login that timed out is completed by hand and the run goes on, in
      headless mode too: the run ends the same way and uploads the same batches
      as after a prompt login. */
  lemma LoginTimeoutStillUploads(
    email: string, password: string, name: string, chunkSize: int,
    folder: string, folderExists: bool, listing: seq<Entry>,
    enabled: nat -> bool, content: nat -> Option<string>)
    ensures RunUploadMode(email, password, name, chunkSize, folder, folderExists, listing, true, enabled, content).end
         == RunUploadMode(email, password, name, chunkSize, folder, folderExists, listing, false, enabled, content).end
    ensures UploadsOf(RunUploadMode(email, password, name, chunkSize, folder, folderExists, listing, true, enabled, content).actions)
         == UploadsOf(RunUploadMode(email, password, name, chunkSize, folder, folderExists, listing, false, enabled, content).actions)
  {
    var slow := RunUploadMode(email, password, name, chunkSize, folder, folderExists, listing, true, enabled, content);
    var fast := RunUploadMode(email, password, name, chunkSize, folder, folderExists, listing, false, enabled, content);
    if slow.end.Finished? {
      FinishedRunTrace(email, password, name, chunkSize, folder, folderExists, listing, true, enabled, content);
      FinishedRunTrace(email, password, name, chunkSize, folder, folderExists, listing, false, enabled, content);
    }
  }

  /** After a login timeout the run waits for the operator right after
      submitting the form, and only then. */
  lemma LoginTimeoutWaitsForOperator(email: string, password: string, timedOut: bool)
    ensures AwaitManualLogin in Login(email, password, timedOut) <==> timedOut
    ensures timedOut ==> Login(email, password, timedOut)[4] == AwaitManualLogin
  {
    var l := Login(email, password, timedOut);
    if timedOut {
      assert l[4] == AwaitManualLogin;
    }
  }
}
