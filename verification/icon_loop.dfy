/** The loop of `randomize_icons`: one iteration per track icon, in order,
    stopping early when the page has left the editor, and swallowing any
    failure of a single track. Each Playwright interaction is replaced by what
    it observed. */
module IconLoop {
  import opened Wrappers
  import opened Text
  import opened IconChoice

  /** What the try block of one iteration met. */
  datatype Attempt =
      /** Clicking the trigger, waiting for the dialog or reading its icons raised.
          `dialogOpen` is whether the dialog was visible when the failure was handled. */
    | FailsBeforeChoice(dialogOpen: bool)
      /** The dialog listed icons with these srcs; `draw` is the random pick;
          `confirmed` is whether the step that closes the dialog succeeded:
          clicking the chosen icon and waiting for the dialog to close, or,
          for a dialog without icons, pressing Escape; `dialogOpen` is as
          above, when it did not. */
    | Dialog(srcs: seq<string>, draw: nat, confirmed: bool, dialogOpen: bool)

  /** One iteration: the page URL when it starts, and its attempt. */
  datatype Track = Track(url: string, attempt: Attempt)

  /** What an iteration did to its track. */
  datatype TrackResult =
      /** An icon was chosen and confirmed. */
    | Assigned(choice: Choice)
      /** The dialog listed no icons; Escape was pressed. */
    | EscapedEmptyDialog
      /** The failure was logged; a choice made before the failure stays
          recorded, and a click that landed before it is not undone; Escape
          was pressed only if the dialog was still open. */
    | Failed(attempted: Option<Choice>, pressedEscape: bool)

  /** Why the loop ended. */
  datatype Stop = NoIconsFound | AllVisited | LeftEditor(index: nat)

  /** The results of the visited tracks in order, why the loop ended, and the final used-set. */
  datatype IconRun = IconRun(results: seq<TrackResult>, stop: Stop, used: set<string>)

  /** The marker the page URL must contain for the loop to go on. */
  const EditorMarker: string := "/edit"

  /** How a result answers its attempt: a failure before any choice gives a
      failure without a choice; an empty dialog is escaped, or the failed
      Escape is handled like any failure; otherwise the chosen icon is one of
      the dialog's, and the track is assigned exactly when the confirmation
      succeeded. Escape is pressed on failure exactly when the dialog is still
      open. */
  predicate Answers(a: Attempt, r: TrackResult)
  {
    match a
    case FailsBeforeChoice(open) => r == Failed(None, open)
    case Dialog(srcs, _, confirmed, open) =>
      if |srcs| == 0 then r == (if confirmed then EscapedEmptyDialog else Failed(None, open))
      else
        && (confirmed <==> r.Assigned?)
        && (!confirmed ==> r.Failed? && r.pressedEscape == open)
        && |ChoiceOf(r)| == 1
        && ChoiceOf(r)[0].offered == srcs
        && ChoiceOf(r)[0].position < |srcs|
        && ChoiceOf(r)[0].src == srcs[ChoiceOf(r)[0].position]
  }

  /** The choice a result recorded, if any. */
  function ChoiceOf(r: TrackResult): seq<Choice>
  {
    match r
    case Assigned(c) => [c]
    case Failed(Some(c), _) => [c]
    case _ => []
  }

  /** The choices of a sequence of results, in order. */
  function Choices(results: seq<TrackResult>): seq<Choice>
    decreases |results|
  {
    if |results| == 0 then [] else ChoiceOf(results[0]) + Choices(results[1..])
  }

  /** The used-set after a sequence of choices made from `used0`. */
  function UsedAfter(run: seq<Choice>, used0: set<string>): set<string>
  {
    if |run| == 0 then used0 else run[|run| - 1].used
  }

  /** One iteration's try block and its handler (lines 108-167). */
  function VisitTrack(a: Attempt, used: set<string>): (out: (TrackResult, set<string>))
    ensures Answers(a, out.0)
    ensures ValidRun(ChoiceOf(out.0), used) && out.1 == UsedAfter(ChoiceOf(out.0), used)
    ensures a.Dialog? && |a.srcs| > 0 ==>
      var c := ChoiceOf(out.0)[0];
      && (c.reset <==> Exhausted(a.srcs, used))
      && (!c.reset ==> c.position in Candidates(a.srcs, used))
  {
    match a
    case FailsBeforeChoice(open) => (Failed(None, open), used)
    case Dialog(srcs, draw, confirmed, open) =>
      match ChooseIcon(srcs, used, draw)
      case None => (if confirmed then EscapedEmptyDialog else Failed(None, open), used)
      case Some(c) =>
        assert UsedBefore([c], used, 0) == used;
        assert StepAt([c], used, 0);
        if confirmed then (Assigned(c), c.used) else (Failed(Some(c), open), c.used)
  }

  /** The loop from iteration `i` on, with the used-set `used`. */
  function VisitFrom(tracks: seq<Track>, i: nat, used: set<string>): (r: IconRun)
    requires i <= |tracks|
    ensures r.stop.AllVisited? || r.stop.LeftEditor?
    ensures r.stop.AllVisited? <==> forall k :: i <= k < |tracks| ==> Contains(tracks[k].url, EditorMarker)
    ensures r.stop.AllVisited? ==> i + |r.results| == |tracks|
    ensures r.stop.LeftEditor? ==>
      && i + |r.results| == r.stop.index < |tracks|
      && !Contains(tracks[r.stop.index].url, EditorMarker)
      && forall k :: i <= k < r.stop.index ==> Contains(tracks[k].url, EditorMarker)
    ensures forall k :: 0 <= k < |r.results| ==> Answers(tracks[i + k].attempt, r.results[k])
    decreases |tracks| - i
  {
    if i == |tracks| then IconRun([], AllVisited, used)
    else if !Contains(tracks[i].url, EditorMarker) then IconRun([], LeftEditor(i), used)
    else
      var (res, used') := VisitTrack(tracks[i].attempt, used);
      var rest := VisitFrom(tracks, i + 1, used');
      AnswersCons(tracks, i, res, rest.results);
      EditorFrom(tracks, i);
      IconRun([res] + rest.results, rest.stop, rest.used)
  }

  /** All URLs from i on are in the editor exactly when URL i is and all after it are. */
  lemma EditorFrom(tracks: seq<Track>, i: nat)
    requires i < |tracks|
    ensures (forall k :: i <= k < |tracks| ==> Contains(tracks[k].url, EditorMarker))
        <==> Contains(tracks[i].url, EditorMarker)
             && forall k :: i + 1 <= k < |tracks| ==> Contains(tracks[k].url, EditorMarker)
  {
  }

  /** The answers of track i followed by those of the tracks after it. */
  lemma AnswersCons(tracks: seq<Track>, i: nat, res: TrackResult, rest: seq<TrackResult>)
    requires i + 1 + |rest| <= |tracks|
    requires Answers(tracks[i].attempt, res)
    requires forall k :: 0 <= k < |rest| ==> Answers(tracks[i + 1 + k].attempt, rest[k])
    ensures forall k :: 0 <= k < |[res] + rest| ==> Answers(tracks[i + k].attempt, ([res] + rest)[k])
  {
    forall k | 0 < k < |[res] + rest|
      ensures Answers(tracks[i + k].attempt, ([res] + rest)[k])
    {
      assert ([res] + rest)[k] == rest[k - 1];
      assert i + k == i + 1 + (k - 1);
    }
  }

  /** Lines 90-167: without any icon on the page the stage ends with a warning;
      otherwise the tracks are visited in order from the first with an empty
      used-set, and the loop stops at the first iteration whose URL has left the
      editor. A failed track never stops the loop. */
  function RandomizeIcons(iconsFound: bool, tracks: seq<Track>): (r: IconRun)
    ensures !iconsFound ==> r == IconRun([], NoIconsFound, {})
    ensures iconsFound ==> (r.stop.AllVisited? <==> forall k :: 0 <= k < |tracks| ==> Contains(tracks[k].url, EditorMarker))
    ensures iconsFound && r.stop.AllVisited? ==> |r.results| == |tracks|
    ensures iconsFound && !r.stop.AllVisited? ==>
      && r.stop.LeftEditor?
      && |r.results| == r.stop.index < |tracks|
      && !Contains(tracks[r.stop.index].url, EditorMarker)
      && forall k :: 0 <= k < r.stop.index ==> Contains(tracks[k].url, EditorMarker)
    ensures forall k :: 0 <= k < |r.results| ==> Answers(tracks[k].attempt, r.results[k])
  {
    if !iconsFound then IconRun([], NoIconsFound, {})
    else VisitFrom(tracks, 0, {})
  }

  /** The choices of a prefix followed by more results. */
  lemma ChoicesCons(r: TrackResult, rest: seq<TrackResult>)
    ensures Choices([r] + rest) == ChoiceOf(r) + Choices(rest)
  {
    assert ([r] + rest)[1..] == rest;
  }

  /** The choices the loop makes follow the icon-choice rule one after the
      other, and the final used-set is the one the last choice left. */
  lemma {:induction false} VisitFromChoicesValid(tracks: seq<Track>, i: nat, used: set<string>)
    requires i <= |tracks|
    ensures ValidRun(Choices(VisitFrom(tracks, i, used).results), used)
    ensures VisitFrom(tracks, i, used).used == UsedAfter(Choices(VisitFrom(tracks, i, used).results), used)
    decreases |tracks| - i
  {
    if i < |tracks| && Contains(tracks[i].url, EditorMarker) {
      var step := VisitTrack(tracks[i].attempt, used);
      var rest := VisitFrom(tracks, i + 1, step.1);
      assert VisitFrom(tracks, i, used).results == [step.0] + rest.results;
      VisitFromChoicesValid(tracks, i + 1, step.1);
      ChoicesCons(step.0, rest.results);
      ChoicesStep(step.0, step.1, Choices(rest.results), used);
    }
  }

  /** One visited track followed by a valid rest of the run gives a valid run. */
  lemma ChoicesStep(r: TrackResult, u: set<string>, later: seq<Choice>, used: set<string>)
    requires ValidRun(ChoiceOf(r), used) && u == UsedAfter(ChoiceOf(r), used)
    requires ValidRun(later, u)
    ensures ValidRun(ChoiceOf(r) + later, used)
    ensures UsedAfter(ChoiceOf(r) + later, used) == UsedAfter(later, u)
  {
    if r.Assigned? || (r.Failed? && r.attempted.Some?) {
      var c := ChoiceOf(r)[0];
      assert ChoiceOf(r) == [c];
      assert StepAt([c], used, 0);
      ValidRunCons(c, later, used);
      UsedAfterCons(c, later, used);
    } else {
      assert ChoiceOf(r) + later == later;
    }
  }

  /** The used-set after a choice and more choices is the one the later choices leave. */
  lemma UsedAfterCons(c: Choice, rest: seq<Choice>, used0: set<string>)
    ensures UsedAfter([c] + rest, used0) == UsedAfter(rest, c.used)
  {
  }

  /** Within one icon stage a chosen src is not chosen again as long as every
      dialog in between still offered an icon whose src was unused. */
  lemma IconStageNoRepeat(iconsFound: bool, tracks: seq<Track>, a: nat, b: nat)
    requires var run := Choices(RandomizeIcons(iconsFound, tracks).results);
      && a < b < |run| && run[a].src != ""
      && forall m :: a < m <= b ==> !Exhausted(run[m].offered, UsedBefore(run, {}, m))
    ensures var run := Choices(RandomizeIcons(iconsFound, tracks).results);
      run[a].src != run[b].src
  {
    if iconsFound {
      VisitFromChoicesValid(tracks, 0, {});
      NoRepeatWhileIconsLeft(Choices(RandomizeIcons(iconsFound, tracks).results), {}, a, b);
    }
  }

  /** Within one icon stage, choice m offered the srcs of the dialog of a
      track the loop visited, and it cleared the used-set exactly when every src of that dialog
      was empty or used by the choices before it; without clearing, it picked
      a candidate. */
  lemma IconStageResetsExactlyWhenExhausted(iconsFound: bool, tracks: seq<Track>, m: nat)
    requires m < |Choices(RandomizeIcons(iconsFound, tracks).results)|
    ensures var run := Choices(RandomizeIcons(iconsFound, tracks).results);
      && (exists k :: 0 <= k < |RandomizeIcons(iconsFound, tracks).results| &&
            tracks[k].attempt.Dialog? && tracks[k].attempt.srcs == run[m].offered)
      && (run[m].reset <==> Exhausted(run[m].offered, UsedBefore(run, {}, m)))
      && (!run[m].reset ==> run[m].position in Candidates(run[m].offered, UsedBefore(run, {}, m)))
  {
    if iconsFound {
      var run := Choices(RandomizeIcons(iconsFound, tracks).results);
      VisitFromChoicesValid(tracks, 0, {});
      assert StepAt(run, {}, m);
      ChoicesComeFromDialogs(tracks, 0, {});
      assert run[m] in run;
    }
  }

  /** Every choice the loop makes from iteration i on offered the srcs of the
      dialog of one of the tracks it visited. */
  lemma {:induction false} ChoicesComeFromDialogs(tracks: seq<Track>, i: nat, used: set<string>)
    requires i <= |tracks|
    ensures forall c :: c in Choices(VisitFrom(tracks, i, used).results) ==>
      exists k :: i <= k < i + |VisitFrom(tracks, i, used).results| &&
        tracks[k].attempt.Dialog? && tracks[k].attempt.srcs == c.offered
    decreases |tracks| - i
  {
    if i < |tracks| && Contains(tracks[i].url, EditorMarker) {
      var step := VisitTrack(tracks[i].attempt, used);
      var rest := VisitFrom(tracks, i + 1, step.1);
      assert VisitFrom(tracks, i, used).results == [step.0] + rest.results;
      ChoicesComeFromDialogs(tracks, i + 1, step.1);
      ChoicesCons(step.0, rest.results);
      forall c | c in ChoiceOf(step.0)
        ensures tracks[i].attempt.Dialog? && tracks[i].attempt.srcs == c.offered
      {
      }
    }
  }

  /** Only the URLs decide how far the loop gets: two runs whose tracks show the
      same URLs stop at the same place, whatever failed along the way. */
  lemma StopDependsOnlyOnUrls(iconsFound: bool, tracks1: seq<Track>, tracks2: seq<Track>)
    requires |tracks1| == |tracks2|
    requires forall k :: 0 <= k < |tracks1| ==> tracks1[k].url == tracks2[k].url
    ensures RandomizeIcons(iconsFound, tracks1).stop == RandomizeIcons(iconsFound, tracks2).stop
    ensures |RandomizeIcons(iconsFound, tracks1).results| == |RandomizeIcons(iconsFound, tracks2).results|
  {
  }
}
