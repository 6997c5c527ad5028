/** The processing wait of `wait_for_processing`: poll the create button until
    it is enabled or the timeout has elapsed. Wall-clock time becomes an integer
    tick counter in seconds: check `j` of the poll happens `j * PollInterval`
    seconds after the start, the interval being the sleep between checks. The
    button's state and the page text at each check are inputs. */
module Processing {
  import opened Wrappers
  import opened Text

  /** Seconds slept between two checks. */
  const PollInterval: nat := 5

  /** The timeout used when the caller gives none. */
  const DefaultTimeout: int := 600

  /** How the wait ended: at the check where the button was seen enabled, or by
      running out of time. Running out of time is a warning, not an error. */
  datatype Outcome = Done(check: nat) | TimedOut

  /** The outcome, and the checks at which a status line was printed. */
  datatype Wait = Wait(outcome: Outcome, statusShownAt: seq<nat>)

  /** Seconds elapsed when check `j` reads the clock. */
  function Elapsed(j: nat): nat
  {
    j * PollInterval
  }

  /** The page text, lower-cased, mentions one of the status words. A scan that
      raised (`None`) shows nothing. */
  predicate ShowsStatus(content: Option<string>)
  {
    content.Some? &&
    var text := Lower(content.value);
    Contains(text, "processing") || Contains(text, "transcoding") || Contains(text, "analyzing")
  }

  /** Check `i` ran and saw the button disabled: it was inside the timeout and
      came before the check that ended the wait, if any. */
  predicate SawDisabled(w: Wait, timeout: int, i: nat)
  {
    Elapsed(i) < timeout && (w.outcome.TimedOut? || i < w.outcome.check)
  }

  /** The poll from check `j` on. */
  function PollFrom(timeout: int, enabled: nat -> bool, content: nat -> Option<string>, j: nat)
    : (w: Wait)
    ensures w.outcome.Done? ==>
      j <= w.outcome.check && Elapsed(w.outcome.check) < timeout && enabled(w.outcome.check)
    ensures w.outcome.Done? ==> forall i :: j <= i < w.outcome.check ==> !enabled(i)
    ensures w.outcome.TimedOut? ==> forall i: nat :: j <= i && Elapsed(i) < timeout ==> !enabled(i)
    decreases timeout - Elapsed(j)
  {
    if Elapsed(j) >= timeout then Wait(TimedOut, [])
    else if enabled(j) then Wait(Done(j), [])
    else
      var rest := PollFrom(timeout, enabled, content, j + 1);
      var shown := if ShowsStatus(content(j)) then [j] + rest.statusShownAt else rest.statusShownAt;
      Wait(rest.outcome, shown)
  }

  /** Lines 54-71: the wait ends at the first check, inside the timeout, that
      sees the create button enabled; if there is none it ends in the timeout
      branch, which returns normally. */
  function WaitForProcessing(timeout: int, enabled: nat -> bool, content: nat -> Option<string>)
    : (w: Wait)
    ensures w.outcome.Done? ==>
      Elapsed(w.outcome.check) < timeout && enabled(w.outcome.check) &&
      forall i :: 0 <= i < w.outcome.check ==> !enabled(i)
    ensures w.outcome.TimedOut? <==> forall i: nat :: Elapsed(i) < timeout ==> !enabled(i)
  {
    PollFrom(timeout, enabled, content, 0)
  }

  /** The poll from check `j` on prints a status line at exactly the checks,
      from `j` on, that saw the button disabled and found a status word. */
  lemma {:induction false} PollStatusLines(
    timeout: int, enabled: nat -> bool, content: nat -> Option<string>, j: nat)
    ensures var w := PollFrom(timeout, enabled, content, j);
      forall i: nat :: i in w.statusShownAt <==> j <= i && SawDisabled(w, timeout, i) && ShowsStatus(content(i))
    decreases timeout - Elapsed(j)
  {
    if Elapsed(j) < timeout && !enabled(j) {
      PollStatusLines(timeout, enabled, content, j + 1);
      var w := PollFrom(timeout, enabled, content, j);
      var rest := PollFrom(timeout, enabled, content, j + 1);
      assert w.outcome == rest.outcome;
      forall i: nat ensures SawDisabled(w, timeout, i) <==> SawDisabled(rest, timeout, i) {
      }
    }
  }

  /** Lines 59-67: a status line is printed at exactly the checks that saw the
      button disabled and found a status word in the lower-cased page text. */
  lemma WaitStatusLines(timeout: int, enabled: nat -> bool, content: nat -> Option<string>)
    ensures var w := WaitForProcessing(timeout, enabled, content);
      forall i: nat :: i in w.statusShownAt <==> SawDisabled(w, timeout, i) && ShowsStatus(content(i))
  {
    PollStatusLines(timeout, enabled, content, 0);
  }

  /** The status scan, and any exception it raises, never changes how the wait ends. */
  lemma {:induction false} ScanNeverChangesOutcome(
    timeout: int, enabled: nat -> bool, content1: nat -> Option<string>, content2: nat -> Option<string>, j: nat)
    ensures PollFrom(timeout, enabled, content1, j).outcome == PollFrom(timeout, enabled, content2, j).outcome
    decreases timeout - Elapsed(j)
  {
    if Elapsed(j) < timeout && !enabled(j) {
      ScanNeverChangesOutcome(timeout, enabled, content1, content2, j + 1);
    }
  }

  /** With the default timeout there are at most 120 checks: a wait that ends
      done does so at one of checks 0..119, and one that times out has seen the
      button disabled at all 120 of them. */
  lemma DefaultTimeoutChecks(enabled: nat -> bool, content: nat -> Option<string>)
    ensures var w := WaitForProcessing(DefaultTimeout, enabled, content);
      (w.outcome.Done? ==> w.outcome.check < 120) &&
      (w.outcome.TimedOut? <==> forall i: nat :: i < 120 ==> !enabled(i))
  {
    var w := WaitForProcessing(DefaultTimeout, enabled, content);
    assert forall i: nat :: Elapsed(i) < DefaultTimeout <==> i < 120;
  }
}
