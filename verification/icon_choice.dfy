/** The icon-choice rule of `randomize_icons`: which icons of the selection
    dialog may be chosen, the reset of the run's used-set when none can, and
    how that set evolves from one choice to the next. An icon is known by its
    `src`; a missing `src` attribute is modelled as the empty string, which the
    source treats the same way (both are falsy). */
module IconChoice {
  import opened Wrappers

  /** Positions `from..` of the dialog whose src is non-empty and not yet used, in dialog order. */
  function CandidatesFrom(srcs: seq<string>, used: set<string>, from: nat): (r: seq<nat>)
    requires from <= |srcs|
    ensures forall j: nat :: j in r <==> from <= j < |srcs| && srcs[j] != "" && srcs[j] !in used
    ensures forall a, b :: 0 <= a < b < |r| ==> r[a] < r[b]
    decreases |srcs| - from
  {
    if from == |srcs| then []
    else
      var rest := CandidatesFrom(srcs, used, from + 1);
      assert forall b :: 0 <= b < |rest| ==> rest[b] in rest;
      if srcs[from] != "" && srcs[from] !in used then [from] + rest else rest
  }

  /** The candidates of a dialog: the positions, in dialog order, of the icons
      whose src is non-empty and not in the used-set. */
  function Candidates(srcs: seq<string>, used: set<string>): (r: seq<nat>)
    ensures forall j: nat :: j in r <==> j < |srcs| && srcs[j] != "" && srcs[j] !in used
    ensures forall a, b :: 0 <= a < b < |r| ==> r[a] < r[b]
  {
    CandidatesFrom(srcs, used, 0)
  }

  /** The set after `src` has been recorded in it: only a non-empty src is recorded. */
  function Record(used: set<string>, src: string): set<string>
  {
    if src != "" then used + {src} else used
  }

  /** One choice: the srcs the dialog offered, the position clicked, its src,
      whether the used-set was cleared before choosing, and the used-set after
      the choice. */
  datatype Choice = Choice(offered: seq<string>, position: nat, src: string, reset: bool, used: set<string>)

  /** Every icon of the dialog has an empty or an already-used src. */
  predicate Exhausted(srcs: seq<string>, used: set<string>)
  {
    forall j :: 0 <= j < |srcs| ==> srcs[j] == "" || srcs[j] in used
  }

  /** The rule one choice obeys against the used-set it was drawn with: the src
      is the one at the clicked position; the set is cleared exactly when the
      dialog offered no unused icon; without a reset the position is a
      candidate, so its src is new, and it is added; with a reset the set
      restarts from the src alone. */
  predicate StepOk(before: set<string>, c: Choice)
  {
    && c.position < |c.offered| && c.src == c.offered[c.position]
    && (c.reset <==> Exhausted(c.offered, before))
    && (!c.reset ==> c.position in Candidates(c.offered, before))
    && (!c.reset ==> c.src != "" && c.src !in before && c.used == before + {c.src})
    && (c.reset ==> c.used == Record({}, c.src))
  }

  /** Lines 127-143: no choice for a dialog without icons; otherwise pick among the
      candidates, or among all icons after clearing the used-set when there are
      none, and record the chosen src. `random.choice` is the caller's `draw`,
      taken modulo the number of options. */
  function ChooseIcon(srcs: seq<string>, used: set<string>, draw: nat): (r: Option<Choice>)
    ensures r.None? <==> |srcs| == 0
    ensures r.Some? ==> r.value.offered == srcs
    ensures r.Some? ==> r.value.position < |srcs| && r.value.src == srcs[r.value.position]
    ensures r.Some? ==> (r.value.reset <==> Exhausted(srcs, used))
    ensures r.Some? ==> StepOk(used, r.value)
    ensures r.Some? && !r.value.reset ==> r.value.position in Candidates(srcs, used)
  {
    if |srcs| == 0 then None
    else
      var candidates := Candidates(srcs, used);
      if |candidates| > 0 then
        var p := candidates[draw % |candidates|];
        assert p in candidates;
        Some(Choice(srcs, p, srcs[p], false, used + {srcs[p]}))
      else
        assert Exhausted(srcs, used);
        var p := draw % |srcs|;
        Some(Choice(srcs, p, srcs[p], true, Record({}, srcs[p])))
  }

  /** Every candidate is chosen by some draw: draw `m` picks the `m`-th candidate. */
  lemma EveryCandidateReachable(srcs: seq<string>, used: set<string>, m: nat)
    requires m < |Candidates(srcs, used)|
    ensures ChooseIcon(srcs, used, m).Some?
    ensures ChooseIcon(srcs, used, m).value.position == Candidates(srcs, used)[m]
  {
    var candidates := Candidates(srcs, used);
    assert candidates[m] in candidates;
    ModBelow(m, |candidates|);
  }

  /** A draw below the number of options picks the option it names. */
  lemma ModBelow(m: nat, n: nat)
    requires m < n
    ensures m % n == m
  {
  }

  /** After a reset every icon of the dialog is chosen by some draw. */
  lemma EveryIconReachableAfterReset(srcs: seq<string>, used: set<string>, p: nat)
    requires p < |srcs| && Exhausted(srcs, used)
    ensures ChooseIcon(srcs, used, p).Some?
    ensures ChooseIcon(srcs, used, p).value.position == p
  {
    assert forall j: nat :: j !in Candidates(srcs, used);
    ModBelow(p, |srcs|);
  }

  /** The used-set before choice `m` of a run that started from `used0`. */
  function UsedBefore(run: seq<Choice>, used0: set<string>, m: nat): set<string>
    requires m <= |run|
  {
    if m == 0 then used0 else run[m - 1].used
  }

  /** Choice `m` of the run obeyed the rule against the set left by the one before. */
  predicate StepAt(run: seq<Choice>, used0: set<string>, m: nat)
    requires m < |run|
  {
    StepOk(UsedBefore(run, used0, m), run[m])
  }

  /** Each choice of the run obeyed the rule against the set left by the one before. */
  predicate ValidRun(run: seq<Choice>, used0: set<string>)
  {
    forall m: nat :: m < |run| ==> StepAt(run, used0, m)
  }

  /** Between resets the used-set only grows. */
  lemma {:induction false} UsedGrowsBetweenResets(run: seq<Choice>, used0: set<string>, a: nat, b: nat)
    requires ValidRun(run, used0)
    requires a < b <= |run|
    requires forall m :: a < m < b ==> !run[m].reset
    ensures run[a].used <= UsedBefore(run, used0, b)
    decreases b - a
  {
    if b > a + 1 {
      UsedGrowsBetweenResets(run, used0, a, b - 1);
      assert StepAt(run, used0, b - 1);
    }
  }

  /** A src chosen in a run is not chosen again until the used-set has been
      reset, that is, until every icon of a dialog had been used. */
  lemma NoRepeatBetweenResets(run: seq<Choice>, used0: set<string>, a: nat, b: nat)
    requires ValidRun(run, used0)
    requires a < b < |run|
    requires forall m :: a < m <= b ==> !run[m].reset
    requires run[a].src != ""
    ensures run[a].src != run[b].src
  {
    UsedGrowsBetweenResets(run, used0, a, b);
    assert StepAt(run, used0, a);
    assert StepAt(run, used0, b);
  }

  /** A valid run extended at the front by a choice that obeys the rule is valid. */
  lemma ValidRunCons(c: Choice, rest: seq<Choice>, used0: set<string>)
    requires StepOk(used0, c) && ValidRun(rest, c.used)
    ensures ValidRun([c] + rest, used0)
  {
    var run := [c] + rest;
    forall m: nat | m < |run| ensures StepAt(run, used0, m) {
      if m > 0 {
        assert run[m] == rest[m - 1];
        assert UsedBefore(run, used0, m) == UsedBefore(rest, c.used, m - 1);
        assert StepAt(rest, c.used, m - 1);
      }
    }
  }

  /** A src chosen in a run is not chosen again as long as every dialog in
      between still offered an unused icon. */
  lemma NoRepeatWhileIconsLeft(run: seq<Choice>, used0: set<string>, a: nat, b: nat)
    requires ValidRun(run, used0)
    requires a < b < |run|
    requires forall m :: a < m <= b ==> !Exhausted(run[m].offered, UsedBefore(run, used0, m))
    requires run[a].src != ""
    ensures run[a].src != run[b].src
  {
    forall m | a < m <= b ensures !run[m].reset {
      assert StepAt(run, used0, m);
    }
    NoRepeatBetweenResets(run, used0, a, b);
  }
}
