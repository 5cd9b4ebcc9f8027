/**
 * The assertions `testVerifyFlags` makes on one child run, and the driver
 * that runs the four flag combinations one after another. Each assertion
 * of the test library throws on violation, so a run reports the first
 * violated assertion, and the driver stops at the first failing run.
 */
module Verdict {
  import opened Wrappers
  import opened Markers
  import opened Invocation

  /** What the child process leaves behind: its exit value and its output. */
  datatype CapturedResult = CapturedResult(exitCode: int, text: string)

  /** The assertion that failed. */
  datatype Failure =
    | WrongExitValue(exitCode: int)
    | CorruptedMarker(family: Family)
    | MissingMarker(family: Family)
    | UnexpectedMarker(family: Family)

  /** The flag that governs a family in a combination. */
  function Expected(verifyBeforeGC: bool, verifyAfterGC: bool, f: Family): bool
  {
    match f
    case BeforeGC => verifyBeforeGC
    case AfterGC => verifyAfterGC
  }

  /** `shouldMatch` when the flag is set, `shouldNotMatch` otherwise, for the well-formed pattern. */
  function ExpectWellFormed(text: string, f: Family, expected: bool): (o: Outcome<Failure>)
    ensures o.Pass? <==> (WellFormedOccurs(text, f) <==> expected)
    ensures o.Fail? ==> o.error == (if expected then MissingMarker(f) else UnexpectedMarker(f))
  {
    if expected && !WellFormedOccurs(text, f) then Fail(MissingMarker(f))
    else if !expected && WellFormedOccurs(text, f) then Fail(UnexpectedMarker(f))
    else Pass
  }

  /**
   * The assertions on one run, in the order the test makes them: exit value
   * 0, no corrupted before-GC marker, no corrupted after-GC marker, then the
   * well-formed before-GC and after-GC markers present exactly when their
   * flag is set.
   */
  function Check(verifyBeforeGC: bool, verifyAfterGC: bool, r: CapturedResult): (o: Outcome<Failure>)
    ensures o.Pass? <==>
      && r.exitCode == 0
      && !CorruptedOccurs(r.text, BeforeGC)
      && !CorruptedOccurs(r.text, AfterGC)
      && (WellFormedOccurs(r.text, BeforeGC) <==> verifyBeforeGC)
      && (WellFormedOccurs(r.text, AfterGC) <==> verifyAfterGC)
    ensures (o.Fail? && o.error.WrongExitValue?) <==> r.exitCode != 0
    ensures o.Fail? && o.error.WrongExitValue? ==> o.error.exitCode == r.exitCode
    ensures o.Fail? && o.error.CorruptedMarker? ==> r.exitCode == 0 && CorruptedOccurs(r.text, o.error.family)
    ensures o.Fail? && o.error.MissingMarker? ==>
      Expected(verifyBeforeGC, verifyAfterGC, o.error.family) && !WellFormedOccurs(r.text, o.error.family)
    ensures o.Fail? && o.error.UnexpectedMarker? ==>
      !Expected(verifyBeforeGC, verifyAfterGC, o.error.family) && WellFormedOccurs(r.text, o.error.family)
    // The order of the assertions: each failure implies that every earlier assertion held.
    ensures o == Fail(CorruptedMarker(AfterGC)) ==> !CorruptedOccurs(r.text, BeforeGC)
    ensures o.Fail? && (o.error.MissingMarker? || o.error.UnexpectedMarker?) ==>
      && r.exitCode == 0
      && !CorruptedOccurs(r.text, BeforeGC)
      && !CorruptedOccurs(r.text, AfterGC)
    ensures o.Fail? && (o.error.MissingMarker? || o.error.UnexpectedMarker?) && o.error.family == AfterGC ==>
      (WellFormedOccurs(r.text, BeforeGC) <==> verifyBeforeGC)
  {
    if r.exitCode != 0 then Fail(WrongExitValue(r.exitCode))
    else if CorruptedOccurs(r.text, BeforeGC) then Fail(CorruptedMarker(BeforeGC))
    else if CorruptedOccurs(r.text, AfterGC) then Fail(CorruptedMarker(AfterGC))
    else
      var before := ExpectWellFormed(r.text, BeforeGC, verifyBeforeGC);
      if before.Fail? then before else ExpectWellFormed(r.text, AfterGC, verifyAfterGC)
  }

  /** One captured output passes the checks of at most one combination. */
  lemma OneCombinationPerOutput(r: CapturedResult, b1: bool, a1: bool, b2: bool, a2: bool)
    requires Check(b1, a1, r).Pass? && Check(b2, a2, r).Pass?
    ensures b1 == b2 && a1 == a2
  {
  }

  /**
   * A marker whose bracket holds only whitespace is neither well-formed nor
   * corrupted, so a run printing it passes with both flags off.
   */
  lemma BlankMarkerGoesUnnoticed()
    ensures Check(false, false, CapturedResult(0, Head(BeforeGC) + "[Verifying ]")).Pass?
  {
    var h := Head(BeforeGC);
    var tail := "[Verifying ]";
    var s := h + tail;
    NotExhaustive(BeforeGC);
    assert ':' !in tail;
    forall p: nat | p <= |s| ensures !StartsWith(s[p..], Head(AfterGC)) {
      if p + |Head(AfterGC)| <= |s| {
        if p == 1 {
          assert s[1] == h[1];
          NotStartsWith(s[p..], Head(AfterGC), 0);
        } else if p == 0 {
          assert s[13] == h[13];
          NotStartsWith(s[p..], Head(AfterGC), 13);
        } else {
          assert s[p + 13] == tail[p - 2];
          NotStartsWith(s[p..], Head(AfterGC), 13);
        }
      }
    }
    AbsentMarker(s, AfterGC);
  }

  // ---------------------------------------------------------------------
  // The driver.
  // ---------------------------------------------------------------------

  /** Launching a child: from its argument list to what it leaves behind. */
  type Launcher = seq<string> -> CapturedResult

  /** A failing run: its combination and its first failed assertion. */
  datatype RunFailure = RunFailure(verifyBeforeGC: bool, verifyAfterGC: bool, failure: Failure)

  /** The flag pairs the driver runs, in order. */
  const Combinations: seq<(bool, bool)> := [(false, false), (true, true), (true, false), (false, true)]

  lemma CombinationsCoverAllPairs()
    ensures |Combinations| == 4
    ensures forall i, j :: 0 <= i < j < |Combinations| ==> Combinations[i] != Combinations[j]
    ensures forall b: bool, a: bool :: (b, a) in Combinations
  {
  }

  /** One run of `testVerifyFlags` for the pair `c`. */
  function RunCombination(c: (bool, bool), opts: Option<seq<string>>, launch: Launcher): Outcome<Failure>
  {
    Check(c.0, c.1, launch(ArgumentList(c.0, c.1, opts)))
  }

  /** What running one flag pair yields; the driver needs nothing else about a run. */
  type Runner = ((bool, bool)) -> Outcome<Failure>

  /** Run the pair `c`; on failure report it, otherwise go on with `next`. */
  function Step(c: (bool, bool), run: Runner, next: Outcome<RunFailure>): Outcome<RunFailure>
  {
    match run(c)
    case Fail(f) => Fail(RunFailure(c.0, c.1, f))
    case Pass => next
  }

  /** The runs of `combos`, in order, stopping at the first failure. */
  function RunAll(combos: seq<(bool, bool)>, run: Runner): Outcome<RunFailure>
  {
    if combos == [] then Pass
    else Step(combos[0], run, RunAll(combos[1..], run))
  }

  /** The runs the driver makes with these options and this launcher. */
  function Runs(opts: Option<seq<string>>, launch: Launcher): Runner
  {
    c => RunCombination(c, opts, launch)
  }

  /** The driver's verdict over the fixed combination matrix. */
  function Drive(opts: Option<seq<string>>, launch: Launcher): Outcome<RunFailure>
  {
    RunAll(Combinations, Runs(opts, launch))
  }

  /** A sequence of runs passes exactly when each of its runs passes. */
  lemma {:induction false} RunAllPasses(combos: seq<(bool, bool)>, run: Runner)
    ensures RunAll(combos, run).Pass? <==> forall i :: 0 <= i < |combos| ==> run(combos[i]).Pass?
  {
    if combos != [] {
      RunAllPasses(combos[1..], run);
      assert forall i :: 1 <= i < |combos| ==> combos[i] == combos[1..][i - 1];
    }
  }

  /** The position of the first failing run of `combos` (`|combos|` when all pass). */
  function FirstFailing(combos: seq<(bool, bool)>, run: Runner): nat
  {
    if combos == [] then 0
    else if run(combos[0]).Fail? then 0
    else 1 + FirstFailing(combos[1..], run)
  }

  /** A failure names the first failing run of the sequence and that run's failed assertion. */
  lemma {:induction false} RunAllReportsFirstFailure(combos: seq<(bool, bool)>, run: Runner)
    requires RunAll(combos, run).Fail?
    ensures var e := RunAll(combos, run).error;
      var i := FirstFailing(combos, run);
      && i < |combos|
      && combos[i] == (e.verifyBeforeGC, e.verifyAfterGC)
      && run(combos[i]) == Fail(e.failure)
      && forall j :: 0 <= j < i ==> run(combos[j]).Pass?
  {
    assert combos != [];
    if run(combos[0]).Pass? {
      var rest := combos[1..];
      RunAllReportsFirstFailure(rest, run);
      var i := FirstFailing(rest, run);
      assert combos[i + 1] == rest[i];
      forall j | 0 <= j < i + 1 ensures run(combos[j]).Pass? {
        if j > 0 { assert combos[j] == rest[j - 1]; }
      }
    }
  }

  /** The driver passes exactly when the checks pass for every pair of flag values. */
  lemma DrivePassesIffEveryPairPasses(opts: Option<seq<string>>, launch: Launcher)
    ensures Drive(opts, launch).Pass? <==>
      forall b: bool, a: bool :: Check(b, a, launch(ArgumentList(b, a, opts))).Pass?
  {
    var run := Runs(opts, launch);
    RunAllPasses(Combinations, run);
    CombinationsCoverAllPairs();
    if Drive(opts, launch).Pass? {
      forall b: bool, a: bool ensures Check(b, a, launch(ArgumentList(b, a, opts))).Pass? {
        var i :| 0 <= i < |Combinations| && Combinations[i] == (b, a);
        assert run(Combinations[i]).Pass?;
      }
    } else {
      var i :| 0 <= i < |Combinations| && !run(Combinations[i]).Pass?;
      assert !Check(Combinations[i].0, Combinations[i].1,
        launch(ArgumentList(Combinations[i].0, Combinations[i].1, opts))).Pass?;
    }
  }

  /** The driver's verdict with its four runs written out in order. */
  lemma DriveSteps(opts: Option<seq<string>>, launch: Launcher)
    ensures var run := Runs(opts, launch);
      Drive(opts, launch) ==
        Step((false, false), run,
          Step((true, true), run,
            Step((true, false), run,
              Step((false, true), run, Pass))))
  {
    var run := Runs(opts, launch);
    var c0 := Combinations;
    var c1 := [(true, true), (true, false), (false, true)];
    var c2 := [(true, false), (false, true)];
    var c3 := [(false, true)];
    assert c0[1..] == c1 && c1[1..] == c2 && c2[1..] == c3 && c3[1..] == [];
    assert RunAll(c3, run) == Step((false, true), run, Pass);
    assert RunAll(c2, run) == Step((true, false), run, RunAll(c3, run));
    assert RunAll(c1, run) == Step((true, true), run, RunAll(c2, run));
    assert RunAll(c0, run) == Step((false, false), run, RunAll(c1, run));
  }

  /** One run: build the command line, launch the child, make the assertions. */
  method TestVerifyFlags(verifyBeforeGC: bool, verifyAfterGC: bool, opts: Option<seq<string>>, launch: Launcher)
    returns (outcome: Outcome<Failure>)
    ensures outcome == Check(verifyBeforeGC, verifyAfterGC, launch(ArgumentList(verifyBeforeGC, verifyAfterGC, opts)))
  {
    var vmOpts := BuildVmOpts(verifyBeforeGC, verifyAfterGC, opts);
    var analyzer := launch(vmOpts);
    outcome := Check(verifyBeforeGC, verifyAfterGC, analyzer);
  }

  /** The driver's four calls, in order; a failing call ends the run. */
  method RunMatrix(opts: Option<seq<string>>, launch: Launcher) returns (outcome: Outcome<RunFailure>)
    ensures outcome == Drive(opts, launch)
  {
    DriveSteps(opts, launch);
    var o := TestVerifyFlags(false, false, opts, launch);
    if o.Fail? { return Fail(RunFailure(false, false, o.error)); }
    o := TestVerifyFlags(true, true, opts, launch);
    if o.Fail? { return Fail(RunFailure(true, true, o.error)); }
    o := TestVerifyFlags(true, false, opts, launch);
    if o.Fail? { return Fail(RunFailure(true, false, o.error)); }
    o := TestVerifyFlags(false, true, opts, launch);
    if o.Fail? { return Fail(RunFailure(false, true, o.error)); }
    outcome := Pass;
  }
}
