/**
 * The iterative multi-objective solve of ProblemImpl: solve for one objective,
 * pin its value with a constraint, go on to the next.  The backend solver is a
 * parameter: `answers(i)` is what solve number i of a run reports, and `late(i)`
 * whether the time limit is hit after it.
 */
module MultiObjective {
  import opened Options

  datatype Status = OptimalFound | SolutionFound | NoSolutionExists | SolutionNotFound

  /** A solve's status and the variable values it leaves. */
  datatype Answer<P> = Answer(status: Status, point: P)

  datatype AllowedWorsening = AllowedWorsening(percent: real, absolute: real)

  /** Multi-objective configuration: the time-limit parameters that are set, and
      the allowed worsening per objective position. */
  datatype Config = Config(timeLimits: set<string>, worsening: map<nat, AllowedWorsening>)

  /** A constraint of the caller, or an objective pinned to a bound. */
  datatype Constraint<!P> = Given(holds: P -> bool) | Pin(objective: P -> real, bound: real)

  predicate Holds<P>(c: Constraint<P>, x: P) {
    match c
    case Given(holds) => holds(x)
    case Pin(objective, bound) => objective(x) - bound <= 0.0
  }

  ghost predicate Feasible<P>(cs: seq<Constraint<P>>, x: P) {
    forall i | 0 <= i < |cs| :: Holds(cs[i], x)
  }

  // ---- pinned bounds ----

  /** The value an objective may worsen to. */
  function WorsenUntil(value: real, w: AllowedWorsening): real {
    var relative := value * (1.0 + w.percent / 100.0);
    var absolute := value + w.absolute;
    if relative < absolute then absolute else relative
  }

  function Bound(config: Option<Config>, pos: nat, value: real): real {
    if config.Some? && pos in config.value.worsening then WorsenUntil(value, config.value.worsening[pos]) else value
  }

  /** The bounds a configuration leads to, by objective position and value. */
  function BoundsOf(config: Option<Config>): (nat, real) -> real {
    (pos: nat, value: real) => Bound(config, pos, value)
  }

  /** No value is ever pinned below itself. */
  ghost predicate NeverTightens(bound: (nat, real) -> real) {
    forall pos: nat, value: real :: bound(pos, value) >= value
  }

  ghost predicate NoWorsening(bound: (nat, real) -> real) {
    forall pos: nat, value: real :: bound(pos, value) == value
  }

  /** One entry never tightens, whatever the value, exactly when its absolute
      part is not negative or it has no percentage. */
  lemma EntryNeverTightens(w: AllowedWorsening)
    ensures (forall value: real :: WorsenUntil(value, w) >= value) <==> w.absolute >= 0.0 || w.percent == 0.0
  {
    if w.absolute < 0.0 && w.percent != 0.0 {
      var value := -w.percent;
      assert value * (1.0 + w.percent / 100.0) == value - w.percent * w.percent / 100.0;
      assert w.percent * w.percent > 0.0;
      assert WorsenUntil(value, w) < value;
    }
    if w.percent == 0.0 {
      forall value: real ensures WorsenUntil(value, w) >= value {
        assert value * (1.0 + w.percent / 100.0) == value * 1.0 == value;
      }
    }
  }

  /** No entry has both a negative absolute part and a percentage. */
  predicate Lenient(config: Option<Config>) {
    config.Some? ==> forall pos: nat | pos in config.value.worsening ::
      config.value.worsening[pos].absolute >= 0.0 || config.value.worsening[pos].percent == 0.0
  }

  /** When pinning cannot cut off the point just found. */
  lemma NeverTightensWhen(config: Option<Config>)
    ensures NeverTightens(BoundsOf(config)) <==> Lenient(config)
  {
    var bound := BoundsOf(config);
    forall pos: nat
      ensures (forall value: real :: bound(pos, value) >= value) <==>
              (config.Some? && pos in config.value.worsening ==>
                 config.value.worsening[pos].absolute >= 0.0 || config.value.worsening[pos].percent == 0.0)
    {
      if config.Some? && pos in config.value.worsening {
        EntryNeverTightens(config.value.worsening[pos]);
        assert forall value: real :: bound(pos, value) == WorsenUntil(value, config.value.worsening[pos]);
      }
    }
  }

  // ---- one run ----

  /** A run's inputs: given constraints, objectives, bounds for pins and answers. */
  datatype Run<!P> = Run(given: seq<Constraint<P>>, objectives: seq<P -> real>, bound: (nat, real) -> real,
                         answers: nat -> Answer<P>)

  /** The constraints in force during solve number `i`: the given ones and a pin
      per earlier objective. */
  function ConstraintsAt<P>(run: Run<P>, i: nat): seq<Constraint<P>>
    requires i <= |run.objectives|
  {
    if i == 0 then run.given
    else
      var objective := run.objectives[i - 1];
      ConstraintsAt(run, i - 1) + [Pin(objective, run.bound(i - 1, objective(run.answers(i - 1).point)))]
  }

  lemma ConstraintsStep<P>(run: Run<P>, i: nat)
    requires i < |run.objectives|
    ensures ConstraintsAt(run, i + 1)
            == ConstraintsAt(run, i) + [Pin(run.objectives[i], run.bound(i, run.objectives[i](run.answers(i).point)))]
  {
  }

  /** What an exact solver may answer. */
  ghost predicate ExactAnswer<P(!new)>(a: Answer<P>, cs: seq<Constraint<P>>, objective: P -> real) {
    match a.status
    case OptimalFound => Feasible(cs, a.point) && forall y | Feasible(cs, y) :: objective(a.point) <= objective(y)
    case SolutionFound => Feasible(cs, a.point)
    case NoSolutionExists => forall y :: !Feasible(cs, y)
    case SolutionNotFound => true
  }

  ghost predicate ExactUpTo<P(!new)>(run: Run<P>, n: nat)
    requires n <= |run.objectives|
  {
    forall i | 0 <= i < n :: ExactAt(run, i)
  }

  ghost predicate ExactAt<P(!new)>(run: Run<P>, i: nat)
    requires i < |run.objectives|
  {
    ExactAnswer(run.answers(i), ConstraintsAt(run, i), run.objectives[i])
  }

  predicate Found(s: Status) { s == OptimalFound || s == SolutionFound }

  // ---- what the pins guarantee ----

  /** A point meets the constraints of solve `i` exactly when it meets the given
      ones and every earlier pin. */
  lemma {:induction false} FeasibleMeans<P>(run: Run<P>, i: nat, x: P)
    requires i <= |run.objectives|
    ensures Feasible(ConstraintsAt(run, i), x) <==>
            Feasible(run.given, x) && forall j | 0 <= j < i :: MeetsPin(run, j, x)
  {
    if i > 0 {
      FeasibleMeans(run, i - 1, x);
      FeasibleStep(run, i - 1, x);
    }
  }

  lemma FeasibleStep<P>(run: Run<P>, i: nat, x: P)
    requires i < |run.objectives|
    ensures Feasible(ConstraintsAt(run, i + 1), x) <==> Feasible(ConstraintsAt(run, i), x) && MeetsPin(run, i, x)
  {
    var cs, next := ConstraintsAt(run, i), ConstraintsAt(run, i + 1);
    assert |next| == |cs| + 1 && forall k | 0 <= k < |cs| :: cs[k] == next[k];
    assert next[|cs|].Pin? && (Holds(next[|cs|], x) <==> MeetsPin(run, i, x));
  }

  predicate MeetsPin<P>(run: Run<P>, j: nat, x: P)
    requires j < |run.objectives|
  {
    run.objectives[j](x) <= run.bound(j, run.objectives[j](run.answers(j).point))
  }

  /** The point of solve `n - 1` meets the given constraints and the pinned bounds
      of all earlier objectives, whatever worsening is allowed. */
  lemma FinalPointMeetsPins<P(!new)>(run: Run<P>, n: nat)
    requires 1 <= n <= |run.objectives| && ExactUpTo(run, n) && Found(run.answers(n - 1).status)
    ensures var x := run.answers(n - 1).point;
            Feasible(run.given, x) && forall j | 0 <= j < n - 1 :: MeetsPin(run, j, x)
  {
    assert ExactAt(run, n - 1);
    FeasibleMeans(run, n - 1, run.answers(n - 1).point);
  }

  /** The point just found stays feasible for the next solve exactly when its pin
      is not below its value. */
  lemma NextStaysFeasible<P(!new)>(run: Run<P>, i: nat)
    requires i < |run.objectives| && ExactUpTo(run, i + 1) && Found(run.answers(i).status)
    ensures Feasible(ConstraintsAt(run, i + 1), run.answers(i).point) <==>
            var v := run.objectives[i](run.answers(i).point); run.bound(i, v) >= v
  {
    assert ExactAt(run, i);
    FeasibleStep(run, i, run.answers(i).point);
  }

  /** Under exact answers only the first solve can be infeasible. */
  lemma OnlyFirstInfeasible<P(!new)>(run: Run<P>, i: nat)
    requires 0 < i < |run.objectives| && ExactUpTo(run, i + 1) && NeverTightens(run.bound)
    requires Found(run.answers(i - 1).status)
    ensures run.answers(i).status != NoSolutionExists
  {
    NextStaysFeasible(run, i - 1);
    assert ExactAt(run, i);
  }

  // ---- lexicographic optimality ----

  /** `x` is at least as good as `y`, objectives compared from position `i` on. */
  ghost predicate LexLe<P>(objectives: seq<P -> real>, i: nat, x: P, y: P)
    requires i <= |objectives|
    decreases |objectives| - i
  {
    i == |objectives| || objectives[i](x) < objectives[i](y)
    || (objectives[i](x) == objectives[i](y) && LexLe(objectives, i + 1, x, y))
  }

  /** From objective `i` on, the last point is lexicographically no worse than any
      point that agrees with it before `i`. */
  lemma {:induction false} LexFrom<P(!new)>(run: Run<P>, i: nat, x: P, y: P)
    requires var n := |run.objectives|; 1 <= n && i <= n && ExactUpTo(run, n) && x == run.answers(n - 1).point
    requires NoWorsening(run.bound)
    requires forall j | 0 <= j < |run.objectives| :: run.answers(j).status == OptimalFound
    requires Feasible(run.given, y) && forall j | 0 <= j < i :: run.objectives[j](x) == run.objectives[j](y)
    ensures LexLe(run.objectives, i, x, y)
    decreases |run.objectives| - i
  {
    if i < |run.objectives| {
      LexStep(run, i, x, y);
      if run.objectives[i](x) == run.objectives[i](y) { LexFrom(run, i + 1, x, y); }
    }
  }

  lemma LexStep<P(!new)>(run: Run<P>, i: nat, x: P, y: P)
    requires var n := |run.objectives|; i < n && ExactUpTo(run, n) && x == run.answers(n - 1).point
    requires NoWorsening(run.bound)
    requires forall j | 0 <= j < |run.objectives| :: run.answers(j).status == OptimalFound
    requires Feasible(run.given, y) && forall j | 0 <= j < i :: run.objectives[j](x) == run.objectives[j](y)
    ensures run.objectives[i](x) <= run.objectives[i](run.answers(i).point) <= run.objectives[i](y)
  {
    FinalPointMeetsPins(run, |run.objectives|);
    forall j | 0 <= j < i ensures MeetsPin(run, j, y) {
      assert MeetsPin(run, j, x);
    }
    OptimalWithinPins(run, i, y);
    if i < |run.objectives| - 1 { assert MeetsPin(run, i, x); }
  }

  /** With an exact solver, every objective solved to optimality and no allowed
      worsening, the last point is feasible and lexicographically minimal among
      all points that meet the given constraints. */
  lemma LexicographicallyMinimal<P(!new)>(run: Run<P>)
    requires |run.objectives| >= 1 && ExactUpTo(run, |run.objectives|) && NoWorsening(run.bound)
    requires forall j | 0 <= j < |run.objectives| :: run.answers(j).status == OptimalFound
    ensures var x := run.answers(|run.objectives| - 1).point;
            && Feasible(run.given, x)
            && forall y | Feasible(run.given, y) :: LexLe(run.objectives, 0, x, y)
  {
    var x := run.answers(|run.objectives| - 1).point;
    FinalPointMeetsPins(run, |run.objectives|);
    forall y | Feasible(run.given, y) ensures LexLe(run.objectives, 0, x, y) {
      LexFrom(run, 0, x, y);
    }
  }

  /** With worsening allowed, each objective is still optimal among the points
      that meet the given constraints and the bounds pinned before it. */
  lemma OptimalWithinPins<P(!new)>(run: Run<P>, i: nat, y: P)
    requires i < |run.objectives| && ExactUpTo(run, i + 1) && run.answers(i).status == OptimalFound
    requires Feasible(run.given, y) && forall j | 0 <= j < i :: MeetsPin(run, j, y)
    ensures run.objectives[i](run.answers(i).point) <= run.objectives[i](y)
  {
    assert ExactAt(run, i);
    FeasibleMeans(run, i, y);
  }

  // ---- the final status ----

  /** saveFinalSolveStatus, from the results collected so far. */
  function FinalStatus(results: seq<Status>, numObjectives: nat): Status {
    var perType := multiset(results);
    if perType[NoSolutionExists] > 0 then NoSolutionExists
    else if perType[OptimalFound] == numObjectives then OptimalFound
    else if perType[OptimalFound] + perType[SolutionFound] > 0 then SolutionFound
    else SolutionNotFound
  }

  /** The statuses of the first `n` solves. */
  function Statuses<P>(answers: nat -> Answer<P>, n: nat): (s: seq<Status>)
    ensures |s| == n && forall i | 0 <= i < n :: s[i] == answers(i).status
  {
    seq(n, i requires 0 <= i => answers(i).status)
  }

  lemma OneStatus<P>(before: seq<Status>, answers: nat -> Answer<P>)
    ensures before + Statuses(answers, 1) == before + [answers(0).status]
  {
  }

  lemma StatusesStep<P>(before: seq<Status>, answers: nat -> Answer<P>, n: nat)
    ensures before + Statuses(answers, n + 1) == before + Statuses(answers, n) + [answers(n).status]
  {
  }

  lemma {:induction false} AllOfOneKind(results: seq<Status>, s: Status)
    ensures multiset(results)[s] <= |results|
    ensures multiset(results)[s] == |results| <==> forall i | 0 <= i < |results| :: results[i] == s
  {
    if results != [] {
      AllOfOneKind(results[1..], s);
      assert results == [results[0]] + results[1..];
    }
  }

  /** On results of one run only, OPTIMAL_FOUND means every objective was solved,
      and solved to optimality. */
  lemma OptimalMeansAllOptimal(results: seq<Status>, n: nat)
    requires |results| <= n && n >= 1
    ensures FinalStatus(results, n) == OptimalFound <==>
            |results| == n && forall i | 0 <= i < n :: results[i] == OptimalFound
  {
    AllOfOneKind(results, OptimalFound);
    if |results| == n && forall i | 0 <= i < n :: results[i] == OptimalFound {
      assert NoSolutionExists !in multiset(results);
    }
  }

  /** The first `n` solves found something, in time. */
  ghost predicate WentOn<P>(answers: nat -> Answer<P>, late: nat -> bool, n: nat) {
    forall i | 0 <= i < n :: Found(answers(i).status) && !late(i)
  }

  /** A run stops at the first solve without a solution, or when time is up. */
  ghost predicate StopsAfter<P>(answers: nat -> Answer<P>, late: nat -> bool, solved: nat, n: nat) {
    && 1 <= solved <= n
    && WentOn(answers, late, solved - 1)
    && (solved < n ==> !Found(answers(solved - 1).status) || late(solved - 1))
  }

  /** With an exact solver and pins that never tighten, NO_SOLUTION_EXISTS is
      reported exactly when the first solve reports it, and then nothing meets the
      given constraints; any found status comes with a point that does. */
  lemma StatusMeaning<P(!new)>(run: Run<P>, late: nat -> bool, solved: nat)
    requires StopsAfter(run.answers, late, solved, |run.objectives|) && ExactUpTo(run, solved) && NeverTightens(run.bound)
    ensures var status := FinalStatus(Statuses(run.answers, solved), |run.objectives|);
            && (status == NoSolutionExists <==> run.answers(0).status == NoSolutionExists)
            && (status == NoSolutionExists ==> forall y :: !Feasible(run.given, y))
            && (status == SolutionNotFound <==> run.answers(0).status == SolutionNotFound)
            && (Found(status) ==> exists y :: Feasible(run.given, y))
  {
    var results := Statuses(run.answers, solved);
    assert ExactAt(run, 0);
    if NoSolutionExists in multiset(results) {
      var i :| 0 <= i < |results| && results[i] == NoSolutionExists;
      if i > 0 { OnlyFirstInfeasible(run, i); }
    }
    assert results[0] in multiset(results);
    if run.answers(0).status == SolutionNotFound {
      assert results == [SolutionNotFound];
    }
    FirstFound(results);
  }

  lemma FirstFound(results: seq<Status>)
    requires results != []
    ensures Found(results[0]) ==> multiset(results)[OptimalFound] + multiset(results)[SolutionFound] > 0
    ensures results[0] == NoSolutionExists ==> multiset(results)[NoSolutionExists] > 0
  {
    assert results[0] in multiset(results);
  }

  /** Reporting OPTIMAL_FOUND on a fresh run without allowed worsening is a proof
      of lexicographic minimality. */
  lemma OptimalStatusIsMinimal<P(!new)>(run: Run<P>, late: nat -> bool, solved: nat)
    requires StopsAfter(run.answers, late, solved, |run.objectives|) && ExactUpTo(run, solved) && NoWorsening(run.bound)
    requires FinalStatus(Statuses(run.answers, solved), |run.objectives|) == OptimalFound
    ensures solved == |run.objectives|
    ensures var x := run.answers(solved - 1).point;
            Feasible(run.given, x) && forall y | Feasible(run.given, y) :: LexLe(run.objectives, 0, x, y)
  {
    OptimalMeansAllOptimal(Statuses(run.answers, solved), |run.objectives|);
    assert forall j | 0 <= j < solved :: run.answers(j).status == Statuses(run.answers, solved)[j];
    LexicographicallyMinimal(run);
  }

  /** Results kept from an earlier run leave the next run's status right, whatever
      it is, exactly when that earlier run reported nothing at all. */
  lemma LeftoversMatter(prior: seq<Status>)
    ensures (forall results, n: nat | 1 <= |results| <= n :: FinalStatus(prior + results, n) == FinalStatus(results, n))
            <==> (forall i | 0 <= i < |prior| :: prior[i] == SolutionNotFound)
  {
    if forall i | 0 <= i < |prior| :: prior[i] == SolutionNotFound {
      forall results, n: nat | 1 <= |results| <= n ensures FinalStatus(prior + results, n) == FinalStatus(results, n) {
        forall s | s != SolutionNotFound ensures multiset(prior + results)[s] == multiset(results)[s] {
          assert s !in multiset(prior);
          assert multiset(prior + results) == multiset(prior) + multiset(results);
        }
      }
    } else {
      var i :| 0 <= i < |prior| && prior[i] != SolutionNotFound;
      var results := [SolutionNotFound];
      assert prior[i] in multiset(prior);
      assert multiset(prior + results) == multiset(prior) + multiset(results);
      assert FinalStatus(prior + results, 1) != FinalStatus(results, 1);
    }
  }

  /** Solving one objective to optimality twice in a row reports the second time
      only a solution. */
  lemma SolvingTwice()
    ensures FinalStatus([OptimalFound], 1) == OptimalFound
    ensures FinalStatus([OptimalFound] + [OptimalFound], 1) == SolutionFound
  {
    assert multiset([OptimalFound] + [OptimalFound])[OptimalFound] == 2;
  }

  /** A run of an exact solver that reports that no solution exists. */
  ghost predicate ReportsNone<P(!new)>(run: Run<P>, late: nat -> bool, solved: nat) {
    && StopsAfter(run.answers, late, solved, |run.objectives|) && ExactUpTo(run, solved)
    && FinalStatus(Statuses(run.answers, solved), |run.objectives|) == NoSolutionExists
  }

  /** Under a configuration, that report is always true of the given constraints. */
  ghost predicate ReportsTruly<P(!new)>(config: Option<Config>) {
    forall run: Run<P>, late: nat -> bool, solved: nat | run.bound == BoundsOf(config) && ReportsNone(run, late, solved) ::
      forall y :: !Feasible(run.given, y)
  }

  /** Objectives that are constant, with one value at `pos` and zero elsewhere. */
  function ConstantObjectives<P(!new)>(pos: nat, value: real): (s: seq<P -> real>)
    ensures |s| == pos + 2 && forall i | 0 <= i < |s| :: forall x: P :: s[i](x) == if i == pos then value else 0.0
  {
    seq(pos + 2, i => (x: P) => if i == pos then value else 0.0)
  }

  /** No given constraints; all solves up to `pos` are optimal, the next finds none. */
  function TightenedRun<P(!new)>(config: Option<Config>, pos: nat, value: real, point: P): Run<P> {
    Run([], ConstantObjectives(pos, value), BoundsOf(config), i => Answer(if i <= pos then OptimalFound else NoSolutionExists, point))
  }

  lemma ZeroNeverTightens(w: AllowedWorsening)
    ensures WorsenUntil(0.0, w) >= 0.0
  {
    assert 0.0 * (1.0 + w.percent / 100.0) == 0.0;
  }

  /** Up to `pos` every point meets every pin, after it none does. */
  lemma TightenedPins<P(!new)>(config: Option<Config>, pos: nat, value: real, point: P, i: nat, x: P)
    requires Bound(config, pos, value) < value && i <= pos + 1
    ensures Feasible(ConstraintsAt(TightenedRun(config, pos, value, point), i), x) <==> i <= pos
  {
    var run := TightenedRun(config, pos, value, point);
    FeasibleMeans(run, i, x);
    forall j | 0 <= j < i ensures MeetsPin(run, j, x) <==> j != pos {
      if config.Some? && j in config.value.worsening { ZeroNeverTightens(config.value.worsening[j]); }
    }
    if i == pos + 1 { assert !MeetsPin(run, pos, x); }
  }

  lemma TightenedIsExact<P(!new)>(config: Option<Config>, pos: nat, value: real, point: P)
    requires Bound(config, pos, value) < value
    ensures ExactUpTo(TightenedRun(config, pos, value, point), pos + 2)
  {
    var run := TightenedRun(config, pos, value, point);
    forall i | 0 <= i < pos + 2 ensures ExactAt(run, i) {
      forall x ensures Feasible(ConstraintsAt(run, i), x) <==> i <= pos { TightenedPins(config, pos, value, point, i, x); }
    }
  }

  /** A bound below its value leads to a false report on a problem without
      constraints. */
  lemma TighteningMisreports<P(!new)>(config: Option<Config>, pos: nat, value: real, point: P)
    requires Bound(config, pos, value) < value
    ensures !ReportsTruly<P>(config)
  {
    var run, late := TightenedRun(config, pos, value, point), (i: nat) => false;
    TightenedIsExact(config, pos, value, point);
    var results := Statuses(run.answers, pos + 2);
    assert results[pos + 1] in multiset(results);
    assert ReportsNone(run, late, pos + 2) && Feasible(run.given, point);
  }

  /** For every configuration: an exact solver's NO_SOLUTION_EXISTS is always true
      of the given constraints exactly when no entry has both a negative absolute
      part and a percentage. */
  lemma ReportsTrulyWhen<P(!new)>(config: Option<Config>, point: P)
    ensures ReportsTruly<P>(config) <==> Lenient(config)
  {
    NeverTightensWhen(config);
    if Lenient(config) {
      forall run: Run<P>, late: nat -> bool, solved: nat | run.bound == BoundsOf(config) && ReportsNone(run, late, solved)
        ensures forall y :: !Feasible(run.given, y)
      {
        StatusMeaning(run, late, solved);
      }
    } else {
      var pos: nat, value: real :| BoundsOf(config)(pos, value) < value;
      TighteningMisreports(config, pos, value, point);
    }
  }

  /** A negative absolute worsening pins an objective below its optimum: a feasible
      problem with two objectives is then reported as infeasible. */
  lemma TighteningLosesFeasibility()
    ensures var config := Some(Config({}, map[0 := AllowedWorsening(1.0, -1.0)]));
            var run := TightenedRun(config, 0, -1.0, 0);
            && ReportsNone(run, (i: nat) => false, 2) && Feasible(run.given, 0)
  {
    var config := Some(Config({}, map[0 := AllowedWorsening(1.0, -1.0)]));
    var run := TightenedRun(config, 0, -1.0, 0);
    assert Bound(config, 0, -1.0) == WorsenUntil(-1.0, AllowedWorsening(1.0, -1.0)) == -1.01;
    TightenedIsExact(config, 0, -1.0, 0);
    assert Statuses(run.answers, 2) == [OptimalFound, NoSolutionExists];
  }

  // ---- the solve itself ----

  /** The solve loop is about to do, or past the last objective has done, solve `pos`. */
  ghost predicate Reached<P>(run: Run<P>, late: nat -> bool, pos: nat, before: seq<Status>, results: seq<Status>,
                             constraints: seq<Constraint<P>>) {
    && pos <= |run.objectives| && run.objectives != []
    && WentOn(run.answers, late, pos)
    && results == before + Statuses(run.answers, pos)
    && constraints == ConstraintsAt(run, if pos == |run.objectives| then pos - 1 else pos)
  }

  lemma ReachNext<P>(run: Run<P>, late: nat -> bool, pos: nat, before: seq<Status>, results: seq<Status>, results': seq<Status>,
                     constraints: seq<Constraint<P>>, stop: bool)
    requires pos < |run.objectives| && WentOn(run.answers, late, pos) && results == before + Statuses(run.answers, pos)
    requires results' == results + [run.answers(pos).status]
    requires stop <==> !Found(run.answers(pos).status) || late(pos)
    requires constraints == ConstraintsAt(run, if stop || pos + 1 == |run.objectives| then pos else pos + 1)
    ensures results' == before + Statuses(run.answers, pos + 1)
    ensures stop ==> StopsAfter(run.answers, late, pos + 1, |run.objectives|)
    ensures !stop ==> Reached(run, late, pos + 1, before, results', constraints)
  {
    StatusesStep(before, run.answers, pos);
  }

  const TIME_LIMITS: set<string> := {"GRB_TimeLimit", "XPRS_MAXTIME", "XPRS_TIMELIMIT"}

  /** More than one time limit is set, which the solve loop refuses. */
  predicate SeveralTimeLimits(config: Option<Config>) {
    config.Some? && |config.value.timeLimits * TIME_LIMITS| > 1
  }

  class ProblemImpl<P(!new)> {
    var constraints: seq<Constraint<P>>
    var objectives: seq<P -> real>
    var config: Option<Config>
    var results: seq<Status>
    var status: Option<Status>

    constructor (constraints: seq<Constraint<P>>, objectives: seq<P -> real>, config: Option<Config>)
      ensures this.constraints == constraints && this.objectives == objectives && this.config == config
      ensures results == [] && status == None
    {
      this.constraints, this.objectives, this.config := constraints, objectives, config;
      results, status := [], None;
    }

    /** The inputs of a run started now. */
    ghost function RunWith(answers: nat -> Answer<P>): Run<P>
      reads this
    {
      Run(constraints, objectives, BoundsOf(config), answers)
    }

    method AddNewConstraintForObjectiveAt(pos: nat, point: P)
      requires pos < |objectives|
      modifies this`constraints
      ensures constraints == old(constraints) + [Pin(objectives[pos], BoundsOf(config)(pos, objectives[pos](point)))]
    {
      var objective := objectives[pos];
      var currValue := objective(point);
      var allowedWorsenUntilValue := currValue;
      if config.Some? && pos in config.value.worsening {
        allowedWorsenUntilValue := WorsenUntil(currValue, config.value.worsening[pos]);
      }
      constraints := constraints + [Pin(objective, allowedWorsenUntilValue)];
    }

    /** `ok` is false when the source throws over several time limits, before any
        solve; `solved` counts the solves made. */
    method CustomMultiObjectiveIterativeSolve(answers: nat -> Answer<P>, late: nat -> bool, ghost run: Run<P>)
      returns (ok: bool, ghost solved: nat)
      requires objectives != [] && run == RunWith(answers)
      modifies this`constraints, this`results
      ensures ok <==> !SeveralTimeLimits(config)
      ensures !ok ==> constraints == old(constraints) && results == old(results)
      ensures ok ==> StopsAfter(answers, late, solved, |objectives|)
      ensures ok ==> results == old(results) + Statuses(answers, solved)
      ensures ok ==> constraints == ConstraintsAt(run, solved - 1)
    {
      solved := 0;
      var nObjs := |objectives|;
      for pos := 0 to nObjs
        invariant solved == pos
        invariant pos > 0 ==> !SeveralTimeLimits(config)
        invariant Reached(run, late, pos, old(results), results, constraints)
      {
        if SeveralTimeLimits(config) {
          return false, 0;
        }
        ghost var results0 := results;
        var stop := SolveForObjectiveAt(pos, answers, late, run);
        solved := pos + 1;
        ReachNext(run, late, pos, old(results), results0, results, constraints, stop);
        if stop {
          break;
        }
      }
      ok := true;
    }

    /** One objective: solve, save the status, and pin the value for the rest. */
    method SolveForObjectiveAt(pos: nat, answers: nat -> Answer<P>, late: nat -> bool, ghost run: Run<P>) returns (stop: bool)
      requires pos < |objectives| && run.objectives == objectives && run.bound == BoundsOf(config) && run.answers == answers
      requires constraints == ConstraintsAt(run, pos)
      modifies this`constraints, this`results
      ensures results == old(results) + [answers(pos).status]
      ensures stop <==> !Found(answers(pos).status) || late(pos)
      ensures constraints == ConstraintsAt(run, if stop || pos + 1 == |objectives| then pos else pos + 1)
    {
      var curSolveStatus := answers(pos).status;
      results := results + [curSolveStatus];
      if curSolveStatus == NoSolutionExists || curSolveStatus == SolutionNotFound || late(pos) {
        return true;
      }
      if pos < |objectives| - 1 {
        AddNewConstraintForObjectiveAt(pos, answers(pos).point);
        ConstraintsStep(run, pos);
      }
      stop := false;
    }

    /** A problem without objectives gets the zero objective. */
    method Solve(answers: nat -> Answer<P>, late: nat -> bool) returns (ok: bool, ghost solved: nat)
      modifies this
      ensures objectives == if old(objectives) == [] then [(x: P) => 0.0] else old(objectives)
      ensures ok <==> !(|objectives| > 1 && SeveralTimeLimits(config))
      ensures config == old(config) && (!ok ==> status == old(status) && results == old(results))
      ensures ok ==> 1 <= solved <= |objectives| && (|objectives| > 1 ==> StopsAfter(answers, late, solved, |objectives|))
      ensures ok ==> results == old(results) + Statuses(answers, solved)
      ensures ok ==> status == Some(FinalStatus(results, |objectives|))
      ensures ok ==> constraints == ConstraintsAt(Run(old(constraints), objectives, BoundsOf(config), answers), solved - 1)
    {
      DefaultObjective();
      ok, solved := SolveAll(answers, late, RunWith(answers));
      if ok {
        status := Some(FinalStatus(results, |objectives|));
      }
    }

    method SolveAll(answers: nat -> Answer<P>, late: nat -> bool, ghost run: Run<P>) returns (ok: bool, ghost solved: nat)
      requires objectives != [] && run == RunWith(answers)
      modifies this`constraints, this`results
      ensures ok <==> !(|objectives| > 1 && SeveralTimeLimits(config))
      ensures !ok ==> results == old(results)
      ensures ok ==> 1 <= solved <= |objectives| && (|objectives| > 1 ==> StopsAfter(answers, late, solved, |objectives|))
      ensures ok ==> results == old(results) + Statuses(answers, solved) && constraints == ConstraintsAt(run, solved - 1)
    {
      if |objectives| == 1 {
        SolveOnce(answers);
        ok, solved := true, 1;
      } else {
        ok, solved := CustomMultiObjectiveIterativeSolve(answers, late, run);
      }
    }

    method DefaultObjective()
      modifies this`objectives
      ensures objectives == if old(objectives) == [] then [(x: P) => 0.0] else old(objectives)
    {
      if |objectives| == 0 {
        objectives := [(x: P) => 0.0];
      }
    }

    method SolveOnce(answers: nat -> Answer<P>)
      modifies this`results
      ensures results == old(results) + Statuses(answers, 1)
    {
      OneStatus(results, answers);
      results := results + [answers(0).status];
    }
  }
}
