/**
 * The stepping walk of `Flexigrate.migrate` as a specification: which `up`/`down` calls
 * are made, in which order, which values are written to storage, and where it stops.
 */
module Engine {
  import opened Wrappers
  import opened Naming
  import opened Resolution

  datatype Direction = Up | Down

  /**
   * A loaded revision module. Its `up()` and `down()` are foreign code; all the engine
   * observes of them is whether they return or raise.
   */
  datatype Revision = Revision(upFails: bool, downFails: bool)

  predicate Fails(rev: Revision, d: Direction) {
    if d == Up then rev.upFails else rev.downFails
  }

  /** One `up()` or `down()` call on the revision at a position of the revision list. */
  datatype Call = Call(direction: Direction, index: nat)

  /** Why a walk stopped early: a revision's operation raised, or the list index was out of range. */
  datatype Fault = Raised(call: Call) | NoSuchRevision(index: int)

  /** The calls made and the values written (in order), the fault if any, and the value left in storage. */
  datatype Walk = Walk(calls: seq<Call>, writes: seq<int>, fault: Option<Fault>, final: int)

  /** Python's `revisions[i]`: a negative index counts from the end; otherwise `IndexError`. */
  function ListIndex(count: nat, i: int): (p: Option<nat>)
    ensures p.Some? <==> -(count as int) <= i < count
    ensures p.Some? ==> p.value < count && (if i >= 0 then p.value == i else p.value == count + i)
  {
    if 0 <= i < count then Some(i) else if -(count as int) <= i < 0 then Some(count + i) else None
  }

  function Distance(c: int, t: int): (d: nat) {
    if c <= t then t - c else c - t
  }

  /** The value `k` unit steps from `c` in the direction of `t`. */
  function Toward(c: int, t: int, k: nat): (v: int) {
    if c <= t then c + k else c - k
  }

  /**
   * One pass of the loop body of `migrate` with `c` stored and target `t`: call `up` on
   * revision `c+1` and store `c+1`, or call `down` on revision `c` and store `c-1`. The
   * write happens only once the call has returned.
   */
  function Step(revs: seq<Revision>, c: int, t: int): (s: Walk)
    requires c != t
    ensures s.fault.None? ==> s.final == Toward(c, t, 1) && s.writes == [s.final] && |s.calls| == 1
    ensures s.fault.Some? ==> s.final == c && s.writes == [] && |s.calls| <= 1
  {
    var d := if t > c then Up else Down;
    var i := if t > c then c + 1 else c;
    var next := if t > c then c + 1 else c - 1;
    match ListIndex(|revs|, i)
    case None => Walk([], [], Some(NoSuchRevision(i)), c)
    case Some(p) =>
      var call := Call(d, p);
      if Fails(revs[p], d) then Walk([call], [], Some(Raised(call)), c)
      else Walk([call], [next], None, next)
  }

  /** `first`, then `rest` from where `first` left storage. */
  function Then(first: Walk, rest: Walk): (w: Walk) {
    Walk(first.calls + rest.calls, first.writes + rest.writes, rest.fault, rest.final)
  }

  lemma ThenAssociative(a: Walk, b: Walk, c: Walk)
    ensures Then(Then(a, b), c) == Then(a, Then(b, c))
  {
    assert (a.calls + b.calls) + c.calls == a.calls + (b.calls + c.calls);
    assert (a.writes + b.writes) + c.writes == a.writes + (b.writes + c.writes);
  }

  /**
   * The loop of `migrate` from stored revision `c` to target `t`: repeat `Step` until the
   * stored revision is `t`, or until a step faults.
   */
  function WalkFrom(revs: seq<Revision>, c: int, t: int): (w: Walk)
    decreases Distance(c, t)
  {
    if c == t then Walk([], [], None, c)
    else
      var s := Step(revs, c, t);
      if s.fault.Some? then s else Then(s, WalkFrom(revs, s.final, t))
  }

  /** `WalkFrom` with the calls and writes already made carried along in `done`. */
  function WalkAfter(revs: seq<Revision>, c: int, t: int, done: Walk): (w: Walk)
    decreases Distance(c, t)
  {
    if c == t then Walk(done.calls, done.writes, None, c)
    else
      var s := Step(revs, c, t);
      if s.fault.Some? then Then(done, s) else WalkAfter(revs, s.final, t, Then(done, s))
  }

  /** Carrying the history along gives that history followed by the plain walk. */
  lemma {:induction false} WalkAfterIsThen(revs: seq<Revision>, c: int, t: int, done: Walk)
    ensures WalkAfter(revs, c, t, done) == Then(done, WalkFrom(revs, c, t))
    decreases Distance(c, t)
  {
    if c == t {
      assert done.calls + [] == done.calls && done.writes + [] == done.writes;
    } else {
      var s := Step(revs, c, t);
      if s.fault.None? {
        WalkAfterIsThen(revs, s.final, t, Then(done, s));
        ThenAssociative(done, s, WalkFrom(revs, s.final, t));
      }
    }
  }

  /**
   * Each pass makes exactly one `up` or `down` call, then exactly one write one step toward
   * the target; from a stored revision in `[-1, K-1]` the call is `up` on `c+1` or `down`
   * on `c`, and only a raising revision can stop it.
   */
  lemma StepOneCallThenOneWrite(revs: seq<Revision>, c: int, t: int)
    requires c != t && -1 <= c < |revs| && -1 <= t < |revs|
    ensures var s := Step(revs, c, t);
      && s.calls == [if t > c then Call(Up, c + 1) else Call(Down, c)]
      && (s.fault.None? || s.fault == Some(Raised(s.calls[0])))
      && s.writes == (if s.fault.None? then [if t > c then c + 1 else c - 1] else [])
  {
  }

  /**
   * Every write moves the stored value one step further toward the target, never past it,
   * and the value left in storage is the last one written (or `c` if nothing was).
   */
  lemma {:induction false} WalkStepsTowardTarget(revs: seq<Revision>, c: int, t: int)
    ensures var w := WalkFrom(revs, c, t);
      && |w.writes| <= Distance(c, t)
      && (forall k :: 0 <= k < |w.writes| ==> w.writes[k] == Toward(c, t, k + 1))
      && w.final == Toward(c, t, |w.writes|)
    decreases Distance(c, t)
  {
    if c != t {
      var next := if t > c then c + 1 else c - 1;
      WalkStepsTowardTarget(revs, next, t);
      var w, rest := WalkFrom(revs, c, t), WalkFrom(revs, next, t);
      if |w.writes| > 0 {
        assert w.writes == [next] + rest.writes;
        forall k | 0 <= k < |w.writes|
          ensures w.writes[k] == Toward(c, t, k + 1)
        {
          if k > 0 {
            assert w.writes[k] == rest.writes[k - 1];
          }
        }
      }
    }
  }

  /**
   * A write follows every call that returned and no call that raised: a raising call is
   * the last call made and has no write of its own.
   */
  lemma {:induction false} WalkWriteFollowsCall(revs: seq<Revision>, c: int, t: int)
    ensures var w := WalkFrom(revs, c, t);
      |w.calls| == |w.writes| + (if w.fault.Some? && w.fault.value.Raised? then 1 else 0)
    ensures var w := WalkFrom(revs, c, t);
      w.fault.Some? && w.fault.value.Raised? ==> w.calls[|w.calls| - 1] == w.fault.value.call
    decreases Distance(c, t)
  {
    if c != t {
      var next := if t > c then c + 1 else c - 1;
      WalkWriteFollowsCall(revs, next, t);
    }
  }

  /** A walk without a fault ends on the target after exactly `|t - c|` calls and writes. */
  lemma {:induction false} WalkCompletes(revs: seq<Revision>, c: int, t: int)
    ensures var w := WalkFrom(revs, c, t);
      w.fault.None? ==> w.final == t && |w.calls| == |w.writes| == Distance(c, t)
    decreases Distance(c, t)
  {
    if c != t {
      var next := if t > c then c + 1 else c - 1;
      WalkCompletes(revs, next, t);
    }
  }

  /**
   * Migrating up from a stored revision in `[-1, K-1]` calls `up` on revisions
   * `c+1, c+2, ...` in increasing order, and never indexes outside the list.
   */
  lemma {:induction false} WalkUpOrder(revs: seq<Revision>, c: int, t: int)
    requires -1 <= c <= t < |revs|
    ensures var w := WalkFrom(revs, c, t);
      && (w.fault.None? || w.fault.value.Raised?)
      && |w.calls| <= t - c
      && forall k :: 0 <= k < |w.calls| ==> w.calls[k] == Call(Up, c + 1 + k)
    decreases t - c
  {
    if c != t {
      WalkUpOrder(revs, c + 1, t);
      var w, rest := WalkFrom(revs, c, t), WalkFrom(revs, c + 1, t);
      if |w.calls| > 1 {
        assert w.calls == [Call(Up, c + 1)] + rest.calls;
        forall k | 0 <= k < |w.calls|
          ensures w.calls[k] == Call(Up, c + 1 + k)
        {
          if k > 0 {
            assert w.calls[k] == rest.calls[k - 1];
          }
        }
      }
    }
  }

  /**
   * Migrating down from a stored revision in `[-1, K-1]` calls `down` on revisions
   * `c, c-1, ...` in decreasing order, and never indexes outside the list.
   */
  lemma {:induction false} WalkDownOrder(revs: seq<Revision>, c: int, t: int)
    requires -1 <= t <= c < |revs|
    ensures var w := WalkFrom(revs, c, t);
      && (w.fault.None? || w.fault.value.Raised?)
      && |w.calls| <= c - t
      && forall k :: 0 <= k < |w.calls| ==> w.calls[k] == Call(Down, c - k)
    decreases c - t
  {
    if c != t {
      WalkDownOrder(revs, c - 1, t);
      var w, rest := WalkFrom(revs, c, t), WalkFrom(revs, c - 1, t);
      if |w.calls| > 1 {
        assert w.calls == [Call(Down, c)] + rest.calls;
        forall k | 0 <= k < |w.calls|
          ensures w.calls[k] == Call(Down, c - k)
        {
          if k > 0 {
            assert w.calls[k] == rest.calls[k - 1];
          }
        }
      }
    }
  }

  /**
   * When a revision's operation raises, storage keeps the value it had before that step:
   * `up` on revision `p` leaves `p - 1` stored, `down` on revision `p` leaves `p`.
   */
  lemma {:induction false} WalkFaultKeepsPreStepValue(revs: seq<Revision>, c: int, t: int)
    requires -1 <= c < |revs| && -1 <= t < |revs|
    ensures var w := WalkFrom(revs, c, t);
      w.fault.Some? ==>
        && w.fault.value.Raised?
        && w.final == (if w.fault.value.call.direction == Up then w.fault.value.call.index - 1
                       else w.fault.value.call.index)
    decreases Distance(c, t)
  {
    if c != t {
      var next := if t > c then c + 1 else c - 1;
      WalkFaultKeepsPreStepValue(revs, next, t);
    }
  }

  /** If no loaded revision's `up` raises, migrating up inside `[-1, K-1]` never faults. */
  lemma {:induction false} WalkUpSucceeds(revs: seq<Revision>, c: int, t: int)
    requires forall i :: 0 <= i < |revs| ==> !revs[i].upFails
    requires -1 <= c <= t < |revs|
    ensures WalkFrom(revs, c, t).fault.None?
    decreases t - c
  {
    if c != t {
      WalkUpSucceeds(revs, c + 1, t);
    }
  }

  /** If no loaded revision's `down` raises, migrating down inside `[-1, K-1]` never faults. */
  lemma {:induction false} WalkDownSucceeds(revs: seq<Revision>, c: int, t: int)
    requires forall i :: 0 <= i < |revs| ==> !revs[i].downFails
    requires -1 <= t <= c < |revs|
    ensures WalkFrom(revs, c, t).fault.None?
    decreases c - t
  {
    if c != t {
      WalkDownSucceeds(revs, c - 1, t);
    }
  }

  /**
   * A stored revision below -1 is not rejected by the walk itself: the first `up` indexes
   * the list with the negative number `c + 1`, which Python reads from the end of the list,
   * so revision `K + c + 1` runs first, whether or not it raises.
   */
  lemma StoredBelowMinusOneWrapsAround(revs: seq<Revision>, c: int, t: int)
    requires -(|revs| + 1) <= c <= -2 && -1 <= t < |revs|
    ensures WalkFrom(revs, c, t).calls[0] == Call(Up, |revs| + c + 1)
  {
  }

  /** Further below, the first list index already raises `IndexError`: no call, no write. */
  lemma StoredFarBelowRaisesIndexError(revs: seq<Revision>, c: int, t: int)
    requires c < -(|revs| + 1) && -1 <= t
    ensures WalkFrom(revs, c, t) == Walk([], [], Some(NoSuchRevision(c + 1)), c)
  {
  }

  /**
   * With three revisions and -3 stored, migrating to 1 runs `up` out of order and twice on
   * revision 1: the negative indexes -2 and -1 reach revisions 1 and 2 before 0 and 1.
   */
  lemma WrapAroundRepeatsRevision(r: Revision)
    requires !r.upFails
    ensures WalkFrom([r, r, r], -3, 1).calls == [Call(Up, 1), Call(Up, 2), Call(Up, 0), Call(Up, 1)]
    ensures WalkFrom([r, r, r], -3, 1).writes == [-2, -1, 0, 1]
  {
    var revs := [r, r, r];
    assert WalkFrom(revs, 0, 1) == Walk([Call(Up, 1)], [1], None, 1);
    assert WalkFrom(revs, -1, 1) == Walk([Call(Up, 0), Call(Up, 1)], [0, 1], None, 1);
    assert WalkFrom(revs, -2, 1) == Walk([Call(Up, 2), Call(Up, 0), Call(Up, 1)], [-1, 0, 1], None, 1);
  }

  /** What `migrate` returns or raises. */
  datatype Outcome =
    | Migrated                       // returned True
    | OutOfRange                     // returned False
    | InvalidTarget(error: ResolveError)  // int() raised ValueError
    | StepFailed(fault: Fault)       // up()/down() or the list index raised

  /** One `migrate` call: its outcome, the calls and writes it made, and the value left stored. */
  datatype Run = Run(outcome: Outcome, calls: seq<Call>, writes: seq<int>, final: int)

  /** `migrate(spec)` against revisions `revs` with `current` stored. */
  function Migration(revs: seq<Revision>, spec: string, current: int): (run: Run)
  {
    match Resolve(spec, current, |revs|)
    case Err(e) => Run(InvalidTarget(e), [], [], current)
    case Ok(t) =>
      if t > |revs| - 1 || t < -1 then Run(OutOfRange, [], [], current)
      else
        var w := WalkFrom(revs, current, t);
        Run(if w.fault.Some? then StepFailed(w.fault.value) else Migrated, w.calls, w.writes, w.final)
  }

  /**
   * A target outside `[-1, K-1]`, or one that does not parse, is rejected before any
   * call or write; the stored revision stays as it was.
   */
  lemma MigrationRejectsWithoutEffect(revs: seq<Revision>, spec: string, current: int)
    requires var r := Resolve(spec, current, |revs|); r.Err? || r.value > |revs| - 1 || r.value < -1
    ensures var r := Resolve(spec, current, |revs|);
      var run := Migration(revs, spec, current);
      && (r.Ok? ==> run.outcome == OutOfRange)
      && (r.Err? ==> run.outcome == InvalidTarget(InvalidLiteral(
            if |spec| > 0 && spec[0] in "+-" then spec[1..] else spec)))
      && run.calls == [] && run.writes == [] && run.final == current
  {
  }

  /** Migrating to the revision already stored succeeds with no calls and no writes. */
  lemma MigrationAtTargetIsIdle(revs: seq<Revision>, spec: string, current: int)
    requires Resolve(spec, current, |revs|) == Ok(current) && -1 <= current < |revs|
    ensures Migration(revs, spec, current) == Run(Migrated, [], [], current)
  {
  }

  /** When `migrate` returns True, the stored revision is the resolved target. */
  lemma MigrationSuccessReachesTarget(revs: seq<Revision>, spec: string, current: int)
    ensures var run := Migration(revs, spec, current);
      run.outcome == Migrated ==>
        Resolve(spec, current, |revs|).Ok? && run.final == Resolve(spec, current, |revs|).value
        && |run.calls| == |run.writes| == Distance(current, run.final)
  {
    var r := Resolve(spec, current, |revs|);
    if r.Ok? {
      WalkCompletes(revs, current, r.value);
    }
  }

  /**
   * From a stored revision in `[-1, K-1]`, an accepted target is reached by `up` on
   * `c+1, c+2, ...` or `down` on `c, c-1, ...`, at most `|t - c|` calls, and only a raising
   * revision (never a bad list index) can stop it early.
   */
  lemma MigrationCallOrder(revs: seq<Revision>, spec: string, current: int)
    requires -1 <= current < |revs|
    ensures var run := Migration(revs, spec, current);
      var r := Resolve(spec, current, |revs|);
      r.Ok? && -1 <= r.value < |revs| ==>
        && (run.outcome == Migrated || (run.outcome.StepFailed? && run.outcome.fault.Raised?))
        && |run.calls| <= Distance(current, r.value)
        && forall k :: 0 <= k < |run.calls| ==>
             run.calls[k] == if current <= r.value then Call(Up, current + 1 + k) else Call(Down, current - k)
  {
    var r := Resolve(spec, current, |revs|);
    if r.Ok? && -1 <= r.value < |revs| {
      WalkWriteFollowsCall(revs, current, r.value);
      WalkStepsTowardTarget(revs, current, r.value);
      if current <= r.value {
        WalkUpOrder(revs, current, r.value);
      } else {
        WalkDownOrder(revs, current, r.value);
      }
    }
  }

  /**
   * The bounds check lets every target in `[-1, K-1]` through: from a stored revision in
   * that range, if no revision's `up` or `down` raises, `migrate` returns True.
   */
  lemma MigrationSucceedsWithoutFaults(revs: seq<Revision>, spec: string, current: int)
    requires forall i :: 0 <= i < |revs| ==> !revs[i].upFails && !revs[i].downFails
    requires -1 <= current < |revs|
    requires var r := Resolve(spec, current, |revs|); r.Ok? && -1 <= r.value < |revs|
    ensures Migration(revs, spec, current).outcome == Migrated
  {
    var t := Resolve(spec, current, |revs|).value;
    if current <= t {
      WalkUpSucceeds(revs, current, t);
    } else {
      WalkDownSucceeds(revs, current, t);
    }
  }

  /** From nothing applied, `head` calls every `up` once in increasing order and stores 0, 1, ..., K-1. */
  lemma MigrationHeadFromNothing(revs: seq<Revision>)
    requires forall i :: 0 <= i < |revs| ==> !revs[i].upFails
    ensures var up := Migration(revs, "head", -1);
      && up.outcome == Migrated && up.final == |revs| - 1
      && |up.calls| == |up.writes| == |revs|
      && (forall k :: 0 <= k < |revs| ==> up.calls[k] == Call(Up, k) && up.writes[k] == k)
  {
    var k := |revs|;
    ResolveHead(-1, k);
    WalkUpSucceeds(revs, -1, k - 1);
    WalkCompletes(revs, -1, k - 1);
    WalkUpOrder(revs, -1, k - 1);
    WalkStepsTowardTarget(revs, -1, k - 1);
  }

  /** From the last revision, `-K` calls every `down` once in decreasing order and stores K-2, ..., 0, -1. */
  lemma MigrationBackToNothing(revs: seq<Revision>)
    requires forall i :: 0 <= i < |revs| ==> !revs[i].downFails
    ensures var down := Migration(revs, "-" + Decimal(|revs|), |revs| - 1);
      && down.outcome == Migrated && down.final == -1
      && |down.calls| == |down.writes| == |revs|
      && (forall k :: 0 <= k < |revs| ==>
            down.calls[k] == Call(Down, |revs| - 1 - k) && down.writes[k] == |revs| - 2 - k)
  {
    var k := |revs|;
    ResolveBackward(k, k - 1, k);
    WalkDownSucceeds(revs, k - 1, -1);
    WalkCompletes(revs, k - 1, -1);
    WalkDownOrder(revs, k - 1, -1);
    WalkStepsTowardTarget(revs, k - 1, -1);
  }

  /**
   * Round trip: `head` from nothing applied, then `-K` from the last revision, runs every
   * `up` once in increasing order, then every `down` once in decreasing order, and leaves
   * -1 stored.
   */
  lemma MigrationRoundTrip(revs: seq<Revision>)
    requires forall i :: 0 <= i < |revs| ==> !revs[i].upFails && !revs[i].downFails
    ensures var up := Migration(revs, "head", -1);
      var down := Migration(revs, "-" + Decimal(|revs|), up.final);
      && up.outcome == Migrated && down.outcome == Migrated && down.final == -1
      && up.calls + down.calls
         == seq(|revs|, k requires 0 <= k < |revs| => Call(Up, k))
          + seq(|revs|, k requires 0 <= k < |revs| => Call(Down, |revs| - 1 - k))
  {
    MigrationHeadFromNothing(revs);
    MigrationBackToNothing(revs);
    var n := |revs|;
    var up := Migration(revs, "head", -1);
    var down := Migration(revs, "-" + Decimal(n), n - 1);
    assert up.calls == seq(n, k requires 0 <= k < n => Call(Up, k));
    assert down.calls == seq(n, k requires 0 <= k < n => Call(Down, n - 1 - k));
  }
}
