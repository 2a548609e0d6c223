/** The engine object `Flexigrate` and the storage interface it drives. */
module Core {
  import opened Wrappers
  import opened Naming
  import opened Resolution
  import opened Engine
  import opened Loading

  /**
   * `BaseStorage`: holds the current revision (-1 when nothing is applied). The ghost
   * `writes` records every value ever stored, in order.
   */
  class Storage {
    var current: int
    ghost var writes: seq<int>

    constructor ()
      ensures current == -1 && writes == []
    {
      current := -1;
      writes := [];
    }

    /** `get_current_revision`: the last value stored. */
    method GetCurrentRevision() returns (revision: int)
      ensures revision == current
    {
      revision := current;
    }

    /** `set_current_revision`: store `revision`, recording the write. */
    method SetCurrentRevision(revision: int)
      modifies this
      ensures current == revision && writes == old(writes) + [revision]
    {
      current := revision;
      writes := writes + [revision];
    }
  }

  class Flexigrate {
    var revisions: seq<Revision>
    const storage: Storage
    /** Every `up()`/`down()` call made so far, in order. */
    ghost var calls: seq<Call>

    constructor (storage: Storage)
      ensures this.storage == storage && revisions == [] && calls == []
    {
      this.storage := storage;
      revisions := [];
      calls := [];
    }

    /**
     * `__init__`: a new engine whose revisions are those `load_revisions` finds in `dir`,
     * or the `MigrationLoadingException` it raises.
     */
    static method Open(dir: Directory, storage: Storage) returns (r: Result<Flexigrate, LoadError>)
      ensures r.Ok? <==> LoadAll(dir).Ok?
      ensures r.Ok? ==> && fresh(r.value) && r.value.storage == storage
                        && r.value.revisions == LoadAll(dir).value && r.value.calls == []
      ensures r.Err? ==> r.error == LoadAll(dir).error
    {
      var engine := new Flexigrate(storage);
      var loaded := engine.LoadRevisions(dir);
      if loaded.Err? {
        return Err(loaded.error);
      }
      return Ok(engine);
    }

    /**
     * `load_revisions`: append the revisions at 0, 1, 2, ... until the first missing file;
     * a file that fails to load stops it with `MigrationLoadingException`.
     */
    method LoadRevisions(dir: Directory) returns (r: Result<(), LoadError>)
      modifies this`revisions
      ensures r.Ok? <==> LoadAll(dir).Ok?
      ensures r.Ok? ==> revisions == old(revisions) + LoadAll(dir).value
      ensures r.Err? ==> && r.error == LoadAll(dir).error && LoadsUpTo(dir, r.error.index)
                         && revisions == old(revisions) + Prefix(dir, r.error.index)
    {
      var i: nat := 0;
      var look := GetRevision(dir, i);
      assert LoadFrom(dir, 0).Ok? ==> [] + LoadFrom(dir, 0).value == LoadFrom(dir, 0).value;
      while look.Ok? && look.value.Found?
        invariant LoadsUpTo(dir, i) && i <= |dir|
        invariant look == GetRevision(dir, i)
        invariant revisions == old(revisions) + Prefix(dir, i)
        invariant LoadAll(dir) == Prepend(Prefix(dir, i), LoadFrom(dir, i))
        decreases |dir| - i
      {
        // `load_revisions` loads each revision file a second time to append it
        var again := GetRevision(dir, i);
        revisions := revisions + [again.value.revision];
        LoadedPrefixBound(dir, i + 1);
        LoadFromStep(dir, i);
        i := i + 1;
        look := GetRevision(dir, i);
      }
      if look.Err? {
        return Err(look.error);
      }
      return Ok(());
    }

    /** `current_revision`: read through to storage. */
    method CurrentRevision() returns (revision: int)
      ensures revision == storage.current
    {
      revision := storage.GetCurrentRevision();
    }

    /**
     * The number and file name `new_revision` gives a new revision: the count of loaded
     * revisions. The engine's own list is not extended.
     */
    method NewRevision(name: string) returns (num: nat, fileName: string)
      ensures num == |revisions| && fileName == RevisionFileName(num)
    {
      num := |revisions|;
      fileName := RevisionFileName(num);
    }

    /** Call `up()` or `down()` of the revision at `index`; `failed` when it raises. */
    method Invoke(d: Direction, index: nat) returns (failed: bool)
      requires index < |revisions|
      modifies this`calls
      ensures calls == old(calls) + [Call(d, index)]
      ensures failed == Fails(revisions[index], d)
    {
      calls := calls + [Call(d, index)];
      failed := Fails(revisions[index], d);
    }

    /**
     * `migrate(target)`: resolve the target against the stored revision, reject it when
     * outside `[-1, K-1]`, then step one revision at a time, storing the new revision after
     * each `up`/`down` returns, until storage holds the target.
     */
    method Migrate(target: string) returns (outcome: Outcome)
      modifies this`calls, storage
      ensures var run := Migration(revisions, target, old(storage.current));
        && outcome == run.outcome
        && calls == old(calls) + run.calls
        && storage.writes == old(storage.writes) + run.writes
        && storage.current == run.final
    {
      var revs := revisions;
      var start := storage.GetCurrentRevision();
      var resolved := Resolve(target, start, |revs|);
      if resolved.Err? {
        return InvalidTarget(resolved.error);
      }
      var t := resolved.value;
      if t > |revs| - 1 || t < -1 {
        return OutOfRange;
      }
      outcome := StepTo(t);
    }

    /**
     * The stepping loop of `migrate` towards an accepted target `t`: re-read the stored
     * revision and take one step while it differs from `t`.
     */
    method StepTo(t: int) returns (outcome: Outcome)
      modifies this`calls, storage
      ensures var w := WalkFrom(revisions, old(storage.current), t);
        && outcome == (if w.fault.Some? then StepFailed(w.fault.value) else Migrated)
        && calls == old(calls) + w.calls
        && storage.writes == old(storage.writes) + w.writes
        && storage.current == w.final
    {
      var revs := revisions;
      ghost var done := Walk([], [], None, storage.current);
      WalkAfterIsThen(revs, storage.current, t, done);
      assert Then(done, WalkFrom(revs, storage.current, t)) == WalkFrom(revs, storage.current, t);
      ghost var whole := WalkAfter(revs, storage.current, t, done);
      var current := storage.GetCurrentRevision();
      while current != t
        invariant revisions == revs && storage.current == current
        invariant calls == old(calls) + done.calls
        invariant storage.writes == old(storage.writes) + done.writes
        invariant whole == WalkAfter(revs, current, t, done)
        decreases Distance(current, t)
      {
        ghost var step := Step(revs, current, t);
        var fault := StepOnce(t);
        assert calls == old(calls) + (done.calls + step.calls);
        assert storage.writes == old(storage.writes) + (done.writes + step.writes);
        if fault.Some? {
          return StepFailed(fault.value);
        }
        done := Then(done, step);
        current := storage.GetCurrentRevision();
      }
      return Migrated;
    }

    /**
     * One pass of the loop body of `migrate`: re-read the stored revision, call `up` on the
     * next revision or `down` on the current one, and store the new revision only once that
     * call has returned. `fault` is what the pass raised, if anything.
     */
    method StepOnce(t: int) returns (fault: Option<Fault>)
      requires storage.current != t
      modifies this`calls, storage
      ensures var s := Step(revisions, old(storage.current), t);
        && fault == s.fault
        && calls == old(calls) + s.calls
        && storage.writes == old(storage.writes) + s.writes
        && storage.current == s.final
    {
      var current := storage.GetCurrentRevision();
      var d := if t > current then Up else Down;
      var index := if t > current then current + 1 else current;
      var p := ListIndex(|revisions|, index);
      if p.None? {
        return Some(NoSuchRevision(index));
      }
      var failed := Invoke(d, p.value);
      if failed {
        return Some(Raised(Call(d, p.value)));
      }
      storage.SetCurrentRevision(if t > current then current + 1 else current - 1);
      return None;
    }
  }
}
