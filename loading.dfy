/**
 * Revision loading: `_get_revision` looks up one numbered file, `load_revisions` walks
 * the numbers 0, 1, 2, ... and stops at the first missing file.
 */
module Loading {
  import opened Wrappers
  import opened Naming
  import opened Engine

  /** A file in the revisions directory: one that loads as a revision module, or one that does not. */
  datatype RevisionFile = Loadable(revision: Revision) | Unloadable

  /** The revisions directory, by file name. */
  type Directory = map<string, RevisionFile>

  /** `MigrationLoadingException`: revision `index` exists but failed to load. */
  datatype LoadError = MigrationLoading(index: nat)

  /** `_get_revision`'s two normal answers: `False` for a missing file, or the loaded module. */
  datatype Lookup = Missing | Found(revision: Revision)

  /** `_get_revision(num)`. */
  function GetRevision(dir: Directory, num: nat): (r: Result<Lookup, LoadError>)
    ensures r.Ok? && r.value.Missing? <==> RevisionFileName(num) !in dir
    ensures r.Err? ==> r.error.index == num
  {
    var name := RevisionFileName(num);
    if name !in dir then Ok(Missing)
    else match dir[name]
      case Loadable(rev) => Ok(Found(rev))
      case Unloadable => Err(MigrationLoading(num))
  }

  /** Revisions 0 .. n-1 are all present and loadable. */
  predicate LoadsUpTo(dir: Directory, n: nat) {
    forall j :: 0 <= j < n ==> RevisionFileName(j) in dir && dir[RevisionFileName(j)].Loadable?
  }

  /** The file names of revisions 0 .. n-1. */
  function NameSet(n: nat): (names: set<string>) {
    if n == 0 then {} else NameSet(n - 1) + {RevisionFileName(n - 1)}
  }

  lemma {:induction false} NameSetExcludesLater(n: nat, m: nat)
    requires n <= m
    ensures RevisionFileName(m) !in NameSet(n)
  {
    if n > 0 {
      NameSetExcludesLater(n - 1, m);
      RevisionFileNameInjective(n - 1, m);
    }
  }

  lemma {:induction false} NameSetSize(n: nat)
    ensures |NameSet(n)| == n
  {
    if n > 0 {
      NameSetSize(n - 1);
      NameSetExcludesLater(n - 1, n - 1);
    }
  }

  lemma {:induction false} NameSetInDirectory(dir: Directory, n: nat)
    requires LoadsUpTo(dir, n)
    ensures NameSet(n) <= dir.Keys
  {
    if n > 0 {
      NameSetInDirectory(dir, n - 1);
    }
  }

  lemma {:induction false} SubsetSize<T>(a: set<T>, b: set<T>)
    requires a <= b
    ensures |a| <= |b|
    decreases |a|
  {
    if a != {} {
      var x :| x in a;
      SubsetSize(a - {x}, b - {x});
    }
  }

  /** A directory with `n` loadable revisions in a row holds at least `n` files. */
  lemma LoadedPrefixBound(dir: Directory, n: nat)
    requires LoadsUpTo(dir, n)
    ensures n <= |dir|
  {
    NameSetSize(n);
    NameSetInDirectory(dir, n);
    SubsetSize(NameSet(n), dir.Keys);
  }

  /** The revisions at 0 .. n-1, in order. */
  function Prefix(dir: Directory, n: nat): (revs: seq<Revision>)
    requires LoadsUpTo(dir, n)
    ensures |revs| == n
  {
    if n == 0 then [] else Prefix(dir, n - 1) + [dir[RevisionFileName(n - 1)].revision]
  }

  /** The loop of `load_revisions` from index `i` on. */
  function LoadFrom(dir: Directory, i: nat): (r: Result<seq<Revision>, LoadError>)
    requires LoadsUpTo(dir, i)
    decreases |dir| - i
  {
    match GetRevision(dir, i)
    case Err(e) => Err(e)
    case Ok(Missing) => Ok([])
    case Ok(Found(rev)) =>
      LoadedPrefixBound(dir, i + 1);
      match LoadFrom(dir, i + 1)
      case Ok(rest) => Ok([rev] + rest)
      case Err(e) => Err(e)
  }

  /** Revisions already loaded, followed by what loading from index `i` on gives. */
  function Prepend(loaded: seq<Revision>, r: Result<seq<Revision>, LoadError>): (all: Result<seq<Revision>, LoadError>) {
    match r
    case Ok(rest) => Ok(loaded + rest)
    case Err(e) => Err(e)
  }

  lemma PrependAssociative(a: seq<Revision>, b: seq<Revision>, r: Result<seq<Revision>, LoadError>)
    ensures Prepend(a, Prepend(b, r)) == Prepend(a + b, r)
  {
    if r.Ok? {
      assert a + (b + r.value) == (a + b) + r.value;
    }
  }

  lemma LoadFromUnfold(dir: Directory, i: nat)
    requires LoadsUpTo(dir, i + 1)
    ensures LoadFrom(dir, i) == Prepend([dir[RevisionFileName(i)].revision], LoadFrom(dir, i + 1))
  {
    assert GetRevision(dir, i) == Ok(Found(dir[RevisionFileName(i)].revision));
  }

  /** One more loadable file moves from "to load" to "loaded" without changing the overall result. */
  lemma LoadFromStep(dir: Directory, i: nat)
    requires LoadsUpTo(dir, i + 1)
    ensures Prepend(Prefix(dir, i), LoadFrom(dir, i)) == Prepend(Prefix(dir, i + 1), LoadFrom(dir, i + 1))
  {
    var rev := dir[RevisionFileName(i)].revision;
    LoadFromUnfold(dir, i);
    PrependAssociative(Prefix(dir, i), [rev], LoadFrom(dir, i + 1));
  }

  /** `load_revisions` on a fresh engine. */
  function LoadAll(dir: Directory): (r: Result<seq<Revision>, LoadError>) {
    LoadFrom(dir, 0)
  }

  /** `revs` are the loadable files numbered `i`, `i+1`, ..., and the number after them has no file. */
  predicate ListedFrom(dir: Directory, i: nat, revs: seq<Revision>) {
    && (forall n: nat :: i <= n < i + |revs| ==>
          RevisionFileName(n) in dir && dir[RevisionFileName(n)] == Loadable(revs[n - i]))
    && RevisionFileName(i + |revs|) !in dir
  }

  lemma ListedFromStep(dir: Directory, i: nat, revs: seq<Revision>)
    requires |revs| > 0
    ensures ListedFrom(dir, i, revs) <==>
      && RevisionFileName(i) in dir && dir[RevisionFileName(i)] == Loadable(revs[0])
      && ListedFrom(dir, i + 1, revs[1..])
  {
  }

  lemma {:induction false} LoadFromOk(dir: Directory, i: nat, revs: seq<Revision>)
    requires LoadsUpTo(dir, i)
    ensures LoadFrom(dir, i) == Ok(revs) <==> ListedFrom(dir, i, revs)
    decreases |dir| - i
  {
    var name := RevisionFileName(i);
    if |revs| > 0 {
      ListedFromStep(dir, i, revs);
      if name in dir && dir[name].Loadable? {
        LoadedPrefixBound(dir, i + 1);
        LoadFromOk(dir, i + 1, revs[1..]);
        assert revs == [revs[0]] + revs[1..];
      }
    }
  }

  lemma {:induction false} LoadFromErr(dir: Directory, i: nat, k: nat)
    requires LoadsUpTo(dir, i)
    ensures LoadFrom(dir, i) == Err(MigrationLoading(k)) <==>
      i <= k && LoadsUpTo(dir, k) && RevisionFileName(k) in dir && dir[RevisionFileName(k)].Unloadable?
    decreases |dir| - i
  {
    var name := RevisionFileName(i);
    if name in dir && dir[name].Loadable? {
      LoadedPrefixBound(dir, i + 1);
      LoadFromErr(dir, i + 1, k);
    }
  }

  /**
   * `load_revisions` yields exactly the revisions at 0 .. K-1, where K is the first number
   * without a file.
   */
  lemma LoadAllContiguous(dir: Directory, revs: seq<Revision>)
    ensures LoadAll(dir) == Ok(revs) <==>
      && (forall j :: 0 <= j < |revs| ==>
            RevisionFileName(j) in dir && dir[RevisionFileName(j)] == Loadable(revs[j]))
      && RevisionFileName(|revs|) !in dir
  {
    LoadFromOk(dir, 0, revs);
  }

  /**
   * A present but unloadable file raises `MigrationLoadingException` naming it, rather than
   * ending the list there.
   */
  lemma LoadAllRejectsBrokenFile(dir: Directory, k: nat)
    ensures LoadAll(dir) == Err(MigrationLoading(k)) <==>
      LoadsUpTo(dir, k) && RevisionFileName(k) in dir && dir[RevisionFileName(k)].Unloadable?
  {
    LoadFromErr(dir, 0, k);
  }

  /** `new_revision` numbers the new file `len(revisions)`: the first free slot, never an existing file. */
  lemma NewRevisionSlotIsFree(dir: Directory, revs: seq<Revision>)
    requires LoadAll(dir) == Ok(revs)
    ensures RevisionFileName(|revs|) !in dir
    ensures forall j :: 0 <= j < |revs| ==> RevisionFileName(j) != RevisionFileName(|revs|)
  {
    LoadAllContiguous(dir, revs);
    forall j | 0 <= j < |revs|
      ensures RevisionFileName(j) != RevisionFileName(|revs|)
    {
      RevisionFileNameInjective(j, |revs|);
    }
  }

  /**
   * Writing a loadable file into that slot makes the next load end with it, provided the
   * number after it has no file.
   */
  lemma NewRevisionExtendsLoad(dir: Directory, revs: seq<Revision>, rev: Revision)
    requires LoadAll(dir) == Ok(revs)
    requires RevisionFileName(|revs| + 1) !in dir
    ensures LoadAll(dir[RevisionFileName(|revs|) := Loadable(rev)]) == Ok(revs + [rev])
  {
    var name := RevisionFileName(|revs|);
    var dir' := dir[name := Loadable(rev)];
    var revs' := revs + [rev];
    LoadAllContiguous(dir, revs);
    forall j | 0 <= j < |revs'|
      ensures RevisionFileName(j) in dir' && dir'[RevisionFileName(j)] == Loadable(revs'[j])
    {
      RevisionFileNameInjective(j, |revs|);
    }
    RevisionFileNameInjective(|revs| + 1, |revs|);
    LoadAllContiguous(dir', revs');
  }
}
