# Flexigrate migration engine

A Dafny model of the `Flexigrate` engine (flexigrate/core.py). The engine drives a datastore
through a linear list of numbered revisions. Each revision is a Python module
`revision-NNN.py` with an `up()` and a `down()` operation. A pluggable storage object holds
the current revision, which is -1 when nothing is applied. The model covers:

- the file name of revision `n` (`REV_FILE_NAME_FORMAT`, zero-padded to three digits);
- loading: `_get_revision` and the `load_revisions` loop over 0, 1, 2, ...;
- `new_revision` numbering;
- resolving a target string (`-N`, `+N`, `head`, plain number) against the stored revision;
- the bounds check on the target;
- the stepping loop: it re-reads storage, calls one `up`/`down`, then writes storage;
- the `BaseStorage` get/set interface, as an in-memory store.

Modules:

- `Wrappers`: `Option` and `Result`.
- `Naming`: decimal text, three-digit padding, revision file names and their injectivity.
- `Resolution`: Python's `int()` on signed decimal literals, and target resolution.
- `Engine`: revisions, one loop step (`Step`), the whole loop (`WalkFrom`) and one
  `migrate` call (`Migration`), all as pure functions, with the lemmas about them.
- `Loading`: the revisions directory as a map from file name to file, `_get_revision`,
  and what `load_revisions` yields (`LoadAll`).
- `Core`: the classes `Storage` and `Flexigrate`. Their methods are loops and state changes
  proved equal to the pure functions above. A ghost trace records every `up`/`down` call
  (`Flexigrate.calls`) and every storage write (`Storage.writes`).

A revision is modelled by whether its `up()` and whether its `down()` raises. A revision
file is either loadable (it becomes such a revision) or unloadable (the loader raises).

Python details kept in the model:

- `revisions[i]` with a negative `i` counts from the end of the list. The bounds check
  only looks at the target, so a stored revision below -1 is not rejected. With `c`
  stored, `-(K+1) <= c <= -2`, the first `up` runs revision `K + c + 1`
  (`StoredBelowMinusOneWrapsAround`). The walk then runs `up` out of order and can run
  the same revision twice: with three revisions, -3 stored and target 1, the calls are
  `up` on 1, 2, 0, 1 (`WrapAroundRepeatsRevision`). Further below, the first index raises
  `IndexError` (`StoredFarBelowRaisesIndexError`). `IndexError` is the fault
  `NoSuchRevision`.
- `int()` accepts one optional sign and leading zeros, so `--3` means three steps forward
  (`ParseSignedPadded`, `DoubleMinusStepsForward`).
- A failing `int()` is `InvalidTarget`. A raising `up`/`down` or list index is `StepFailed`.
  `migrate` catches neither; both propagate out of it. The model records the raising call
  in `StepFailed(Raised(Call(direction, index)))`.
- The stepping loop has no iteration bound of its own. With the model's single-writer
  storage it ends after at most `|target - current|` passes (`WalkCompletes`,
  `MigrationCallOrder`).

The help text of the `migrate` command (flexigrate/cli.py:36-44) describes a plain number
as a relative amount. `migrate` reads it as an absolute revision
(flexigrate/core.py:111-112); the model follows the code (`ResolveAbsolute`).

## Model

| member | source | states |
|---|---|---|
| Naming.Decimal | flexigrate/core.py:15 | `str(n)` for a natural number: its digits, most significant first |
| Naming.Pad3 | flexigrate/core.py:15 | `{0:03d}`: `str(n)` left-padded with zeros to width three |
| Naming.RevisionFileName | flexigrate/core.py:15 | `REV_FILE_NAME_FORMAT.format(n)`, the name used at core.py:54 and :93 |
| Naming.DecimalDigits | flexigrate/core.py:15 | `str(n)` is a non-empty run of ASCII digits, with no leading zero unless it is `0` |
| Naming.DecimalRoundTrip | flexigrate/core.py:15 | reading back the decimal text of `n` gives `n` |
| Naming.DecimalLength | flexigrate/core.py:15 | below 1000 the decimal text has at most three digits; from 100 on, at least three |
| Naming.Pad3Value | flexigrate/core.py:15 | `{0:03d}` still denotes `n`, is exactly three characters below 1000, and is the plain decimal text from 100 on |
| Naming.Pad3Digits | flexigrate/core.py:15 | below 1000, `{0:03d}` is the hundreds, tens and units digits of `n` |
| Naming.RevisionFileNameDigits | flexigrate/core.py:15 | below 1000 the file name is `revision-` + three digits + `.py` (e.g. `revision-001.py`) |
| Naming.RevisionFileNameInjective | flexigrate/core.py:15 | two revision numbers give the same file name if and only if they are equal |
| Resolution.ParseInt | flexigrate/core.py:105 | `int()` accepts the text if and only if, after one optional sign, it is a non-empty run of ASCII digits; a leading `-` gives a value <= 0, otherwise >= 0 |
| Resolution.PaddedDecimalValue | flexigrate/core.py:105 | zeros in front of the decimal text of `n` still give a digit run denoting `n` |
| Resolution.ParseSignedDigits | flexigrate/core.py:105 | `int()` on an optional sign followed by ASCII digits gives the signed value of the digits |
| Resolution.ParseSignedPadded | flexigrate/core.py:105 | `int()` reads `n` with an optional sign and any number of leading zeros as `n`, or `-n` after `-` |
| Resolution.ParseDecimal | flexigrate/core.py:112 | `int()` reads back the decimal text of every natural number |
| Resolution.Resolve | flexigrate/core.py:103-112 | when resolution fails, the error names the text given to `int()`: the spec without its sign character |
| Resolution.ResolveFailsExactly | flexigrate/core.py:103-112 | resolution raises `ValueError` if and only if the spec is not `head` and `int()` rejects the spec without its one leading sign |
| Resolution.ResolveBackward | flexigrate/core.py:103-105 | `-N` resolves to the stored revision minus N |
| Resolution.ResolveForward | flexigrate/core.py:106-108 | `+N` resolves to the stored revision plus N |
| Resolution.DoubleMinusStepsForward | flexigrate/core.py:103-105 | `--N` hands `-N` to `int()` and so resolves to the stored revision plus N |
| Resolution.MinusOneIsRelative | flexigrate/core.py:103-105 | `-1` is one step back from the stored revision, never the absolute revision -1 |
| Resolution.ResolveHead | flexigrate/core.py:109-110 | `head` is the last loaded revision, K-1, whatever is stored |
| Resolution.ResolveAbsolute | flexigrate/core.py:111-112 | a plain number resolves to itself |
| Resolution.UnsignedSpecIgnoresCurrent | flexigrate/core.py:103-112 | an unsigned spec resolves the same from every stored revision; with the model's `int()`, only `head` can resolve to a negative target |
| Engine.WalkFrom | flexigrate/core.py:121-136 | the loop: passes of `Step` from the stored revision until it equals the target or a pass faults |
| Engine.Migration | flexigrate/core.py:98-138 | `migrate`: resolve, reject outside `[-1, K-1]` with `False`, otherwise run the loop |
| Engine.ListIndex | flexigrate/core.py:126 | `revisions[i]` succeeds if and only if `-K <= i < K`; a negative index counts from the end |
| Engine.Step | flexigrate/core.py:124-136 | one pass either makes one call and writes one value a step toward the target, or faults, writes nothing and leaves storage as it was |
| Engine.StepOneCallThenOneWrite | flexigrate/core.py:124-136 | with stored revision and target in `[-1, K-1]`, a pass calls `up` on `c+1` or `down` on `c`; it then writes `c+1` or `c-1`, or nothing when that call raised |
| Engine.WalkAfterIsThen | flexigrate/core.py:121-138 | the loop with earlier calls and writes carried along equals those calls and writes followed by the plain loop |
| Engine.WalkStepsTowardTarget | flexigrate/core.py:121-136 | the k-th write is `c ± (k+1)` toward the target; there are at most `Distance(c, t)` writes; the value left in storage is the last one written |
| Engine.WalkWriteFollowsCall | flexigrate/core.py:128-136 | every call that returned is followed by its write; a raising call is the last call and has no write |
| Engine.WalkCompletes | flexigrate/core.py:121-138 | a loop without a fault ends on the target after exactly `Distance(c, t)` calls and writes |
| Engine.WalkUpOrder | flexigrate/core.py:125-130 | migrating up from `[-1, K-1]` calls `up` on `c+1, c+2, ...` in order; it never hits a bad index, and at most `t - c` calls are made |
| Engine.WalkDownOrder | flexigrate/core.py:131-136 | migrating down from `[-1, K-1]` calls `down` on `c, c-1, ...` in order; it never hits a bad index, and at most `c - t` calls are made |
| Engine.WalkFaultKeepsPreStepValue | flexigrate/core.py:128-136 | when `up` on revision `p` raises, `p-1` stays stored; when `down` on revision `p` raises, `p` stays stored |
| Engine.WalkUpSucceeds | flexigrate/core.py:125-130 | if no `up` raises, migrating up inside `[-1, K-1]` never faults |
| Engine.WalkDownSucceeds | flexigrate/core.py:131-136 | if no `down` raises, migrating down inside `[-1, K-1]` never faults |
| Engine.StoredBelowMinusOneWrapsAround | flexigrate/core.py:117-128 | with `c` stored, `-(K+1) <= c <= -2`, and an accepted target, the first call is `up` on revision `K + c + 1` (Python's negative index), whether or not it raises |
| Engine.StoredFarBelowRaisesIndexError | flexigrate/core.py:121-126 | with a stored revision below `-(K+1)`, the first list index raises `IndexError` before any call or write |
| Engine.WrapAroundRepeatsRevision | flexigrate/core.py:121-130 | with three revisions, -3 stored and target 1, `up` runs on revisions 1, 2, 0, 1 and the writes are -2, -1, 0, 1 |
| Engine.MigrationRejectsWithoutEffect | flexigrate/core.py:103-119 | a resolved target outside `[-1, K-1]` returns `False` (`OutOfRange`); a failing `int()` raises `ValueError` naming the text it was given (`InvalidTarget`); either way no call, no write, storage unchanged |
| Engine.MigrationAtTargetIsIdle | flexigrate/core.py:117-138 | migrating to the stored revision returns True with no calls and no writes |
| Engine.MigrationSuccessReachesTarget | flexigrate/core.py:117-138 | when `migrate` returns True, storage holds the resolved target after exactly `Distance(c, t)` calls and writes |
| Engine.MigrationCallOrder | flexigrate/core.py:117-136 | from a stored revision in `[-1, K-1]`, an accepted target is approached by `up` on `c+1, ...` or `down` on `c, ...`, with at most `Distance(c, t)` calls; the outcome is True, or a step failure caused by a raising revision (never `False` or a bad index) |
| Engine.MigrationSucceedsWithoutFaults | flexigrate/core.py:117-138 | the bounds check lets every target in `[-1, K-1]` through: from a stored revision in that range, with no raising `up`/`down`, `migrate` returns True |
| Engine.MigrationHeadFromNothing | flexigrate/core.py:109-130 | `head` from -1 calls every `up` once in increasing order and stores 0, 1, ..., K-1 |
| Engine.MigrationBackToNothing | flexigrate/core.py:103-105 | `-K` from K-1 calls every `down` once in decreasing order and stores K-2, ..., -1 |
| Engine.MigrationRoundTrip | flexigrate/core.py:103-138 | `head` then `-K` from nothing applied runs every `up` in order, then every `down` in reverse, and leaves -1 stored |
| Loading.LoadFrom | flexigrate/core.py:66-70 | the `load_revisions` loop from number `i` on: append while the file exists and loads, stop at the first missing file, raise at a broken one |
| Loading.LoadAll | flexigrate/core.py:66-70 | `load_revisions` on an empty list, from number 0 |
| Loading.GetRevision | flexigrate/core.py:52-64 | `False` exactly when the numbered file does not exist; a load failure names that number |
| Loading.LoadedPrefixBound | flexigrate/core.py:66-70 | `n` loadable revisions in a row need at least `n` files, so the loading loop ends |
| Loading.LoadFromOk | flexigrate/core.py:66-70 | loading from `i` yields `revs` if and only if files `i, i+1, ...` hold exactly `revs` and the next number has no file |
| Loading.LoadFromErr | flexigrate/core.py:56-70 | loading from `i` raises for number `k` if and only if every file from `i` to `k-1` loads and file `k` exists but does not load |
| Loading.LoadAllContiguous | flexigrate/core.py:66-70 | the loaded list is exactly the revisions 0 .. K-1, where K is the first number with no file |
| Loading.LoadAllRejectsBrokenFile | flexigrate/core.py:56-64 | loading raises for revision `k` if and only if files 0 .. k-1 load and file `k` exists but does not load |
| Loading.NewRevisionSlotIsFree | flexigrate/core.py:83-94 | the name `new_revision` picks, for number `len(revisions)`, is not an existing file and differs from every loaded revision's name |
| Loading.NewRevisionExtendsLoad | flexigrate/core.py:83-96 | writing a loadable file in that slot makes the next load the old list plus the new revision, provided the following number has no file |
| Core.Storage.constructor | test_triptan.py:44-48 | a fresh store holds -1 (nothing applied) and has seen no writes |
| Core.Storage.GetCurrentRevision | flexigrate/core.py:175-182 | returns the last value stored |
| Core.Storage.SetCurrentRevision | flexigrate/core.py:184-190 | stores the value and appends it to the write history |
| Core.Flexigrate.constructor | flexigrate/core.py:27-35 | the engine starts with an empty revision list and no calls |
| Core.Flexigrate.Open | flexigrate/core.py:27-35 | construction succeeds exactly when loading succeeds, with the loaded list; otherwise it raises loading's error |
| Core.Flexigrate.LoadRevisions | flexigrate/core.py:66-70 | the loop appends exactly `LoadAll(dir)`; on a broken file it raises after appending the revisions before it |
| Core.Flexigrate.CurrentRevision | flexigrate/core.py:44-46 | reads the stored revision through to storage |
| Core.Flexigrate.NewRevision | flexigrate/core.py:83-94 | the new revision's number is `len(revisions)` and its file name is that number's revision file name |
| Core.Flexigrate.Invoke | flexigrate/core.py:126-134 | calls `up`/`down` on the revision at the index and records the call; the result says whether it raised |
| Core.Flexigrate.Migrate | flexigrate/core.py:98-138 | the outcome, calls, writes and final stored revision are exactly those of `Migration` for the stored revision at entry |
| Core.Flexigrate.StepTo | flexigrate/core.py:121-138 | the loop makes exactly the calls and writes of `WalkFrom` from the stored revision, and stops on its fault or at the target |
| Core.Flexigrate.StepOnce | flexigrate/core.py:124-136 | one loop pass makes exactly the call and write of `Step` |

## Left out

- Reading the YAML configuration (`load_config`) is not modelled. The revisions directory
  is a parameter: a map from file name to file. Path joining and `os.path.exists` become
  membership of that map.
- `init_storage` is not modelled, because it picks a storage class by reflection from the
  configuration. The engine is handed a storage object instead.
- `BaseStorage` is abstract. The model's `Storage` is one concrete in-memory store that
  starts at -1, as the test storage does. Storages that persist elsewhere, and concurrent
  external writers to the stored revision, are not modelled.
- `SourceFileLoader` and the revision modules' own code are foreign. A revision is reduced
  to whether its `up()` and its `down()` raise. That cannot depend on the datastore's state
  or change between calls. Side effects of a module's top-level code are not modelled;
  `load_revisions` loads each file twice.
- `new_revision` renders a Jinja template and writes the file. The model computes the
  number and the file name. What writing the file does to the next load is stated by
  `NewRevisionExtendsLoad`. The template text is not modelled.
- `setup` (scaffolding a config file and a directory) is not modelled, nor are the CLI
  front ends, because they are I/O glue. Logging is not modelled.
- Resolution.ParseInt: Python's `int()` also accepts surrounding whitespace, underscores
  between digits and non-ASCII decimal digits. The model accepts only an optional sign
  followed by ASCII digits. So the model rejects `" -1"`, which Python reads as the
  absolute revision -1 because it does not start with `-`; `UnsignedSpecIgnoresCurrent`
  (only `head` resolves to a negative target) holds for the model's `int()` only.
- Naming.RevisionFileNameDigits: stated only below 1000. From 1000 on, `{0:03d}` gives
  the plain decimal text (`Pad3Value`).
