/**
 * The part of the disk a TextToSpeech session touches, and the session's list
 * of tracked temporary paths: what `_delete_audio_file`, `_cleanup_temp_files`
 * and `_cleanup_temp_folder` in pyttslib/tts.py do to them, as functions on a
 * value, and what those functions keep and remove.
 *
 * Whether an unlink raises (a file still held open by a player, a permission
 * problem) is not visible to the program; it comes in as an oracle. Unlinking
 * a directory always raises, as `os.unlink` does.
 */
module Storage {
  import opened Paths

  /** Existing regular files, existing directories, and the tracked list `_temp_files`. */
  datatype Store = Store(files: set<Path>, dirs: set<Path>, tracked: seq<Path>)

  /** `os.path.exists`: true for files and for directories. */
  predicate Exists(s: Store, p: Path)
  {
    p in s.files || p in s.dirs
  }

  /** No path is both a regular file and a directory. */
  predicate Disjoint(s: Store)
  {
    s.files !! s.dirs
  }

  /** Number of entries of `xs` equal to `p`. */
  function Count(xs: seq<Path>, p: Path): nat
    decreases |xs|
  {
    if xs == [] then 0 else (if xs[0] == p then 1 else 0) + Count(xs[1..], p)
  }

  lemma {:induction false} CountIn(xs: seq<Path>, p: Path)
    ensures p in xs <==> Count(xs, p) > 0
    decreases |xs|
  {
    if xs != [] {
      CountIn(xs[1..], p);
      assert xs == [xs[0]] + xs[1..];
    }
  }

  lemma {:induction false} CountAppend(a: seq<Path>, b: seq<Path>, p: Path)
    ensures Count(a + b, p) == Count(a, p) + Count(b, p)
    decreases |a|
  {
    if a == [] {
      assert a + b == b;
    } else {
      assert (a + b)[1..] == a[1..] + b;
      CountAppend(a[1..], b, p);
    }
  }

  lemma CountCons(x: Path, xs: seq<Path>, q: Path)
    ensures Count([x] + xs, q) == Count(xs, q) + if x == q then 1 else 0
  {
    assert ([x] + xs)[1..] == xs;
  }

  /**
   * `list.remove(p)`: drops the first entry equal to `p`. The source either
   * knows the entry is there or catches the `ValueError`, so a missing entry
   * leaves the list as it was.
   */
  function RemoveFirst(xs: seq<Path>, p: Path): (r: seq<Path>)
    ensures p !in xs ==> r == xs
    ensures |r| == if p in xs then |xs| - 1 else |xs|
    ensures forall q :: q in r ==> q in xs
    decreases |xs|
  {
    if xs == [] then []
    else if xs[0] == p then xs[1..]
    else [xs[0]] + RemoveFirst(xs[1..], p)
  }

  /** `RemoveFirst` drops one entry equal to `p`, if there is one, and no other entry. */
  lemma {:induction false} CountRemoveFirst(xs: seq<Path>, p: Path, q: Path)
    ensures Count(RemoveFirst(xs, p), q) == if p == q && p in xs then Count(xs, q) - 1 else Count(xs, q)
    decreases |xs|
  {
    if xs != [] {
      if xs[0] == p {
        CountIn(xs[1..], q);
      } else {
        CountRemoveFirst(xs[1..], p, q);
        CountCons(xs[0], RemoveFirst(xs[1..], p), q);
        assert p in xs <==> p in xs[1..];
      }
    }
  }

  /** Position of the first entry equal to `p`. */
  function IndexOf(xs: seq<Path>, p: Path): (i: nat)
    requires p in xs
    ensures i < |xs| && xs[i] == p && p !in xs[..i]
    decreases |xs|
  {
    if xs[0] == p then 0
    else
      var j := IndexOf(xs[1..], p);
      assert xs[..j + 1] == [xs[0]] + xs[1..][..j];
      j + 1
  }

  /** `RemoveFirst` cuts out exactly the first occurrence and keeps the order of the rest. */
  lemma {:induction false} RemoveFirstCutsFirst(xs: seq<Path>, p: Path)
    requires p in xs
    ensures RemoveFirst(xs, p) == xs[..IndexOf(xs, p)] + xs[IndexOf(xs, p) + 1..]
    decreases |xs|
  {
    if xs[0] != p {
      RemoveFirstCutsFirst(xs[1..], p);
      var j := IndexOf(xs[1..], p);
      assert xs[..j + 1] == [xs[0]] + xs[1..][..j];
      assert xs[j + 2..] == xs[1..][j + 1..];
    }
  }

  lemma TwoOccurrences(xs: seq<Path>, lo: nat, hi: nat)
    requires lo < hi < |xs| && xs[lo] == xs[hi]
    ensures Count(xs, xs[lo]) >= 2
  {
    assert xs == xs[..hi] + xs[hi..];
    CountAppend(xs[..hi], xs[hi..], xs[lo]);
    assert xs[lo] == xs[..hi][lo];
    CountIn(xs[..hi], xs[lo]);
    assert xs[hi..][0] == xs[hi];
    CountIn(xs[hi..], xs[lo]);
  }

  /** Two positions holding a path that occurs once are the same position. */
  lemma UniqueIndex(xs: seq<Path>, i: nat, j: nat)
    requires i < |xs| && j < |xs| && Count(xs, xs[i]) == 1 && xs[j] == xs[i]
    ensures i == j
  {
    if i < j {
      TwoOccurrences(xs, i, j);
    } else if j < i {
      TwoOccurrences(xs, j, i);
    }
  }

  /** Whether the unlink at position `i` of an oracle raises; past its end, none does. */
  function Fails(outcomes: seq<bool>, i: nat): bool
  {
    i < |outcomes| && outcomes[i]
  }

  predicate NoFailures(outcomes: seq<bool>)
  {
    forall i :: 0 <= i < |outcomes| ==> !outcomes[i]
  }

  // ---------------------------------------------------------------------------
  // _delete_audio_file

  /** `_delete_audio_file` tries at most this many times. */
  const Attempts: nat := 3

  /** The first of the attempts whose unlink does not raise, or `Attempts` when all raise. */
  function FirstSucceeding(fails: seq<bool>): (k: nat)
    ensures k <= Attempts
    ensures forall j :: 0 <= j < k ==> Fails(fails, j)
    ensures k < Attempts ==> !Fails(fails, k)
  {
    if !Fails(fails, 0) then 0 else if !Fails(fails, 1) then 1 else if !Fails(fails, 2) then 2 else 3
  }

  /**
   * `_delete_audio_file(p)`: only a tracked path that is a file is unlinked,
   * and only when one of the attempts succeeds; then the file is gone and one
   * tracked entry is dropped. Otherwise nothing changes.
   */
  function Delete(s: Store, p: Path, fails: seq<bool>): (r: Store)
    ensures r.dirs == s.dirs
    ensures r == s || (p in s.tracked && r.files == s.files - {p} && r.tracked == RemoveFirst(s.tracked, p))
    ensures !Exists(s, p) || p !in s.tracked ==> r == s
  {
    if p in s.files && p in s.tracked && FirstSucceeding(fails) < Attempts then
      Store(s.files - {p}, s.dirs, RemoveFirst(s.tracked, p))
    else s
  }

  /** The file goes exactly when it is a tracked file and one of the three attempts succeeds. */
  lemma DeleteRemovesIff(s: Store, p: Path, fails: seq<bool>)
    ensures p !in Delete(s, p, fails).files <==>
      p !in s.files || (p in s.tracked && exists j :: 0 <= j < Attempts && !Fails(fails, j))
  {
    var k := FirstSucceeding(fails);
    if exists j :: 0 <= j < Attempts && !Fails(fails, j) {
      var j :| 0 <= j < Attempts && !Fails(fails, j);
      assert k <= j;
    }
  }

  /** A successful delete drops exactly one entry of `p`, and no entry of any other path. */
  lemma DeleteDropsOneEntry(s: Store, p: Path, fails: seq<bool>, q: Path)
    ensures var r := Delete(s, p, fails);
      Count(r.tracked, q) == if q == p && p !in r.files && p in s.files then Count(s.tracked, q) - 1 else Count(s.tracked, q)
  {
    CountRemoveFirst(s.tracked, p, q);
    CountIn(s.tracked, p);
  }

  /** Two failed attempts and a third that succeeds: the file ends up deleted and untracked. */
  lemma DeleteOnThirdAttempt(s: Store, p: Path)
    requires p in s.files && Count(s.tracked, p) == 1
    ensures var r := Delete(s, p, [true, true, false]);
      p !in r.files && p !in r.tracked && r.dirs == s.dirs
  {
    assert FirstSucceeding([true, true, false]) == 2;
    CountIn(s.tracked, p);
    CountRemoveFirst(s.tracked, p, p);
    CountIn(RemoveFirst(s.tracked, p), p);
  }

  /** When all three attempts fail nothing changes. */
  lemma DeleteAllAttemptsFail(s: Store, p: Path, fails: seq<bool>)
    requires Fails(fails, 0) && Fails(fails, 1) && Fails(fails, 2)
    ensures Delete(s, p, fails) == s
  {
  }

  // ---------------------------------------------------------------------------
  // _cleanup_temp_files

  /**
   * One pass of the snapshot loop: an absent path loses one tracked entry; an
   * existing one is unlinked, and loses an entry only if the unlink succeeds.
   */
  function CleanupStep(s: Store, p: Path, failed: bool): Store
  {
    if !Exists(s, p) then s.(tracked := RemoveFirst(s.tracked, p))
    else if p in s.files && !failed then Store(s.files - {p}, s.dirs, RemoveFirst(s.tracked, p))
    else s
  }

  /** The first `n` passes over the snapshot `snap`; `fails[i]` says whether the i-th unlink raises. */
  function CleanupPrefix(s: Store, snap: seq<Path>, fails: seq<bool>, n: nat): Store
    requires n <= |snap|
    decreases n
  {
    if n == 0 then s else CleanupStep(CleanupPrefix(s, snap, fails, n - 1), snap[n - 1], Fails(fails, n - 1))
  }

  /** `_cleanup_temp_files()`: the loop over a copy of the tracked list. */
  function CleanupFiles(s: Store, fails: seq<bool>): Store
  {
    CleanupPrefix(s, s.tracked, fails, |s.tracked|)
  }

  /** Whether a pass over `p` drops one of its tracked entries. */
  predicate StepDrops(t: Store, p: Path, failed: bool)
  {
    !Exists(t, p) || (p in t.files && !failed)
  }

  /**
   * One pass over `p`: directories stay, only `p` can lose its file, and `p`
   * loses one tracked entry exactly when it has one and `StepDrops` holds;
   * a path that drops an entry no longer exists afterwards.
   */
  lemma StepCount(t: Store, p: Path, failed: bool, q: Path)
    ensures var r := CleanupStep(t, p, failed);
      r.dirs == t.dirs && r.files <= t.files
      && (q != p ==> (q in r.files <==> q in t.files))
      && (p in r.files <==> p in t.files && failed)
      && Count(r.tracked, q) ==
        (if q == p && p in t.tracked && StepDrops(t, p, failed) then Count(t.tracked, q) - 1 else Count(t.tracked, q))
      && (Disjoint(t) && StepDrops(t, p, failed) ==> !Exists(r, p))
  {
    CountRemoveFirst(t.tracked, p, q);
  }

  /** Cleanup never creates anything and never touches directories, and the files it was not asked about stay. */
  lemma {:induction false} CleanupPrefixFiles(s: Store, snap: seq<Path>, fails: seq<bool>, n: nat)
    requires n <= |snap|
    ensures var r := CleanupPrefix(s, snap, fails, n);
      r.dirs == s.dirs && r.files <= s.files
      && (forall q :: q in s.files && q !in snap[..n] ==> q in r.files)
    decreases n
  {
    if n > 0 {
      CleanupPrefixFiles(s, snap, fails, n - 1);
      var t := CleanupPrefix(s, snap, fails, n - 1);
      var r := CleanupPrefix(s, snap, fails, n);
      var p := snap[n - 1];
      assert r == CleanupStep(t, p, Fails(fails, n - 1));
      assert r.files == t.files || r.files == t.files - {p};
      assert snap[..n] == snap[..n - 1] + [p];
    }
  }

  /** Cleanup never creates files and never touches directories. */
  lemma {:induction false} CleanupPrefixShrinks(s: Store, snap: seq<Path>, fails: seq<bool>, n: nat)
    requires n <= |snap|
    ensures var r := CleanupPrefix(s, snap, fails, n);
      r.dirs == s.dirs && r.files <= s.files
    decreases n
  {
    if n > 0 {
      CleanupPrefixShrinks(s, snap, fails, n - 1);
      StepCount(CleanupPrefix(s, snap, fails, n - 1), snap[n - 1], Fails(fails, n - 1), snap[n - 1]);
    }
  }

  /** Entries are only dropped, and a path that still exists keeps every one of its entries. */
  lemma {:induction false} CleanupPrefixCount(s: Store, snap: seq<Path>, fails: seq<bool>, n: nat, q: Path)
    requires n <= |snap| && Disjoint(s)
    ensures var r := CleanupPrefix(s, snap, fails, n);
      Count(r.tracked, q) <= Count(s.tracked, q)
      && (Exists(r, q) ==> Count(r.tracked, q) == Count(s.tracked, q))
    decreases n
  {
    if n > 0 {
      var t := CleanupPrefix(s, snap, fails, n - 1);
      CleanupPrefixCount(s, snap, fails, n - 1, q);
      CleanupPrefixShrinks(s, snap, fails, n - 1);
      assert Disjoint(t);
      StepCount(t, snap[n - 1], Fails(fails, n - 1), q);
    }
  }

  /**
   * Cleanup never creates anything and never touches directories; files it
   * was not asked about stay; tracked entries are only dropped; and a path
   * that still exists afterwards keeps every one of its tracked entries.
   */
  lemma CleanupFrame(s: Store, fails: seq<bool>)
    requires Disjoint(s)
    ensures var r := CleanupFiles(s, fails);
      r.dirs == s.dirs && r.files <= s.files
      && (forall q :: q in s.files && q !in s.tracked ==> q in r.files)
      && (forall q :: Exists(r, q) ==> Count(r.tracked, q) == Count(s.tracked, q))
      && (forall q :: Count(r.tracked, q) <= Count(s.tracked, q))
  {
    CleanupPrefixFiles(s, s.tracked, fails, |s.tracked|);
    assert s.tracked[..|s.tracked|] == s.tracked;
    forall q
      ensures var r := CleanupFiles(s, fails);
        Count(r.tracked, q) <= Count(s.tracked, q) && (Exists(r, q) ==> Count(r.tracked, q) == Count(s.tracked, q))
    {
      CleanupPrefixCount(s, s.tracked, fails, |s.tracked|, q);
    }
  }

  /** An absent path keeps exactly one entry for each of its snapshot entries still to come. */
  lemma {:induction false} CleanupPrefixMissing(s: Store, fails: seq<bool>, n: nat, q: Path)
    requires n <= |s.tracked| && !Exists(s, q)
    ensures Count(CleanupPrefix(s, s.tracked, fails, n).tracked, q) == Count(s.tracked[n..], q)
    decreases n
  {
    var snap := s.tracked;
    if n == 0 {
      assert snap[0..] == snap;
    } else {
      var t := CleanupPrefix(s, snap, fails, n - 1);
      CleanupPrefixMissing(s, fails, n - 1, q);
      CleanupPrefixShrinks(s, snap, fails, n - 1);
      assert !Exists(t, q);
      SuffixCons(snap, n, q);
      CountIn(t.tracked, q);
      StepCount(t, snap[n - 1], Fails(fails, n - 1), q);
    }
  }

  /** The suffix from position `n - 1` is that entry followed by the suffix from `n`. */
  lemma SuffixCons(xs: seq<Path>, n: nat, q: Path)
    requires 0 < n <= |xs|
    ensures Count(xs[n - 1..], q) == Count(xs[n..], q) + if xs[n - 1] == q then 1 else 0
  {
    assert xs[n - 1..] == [xs[n - 1]] + xs[n..];
    CountCons(xs[n - 1], xs[n..], q);
  }

  /** Every path that was already absent is dropped from tracking, all its entries. */
  lemma CleanupDropsMissing(s: Store, fails: seq<bool>, q: Path)
    requires !Exists(s, q)
    ensures q !in CleanupFiles(s, fails).tracked
  {
    CleanupPrefixMissing(s, fails, |s.tracked|, q);
    assert s.tracked[|s.tracked|..] == [];
    CountIn(CleanupFiles(s, fails).tracked, q);
  }

  /** With no failing unlink, a prefix of the passes has deleted every file it reached. */
  lemma {:induction false} CleanupPrefixNoFailuresFiles(s: Store, fails: seq<bool>, n: nat)
    requires n <= |s.tracked| && NoFailures(fails)
    ensures forall q :: q in CleanupPrefix(s, s.tracked, fails, n).files <==> q in s.files && q !in s.tracked[..n]
    decreases n
  {
    if n > 0 {
      var snap := s.tracked;
      CleanupPrefixNoFailuresFiles(s, fails, n - 1);
      var t := CleanupPrefix(s, snap, fails, n - 1);
      var r := CleanupPrefix(s, snap, fails, n);
      var p := snap[n - 1];
      assert !Fails(fails, n - 1);
      assert r == CleanupStep(t, p, false);
      assert snap[..n] == snap[..n - 1] + [p];
    }
  }

  /** With no failing unlink, the entries a prefix reached are dropped, except those of directories. */
  lemma {:induction false} CleanupPrefixNoFailuresCount(s: Store, fails: seq<bool>, n: nat, q: Path)
    requires n <= |s.tracked| && Disjoint(s) && NoFailures(fails)
    ensures Count(CleanupPrefix(s, s.tracked, fails, n).tracked, q)
      == if q in s.dirs then Count(s.tracked, q) else Count(s.tracked[n..], q)
    decreases n
  {
    var snap := s.tracked;
    if n == 0 {
      assert snap[0..] == snap;
    } else {
      var t := CleanupPrefix(s, snap, fails, n - 1);
      CleanupPrefixNoFailuresCount(s, fails, n - 1, q);
      CleanupPrefixShrinks(s, snap, fails, n - 1);
      assert Disjoint(t);
      assert !Fails(fails, n - 1);
      SuffixCons(snap, n, q);
      CountIn(t.tracked, q);
      StepCount(t, snap[n - 1], false, q);
    }
  }

  /**
   * When no unlink fails, cleanup deletes every tracked file, and the only
   * entries left are those of directories, with their counts.
   */
  lemma CleanupNoFailures(s: Store, fails: seq<bool>)
    requires Disjoint(s) && NoFailures(fails)
    ensures var r := CleanupFiles(s, fails);
      r.dirs == s.dirs
      && (forall q :: q in r.files <==> q in s.files && q !in s.tracked)
      && (forall q :: Count(r.tracked, q) == if q in s.dirs then Count(s.tracked, q) else 0)
  {
    CleanupPrefixNoFailuresFiles(s, fails, |s.tracked|);
    CleanupPrefixFiles(s, s.tracked, fails, |s.tracked|);
    assert s.tracked[..|s.tracked|] == s.tracked;
    assert s.tracked[|s.tracked|..] == [];
    forall q
      ensures Count(CleanupFiles(s, fails).tracked, q) == if q in s.dirs then Count(s.tracked, q) else 0
    {
      CleanupPrefixNoFailuresCount(s, fails, |s.tracked|, q);
    }
  }

  /** The fate of a path tracked once, after `n` passes, and its one snapshot position `i`. */
  predicate UniqueFate(s: Store, r: Store, p: Path, i: nat, n: nat, fails: seq<bool>)
  {
    if n <= i then
      (p in r.files <==> p in s.files) && Count(r.tracked, p) == 1
    else
      (p in r.files <==> p in s.files && Fails(fails, i))
      && (Count(r.tracked, p) == 1 <==> Exists(r, p)) && Count(r.tracked, p) <= 1
  }

  lemma {:induction false} CleanupPrefixUnique(s: Store, fails: seq<bool>, i: nat, n: nat)
    requires Disjoint(s) && i < |s.tracked| && Count(s.tracked, s.tracked[i]) == 1 && n <= |s.tracked|
    ensures UniqueFate(s, CleanupPrefix(s, s.tracked, fails, n), s.tracked[i], i, n, fails)
    decreases n
  {
    var snap := s.tracked;
    if n > 0 {
      var t := CleanupPrefix(s, snap, fails, n - 1);
      CleanupPrefixUnique(s, fails, i, n - 1);
      CleanupPrefixShrinks(s, snap, fails, n - 1);
      if snap[n - 1] == snap[i] {
        UniqueIndex(snap, i, n - 1);
      }
      StepUnique(s, t, snap[n - 1], snap[i], i, n, fails);
    }
  }

  /** One pass keeps the fate of a path tracked once, whose one snapshot position is `i`. */
  lemma StepUnique(s: Store, t: Store, p: Path, x: Path, i: nat, n: nat, fails: seq<bool>)
    requires 0 < n && Disjoint(s) && t.dirs == s.dirs && t.files <= s.files
    requires (p == x <==> n - 1 == i)
    requires UniqueFate(s, t, x, i, n - 1, fails)
    ensures UniqueFate(s, CleanupStep(t, p, Fails(fails, n - 1)), x, i, n, fails)
  {
    CountIn(t.tracked, x);
    StepCount(t, p, Fails(fails, n - 1), x);
  }

  /**
   * A path tracked exactly once: it stays on disk exactly when it was a file
   * whose unlink raised, and it stays tracked exactly when it still exists.
   */
  lemma CleanupUnique(s: Store, fails: seq<bool>, i: nat)
    requires Disjoint(s) && i < |s.tracked| && Count(s.tracked, s.tracked[i]) == 1
    ensures var r := CleanupFiles(s, fails);
      var p := s.tracked[i];
      (p in r.files <==> p in s.files && Fails(fails, i))
      && (p in r.tracked <==> Exists(r, p))
  {
    CleanupPrefixUnique(s, fails, i, |s.tracked|);
    CountIn(CleanupFiles(s, fails).tracked, s.tracked[i]);
  }

  /**
   * A path tracked twice whose first unlink raises and second succeeds: the
   * file is gone, yet one entry for it stays tracked.
   */
  lemma CleanupLeavesStaleEntry(p: Path)
    ensures CleanupFiles(Store({p}, {}, [p, p]), [true, false]) == Store({}, {}, [p])
  {
    var s := Store({p}, {}, [p, p]);
    assert CleanupPrefix(s, [p, p], [true, false], 1) == s;
    assert RemoveFirst([p, p], p) == [p];
  }

  /** Cleanup changes nothing when every tracked entry is a directory. */
  lemma {:induction false} CleanupPrefixOnlyDirs(s: Store, fails: seq<bool>, n: nat)
    requires n <= |s.tracked| && Disjoint(s)
    requires forall q :: q in s.tracked ==> q in s.dirs
    ensures CleanupPrefix(s, s.tracked, fails, n) == s
    decreases n
  {
    if n > 0 {
      CleanupPrefixOnlyDirs(s, fails, n - 1);
    }
  }

  // ---------------------------------------------------------------------------
  // _cleanup_temp_folder and cleanup

  /**
   * `_cleanup_temp_folder()`: when `dir` can be listed, every regular file
   * directly inside it is unlinked, and stays only if `locked` (its unlink
   * raises). Directories, files elsewhere and the tracked list are untouched.
   * A missing `dir` makes `os.listdir` raise, which is caught: nothing changes.
   */
  function Sweep(s: Store, dir: Path, locked: set<Path>): (r: Store)
    ensures r.dirs == s.dirs && r.tracked == s.tracked && r.files <= s.files
    ensures forall q :: q in s.files && !DirectChild(dir, q) ==> q in r.files
    ensures forall q :: q in s.files && q in locked ==> q in r.files
    ensures dir in s.dirs ==> forall q :: DirectChild(dir, q) && q !in locked ==> q !in r.files
    ensures dir !in s.dirs ==> r == s
  {
    if dir in s.dirs then s.(files := set q | q in s.files && (!DirectChild(dir, q) || q in locked)) else s
  }

  /** A file the session named in its scratch directory is removed by the sweep unless locked. */
  lemma SweepRemovesTempFile(s: Store, dir: Path, timestamp: int, suffix: string, locked: set<Path>)
    requires dir in s.dirs && '/' !in suffix && TempPath(dir, timestamp, suffix) !in locked
    ensures TempPath(dir, timestamp, suffix) !in Sweep(s, dir, locked).files
  {
    TempPathInDir(dir, timestamp, suffix);
  }

  /** `cleanup()`: the tracked files first, then the folder sweep. */
  function CleanupAll(s: Store, dir: Path, fails: seq<bool>, locked: set<Path>): Store
  {
    Sweep(CleanupFiles(s, fails), dir, locked)
  }

  /**
   * When no unlink of a tracked file fails, calling `cleanup()` twice leaves
   * the same state as calling it once.
   */
  lemma CleanupAllIdempotent(s: Store, dir: Path, fails: seq<bool>, locked: set<Path>)
    requires Disjoint(s) && NoFailures(fails)
    ensures CleanupAll(CleanupAll(s, dir, fails, locked), dir, fails, locked) == CleanupAll(s, dir, fails, locked)
  {
    var c := CleanupFiles(s, fails);
    CleanupNoFailures(s, fails);
    var r := Sweep(c, dir, locked);
    forall q | q in r.tracked
      ensures q in r.dirs
    {
      CountIn(c.tracked, q);
    }
    CleanupPrefixOnlyDirs(r, fails, |r.tracked|);
  }

  /** After `cleanup()` the scratch directory holds no regular file directly inside it that is not locked. */
  lemma CleanupAllEmptiesFolder(s: Store, dir: Path, fails: seq<bool>, locked: set<Path>, q: Path)
    requires dir in s.dirs
    requires DirectChild(dir, q) && q !in locked
    ensures q !in CleanupAll(s, dir, fails, locked).files
  {
    CleanupPrefixFiles(s, s.tracked, fails, |s.tracked|);
  }

  // ---------------------------------------------------------------------------
  // The disk as mutable state

  /** The regular files and directories on disk, changed in place by unlink, mkdir and writes. */
  class FileSystem {
    var files: set<Path>
    var dirs: set<Path>

    constructor (files: set<Path>, dirs: set<Path>)
      ensures this.files == files && this.dirs == dirs
    {
      this.files := files;
      this.dirs := dirs;
    }

    /** No path is both a regular file and a directory. */
    predicate Consistent()
      reads this
    {
      files !! dirs
    }

    /** `os.path.exists(p)`. */
    predicate Exists(p: Path)
      reads this
    {
      p in files || p in dirs
    }

    /** `os.path.isfile(p)`. */
    predicate IsFile(p: Path)
      reads this
    {
      p in files
    }

    /** `os.unlink(p)`: removes a regular file; raises for a directory, an absent path, or when `raises`. */
    method Unlink(p: Path, raises: bool) returns (ok: bool)
      modifies this
      ensures ok <==> p in old(files) && !raises
      ensures files == (if ok then old(files) - {p} else old(files)) && dirs == old(dirs)
      ensures old(Consistent()) ==> Consistent()
    {
      ok := p in files && !raises;
      if ok {
        files := files - {p};
      }
    }

    /** `os.makedirs(p)` for a path that does not exist yet. */
    method MakeDirs(p: Path)
      modifies this
      requires !Exists(p)
      ensures dirs == old(dirs) + {p} && files == old(files)
      ensures old(Consistent()) ==> Consistent()
    {
      dirs := dirs + {p};
    }

    /** An engine writing an audio file at `p`: fails for a directory or when `raises`. */
    method Write(p: Path, raises: bool) returns (ok: bool)
      modifies this
      ensures ok <==> p !in old(dirs) && !raises
      ensures files == (if ok then old(files) + {p} else old(files)) && dirs == old(dirs)
      ensures old(Consistent()) ==> Consistent()
    {
      ok := p !in dirs && !raises;
      if ok {
        files := files + {p};
      }
    }
  }
}
