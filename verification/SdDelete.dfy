/** What a recursive delete of main/sd_manager.cpp promises, and the facts behind it.

    A delete is described by the card before and after it and by its counters: what may change, what
    survives, how the counters account for every call, and what is left when nothing fails. The
    lemmas put the descriptions of the parts together into that of the whole, child by child and path
    by path. */
module SdDelete {
  import opened Common
  import opened SdCard

  const MOUNT: Name := "sdcard"

  datatype Guard = Allowed | BadPath | MountRoot | ManagedDir

  predicate HasDots(name: Name) {
    exists i | 0 <= i < |name| - 1 :: name[i] == '.' && name[i + 1] == '.'
  }

  /** safe_path: below the mount point, and no ".." anywhere. */
  predicate SafePath(p: Path) {
    p != [] && p[0] == MOUNT && forall i | 0 <= i < |p| :: !HasDots(p[i])
  }

  predicate IsManaged(p: Path) {
    p == [MOUNT, "logs"] || p == [MOUNT, "rawdata"]
  }

  /** check_deletable */
  function CheckDeletable(p: Path): Guard {
    if !SafePath(p) then BadPath
    else if p == [MOUNT] then MountRoot
    else if IsManaged(p) then ManagedDir
    else Allowed
  }

  predicate Refused(p: Option<Path>) {
    p.None? || CheckDeletable(p.value).BadPath? || CheckDeletable(p.value).MountRoot?
  }

  // ------------------------------------------------------------ how trees may change

  /** Entries only disappear, and only at `p` or below it. */
  ghost predicate PrunedAt(before: Tree, after: Tree, p: Path) {
    && (forall q | q in after :: q in before && before[q] == after[q])
    && (forall q | q in before && !(p <= q) :: q in after)
  }

  /** No directory at or below `p` would be refused on the way down. */
  ghost predicate SafeBelow(fs: Tree, p: Path) {
    forall q | q in fs && p <= q && fs[q].Dir? :: SafePath(q)
  }

  /** An entry that the check on the way down shelters: a directory that is refused, and what is in it. */
  predicate Sheltered(fs: Tree, q: Path) {
    q in fs && ((|q| > 1 && !SafePath(Parent(q))) || (fs[q].Dir? && !SafePath(q)))
  }

  /** No sheltered entry is gone. */
  ghost predicate Kept(before: Tree, after: Tree) {
    forall q | Sheltered(before, q) :: q in after
  }

  lemma KeptChain(a: Tree, b: Tree, c: Tree)
    requires Kept(a, b) && Kept(b, c) && forall q | q in b :: q in a && a[q] == b[q]
    ensures Kept(a, c)
  {
    hide SafePath;
  }

  /** What a delete of `p` is to remove. */
  ghost function Doomed(fs: Tree, p: Path, keepShell: bool): set<Path> {
    if keepShell && p in fs && fs[p].Dir? then Under(fs, p) - {p} else Under(fs, p)
  }

  /** The counters of a delete, the calls of remove_tree, and the system calls that failed
      although the tree allowed them. */
  datatype Tally = Tally(deleted: nat, failed: nat, skipped: nat, progress: nat, calls: nat, faults: nat)

  /** The first failure, and only that, is remembered with its path, which is `p` or below it. */
  predicate Reported(failed: nat, error: Option<Path>, failed': nat, error': Option<Path>, p: Path) {
    && failed' >= failed
    && (if error.Some? || failed' == failed then error' == error else error'.Some? && p <= error'.value)
  }

  lemma ReportedChain(f0: nat, e0: Option<Path>, f1: nat, e1: Option<Path>, f2: nat, e2: Option<Path>,
                      base: Path, p: Path)
    requires base <= p && Reported(f0, e0, f1, e1, base) && Reported(f1, e1, f2, e2, p)
    ensures Reported(f0, e0, f2, e2, base)
  {
  }

  /** Every call of remove_tree has one outcome, and every deletion is an entry really gone. */
  ghost predicate Accounted(before: Tree, after: Tree, a: Tally, b: Tally) {
    && b.deleted + b.failed + b.skipped - (a.deleted + a.failed + a.skipped) == b.calls - a.calls
    && b.deleted - a.deleted == b.progress - a.progress == |before| - |after|
    && b.deleted >= a.deleted && b.failed >= a.failed && b.skipped >= a.skipped
    && b.calls >= a.calls && b.faults >= a.faults
  }

  /** What one call of remove_tree does. */
  ghost predicate Removed(before: Tree, after: Tree, p: Path, keepShell: bool, a: Tally, b: Tally) {
    && WellFormed(after) && PrunedAt(before, after, p)
    && Accounted(before, after, a, b) && b.calls > a.calls
    // a refused directory is not entered
    && (|p| > 1 && SafePath(Parent(p)) ==> Kept(before, after))
    // a managed directory survives
    && (keepShell && p in before && before[p].Dir? ==> p in after)
    // a missing entry is one failure
    && (p !in before ==> after == before && b == a.(failed := a.failed + 1, calls := a.calls + 1))
    // without faults everything goes
    && (p in before && SafeBelow(before, p) && b.faults == a.faults ==>
          && after.Keys == before.Keys - Doomed(before, p, keepShell)
          && b.failed == a.failed
          && b.skipped == a.skipped + if keepShell && before[p].Dir? then 1 else 0)
  }

  /** What the first `k` children's calls do. */
  ghost predicate ChildrenRemoved(before: Tree, after: Tree, base: Path, names: seq<Name>, k: nat,
                                  a: Tally, b: Tally)
    requires k <= |names|
  {
    && WellFormed(after) && PrunedAt(before, after, base)
    && base in before && before[base].Dir? && base in after
    && Accounted(before, after, a, b)
    && (SafePath(base) ==> Kept(before, after))
    && (forall j | k <= j < |names| :: Under(after, base + [names[j]]) == Under(before, base + [names[j]]))
    && (SafeBelow(before, base) && b.faults == a.faults ==>
          && (forall j | 0 <= j < k :: Under(after, base + [names[j]]) == {})
          && b.failed == a.failed && b.skipped == a.skipped)
  }

  lemma OneChildOnly(base: Path, n: Name, m: Name, q: Path)
    ensures base + [n] <= q && base + [m] <= q ==> n == m
  {
    if base + [n] <= q && base + [m] <= q {
      assert q[|base|] == n && q[|base|] == m;
    }
  }

  /** Deleting below one child leaves what is below its siblings. */
  lemma SiblingUntouched(a: Tree, b: Tree, base: Path, n: Name, m: Name)
    requires PrunedAt(a, b, base + [n]) && n != m
    ensures Under(b, base + [m]) == Under(a, base + [m])
  {
    forall q | q in a && base + [m] <= q
      ensures !(base + [n] <= q)
    {
      OneChildOnly(base, n, m, q);
    }
  }

  lemma PrunedChain(a: Tree, b: Tree, c: Tree, base: Path, n: Name)
    requires PrunedAt(a, b, base) && PrunedAt(b, c, base + [n]) && base in b
    ensures PrunedAt(a, c, base) && base in c
  {
    forall q | q in a && !(base <= q)
      ensures q in c
    {
      assert !(base + [n] <= q);
    }
  }

  lemma SafeBelowChild(a: Tree, b: Tree, base: Path, n: Name)
    requires SafeBelow(a, base) && PrunedAt(a, b, base)
    ensures SafeBelow(b, base + [n])
  {
  }

  lemma AccountedChain(fs0: Tree, fs1: Tree, fs2: Tree, a: Tally, b: Tally, c: Tally)
    requires Accounted(fs0, fs1, a, b) && Accounted(fs1, fs2, b, c)
    ensures Accounted(fs0, fs2, a, c)
  {
  }

  /** The call itself, and its one outcome. */
  lemma AccountedOutcome(fs0: Tree, fs1: Tree, fs2: Tree, a: Tally, b: Tally, c: Tally)
    requires Accounted(fs0, fs1, a.(calls := a.calls + 1), b)
    requires |fs1| - |fs2| == c.deleted - b.deleted == c.progress - b.progress
    requires c.deleted + c.failed + c.skipped == b.deleted + b.failed + b.skipped + 1
    requires c.deleted >= b.deleted && c.failed >= b.failed && c.skipped >= b.skipped
    requires c.calls == b.calls && c.faults >= b.faults
    ensures Accounted(fs0, fs2, a, c) && c.calls > a.calls
  {
  }

  lemma ChildIn(fs0: Tree, base: Path, names: seq<Name>, i: nat)
    requires IsListing(fs0, base, names) && i < |names|
    ensures base + [names[i]] in Under(fs0, base + [names[i]])
  {
  }

  /** One more child. */
  lemma OneMoreChild(fs0: Tree, fs1: Tree, fs2: Tree, base: Path, names: seq<Name>, i: nat,
                     a: Tally, b: Tally, c: Tally)
    requires IsListing(fs0, base, names) && i < |names|
    requires ChildrenRemoved(fs0, fs1, base, names, i, a, b)
    requires Removed(fs1, fs2, base + [names[i]], false, b, c)
    ensures ChildrenRemoved(fs0, fs2, base, names, i + 1, a, c)
  {
    var child := base + [names[i]];
    forall j | 0 <= j < |names| && j != i
      ensures Under(fs2, base + [names[j]]) == Under(fs1, base + [names[j]])
    {
      SiblingUntouched(fs1, fs2, base, names[i], names[j]);
    }
    PrunedChain(fs0, fs1, fs2, base, names[i]);
    AccountedChain(fs0, fs1, fs2, a, b, c);
    ChildIn(fs0, base, names, i);
    assert child in fs1;
    if SafePath(base) {
      assert Parent(child) == base && |child| > 1;
      KeptChain(fs0, fs1, fs2);
    }
    if SafeBelow(fs0, base) && c.faults == a.faults {
      SafeBelowChild(fs0, fs1, base, names[i]);
      NothingUnder(fs1, fs2, child);
    }
    hide WellFormed, PrunedAt, Accounted, SafeBelow, Under, IsListing, Kept, SafePath;
  }

  lemma NothingUnder(fs1: Tree, fs2: Tree, p: Path)
    ensures fs2.Keys == fs1.Keys - Under(fs1, p) ==> Under(fs2, p) == {}
  {
  }

  /** What is left below a directory is below one of the listed children. */
  lemma ListedAbove(a: Tree, b: Tree, base: Path, names: seq<Name>, q: Path) returns (j: nat)
    requires WellFormed(b) && PrunedAt(a, b, base) && base != []
    requires IsListing(a, base, names)
    requires q in b && base <= q && |q| > |base|
    ensures j < |names| && q in Under(b, base + [names[j]])
  {
    hide *;
    AncestorIn(b, q, |base| + 1);
    var child := q[..|base| + 1];
    StillThere(a, b, base, child);
    ChildPath(base, q);
    j := ListedName(a, base, names, child);
    BelowIsUnder(b, q, child);
  }

  lemma StillThere(a: Tree, b: Tree, base: Path, q: Path)
    requires PrunedAt(a, b, base) && q in b
    ensures q in a
  {
  }

  lemma ChildPath(base: Path, q: Path)
    requires base <= q && |q| > |base|
    ensures var child := q[..|base| + 1];
      base <= child && child <= q && child == base + [child[|base|]]
  {
  }

  lemma ListedName(fs: Tree, base: Path, names: seq<Name>, child: Path) returns (j: nat)
    requires IsListing(fs, base, names) && child in fs && base <= child && |child| == |base| + 1
    ensures j < |names| && names[j] == child[|base|]
  {
    j :| 0 <= j < |names| && names[j] == child[|base|];
  }

  lemma BelowIsUnder(fs: Tree, q: Path, p: Path)
    requires q in fs && p <= q
    ensures q in Under(fs, p)
  {
  }

  /** When every listed child is gone, only the directory itself is left. */
  lemma OnlyShellLeft(a: Tree, b: Tree, base: Path, names: seq<Name>)
    requires WellFormed(b) && PrunedAt(a, b, base) && base != []
    requires IsListing(a, base, names)
    requires forall j | 0 <= j < |names| :: Under(b, base + [names[j]]) == {}
    ensures forall q | q in b && base <= q :: q == base
  {
    forall q | q in b && base <= q
      ensures q == base
    {
      if |q| > |base| {
        var _ := ListedAbove(a, b, base, names, q);
      }
    }
  }

  lemma FileAlone(fs: Tree, p: Path)
    requires WellFormed(fs) && p in fs && fs[p].File?
    ensures Under(fs, p) == {p} && WellFormed(fs - {p})
  {
    forall q | q in fs && p <= q
      ensures q == p
    {
      assert q[..|p|] == p;
      AncestorIn(fs, q, |p|);
    }
  }

  lemma OneLess(fs: Tree, p: Path)
    requires p in fs
    ensures |fs - {p}| == |fs| - 1
  {
    assert (fs - {p}).Keys == fs.Keys - {p};
  }

  /** A file: unlinked, or one failure. */
  lemma FileRemoved(fs: Tree, p: Path, keepShell: bool, ok: bool, a: Tally)
    requires WellFormed(fs) && p in fs && fs[p].File?
    ensures ok ==> Removed(fs, fs - {p}, p, keepShell, a,
              a.(deleted := a.deleted + 1, progress := a.progress + 1, calls := a.calls + 1))
    ensures !ok ==> Removed(fs, fs, p, keepShell, a,
              a.(failed := a.failed + 1, calls := a.calls + 1, faults := a.faults + 1))
  {
    FileAlone(fs, p);
    OneLess(fs, p);
    hide WellFormed, SafeBelow, SafePath;
  }

  /** An entry left alone because a call failed or the path is not safe. */
  lemma NothingRemoved(fs: Tree, p: Path, keepShell: bool, a: Tally, b: Tally)
    requires WellFormed(fs) && p in fs
    requires b.faults == a.faults ==> !SafeBelow(fs, p)
    requires b.faults >= a.faults
    requires b == a.(failed := b.failed, skipped := b.skipped, calls := a.calls + 1, faults := b.faults)
    requires b.failed + b.skipped == a.failed + a.skipped + 1
    requires b.failed >= a.failed && b.skipped >= a.skipped
    ensures Removed(fs, fs, p, keepShell, a, b)
  {
    hide WellFormed, SafeBelow, SafePath;
  }

  lemma RmdirKeepsShape(fs: Tree, p: Path)
    requires WellFormed(fs) && p in fs && forall q | q in fs && p <= q :: q == p
    ensures WellFormed(fs - {p})
  {
    forall q | q in fs - {p} && |q| > 1
      ensures Parent(q) in fs - {p}
    {
      assert Parent(q) <= q;
    }
  }

  /** A managed directory whose children have been dealt with keeps its shell. */
  lemma ShellKept(fs0: Tree, fs1: Tree, base: Path, names: seq<Name>, a: Tally, b: Tally)
    requires SafePath(base) && base != [] && IsListing(fs0, base, names)
    requires ChildrenRemoved(fs0, fs1, base, names, |names|, a.(calls := a.calls + 1), b)
    ensures Removed(fs0, fs1, base, true, a, b.(skipped := b.skipped + 1))
  {
    if SafeBelow(fs0, base) && b.faults == a.faults {
      OnlyShellLeft(fs0, fs1, base, names);
      ExactlyShellLeft(fs0, fs1, base);
    }
    AccountedOutcome(fs0, fs1, fs1, a, b, b.(skipped := b.skipped + 1));
    hide WellFormed, SafeBelow, IsListing, PrunedAt, Under, Accounted, Kept, SafePath;
  }

  lemma ExactlyShellLeft(fs0: Tree, fs1: Tree, base: Path)
    requires PrunedAt(fs0, fs1, base) && base in fs0 && base in fs1
    requires forall q | q in fs1 && base <= q :: q == base
    ensures fs1.Keys == fs0.Keys - (Under(fs0, base) - {base})
    ensures (fs1 - {base}).Keys == fs0.Keys - Under(fs0, base)
  {
  }

  lemma DirectoryRemoved(fs0: Tree, fs1: Tree, base: Path, names: seq<Name>, a: Tally, b: Tally)
    requires SafePath(base) && base != [] && IsListing(fs0, base, names) && IsEmptyDir(fs1, base)
    requires ChildrenRemoved(fs0, fs1, base, names, |names|, a.(calls := a.calls + 1), b)
    ensures Removed(fs0, fs1 - {base}, base, false, a,
                    b.(deleted := b.deleted + 1, progress := b.progress + 1))
  {
    RmdirKeepsShape(fs1, base);
    OneLess(fs1, base);
    ExactlyShellLeft(fs0, fs1, base);
    assert PrunedAt(fs0, fs1 - {base}, base);
    KeptWithout(fs0, fs1, base);
    AccountedOutcome(fs0, fs1, fs1 - {base}, a, b, b.(deleted := b.deleted + 1, progress := b.progress + 1));
    hide WellFormed, SafeBelow, IsListing, PrunedAt, Under, Accounted, IsEmptyDir, Kept, SafePath;
  }

  lemma KeptWithout(fs0: Tree, fs1: Tree, base: Path)
    ensures Kept(fs0, fs1) && SafePath(base) && (|base| > 1 ==> SafePath(Parent(base))) ==> Kept(fs0, fs1 - {base})
  {
    hide SafePath;
  }

  lemma EmptyWhenClean(fs0: Tree, fs1: Tree, base: Path, names: seq<Name>, a: Tally, b: Tally)
    requires base != [] && IsListing(fs0, base, names)
    requires ChildrenRemoved(fs0, fs1, base, names, |names|, a, b)
    requires SafeBelow(fs0, base) && b.faults == a.faults
    ensures IsEmptyDir(fs1, base)
  {
    OnlyShellLeft(fs0, fs1, base, names);
    hide WellFormed, SafeBelow, IsListing, Under;
  }

  lemma DirectoryNotRemoved(fs0: Tree, fs1: Tree, base: Path, names: seq<Name>, a: Tally, b: Tally)
    requires SafePath(base) && base != [] && IsListing(fs0, base, names)
    requires ChildrenRemoved(fs0, fs1, base, names, |names|, a.(calls := a.calls + 1), b)
    ensures Removed(fs0, fs1, base, false, a,
                    b.(failed := b.failed + 1, faults := b.faults + if IsEmptyDir(fs1, base) then 1 else 0))
  {
    if SafeBelow(fs0, base) && b.faults == a.faults {
      EmptyWhenClean(fs0, fs1, base, names, a.(calls := a.calls + 1), b);
    }
    var c := b.(failed := b.failed + 1, faults := b.faults + if IsEmptyDir(fs1, base) then 1 else 0);
    AccountedOutcome(fs0, fs1, fs1, a, b, c);
    hide WellFormed, SafeBelow, IsListing, PrunedAt, Under, Doomed, IsEmptyDir, Accounted, Kept, SafePath;
  }

  lemma ChildSmaller(fs0: Tree, fs: Tree, base: Path, n: Name)
    requires base in fs0 && PrunedAt(fs0, fs, base)
    ensures Under(fs, base + [n]) < Under(fs0, base)
  {
    assert base in Under(fs0, base) && base !in Under(fs, base + [n]);
  }

  lemma MissingRemoved(fs: Tree, p: Path, keepShell: bool, a: Tally)
    requires WellFormed(fs) && p !in fs
    ensures Removed(fs, fs, p, keepShell, a, a.(failed := a.failed + 1, calls := a.calls + 1))
  {
  }

  lemma UnsafeHere(fs: Tree, p: Path)
    requires p in fs && fs[p].Dir? && !SafePath(p)
    ensures !SafeBelow(fs, p)
  {
    hide SafePath;
  }

  lemma DirectoryStill(fs0: Tree, fs1: Tree, base: Path, names: seq<Name>, a: Tally, b: Tally)
    requires ChildrenRemoved(fs0, fs1, base, names, |names|, a, b)
    ensures base in fs1 && fs1[base].Dir?
  {
  }

  lemma NoChildYet(fs: Tree, base: Path, names: seq<Name>, a: Tally)
    requires WellFormed(fs) && base in fs && fs[base].Dir?
    ensures ChildrenRemoved(fs, fs, base, names, 0, a, a)
  {
  }

  lemma StepMeasure(fs0: Tree, fs1: Tree, base: Path, names: seq<Name>, i: nat, a: Tally, b: Tally)
    requires i < |names| && ChildrenRemoved(fs0, fs1, base, names, i, a, b)
    ensures WellFormed(fs1) && Under(fs1, base + [names[i]]) < Under(fs0, base)
  {
    ChildSmaller(fs0, fs1, base, names[i]);
  }

  // ---------------------------------------------------------------- several paths

  /** No path of the batch leads into another one. */
  ghost predicate NonNested(paths: seq<Option<Path>>) {
    forall i, j | 0 <= i < |paths| && 0 <= j < |paths| && i != j && paths[i].Some? && paths[j].Some? ::
      !(paths[i].value <= paths[j].value)
  }

  function KeepsShell(p: Path): bool {
    CheckDeletable(p).ManagedDir?
  }

  ghost function DoomedAt(fs: Tree, p: Option<Path>): set<Path> {
    if p.None? then {} else Doomed(fs, p.value, KeepsShell(p.value))
  }

  /** What the first `k` paths of a batch are to remove. */
  ghost function DoomedAll(fs: Tree, paths: seq<Option<Path>>, k: nat): (s: set<Path>)
    requires k <= |paths|
    ensures s <= fs.Keys
    decreases k
  {
    if k == 0 then {} else DoomedAll(fs, paths, k - 1) + DoomedAt(fs, paths[k - 1])
  }

  /** How many of the first `k` paths name nothing. */
  ghost function Missing(fs: Tree, paths: seq<Option<Path>>, k: nat): nat
    requires k <= |paths|
    decreases k
  {
    if k == 0 then 0
    else Missing(fs, paths, k - 1) + if paths[k - 1].Some? && paths[k - 1].value !in fs then 1 else 0
  }

  /** Entries only disappear, and only at or below one of the first `k` paths. */
  ghost predicate PrunedAtAny(before: Tree, after: Tree, paths: seq<Option<Path>>, k: nat)
    requires k <= |paths|
  {
    && (forall q | q in after :: q in before && before[q] == after[q])
    && (forall q | q in before && q !in after :: exists i | 0 <= i < k :: Covers(paths[i], q))
  }

  ghost predicate Covers(p: Option<Path>, q: Path) {
    p.Some? && p.value <= q
  }

  /** The mount point and the two managed directories. */
  ghost predicate ShellsSurvive(before: Tree, after: Tree) {
    forall m | m in before && before[m].Dir? && (m == [MOUNT] || IsManaged(m)) :: m in after
  }

  ghost predicate AllSafeBelow(fs: Tree, paths: seq<Option<Path>>) {
    forall i | 0 <= i < |paths| && paths[i].Some? :: SafeBelow(fs, paths[i].value)
  }

  /** Without faults, and with no path leading into another: exactly the doomed entries are
      gone, and the only failures are the paths that name nothing. */
  ghost predicate CleanBatch(before: Tree, after: Tree, paths: seq<Option<Path>>, k: nat, a: Tally, b: Tally)
    requires k <= |paths|
  {
    NonNested(paths) && AllSafeBelow(before, paths) && b.faults == a.faults ==>
      && after.Keys == before.Keys - DoomedAll(before, paths, k)
      && b.failed == a.failed + Missing(before, paths, k)
  }

  /** What the first `k` paths of an accepted batch have done. */
  ghost predicate BatchDone(before: Tree, after: Tree, paths: seq<Option<Path>>, k: nat, a: Tally, b: Tally)
    requires k <= |paths|
  {
    && WellFormed(after) && PrunedAtAny(before, after, paths, k) && ShellsSurvive(before, after)
    && Kept(before, after)
    && Accounted(before, after, a, b)
    && CleanBatch(before, after, paths, k, a, b)
  }

  lemma {:induction false} DisjointFromEarlier(fs: Tree, paths: seq<Option<Path>>, k: nat, n: nat)
    requires NonNested(paths) && k <= n < |paths| && paths[n].Some?
    ensures DoomedAll(fs, paths, k) !! Under(fs, paths[n].value)
    decreases k
  {
    if k > 0 {
      DisjointFromEarlier(fs, paths, k - 1, n);
      if paths[k - 1].Some? {
        forall r | r in Under(fs, paths[k - 1].value)
          ensures r !in Under(fs, paths[n].value)
        {
          OnePrefixInOther(paths[k - 1].value, paths[n].value, r);
        }
      }
    }
  }

  lemma OnePrefixInOther(p: Path, q: Path, r: Path)
    ensures p <= r && q <= r ==> p <= q || q <= p
  {
    if p <= r && q <= r {
      if |p| <= |q| {
        assert q[..|p|] == r[..|p|];
      } else {
        assert p[..|q|] == r[..|q|];
      }
    }
  }

  /** A deletable path is longer than the mount point. */
  lemma DeletableIsBelow(p: Path)
    requires CheckDeletable(p).Allowed? || CheckDeletable(p).ManagedDir?
    ensures |p| >= 2
  {
    assert |p| == 0 || p == [p[0]] || |p| >= 2;
  }

  lemma ShellStep(fs0: Tree, before: Tree, after: Tree, p: Path, a: Tally, b: Tally)
    requires CheckDeletable(p).Allowed? || CheckDeletable(p).ManagedDir?
    requires ShellsSurvive(fs0, before) && forall q | q in before :: q in fs0 && fs0[q] == before[q]
    requires Removed(before, after, p, KeepsShell(p), a, b)
    ensures ShellsSurvive(fs0, after)
  {
    DeletableIsBelow(p);
    forall m | m in fs0 && fs0[m].Dir? && (m == [MOUNT] || IsManaged(m))
      ensures m in after
    {
      assert m in before && before[m].Dir?;
      if p <= m {
        assert p == m;
      }
    }
  }

  lemma {:induction false} DoomedNow(fs0: Tree, fs1: Tree, paths: seq<Option<Path>>, k: nat)
    requires k < |paths| && paths[k].Some? && NonNested(paths)
    requires forall q | q in fs1 :: q in fs0 && fs0[q] == fs1[q]
    requires fs1.Keys == fs0.Keys - DoomedAll(fs0, paths, k)
    ensures Under(fs1, paths[k].value) == Under(fs0, paths[k].value)
    ensures DoomedAt(fs1, paths[k]) == DoomedAt(fs0, paths[k])
    ensures paths[k].value in fs1 <==> paths[k].value in fs0
  {
    var p := paths[k].value;
    DisjointFromEarlier(fs0, paths, k, k);
    assert p in fs0 ==> p in Under(fs0, p);
    hide CheckDeletable;
  }

  lemma PrunedAnyStep(fs0: Tree, fs1: Tree, fs2: Tree, paths: seq<Option<Path>>, k: nat)
    requires k < |paths| && paths[k].Some?
    requires PrunedAtAny(fs0, fs1, paths, k) && PrunedAt(fs1, fs2, paths[k].value)
    ensures PrunedAtAny(fs0, fs2, paths, k + 1)
  {
    forall q | q in fs0 && q !in fs2
      ensures exists i | 0 <= i < k + 1 :: Covers(paths[i], q)
    {
      if q in fs1 {
        assert Covers(paths[k], q);
      } else {
        var i :| 0 <= i < k && Covers(paths[i], q);
        assert Covers(paths[i], q);
      }
    }
  }

  lemma NothingUnderMissing(fs: Tree, p: Path)
    requires WellFormed(fs) && p != [] && p !in fs
    ensures Under(fs, p) == {}
  {
    forall q | q in fs
      ensures !(p <= q)
    {
      if p <= q {
        assert q[..|p|] == p;
        AncestorIn(fs, q, |p|);
      }
    }
  }

  lemma RemovedClean(before: Tree, after: Tree, p: Path, a: Tally, b: Tally)
    requires WellFormed(before) && p != [] && SafeBelow(before, p) && b.faults == a.faults
    requires Removed(before, after, p, KeepsShell(p), a, b)
    ensures after.Keys == before.Keys - DoomedAt(before, Some(p))
    ensures b.failed == a.failed + if p in before then 0 else 1
  {
    if p !in before {
      NothingUnderMissing(before, p);
    }
    hide WellFormed, PrunedAt, Accounted, SafeBelow, CheckDeletable, Under;
  }

  lemma CleanStep(fs0: Tree, fs1: Tree, fs2: Tree, paths: seq<Option<Path>>, k: nat, a: Tally, b: Tally, c: Tally)
    requires k < |paths| && !Refused(paths[k]) && WellFormed(fs1)
    requires forall q | q in fs1 :: q in fs0 && fs0[q] == fs1[q]
    requires CleanBatch(fs0, fs1, paths, k, a, b) && b.faults >= a.faults
    requires Removed(fs1, fs2, paths[k].value, KeepsShell(paths[k].value), b, c) && c.faults >= b.faults
    ensures CleanBatch(fs0, fs2, paths, k + 1, a, c)
  {
    var p := paths[k].value;
    assert p != [];
    if NonNested(paths) && AllSafeBelow(fs0, paths) && c.faults == a.faults {
      assert SafeBelow(fs0, p);
      hide *;
      DoomedNow(fs0, fs1, paths, k);
      SafeBelowLater(fs0, fs1, p);
      RemovedClean(fs1, fs2, p, b, c);
      MinusTwice(fs0.Keys, DoomedAll(fs0, paths, k), DoomedAt(fs0, paths[k]));
      CountsUpTo(fs0, paths, k);
    }
  }

  lemma MinusTwice(keys: set<Path>, a: set<Path>, b: set<Path>)
    ensures (keys - a) - b == keys - (a + b)
  {
  }

  lemma CountsUpTo(fs: Tree, paths: seq<Option<Path>>, k: nat)
    requires k < |paths| && paths[k].Some?
    ensures DoomedAll(fs, paths, k + 1) == DoomedAll(fs, paths, k) + DoomedAt(fs, paths[k])
    ensures Missing(fs, paths, k + 1) == Missing(fs, paths, k) + if paths[k].value in fs then 0 else 1
  {
    hide DoomedAt;
  }

  lemma SafeBelowLater(fs0: Tree, fs1: Tree, p: Path)
    requires SafeBelow(fs0, p) && forall q | q in fs1 :: q in fs0 && fs0[q] == fs1[q]
    ensures SafeBelow(fs1, p)
  {
  }

  lemma RemovedParts(before: Tree, after: Tree, p: Path, keepShell: bool, a: Tally, b: Tally)
    requires Removed(before, after, p, keepShell, a, b)
    ensures WellFormed(after) && PrunedAt(before, after, p) && Accounted(before, after, a, b)
    ensures b.faults >= a.faults
  {
  }

  lemma BatchParts(before: Tree, after: Tree, paths: seq<Option<Path>>, k: nat, a: Tally, b: Tally)
    requires k <= |paths| && BatchDone(before, after, paths, k, a, b)
    ensures WellFormed(after) && forall q | q in after :: q in before && before[q] == after[q]
    ensures b.faults >= a.faults
  {
  }

  /** An error is kept exactly if something failed, and it is at or below one of the first `k` paths. */
  ghost predicate ErrorKept(paths: seq<Option<Path>>, k: nat, failed: nat, error: Option<Path>)
    requires k <= |paths|
  {
    && (error.Some? <==> failed > 0)
    && (error.Some? ==> exists i | 0 <= i < k :: Covers(paths[i], error.value))
  }

  lemma NoErrorYet(paths: seq<Option<Path>>)
    ensures ErrorKept(paths, 0, 0, None)
  {
  }

  lemma ErrorStep(paths: seq<Option<Path>>, k: nat, f: nat, e: Option<Path>, f': nat, e': Option<Path>)
    requires k < |paths| && paths[k].Some?
    requires ErrorKept(paths, k, f, e) && Reported(f, e, f', e', paths[k].value)
    ensures ErrorKept(paths, k + 1, f', e')
  {
    if e'.Some? && e.None? {
      assert Covers(paths[k], e'.value);
    }
  }

  lemma RemovedKeeps(before: Tree, after: Tree, p: Path, a: Tally, b: Tally)
    requires CheckDeletable(p).Allowed? || CheckDeletable(p).ManagedDir?
    requires Removed(before, after, p, KeepsShell(p), a, b)
    ensures Kept(before, after)
  {
    DeletableIsBelow(p);
    assert SafePath(Parent(p));
    hide Kept, PrunedAt, Accounted, WellFormed, SafeBelow;
  }

  /** One more path of the batch. */
  lemma BatchStep(fs0: Tree, fs1: Tree, fs2: Tree, paths: seq<Option<Path>>, k: nat, a: Tally, b: Tally, c: Tally)
    requires k < |paths| && !Refused(paths[k])
    requires BatchDone(fs0, fs1, paths, k, a, b)
    requires Removed(fs1, fs2, paths[k].value, KeepsShell(paths[k].value), b, c)
    ensures BatchDone(fs0, fs2, paths, k + 1, a, c)
  {
    var p := paths[k].value;
    RemovedParts(fs1, fs2, p, KeepsShell(p), b, c);
    BatchParts(fs0, fs1, paths, k, a, b);
    RemovedKeeps(fs1, fs2, p, b, c);
    hide WellFormed, PrunedAt, PrunedAtAny, ShellsSurvive, Accounted, CleanBatch, Removed, IsManaged, SafePath, Kept;
    KeptChain(fs0, fs1, fs2);
    ShellStep(fs0, fs1, fs2, p, b, c);
    PrunedAnyStep(fs0, fs1, fs2, paths, k);
    AccountedChain(fs0, fs1, fs2, a, b, c);
    CleanStep(fs0, fs1, fs2, paths, k, a, b, c);
  }

  lemma BatchStart(fs: Tree, paths: seq<Option<Path>>, a: Tally)
    requires WellFormed(fs)
    ensures BatchDone(fs, fs, paths, 0, a, a)
  {
  }
}
