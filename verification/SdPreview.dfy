/** The preview of a delete. */
module SdPreview {
  import opened Common
  import opened SdCard
  import opened SdDelete

  // What it counts (main/sd_manager.cpp), and why that agrees with the delete.

  const WALK_CAP := 4096

  datatype Preview = Preview(ok: bool, files: nat, dirs: nat, bytes: nat, truncated: bool)

  const EMPTY := Preview(false, 0, 0, 0, false)

  ghost function FilesIn(fs: Tree, s: set<Path>): set<Path> {
    set q | q in s && q in fs && fs[q].File?
  }

  ghost function DirsIn(fs: Tree, s: set<Path>): set<Path> {
    set q | q in s && q in fs && fs[q].Dir?
  }

  function SizeOf(fs: Tree, p: Path): nat {
    if p in fs && fs[p].File? then fs[p].size else 0
  }

  /** The sizes of the files in `s`, together. */
  ghost function Sizes(fs: Tree, s: set<Path>): nat {
    if s == {} then 0
    else
      var p :| p in s;
      SizeOf(fs, p) + Sizes(fs, s - {p})
  }

  lemma {:induction false} SizesWithout(fs: Tree, s: set<Path>, p: Path)
    requires p in s
    ensures Sizes(fs, s) == SizeOf(fs, p) + Sizes(fs, s - {p})
    decreases s
  {
    var q :| q in s && Sizes(fs, s) == SizeOf(fs, q) + Sizes(fs, s - {q});
    if q != p {
      SizesWithout(fs, s - {q}, p);
      SizesWithout(fs, s - {p}, q);
      assert s - {q} - {p} == s - {p} - {q};
    }
  }

  lemma {:induction false} SizesUnion(fs: Tree, s: set<Path>, t: set<Path>)
    requires s !! t
    ensures Sizes(fs, s + t) == Sizes(fs, s) + Sizes(fs, t)
    decreases s
  {
    if s == {} {
      assert s + t == t;
    } else {
      var p :| p in s;
      SizesWithout(fs, s, p);
      SizesWithout(fs, s + t, p);
      SizesUnion(fs, s - {p}, t);
      assert s + t - {p} == (s - {p}) + t;
    }
  }

  lemma SizesOne(fs: Tree, p: Path)
    ensures Sizes(fs, {p}) == SizeOf(fs, p) && Sizes(fs, {}) == 0
  {
    SizesWithout(fs, {p}, p);
    assert {p} - {p} == {};
  }

  /** `pv'` counts, on top of `pv`, the files and directories of `s`, and adds the files' sizes. */
  ghost predicate Counts(fs: Tree, s: set<Path>, pv: Preview, pv': Preview) {
    && pv'.files == pv.files + |FilesIn(fs, s)|
    && pv'.dirs == pv.dirs + |DirsIn(fs, s)|
    && pv'.bytes == pv.bytes + Sizes(fs, s)
  }

  /** A walk is cut short only when as many entries as this have been counted. */
  predicate CutLate(pv: Preview, pv': Preview, entries: nat) {
    && pv'.files + pv'.dirs >= pv.files + pv.dirs
    && (pv'.truncated && !pv.truncated ==> pv'.files + pv'.dirs >= entries)
  }

  /** One call of preview_walk: unless the walk was cut short or a system call failed, it
      counts everything at or below `p`. */
  ghost predicate Walked(fs: Tree, p: Path, pv: Preview, pv': Preview, faults: nat, faults': nat) {
    && faults' >= faults && (pv.truncated ==> pv'.truncated) && CutLate(pv, pv', 4096)
    && (faults' == faults && !pv'.truncated ==> Counts(fs, Under(fs, p), pv, pv'))
  }

  /** Everything below the first `k` listed children. */
  ghost function BelowChildren(fs: Tree, base: Path, names: seq<Name>, k: nat): set<Path>
    requires k <= |names|
    decreases k
  {
    if k == 0 then {} else BelowChildren(fs, base, names, k - 1) + Under(fs, base + [names[k - 1]])
  }

  ghost predicate ChildrenWalked(fs: Tree, base: Path, names: seq<Name>, k: nat,
                                 pv: Preview, pv': Preview, faults: nat, faults': nat)
    requires k <= |names|
  {
    && faults' >= faults && (pv.truncated ==> pv'.truncated) && CutLate(pv, pv', 4096)
    && (faults' == faults && !pv'.truncated ==> Counts(fs, BelowChildren(fs, base, names, k), pv, pv'))
  }

  // ------------------------------------------------------------------- counting sets

  lemma CountsNothing(fs: Tree, pv: Preview)
    ensures Counts(fs, {}, pv, pv)
  {
    assert FilesIn(fs, {}) == {} && DirsIn(fs, {}) == {};
    assert Sizes(fs, {}) == 0;
  }

  lemma CountsUnion(fs: Tree, s: set<Path>, t: set<Path>, a: Preview, b: Preview, c: Preview)
    requires s !! t && Counts(fs, s, a, b) && Counts(fs, t, b, c)
    ensures Counts(fs, s + t, a, c)
  {
    assert FilesIn(fs, s + t) == FilesIn(fs, s) + FilesIn(fs, t);
    assert DirsIn(fs, s + t) == DirsIn(fs, s) + DirsIn(fs, t);
    SizesUnion(fs, s, t);
  }

  lemma CountsOne(fs: Tree, p: Path, pv: Preview, pv': Preview)
    requires p in fs
    requires pv'.files == pv.files + if fs[p].File? then 1 else 0
    requires pv'.dirs == pv.dirs + if fs[p].Dir? then 1 else 0
    requires pv'.bytes == pv.bytes + SizeOf(fs, p)
    ensures Counts(fs, {p}, pv, pv')
  {
    SizesOne(fs, p);
    if fs[p].File? {
      assert FilesIn(fs, {p}) == {p} && DirsIn(fs, {p}) == {};
    } else {
      assert FilesIn(fs, {p}) == {} && DirsIn(fs, {p}) == {p};
    }
  }

  /** Files and directories together are all entries. */
  lemma CountsAll(fs: Tree, s: set<Path>, pv: Preview, pv': Preview)
    requires s <= fs.Keys && Counts(fs, s, pv, pv')
    ensures pv'.files + pv'.dirs == pv.files + pv.dirs + |s|
  {
    assert s == FilesIn(fs, s) + DirsIn(fs, s);
    assert FilesIn(fs, s) !! DirsIn(fs, s);
  }

  // ----------------------------------------------------------------------- the walk

  lemma {:induction false} ChildApart(fs: Tree, base: Path, names: seq<Name>, k: nat, n: nat)
    requires k <= n < |names| && IsListing(fs, base, names)
    ensures BelowChildren(fs, base, names, k) !! Under(fs, base + [names[n]])
    decreases k
  {
    if k > 0 {
      ChildApart(fs, base, names, k - 1, n);
      var p, q := base + [names[k - 1]], base + [names[n]];
      forall r | r in Under(fs, p)
        ensures r !in Under(fs, q)
      {
        OneChildOnly(base, names[k - 1], names[n], r);
      }
    }
  }

  lemma ChildStep(fs: Tree, base: Path, names: seq<Name>, k: nat,
                  a: Preview, b: Preview, c: Preview, f: nat, g: nat, h: nat)
    requires k < |names| && IsListing(fs, base, names)
    requires ChildrenWalked(fs, base, names, k, a, b, f, g)
    requires Walked(fs, base + [names[k]], b, c, g, h)
    ensures ChildrenWalked(fs, base, names, k + 1, a, c, f, h)
  {
    ChildApart(fs, base, names, k, k);
    if h == f && !c.truncated {
      CountsUnion(fs, BelowChildren(fs, base, names, k), Under(fs, base + [names[k]]), a, b, c);
    }
    hide IsListing, Counts;
  }

  lemma ChildrenStart(fs: Tree, base: Path, names: seq<Name>, pv: Preview, f: nat)
    ensures ChildrenWalked(fs, base, names, 0, pv, pv, f, f)
  {
    CountsNothing(fs, pv);
    hide Counts;
  }

  /** The loop over the children is cut short. */
  lemma ChildrenCut(fs: Tree, base: Path, names: seq<Name>, k: nat, a: Preview, b: Preview, f: nat, g: nat)
    requires k <= |names| && ChildrenWalked(fs, base, names, k, a, b, f, g) && b.files + b.dirs >= 4096
    ensures ChildrenWalked(fs, base, names, |names|, a, b.(truncated := true), f, g)
  {
    hide Counts, BelowChildren;
  }

  lemma {:induction false} BelowChildrenCovers(fs: Tree, base: Path, names: seq<Name>, k: nat, q: Path)
    requires k <= |names|
    ensures q in BelowChildren(fs, base, names, k)
      <==> exists j | 0 <= j < k :: q in Under(fs, base + [names[j]])
    decreases k
  {
    if k > 0 {
      BelowChildrenCovers(fs, base, names, k - 1, q);
      if q in Under(fs, base + [names[k - 1]]) {
        assert q in BelowChildren(fs, base, names, k);
      }
    }
  }

  lemma {:induction false} UnderDirectory(fs: Tree, base: Path, names: seq<Name>)
    requires WellFormed(fs) && base != [] && base in fs && IsListing(fs, base, names)
    ensures Under(fs, base) == BelowChildren(fs, base, names, |names|) + {base}
    ensures base !in BelowChildren(fs, base, names, |names|)
  {
    forall q
      ensures q in Under(fs, base) <==> q in BelowChildren(fs, base, names, |names|) || q == base
    {
      BelowChildrenCovers(fs, base, names, |names|, q);
      if q in Under(fs, base) && q != base {
        var j := ListedAbove(fs, fs, base, names, q);
        assert q in Under(fs, base + [names[j]]);
      }
    }
    BelowChildrenCovers(fs, base, names, |names|, base);
  }

  lemma DirectoryWalked(fs: Tree, base: Path, names: seq<Name>, a: Preview, b: Preview, f: nat, g: nat)
    requires WellFormed(fs) && base != [] && base in fs && fs[base].Dir? && IsListing(fs, base, names)
    requires ChildrenWalked(fs, base, names, |names|, a, b, f, g)
    ensures Walked(fs, base, a, b.(dirs := b.dirs + 1), f, g)
  {
    UnderDirectory(fs, base, names);
    if g == f && !b.truncated {
      CountsOne(fs, base, b, b.(dirs := b.dirs + 1));
      CountsUnion(fs, BelowChildren(fs, base, names, |names|), {base}, a, b, b.(dirs := b.dirs + 1));
    }
    hide IsListing, Counts, WellFormed;
  }

  lemma FileWalked(fs: Tree, p: Path, pv: Preview, size: nat, f: nat)
    requires WellFormed(fs) && p in fs && fs[p] == File(size)
    ensures Walked(fs, p, pv, pv.(files := pv.files + 1, bytes := pv.bytes + size), f, f)
  {
    FileAlone(fs, p);
    CountsOne(fs, p, pv, pv.(files := pv.files + 1, bytes := pv.bytes + size));
    hide WellFormed, Counts;
  }

  lemma MissingWalked(fs: Tree, p: Path, pv: Preview, f: nat)
    requires WellFormed(fs) && p != [] && p !in fs
    ensures Walked(fs, p, pv, pv, f, f)
  {
    NothingUnderMissing(fs, p);
    CountsNothing(fs, pv);
    hide WellFormed, Counts;
  }

  // ------------------------------------------------------------- one path, many paths

  /** preview_delete: what a delete of `p` would remove. */
  ghost predicate Previewed(fs: Tree, p: Path, pv: Preview, faults: nat, faults': nat) {
    && faults' >= faults
    && (!pv.ok ==> pv == EMPTY) && CutLate(EMPTY, pv, 4095)
    && (faults' == faults ==> (pv.ok <==> p in fs))
    && (faults' == faults && !pv.truncated ==> Counts(fs, DoomedAt(fs, Some(p)), EMPTY, pv))
  }

  lemma PreviewedPath(fs: Tree, p: Path, pv: Preview, f: nat, g: nat, h: nat)
    requires WellFormed(fs) && p != [] && p in fs && g >= f
    requires Walked(fs, p, EMPTY, pv, g, h)
    ensures var shell := fs[p].Dir? && KeepsShell(p) && pv.dirs > 0;
            Previewed(fs, p, pv.(ok := true, dirs := if shell then pv.dirs - 1 else pv.dirs), f, h)
  {
    if h == f && !pv.truncated {
      if KeepsShell(p) && fs[p].Dir? {
        ShellNotCounted(fs, p, pv);
      }
    }
    hide WellFormed, CheckDeletable;
  }

  lemma ShellNotCounted(fs: Tree, p: Path, pv: Preview)
    requires p in fs && fs[p].Dir? && Counts(fs, Under(fs, p), EMPTY, pv)
    ensures pv.dirs > 0 && Counts(fs, Under(fs, p) - {p}, EMPTY, pv.(dirs := pv.dirs - 1))
  {
    var s := Under(fs, p);
    assert p in DirsIn(fs, s);
    assert FilesIn(fs, s - {p}) == FilesIn(fs, s);
    assert DirsIn(fs, s - {p}) == DirsIn(fs, s) - {p};
    SizesWithout(fs, s, p);
  }

  /** What the first `k` paths of preview_delete_many count. */
  ghost predicate ManyPreviewed(fs: Tree, paths: seq<Option<Path>>, k: nat, pv: Preview, faults: nat, faults': nat)
    requires k <= |paths|
  {
    && faults' >= faults && CutLate(EMPTY, pv, 4095)
    && (NonNested(paths) && faults' == faults && !pv.truncated ==>
          Counts(fs, DoomedAll(fs, paths, k), EMPTY, pv))
  }

  function Added(total: Preview, one: Preview): Preview {
    if !one.ok then total
    else total.(files := total.files + one.files, dirs := total.dirs + one.dirs,
                bytes := total.bytes + one.bytes, truncated := total.truncated || one.truncated)
  }

  lemma ManyStep(fs: Tree, paths: seq<Option<Path>>, k: nat, total: Preview, one: Preview, f: nat, g: nat, h: nat)
    requires k < |paths| && paths[k].Some?
    requires ManyPreviewed(fs, paths, k, total, f, g)
    requires Previewed(fs, paths[k].value, one, g, h)
    ensures ManyPreviewed(fs, paths, k + 1, Added(total, one), f, h)
  {
    AddedIsLate(total, one);
    hide CutLate;
    if NonNested(paths) && h == f && !Added(total, one).truncated {
      DisjointFromEarlier(fs, paths, k, k);
      var next := Added(total, one);
      assert DoomedAt(fs, paths[k]) <= Under(fs, paths[k].value);
      assert Counts(fs, DoomedAt(fs, paths[k]), total, next);
      CountsUnion(fs, DoomedAll(fs, paths, k), DoomedAt(fs, paths[k]), EMPTY, total, next);
    }
    hide NonNested, CheckDeletable, Counts, Under;
  }

  lemma ManyStart(fs: Tree, paths: seq<Option<Path>>, total: Preview, f: nat)
    requires total == EMPTY
    ensures ManyPreviewed(fs, paths, 0, total, f, f)
  {
    CountsNothing(fs, total);
    hide Counts;
  }

  lemma AddedIsLate(total: Preview, one: Preview)
    requires CutLate(EMPTY, total, 4095) && CutLate(EMPTY, one, 4095)
    ensures CutLate(EMPTY, Added(total, one), 4095)
  {
  }

  lemma ManyCut(fs: Tree, paths: seq<Option<Path>>, k: nat, total: Preview, f: nat, g: nat)
    requires k <= |paths| && ManyPreviewed(fs, paths, k, total, f, g) && total.files + total.dirs >= 4095
    ensures ManyPreviewed(fs, paths, |paths|, total.(truncated := true), f, g)
  {
    hide Counts, DoomedAll, NonNested;
  }

  lemma ManyDone(fs: Tree, paths: seq<Option<Path>>, total: Preview, f: nat, g: nat)
    requires ManyPreviewed(fs, paths, |paths|, total, f, g)
    ensures ManyPreviewed(fs, paths, |paths|, total.(ok := true), f, g)
  {
    hide DoomedAll, NonNested;
  }

  lemma ManySkips(fs: Tree, paths: seq<Option<Path>>, k: nat, total: Preview, f: nat, g: nat)
    requires k < |paths| && paths[k].None?
    requires ManyPreviewed(fs, paths, k, total, f, g)
    ensures ManyPreviewed(fs, paths, k + 1, total, f, g)
  {
    assert DoomedAll(fs, paths, k + 1) == DoomedAll(fs, paths, k);
  }

  /** Preview and delete agree: with nothing failing, no path leading into another and the
      walk not cut short, the delete removes exactly as many entries as the preview counted. */
  lemma PreviewAgrees(fs: Tree, after: Tree, paths: seq<Option<Path>>, pv: Preview, f: nat, g: nat,
                      a: Tally, b: Tally)
    requires NonNested(paths) && AllSafeBelow(fs, paths)
    requires ManyPreviewed(fs, paths, |paths|, pv, f, g) && g == f && !pv.truncated
    requires BatchDone(fs, after, paths, |paths|, a, b) && b.faults == a.faults
    ensures b.deleted - a.deleted == pv.files + pv.dirs
    ensures pv.bytes == Sizes(fs, DoomedAll(fs, paths, |paths|))
    ensures b.failed - a.failed == Missing(fs, paths, |paths|)
  {
    var doomed := DoomedAll(fs, paths, |paths|);
    BatchClean(fs, after, paths, a, b);
    hide BatchDone, DoomedAll, AllSafeBelow, NonNested;
    CountsAll(fs, doomed, EMPTY, pv);
    assert after.Keys == fs.Keys - doomed;
    assert |after.Keys| == |fs.Keys| - |doomed|;
    hide Counts;
  }

  lemma BatchClean(before: Tree, after: Tree, paths: seq<Option<Path>>, a: Tally, b: Tally)
    requires BatchDone(before, after, paths, |paths|, a, b)
    requires NonNested(paths) && AllSafeBelow(before, paths) && b.faults == a.faults
    ensures after.Keys == before.Keys - DoomedAll(before, paths, |paths|)
    ensures b.failed == a.failed + Missing(before, paths, |paths|)
    ensures b.deleted - a.deleted == |before| - |after|
  {
    hide WellFormed, PrunedAtAny, ShellsSurvive, Kept, DoomedAll, Missing, NonNested, AllSafeBelow;
  }
}
