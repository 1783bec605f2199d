/** Bulk delete and its preview, main/sd_manager.cpp. */
module SdManager {
  import opened Common
  import opened SdCard
  import opened SdDelete
  import opened SdPreview

  class SdManager {
    const card: SdCard
    var path: Path
    var requested: nat
    var deleted: nat
    var failed: nat
    var skipped: nat
    var firstError: Option<Path>
    var progress: nat
    ghost var calls: nat

    constructor (card: SdCard)
      ensures this.card == card
    {
      this.card := card;
      path := [];
      requested, deleted, failed, skipped, progress := 0, 0, 0, 0, 0;
      firstError := None;
    }

    ghost function Counters(): Tally
      reads this, card
    {
      Tally(deleted, failed, skipped, progress, calls, card.faults)
    }

    /** note_fail */
    method NoteFail()
      modifies this`failed, this`firstError
      ensures failed == old(failed) + 1
      ensures firstError == if old(firstError).None? then Some(path) else old(firstError)
    {
      failed := failed + 1;
      if firstError.None? {
        firstError := Some(path);
      }
    }

    method NoteDeleted()
      modifies this`deleted, this`progress
      ensures deleted == old(deleted) + 1 && progress == old(progress) + 1
    {
      deleted := deleted + 1;
      progress := progress + 1;
    }

    /** remove_tree; `path` is the shared path buffer, and comes back as it was. */
    method RemoveTree(keepShell: bool)
      requires WellFormed(card.fs) && path != []
      modifies this, card
      decreases Under(card.fs, path)
      ensures path == old(path) && requested == old(requested)
      ensures Removed(old(card.fs), card.fs, path, keepShell, old(Counters()), Counters())
      ensures Reported(old(failed), old(firstError), failed, firstError, path)
    {
      hide WellFormed, SafeBelow, Under, Removed;
      calls := calls + 1;
      ghost var fs0, a := card.fs, old(Counters());
      var st := card.Stat(path);
      if st.None? {
        NoteFail();
        if path in fs0 {
          NothingRemoved(fs0, path, keepShell, a, Counters());
        } else {
          MissingRemoved(fs0, path, keepShell, a);
        }
      } else if st.value.File? {
        var ok := card.Unlink(path);
        FileRemoved(fs0, path, keepShell, ok, a);
        if ok {
          NoteDeleted();
        } else {
          NoteFail();
        }
      } else {
        RemoveDirectory(keepShell, a);
      }
    }

    /** The directory branch of remove_tree; `a` are the counters before the call was counted. */
    method RemoveDirectory(keepShell: bool, ghost a: Tally)
      requires WellFormed(card.fs) && path != [] && path in card.fs && card.fs[path].Dir?
      requires Counters() == a.(calls := a.calls + 1)
      modifies this, card
      decreases Under(card.fs, path), 2
      ensures path == old(path) && requested == old(requested)
      ensures Removed(old(card.fs), card.fs, path, keepShell, a, Counters())
      ensures Reported(old(failed), old(firstError), failed, firstError, path)
    {
      hide WellFormed, SafeBelow, Under, IsListing, IsEmptyDir, ChildrenRemoved, Removed, SafePath;
      ghost var fs0 := card.fs;
      if !SafePath(path) {
        skipped := skipped + 1;
        UnsafeHere(fs0, path);
        NothingRemoved(fs0, path, keepShell, a, Counters());
        return;
      }
      var listing := card.OpenDir(path);
      if listing.None? {
        NoteFail();
        NothingRemoved(fs0, path, keepShell, a, Counters());
        return;
      }
      ghost var f, e := failed, firstError;
      RemoveChildren(listing.value);
      ghost var f', e' := failed, firstError;
      RemoveShell(keepShell, fs0, listing.value, a);
      ReportedChain(f, e, f', e', failed, firstError, path, path);
    }

    /** What remove_tree does with the directory itself once its children are dealt with. */
    method RemoveShell(keepShell: bool, ghost fs0: Tree, ghost names: seq<Name>, ghost a: Tally)
      requires WellFormed(fs0) && path in fs0 && fs0[path].Dir? && SafePath(path)
      requires path != [] && IsListing(fs0, path, names)
      requires ChildrenRemoved(fs0, card.fs, path, names, |names|, a.(calls := a.calls + 1), Counters())
      modifies this`deleted, this`progress, this`failed, this`skipped, this`firstError, card
      ensures Removed(fs0, card.fs, path, keepShell, a, Counters())
      ensures Reported(old(failed), old(firstError), failed, firstError, path)
    {
      hide WellFormed, SafeBelow, Under, IsListing, IsEmptyDir, ChildrenRemoved, Removed, SafePath;
      ghost var fs1, b := card.fs, Counters();
      if keepShell {
        skipped := skipped + 1;
        ShellKept(fs0, fs1, path, names, a, b);
      } else {
        DirectoryStill(fs0, fs1, path, names, a.(calls := a.calls + 1), b);
        var ok := card.Rmdir(path);
        if ok {
          NoteDeleted();
          DirectoryRemoved(fs0, fs1, path, names, a, b);
        } else {
          NoteFail();
          DirectoryNotRemoved(fs0, fs1, path, names, a, b);
        }
      }
    }

    /** The loop of remove_tree over the children of the directory in `path`. */
    method RemoveChildren(names: seq<Name>)
      requires WellFormed(card.fs) && path != []
      requires path in card.fs && card.fs[path].Dir? && IsListing(card.fs, path, names)
      modifies this, card
      decreases Under(card.fs, path), 1
      ensures path == old(path) && requested == old(requested)
      ensures ChildrenRemoved(old(card.fs), card.fs, path, names, |names|, old(Counters()), Counters())
      ensures Reported(old(failed), old(firstError), failed, firstError, path)
    {
      ghost var base, fs0, a := path, card.fs, Counters();
      NoChildYet(fs0, base, names, a);
      hide WellFormed, PrunedAt, Accounted, SafeBelow, Under, IsListing, ChildrenRemoved, Removed;
      for i := 0 to |names|
        invariant path == base && requested == old(requested)
        invariant ChildrenRemoved(fs0, card.fs, base, names, i, a, Counters())
        invariant Reported(old(failed), old(firstError), failed, firstError, base)
      {
        ghost var f, e := failed, firstError;
        RemoveChild(fs0, names, i, a);
        ReportedChain(old(failed), old(firstError), f, e, failed, firstError, base, base);
      }
    }

    /** One turn of that loop: the name goes into the path buffer and out of it again. */
    method RemoveChild(ghost fs0: Tree, names: seq<Name>, i: nat, ghost a: Tally)
      requires WellFormed(fs0) && path != [] && path in fs0 && IsListing(fs0, path, names) && i < |names|
      requires ChildrenRemoved(fs0, card.fs, path, names, i, a, Counters())
      modifies this, card
      decreases Under(fs0, path), 0
      ensures path == old(path) && requested == old(requested)
      ensures ChildrenRemoved(fs0, card.fs, path, names, i + 1, a, Counters())
      ensures Reported(old(failed), old(firstError), failed, firstError, path)
    {
      hide WellFormed, PrunedAt, Accounted, SafeBelow, Under, IsListing, ChildrenRemoved, Removed;
      ghost var base, fs1, b := path, card.fs, Counters();
      StepMeasure(fs0, fs1, base, names, i, a, b);
      path := path + [names[i]];
      RemoveTree(false);
      path := path[..|path| - 1];
      assert path == base;
      OneMoreChild(fs0, fs1, card.fs, base, names, i, a, b, Counters());
    }

    // ---------------------------------------------------------------------- batches

    method StartResult(n: nat)
      modifies this`requested, this`deleted, this`failed, this`skipped, this`firstError
      ensures requested == n && deleted == failed == skipped == 0 && firstError == None
    {
      requested, deleted, failed, skipped := n, 0, 0, 0;
      firstError := None;
    }

    /** The validation in front of delete_paths: where the first path is that it refuses. */
    method FindRefused(paths: seq<Option<Path>>) returns (bad: nat)
      ensures bad <= |paths| && forall j | 0 <= j < bad :: !Refused(paths[j])
      ensures bad < |paths| ==> Refused(paths[bad])
    {
      hide Refused;
      for i := 0 to |paths|
        invariant forall j | 0 <= j < i :: !Refused(paths[j])
      {
        if Refused(paths[i]) {
          return i;
        }
      }
      return |paths|;
    }

    /** delete_paths */
    method DeletePaths(paths: seq<Option<Path>>, mounted: bool)
      requires WellFormed(card.fs)
      modifies this, card
      ensures requested == |paths|
      // one bad path, or the mount point itself, and nothing at all is touched
      ensures !mounted || (exists i | 0 <= i < |paths| :: Refused(paths[i])) ==>
                && card.fs == old(card.fs) && progress == old(progress) && calls == old(calls)
                && deleted == 0 && failed == 0 && skipped == |paths|
      ensures mounted && !(exists i | 0 <= i < |paths| :: Refused(paths[i])) ==>
                BatchDone(old(card.fs), card.fs, paths, |paths|,
                          Tally(0, 0, 0, old(progress), old(calls), old(card.faults)), Counters())
                && ErrorKept(paths, |paths|, failed, firstError)
      // the error kept is the first refused path, or one at or below a path that could not be deleted
      ensures mounted ==> forall i | 0 <= i < |paths| && Refused(paths[i]) ::
                (forall j | 0 <= j < i :: !Refused(paths[j])) ==> firstError == paths[i]
    {
      hide WellFormed, BatchDone, Removed, Refused, CheckDeletable, ErrorKept;
      StartResult(|paths|);
      if !mounted {
        skipped := |paths|;
        return;
      }
      var bad := FindRefused(paths);
      if bad < |paths| {
        skipped := |paths|;
        firstError := paths[bad];
        return;
      }
      DeleteAccepted(paths);
    }

    /** The deletes of delete_paths. */
    method DeleteAccepted(paths: seq<Option<Path>>)
      requires WellFormed(card.fs) && requested == |paths| && deleted == failed == skipped == 0 && firstError == None
      requires forall i | 0 <= i < |paths| :: !Refused(paths[i])
      modifies this, card
      ensures requested == |paths|
      ensures BatchDone(old(card.fs), card.fs, paths, |paths|, old(Counters()), Counters())
      ensures ErrorKept(paths, |paths|, failed, firstError)
    {
      ghost var fs0, a := card.fs, Counters();
      BatchStart(fs0, paths, a);
      hide WellFormed, BatchDone, Refused, CheckDeletable, ErrorKept;
      NoErrorYet(paths);
      for i := 0 to |paths|
        invariant requested == |paths|
        invariant BatchDone(fs0, card.fs, paths, i, a, Counters())
        invariant ErrorKept(paths, i, failed, firstError)
      {
        DeleteNext(paths, i, fs0, a);
      }
    }

    /** One turn of that loop. */
    method DeleteNext(paths: seq<Option<Path>>, i: nat, ghost fs0: Tree, ghost a: Tally)
      requires i < |paths| && !Refused(paths[i])
      requires BatchDone(fs0, card.fs, paths, i, a, Counters()) && ErrorKept(paths, i, failed, firstError)
      modifies this, card
      ensures requested == old(requested)
      ensures BatchDone(fs0, card.fs, paths, i + 1, a, Counters())
      ensures ErrorKept(paths, i + 1, failed, firstError)
    {
      hide WellFormed, BatchDone, Removed, Refused, CheckDeletable, ErrorKept, Reported;
      ghost var fs1, b, f, e := card.fs, Counters(), failed, firstError;
      BatchParts(fs0, fs1, paths, i, a, b);
      AcceptedIsPath(paths[i]);
      path := paths[i].value;
      RemoveTree(CheckDeletable(path).ManagedDir?);
      BatchStep(fs0, fs1, card.fs, paths, i, a, b, Counters());
      ErrorStep(paths, i, f, e, failed, firstError);
    }

    /** delete_recursive */
    method DeleteRecursive(target: Option<Path>, mounted: bool)
      requires WellFormed(card.fs)
      modifies this, card
      ensures requested == 1
      ensures !mounted || Refused(target) ==>
                && card.fs == old(card.fs) && progress == old(progress)
                && deleted == 0 && failed == 0 && skipped == 1 && firstError == if mounted then target else None
      ensures mounted && !Refused(target) ==>
                Removed(old(card.fs), card.fs, target.value, KeepsShell(target.value),
                        Tally(0, 0, 0, old(progress), old(calls), old(card.faults)), Counters())
                && Reported(0, None, failed, firstError, target.value)
    {
      StartResult(1);
      if !mounted {
        skipped := 1;
        return;
      }
      if Refused(target) {
        skipped := 1;
        firstError := target;
        return;
      }
      AcceptedIsPath(target);
      hide WellFormed, Removed, Refused, CheckDeletable;
      path := target.value;
      RemoveTree(CheckDeletable(path).ManagedDir?);
    }

    // ----------------------------------------------------------------------- preview

    /** preview_walk */
    method PreviewWalk(p: Path, pv: Preview) returns (pv': Preview)
      requires WellFormed(card.fs) && p != []
      modifies card`faults
      decreases Under(card.fs, p)
      ensures Walked(card.fs, p, pv, pv', old(card.faults), card.faults)
    {
      hide WellFormed, Under, Counts, IsListing, ChildrenWalked;
      pv' := pv;
      if pv'.files + pv'.dirs >= WALK_CAP {
        pv' := pv'.(truncated := true);
        return;
      }
      var st := card.Stat(p);
      if st.None? {
        if p !in card.fs {
          MissingWalked(card.fs, p, pv, card.faults);
        }
        return;
      }
      if st.value.Dir? {
        var listing := card.OpenDir(p);
        if listing.None? {
          return;
        }
        pv' := PreviewChildren(p, listing.value, pv);
        DirectoryWalked(card.fs, p, listing.value, pv, pv', old(card.faults), card.faults);
        pv' := pv'.(dirs := pv'.dirs + 1);
      } else {
        FileWalked(card.fs, p, pv, st.value.size, card.faults);
        pv' := pv'.(files := pv'.files + 1, bytes := pv'.bytes + st.value.size);
      }
    }

    /** The loop of preview_walk. */
    method PreviewChildren(p: Path, names: seq<Name>, pv: Preview) returns (pv': Preview)
      requires WellFormed(card.fs) && p != [] && p in card.fs && IsListing(card.fs, p, names)
      modifies card`faults
      decreases Under(card.fs, p), 0
      ensures ChildrenWalked(card.fs, p, names, |names|, pv, pv', old(card.faults), card.faults)
    {
      pv' := pv;
      ChildrenStart(card.fs, p, names, pv, card.faults);
      hide WellFormed, Under, Counts, IsListing, Walked, ChildrenWalked;
      for i := 0 to |names|
        invariant ChildrenWalked(card.fs, p, names, i, pv, pv', old(card.faults), card.faults)
      {
        if pv'.files + pv'.dirs >= WALK_CAP {
          ChildrenCut(card.fs, p, names, i, pv, pv', old(card.faults), card.faults);
          pv' := pv'.(truncated := true);
          break;
        }
        ghost var b, g := pv', card.faults;
        ChildBelow(card.fs, p, names[i]);
        pv' := PreviewWalk(p + [names[i]], pv');
        ChildStep(card.fs, p, names, i, pv, b, pv', old(card.faults), g, card.faults);
      }
    }

    /** preview_delete */
    method PreviewDelete(p: Path) returns (pv: Preview)
      requires WellFormed(card.fs) && p != []
      modifies card`faults
      ensures Previewed(card.fs, p, pv, old(card.faults), card.faults)
    {
      pv := SdPreview.EMPTY;
      var st := card.Stat(p);
      if st.None? {
        if p !in card.fs {
          NothingUnderMissing(card.fs, p);
          CountsNothing(card.fs, pv);
        }
        return;
      }
      ghost var g := card.faults;
      pv := PreviewWalk(p, pv);
      PreviewedPath(card.fs, p, pv, old(card.faults), g, card.faults);
      hide WellFormed, Walked, Previewed, CheckDeletable;
      if st.value.Dir? && CheckDeletable(p).ManagedDir? && pv.dirs > 0 {
        pv := pv.(dirs := pv.dirs - 1);
      }
      pv := pv.(ok := true);
    }

    /** preview_delete_many */
    method PreviewDeleteMany(paths: seq<Option<Path>>, mounted: bool) returns (total: Preview)
      requires WellFormed(card.fs)
      requires forall i | 0 <= i < |paths| && paths[i].Some? :: paths[i].value != []
      modifies card`faults
      ensures !mounted ==> total == SdPreview.EMPTY && card.faults == old(card.faults)
      ensures mounted ==> total.ok
      ensures mounted ==>
                ManyPreviewed(card.fs, paths, |paths|, total, old(card.faults), card.faults)
    {
      total := SdPreview.EMPTY;
      if !mounted {
        return;
      }
      CountsNothing(card.fs, total);
      ManyStart(card.fs, paths, total, card.faults);
      hide WellFormed, Previewed, ManyPreviewed, Counts, NonNested, DoomedAt;
      for i := 0 to |paths|
        invariant ManyPreviewed(card.fs, paths, i, total, old(card.faults), card.faults)
      {
        if paths[i].None? {
          ManySkips(card.fs, paths, i, total, old(card.faults), card.faults);
          continue;
        }
        if total.files + total.dirs >= WALK_CAP {
          ManyCut(card.fs, paths, i, total, old(card.faults), card.faults);
          total := total.(truncated := true);
          break;
        }
        ghost var before, g := total, card.faults;
        var one := PreviewDelete(paths[i].value);
        ManyStep(card.fs, paths, i, before, one, old(card.faults), g, card.faults);
        if !one.ok {
          continue;
        }
        total := total.(files := total.files + one.files, dirs := total.dirs + one.dirs,
                        bytes := total.bytes + one.bytes);
        if one.truncated {
          total := total.(truncated := true);
        }
      }
      ManyDone(card.fs, paths, total, old(card.faults), card.faults);
      total := total.(ok := true);
    }

    /** The preview shown to the user, and the delete that follows it. */
    method PreviewThenDelete(paths: seq<Option<Path>>) returns (pv: Preview)
      requires WellFormed(card.fs)
      requires forall i | 0 <= i < |paths| :: !Refused(paths[i])
      requires NonNested(paths) && AllSafeBelow(card.fs, paths)
      modifies this, card
      ensures card.faults == old(card.faults) && !pv.truncated ==>
                && deleted == pv.files + pv.dirs
                && pv.bytes == Sizes(old(card.fs), DoomedAll(old(card.fs), paths, |paths|))
                && failed == Missing(old(card.fs), paths, |paths|)
                && card.fs.Keys == old(card.fs).Keys - DoomedAll(old(card.fs), paths, |paths|)
    {
      ghost var fs0, f := card.fs, card.faults;
      assert forall i | 0 <= i < |paths| && paths[i].Some? :: paths[i].value != [] by {
        forall i | 0 <= i < |paths| && paths[i].Some?
          ensures paths[i].value != []
        {
          AcceptedIsPath(paths[i]);
        }
      }
      hide WellFormed, NonNested, AllSafeBelow, Refused, ManyPreviewed, DoomedAll, Missing, PrunedAtAny, ShellsSurvive;
      pv := PreviewDeleteMany(paths, true);
      ghost var g := card.faults;
      ghost var a := Tally(0, 0, 0, progress, calls, card.faults);
      DeletePaths(paths, true);
      if card.faults == f && !pv.truncated {
        PreviewAgrees(fs0, card.fs, paths, pv, f, g, a, Counters());
      }
    }
  }

  lemma AcceptedIsPath(p: Option<Path>)
    requires !Refused(p)
    ensures p.Some? && p.value != []
  {
  }

  lemma ChildBelow(fs: Tree, base: Path, n: Name)
    requires base in fs
    ensures Under(fs, base + [n]) < Under(fs, base)
  {
    assert base in Under(fs, base) && base !in Under(fs, base + [n]);
  }
}
