/** A file tree as the SD card driver sees it, with system calls that may fail at any time. */
module SdCard {
  import opened Common

  type Name = string
  type Path = seq<Name>

  datatype Entry = File(size: nat) | Dir

  type Tree = map<Path, Entry>

  /** Every entry below the mount point stands in a directory. */
  ghost predicate WellFormed(fs: Tree) {
    forall p | p in fs :: |p| >= 1 && (|p| > 1 ==> Parent(p) in fs && fs[Parent(p)].Dir?)
  }

  function Parent(p: Path): Path
    requires p != []
  {
    p[..|p| - 1]
  }

  /** The entry at `p` and everything below it. */
  ghost function Under(fs: Tree, p: Path): set<Path> {
    set q | q in fs && p <= q
  }

  /** A directory with no entry in it. */
  ghost predicate IsEmptyDir(fs: Tree, p: Path) {
    p in fs && fs[p].Dir? && forall q | q in fs && p <= q :: q == p
  }

  /** A directory listing: every name once, in whatever order the card gives them. */
  predicate IsListing(fs: Tree, p: Path, names: seq<Name>) {
    && (forall i, j | 0 <= i < j < |names| :: names[i] != names[j])
    && (forall i | 0 <= i < |names| :: p + [names[i]] in fs)
    && (forall q | q in fs && |q| == |p| + 1 && p <= q :: q[|p|] in names)
  }

  lemma {:induction false} AncestorIn(fs: Tree, q: Path, k: nat)
    requires WellFormed(fs) && q in fs && 1 <= k <= |q|
    ensures q[..k] in fs && (k < |q| ==> fs[q[..k]].Dir?)
    decreases |q| - k
  {
    if k == |q| {
      assert q[..k] == q;
    } else {
      AncestorIn(fs, q, k + 1);
      assert Parent(q[..k + 1]) == q[..k];
    }
  }

  /** Every listing exists: a finite tree has finitely many names in a directory. */
  lemma ListingExists(fs: Tree, p: Path) returns (names: seq<Name>)
    ensures IsListing(fs, p, names)
  {
    names := ListFrom(fs, p, fs.Keys);
    forall q | q in fs && |q| == |p| + 1 && p <= q
      ensures q[|p|] in names
    {
      assert q == p + [q[|p|]];
    }
  }

  lemma {:induction false} ListFrom(fs: Tree, p: Path, keys: set<Path>) returns (names: seq<Name>)
    requires keys <= fs.Keys
    ensures forall i, j | 0 <= i < j < |names| :: names[i] != names[j]
    ensures forall n :: n in names <==> p + [n] in keys
    decreases keys
  {
    if keys == {} {
      names := [];
    } else {
      var q :| q in keys;
      var rest := ListFrom(fs, p, keys - {q});
      if |q| == |p| + 1 && p <= q {
        names := rest + [q[|p|]];
        assert q == p + [q[|p|]];
        forall n
          ensures n in names <==> p + [n] in keys
        {
          if p + [n] == q {
            assert (p + [n])[|p|] == n;
          }
        }
      } else {
        names := rest;
      }
    }
  }

  class SdCard {
    var fs: Tree
    /** Calls that failed although the tree allowed them. */
    ghost var faults: nat

    constructor (tree: Tree)
      ensures fs == tree && faults == 0
    {
      fs := tree;
      faults := 0;
    }

    method Stat(p: Path) returns (r: Option<Entry>)
      modifies this`faults
      ensures r.Some? ==> p in fs && fs[p] == r.value
      ensures faults == old(faults) + if r.None? && p in fs then 1 else 0
    {
      var works: bool := *;
      r := if works && p in fs then Some(fs[p]) else None;
      faults := faults + if r.None? && p in fs then 1 else 0;
    }

    method OpenDir(p: Path) returns (r: Option<seq<Name>>)
      requires p in fs && fs[p].Dir?
      modifies this`faults
      ensures r.Some? ==> IsListing(fs, p, r.value)
      ensures faults == old(faults) + if r.None? then 1 else 0
    {
      var works: bool := *;
      if works {
        ghost var listing := ListingExists(fs, p);
        var names :| IsListing(fs, p, names);
        r := Some(names);
      } else {
        r := None;
        faults := faults + 1;
      }
    }

    method Unlink(p: Path) returns (ok: bool)
      requires p in fs && fs[p].File?
      modifies this
      ensures fs == if ok then old(fs) - {p} else old(fs)
      ensures faults == old(faults) + if ok then 0 else 1
    {
      ok := *;
      if ok {
        fs := fs - {p};
      } else {
        faults := faults + 1;
      }
    }

    method Rmdir(p: Path) returns (ok: bool)
      requires p in fs && fs[p].Dir?
      modifies this
      ensures ok ==> IsEmptyDir(old(fs), p)
      ensures fs == if ok then old(fs) - {p} else old(fs)
      ensures faults == old(faults) + if !ok && IsEmptyDir(old(fs), p) then 1 else 0
    {
      var works: bool := *;
      ok := works && forall q | q in fs && p <= q :: q == p;
      if ok {
        fs := fs - {p};
      } else {
        faults := faults + if IsEmptyDir(fs, p) then 1 else 0;
      }
    }
  }
}
