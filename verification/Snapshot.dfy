/** Installing a whole catalogue on disk: saveSeedSnapshot and writeFileAtomic of
    api/repository/file_repo.go, run against a disk on which any set of operations may fail. */
module Snapshot {
  import opened Text

  datatype Dir = Plugins | Stage | Backup

  type Files = map<string, string>

  /** Every file operation the install can reach, in order; `StageFile(i)` covers marshalling too. */
  datatype Op =
    | MakeStage | StageFile(i: nat) | MakeBackup | RemoveBackup
    | MoveAside | Install | Restore
    | WriteMetaTmp | RenameMeta
    | MoveFailed | RestoreAfterMeta
    | CleanBackup | CleanStage

  datatype Entry = Entry(name: string, data: string)

  function Contents(entries: seq<Entry>): Files {
    if entries == [] then map[]
    else Contents(entries[..|entries| - 1])[entries[|entries| - 1].name := entries[|entries| - 1].data]
  }

  /** Everything up to moving the live catalogue aside goes through. */
  predicate Prepares(fails: set<Op>, n: nat) {
    && MakeStage !in fails && (forall i :: 0 <= i < n ==> StageFile(i) !in fails)
    && MakeBackup !in fails && RemoveBackup !in fails && MoveAside !in fails
  }

  predicate Succeeds(fails: set<Op>, n: nat) {
    Prepares(fails, n) && Install !in fails && WriteMetaTmp !in fails && RenameMeta !in fails
  }

  /** The swap goes wrong and cannot be undone: the install fails and so does putting the old catalogue
      back, or the metadata write fails and so does the rollback. (Rolling back onto an empty new catalogue
      needs no move, and a new catalogue equal to the old one needs no rollback.) */
  predicate SwapLoses(fails: set<Op>, before: Files, after: Files) {
    if Install in fails then Restore in fails
    else (WriteMetaTmp in fails || RenameMeta in fails) &&
         if MoveFailed in fails
         then (after != map[] || RestoreAfterMeta in fails) && after != before
         else RestoreAfterMeta in fails
  }

  /** The faults under which neither catalogue ends up installed with its own metadata. */
  predicate Loses(fails: set<Op>, n: nat, before: Files, after: Files) {
    Prepares(fails, n) && SwapLoses(fails, before, after)
  }

  class Disk {
    var dirs: map<Dir, Files>
    var meta: Option<string>
    var metaTmp: Option<string>
    const fails: set<Op>

    constructor (plugins: Files, meta: Option<string>, fails: set<Op>)
      ensures Ready() && dirs == map[Plugins := plugins] && this.meta == meta && this.fails == fails
    {
      this.dirs, this.meta, this.metaTmp, this.fails := map[Plugins := plugins], meta, None, fails;
    }

    /** The live catalogue is in place and the temporary names are free. */
    predicate Ready()
      reads this
    {
      Plugins in dirs && Stage !in dirs && Backup !in dirs
    }

    method MkdirTemp(op: Op, d: Dir) returns (ok: bool)
      modifies this`dirs
      ensures ok <==> op !in fails
      ensures dirs == if ok then old(dirs)[d := map[]] else old(dirs)
    {
      ok := op !in fails;
      if ok {
        dirs := dirs[d := map[]];
      }
    }

    /** os.Rename of a directory: onto a missing or an empty one only. */
    method Rename(op: Op, from: Dir, to: Dir) returns (ok: bool)
      requires from != to
      modifies this`dirs
      ensures ok <==> op !in fails && from in old(dirs) && (to in old(dirs) ==> old(dirs)[to] == map[])
      ensures dirs == if ok then (old(dirs) - {from})[to := old(dirs)[from]] else old(dirs)
    {
      ok := op !in fails && from in dirs && (to in dirs ==> dirs[to] == map[]);
      if ok {
        dirs := (dirs - {from})[to := dirs[from]];
      }
    }

    method RemoveAll(op: Op, d: Dir)
      modifies this`dirs
      ensures dirs == if op in fails then old(dirs) else old(dirs) - {d}
    {
      if op !in fails {
        dirs := dirs - {d};
      }
    }

    /** writeFileAtomic: a temporary file, then a rename. A failed write may leave anything behind. */
    method SaveMeta(data: string) returns (ok: bool)
      modifies this`meta, this`metaTmp
      ensures ok <==> WriteMetaTmp !in fails && RenameMeta !in fails
      ensures meta == if ok then Some(data) else old(meta)
    {
      if WriteMetaTmp in fails {
        metaTmp := *;
        return false;
      }
      metaTmp := Some(data);
      if RenameMeta in fails {
        metaTmp := *;
        return false;
      }
      meta, metaTmp := metaTmp, None;
      return true;
    }

    method StageFiles(entries: seq<Entry>) returns (ok: bool)
      requires Stage in dirs && dirs[Stage] == map[]
      modifies this`dirs
      ensures ok <==> forall i :: 0 <= i < |entries| ==> StageFile(i) !in fails
      ensures dirs.Keys == old(dirs.Keys)
      ensures forall d :: d in dirs && d != Stage ==> dirs[d] == old(dirs)[d]
      ensures ok ==> dirs[Stage] == Contents(entries)
    {
      for i := 0 to |entries|
        invariant dirs.Keys == old(dirs.Keys)
        invariant forall d :: d in dirs && d != Stage ==> dirs[d] == old(dirs)[d]
        invariant forall k :: 0 <= k < i ==> StageFile(k) !in fails
        invariant dirs[Stage] == Contents(entries[..i])
      {
        if StageFile(i) in fails {
          var partial: Files := *;
          dirs := dirs[Stage := partial];
          return false;
        }
        dirs := dirs[Stage := dirs[Stage][entries[i].name := entries[i].data]];
        assert entries[..i + 1][..i] == entries[..i];
      }
      assert entries[..|entries|] == entries;
      return true;
    }

    /** The two renames, the metadata write and their rollbacks. */
    method Swap(newMeta: string) returns (ok: bool)
      requires Plugins in dirs && Stage in dirs && Backup !in dirs
      modifies this`dirs, this`meta, this`metaTmp
      ensures ok <==> MoveAside !in fails && Install !in fails && WriteMetaTmp !in fails && RenameMeta !in fails
      ensures ok ==> Plugins in dirs && dirs[Plugins] == old(dirs)[Stage] && meta == Some(newMeta)
      ensures !ok ==> meta == old(meta)
      ensures !ok ==> (Plugins in dirs && dirs[Plugins] == old(dirs)[Plugins] <==>
                       MoveAside in fails || !SwapLoses(fails, old(dirs)[Plugins], old(dirs)[Stage]))
    {
      var moved := Rename(MoveAside, Plugins, Backup);
      if !moved {
        return false;
      }
      var installed := Rename(Install, Stage, Plugins);
      if !installed {
        var restored := Rename(Restore, Backup, Plugins);
        return false;
      }
      ok := SaveMeta(newMeta);
      if !ok {
        var cleared := Rename(MoveFailed, Plugins, Stage);
        var restored := Rename(RestoreAfterMeta, Backup, Plugins);
      }
    }

    method StageAndSwap(entries: seq<Entry>, newMeta: string) returns (ok: bool)
      requires Plugins in dirs && Stage in dirs && dirs[Stage] == map[] && Backup !in dirs
      requires MakeStage !in fails
      modifies this`dirs, this`meta, this`metaTmp
      ensures ok <==> Succeeds(fails, |entries|)
      ensures ok ==> Plugins in dirs && dirs[Plugins] == Contents(entries) && meta == Some(newMeta)
      ensures !ok ==> meta == old(meta)
      ensures !ok ==> (Plugins in dirs && dirs[Plugins] == old(dirs)[Plugins] <==>
                       !Loses(fails, |entries|, old(dirs)[Plugins], Contents(entries)))
    {
      ok := StageFiles(entries);
      if !ok {
        return;
      }
      ok := MkdirTemp(MakeBackup, Backup);
      if !ok {
        return;
      }
      if RemoveBackup in fails {
        return false;
      }
      dirs := dirs - {Backup};
      ok := Swap(newMeta);
      RemoveAll(CleanBackup, Backup);
    }

    /** The install succeeds exactly when no forward operation fails. A success leaves the new catalogue
        with the new metadata; an error leaves the old catalogue with the old metadata, except under
        exactly the faults of `Loses`. */
    method SaveSeedSnapshot(entries: seq<Entry>, newMeta: string) returns (ok: bool)
      requires Ready()
      modifies this`dirs, this`meta, this`metaTmp
      ensures ok <==> Succeeds(fails, |entries|)
      ensures ok ==> Plugins in dirs && dirs[Plugins] == Contents(entries) && meta == Some(newMeta)
      ensures !ok ==> meta == old(meta)
      ensures !ok ==> (Plugins in dirs && dirs[Plugins] == old(dirs)[Plugins] <==>
                       !Loses(fails, |entries|, old(dirs)[Plugins], Contents(entries)))
    {
      ok := MkdirTemp(MakeStage, Stage);
      if !ok {
        return;
      }
      ok := StageAndSwap(entries, newMeta);
      RemoveAll(CleanStage, Stage);
    }
  }

  /** A single failing operation, whichever it is, never loses the catalogue. */
  lemma SingleFaultIsSafe(fails: set<Op>, n: nat, before: Files, after: Files)
    requires |fails| <= 1
    ensures !Loses(fails, n, before, after)
  {
    if Loses(fails, n, before, after) {
      var pair := if Install in fails then {Install, Restore}
                  else if MoveFailed in fails
                  then {MoveFailed, if WriteMetaTmp in fails then WriteMetaTmp else RenameMeta}
                  else {RestoreAfterMeta, if WriteMetaTmp in fails then WriteMetaTmp else RenameMeta};
      assert pair <= fails;
      assert |pair| == 2;
      SubsetSize(pair, fails);
      assert false;
    }
  }

  lemma SubsetSize(a: set<Op>, b: set<Op>)
    requires a <= b
    ensures |a| <= |b|
  {
    assert b == a + (b - a);
  }
}
