/** The import of a catalogue on a disk whose file operations may fail: importSeedRegistry and saveSeedSnapshot of
    api/repository/file_repo.go together. A record lies in the file named by its id, the counters in the metadata. */
module SeedInstall {
  import opened Text
  import opened Models
  import opened Ownership
  import opened FileStore
  import opened SeedImport
  import Snapshot

  datatype Meta = Meta(nextPluginId: int, nextVersionId: int)

  /** How records and counters are written and read back. */
  datatype Codec = Codec(write: Plugin -> string, read: string -> Option<Plugin>,
                         writeMeta: Meta -> string, readMeta: string -> Option<Meta>)

  /** What is written can be read back. */
  ghost predicate Faithful(codec: Codec) {
    (forall p :: codec.read(codec.write(p)) == Some(p)) && (forall m :: codec.readMeta(codec.writeMeta(m)) == Some(m))
  }

  function FileName(id: int): string {
    Itoa(id) + ".json"
  }

  lemma ItoaInjective(a: int, b: int)
    requires Itoa(a) == Itoa(b)
    ensures a == b
  {
    var s, t := if a < 0 then Digits(-a) else Digits(a), if b < 0 then Digits(-b) else Digits(b);
    assert s[0] in s && t[0] in t;
    if a < 0 && b < 0 {
      assert Itoa(a)[1..] == s && Itoa(b)[1..] == t;
    }
  }

  lemma FileNamesApart(a: int, b: int)
    requires FileName(a) == FileName(b)
    ensures a == b
  {
    hide Itoa;
    assert FileName(a)[..|FileName(a)| - 5] == Itoa(a) && FileName(b)[..|FileName(b)| - 5] == Itoa(b);
    ItoaInjective(a, b);
  }

  /** The files hold exactly these records, each under its id. */
  ghost predicate Files(files: Snapshot.Files, plugins: Plugins, codec: Codec) {
    && (forall name :: name in files ==> exists id :: id in plugins && name == FileName(id))
    && (forall id :: id in plugins ==> FileName(id) in files && codec.read(files[FileName(id)]) == Some(plugins[id]))
  }

  /** A missing metadata file stands for fresh counters. */
  predicate Counts(meta: Option<string>, nextPluginId: int, nextVersionId: int, codec: Codec) {
    match meta
    case None => nextPluginId == 1 && nextVersionId == 1
    case Some(m) => codec.readMeta(m) == Some(Meta(nextPluginId, nextVersionId))
  }

  ghost predicate Holds(files: Snapshot.Files, meta: Option<string>, s: Store, codec: Codec) {
    Files(files, s.plugins, codec) && Counts(meta, s.nextPluginId, s.nextVersionId, codec)
  }

  /** The store on the disk is `s`. */
  ghost predicate OnDisk(disk: Snapshot.Disk, s: Store, codec: Codec)
    reads disk
  {
    Snapshot.Plugins in disk.dirs && Holds(disk.dirs[Snapshot.Plugins], disk.meta, s, codec)
  }

  /** A disk holds one store. */
  lemma HeldOnce(files: Snapshot.Files, meta: Option<string>, s: Store, t: Store, codec: Codec)
    requires Holds(files, meta, s, codec) && Holds(files, meta, t, codec)
    ensures s == t
  {
    hide Files;
    forall id
      ensures id in s.plugins <==> id in t.plugins
      ensures id in s.plugins ==> s.plugins[id] == t.plugins[id]
    {
      FilesOnce(files, s.plugins, t.plugins, codec);
      FilesOnce(files, t.plugins, s.plugins, codec);
    }
    assert s.plugins == t.plugins;
  }

  lemma FilesOnce(files: Snapshot.Files, a: Plugins, b: Plugins, codec: Codec)
    requires Files(files, a, codec) && Files(files, b, codec)
    ensures forall id :: id in a ==> id in b && b[id] == a[id]
  {
    hide FileName;
    forall id | id in a
      ensures id in b && b[id] == a[id]
    {
      assert FileName(id) in files;
      var other :| other in b && FileName(id) == FileName(other);
      FileNamesApart(id, other);
    }
  }

  function EntryOf(p: Plugin, codec: Codec): Snapshot.Entry {
    Snapshot.Entry(FileName(p.id), codec.write(p))
  }

  function Entries(all: seq<Plugin>, codec: Codec): (r: seq<Snapshot.Entry>)
    ensures |r| == |all|
  {
    seq(|all|, i requires 0 <= i < |all| => EntryOf(all[i], codec))
  }

  /** The staged files hold the working list. */
  lemma {:induction false} EntriesHold(all: seq<Plugin>, codec: Codec)
    requires Faithful(codec)
    ensures Files(Snapshot.Contents(Entries(all, codec)), ById(all), codec)
  {
    hide FileName;
    if all != [] {
      var front, p := all[..|all| - 1], all[|all| - 1];
      EntriesHold(front, codec);
      assert Entries(all, codec)[..|all| - 1] == Entries(front, codec);
      OneFileMore(Snapshot.Contents(Entries(front, codec)), ById(front), p, codec);
    }
  }

  /** A record lies in the file named by its id in decimal. */
  lemma FileNamesExactly(all: seq<Plugin>, codec: Codec)
    requires Faithful(codec)
    ensures forall id :: id in ById(all) ==> Itoa(id) + ".json" in Snapshot.Contents(Entries(all, codec))
  {
    EntriesHold(all, codec);
    hide Itoa, ById, Entries, Snapshot.Contents;
  }

  lemma OneFileMore(files: Snapshot.Files, plugins: Plugins, p: Plugin, codec: Codec)
    requires Faithful(codec) && Files(files, plugins, codec)
    ensures Files(files[FileName(p.id) := codec.write(p)], plugins[p.id := p], codec)
  {
    hide FileName;
    var after := files[FileName(p.id) := codec.write(p)];
    forall id | id in plugins[p.id := p]
      ensures FileName(id) in after && codec.read(after[FileName(id)]) == Some(plugins[p.id := p][id])
    {
      if FileName(id) == FileName(p.id) {
        FileNamesApart(id, p.id);
      }
    }
    forall name | name in after
      ensures exists id :: id in plugins[p.id := p] && name == FileName(id)
    {
      if name != FileName(p.id) {
        var id :| id in plugins && name == FileName(id);
        assert id in plugins[p.id := p];
      }
    }
  }

  /** The faults under which an import leaves neither the old nor the new catalogue in place. */
  ghost predicate ImportLoses(fails: set<Snapshot.Op>, prepared: Result<Working>, before: Snapshot.Files,
                              codec: Codec) {
    prepared.Ok? &&
    Snapshot.Loses(fails, |prepared.value.all|, before, Snapshot.Contents(Entries(prepared.value.all, codec)))
  }

  /** Whatever fails on the disk, the import is done as a whole or not at all, and reports which; it is done exactly
      when every entry fits and no forward file operation fails. The disk then holds the resulting store, old or new,
      unless the failures are among exactly those of `Loses`, where the old files are gone. */
  method ImportSeedRegistry(repo: FileRepository, disk: Snapshot.Disk, codec: Codec, seeds: seq<SeedPlugin>,
                            order: seq<int>, now: int)
    returns (r: Result<ImportResult>)
    requires Faithful(codec) && IsListing(order, repo.plugins)
    requires disk.Ready() && OnDisk(disk, repo.View(), codec)
    modifies repo, disk`dirs, disk`meta, disk`metaTmp
    ensures var prepared := AppliedAll(Start(old(repo.View()), order), seeds, now);
      var installed := prepared.Ok? && Snapshot.Succeeds(disk.fails, |prepared.value.all|);
      var lost := ImportLoses(disk.fails, prepared, old(disk.dirs)[Snapshot.Plugins], codec);
      (repo.View(), r) == Imported(old(repo.View()), order, seeds, now, installed) && (r.Ok? <==> installed) &&
      (!lost ==> OnDisk(disk, repo.View(), codec)) &&
      (r.Err? ==> disk.meta == old(disk.meta) &&
                  (lost <==> Snapshot.Plugins !in disk.dirs ||
                             disk.dirs[Snapshot.Plugins] != old(disk.dirs)[Snapshot.Plugins]))
  {
    hide AppliedAll, Start, Files, Snapshot.Loses, Snapshot.Succeeds, IsListing, Snapshot.Contents;
    var prepared, counted := PrepareImport(repo, seeds, order, now);
    if prepared.Err? {
      return Err(prepared.error);
    }
    var w := prepared.value;
    var meta := codec.writeMeta(Meta(w.nextPluginId, w.nextVersionId));
    EntriesHold(w.all, codec);
    var installed := disk.SaveSeedSnapshot(Entries(w.all, codec), meta);
    if !installed {
      return Err(Storage);
    }
    var plugins := FilesOf(w.all);
    repo.plugins, repo.nextPluginId, repo.nextVersionId := plugins, w.nextPluginId, w.nextVersionId;
    return Ok(counted);
  }

  method FilesOf(all: seq<Plugin>) returns (files: Plugins)
    ensures files == ById(all)
  {
    files := map[];
    for i := 0 to |all|
      invariant files == ById(all[..i])
    {
      assert all[..i + 1][..i] == all[..i];
      files := files[all[i].id := all[i]];
    }
    assert all[..|all|] == all;
  }

  /** No single failing file operation loses the catalogue. */
  lemma SingleFaultImports(fails: set<Snapshot.Op>, prepared: Result<Working>, before: Snapshot.Files, codec: Codec)
    requires |fails| <= 1
    ensures !ImportLoses(fails, prepared, before, codec)
  {
    if prepared.Ok? {
      Snapshot.SingleFaultIsSafe(fails, |prepared.value.all|, before,
                                 Snapshot.Contents(Entries(prepared.value.all, codec)));
    }
  }
}
