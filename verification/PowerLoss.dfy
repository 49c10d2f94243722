/**
 * The test-only power-loss simulator: hooks record, per file, the written and synced lengths and the
 * directory operations that are still pending; `Materialize` turns a directory into one a power loss
 * may leave. The main result is that it only ever produces crashes of the `Disk` model, so what is
 * proved for every `CrashOf` covers everything the simulator can do.
 */
module PowerLoss {
  import opened Bytes
  import opened Disk

  datatype FileState = FileState(written: nat, synced: nat)

  /** The bounds between which `materialize` draws the cut of a file of length `cur`. */
  function Lower(f: FileState, cur: nat): nat { Min(f.synced, cur) }

  function Upper(f: FileState, cur: nat): nat { Max(Min(f.written, cur), Lower(f, cur)) }

  ghost predicate CutOf(files: map<Path, FileState>, p: Path, before: bytes, after: bytes)
  {
    && after <= before
    && (if p in files then Lower(files[p], |before|) <= |after| <= Upper(files[p], |before|)
        else after == before)
  }

  class Tracker {
    var files: map<Path, FileState>
    var creates: set<Path>
    var unlinks: map<Path, bytes>

    constructor ()
      ensures files == map[] && creates == {} && unlinks == map[]
    {
      files, creates, unlinks := map[], {}, map[];
    }

    /** The tracker's knowledge is consistent with the disk: it never claims less durable than is. */
    ghost predicate Tracks(d: Disk)
      reads this
    {
      && WellFormed(d)
      && creates == d.creates
      && unlinks == d.unlinks
      && (forall p :: p in files && p in d.dir ==> d.durable[p] <= files[p].synced)
    }

    method RecordCreate(p: Path)
      modifies this`creates
      ensures creates == old(creates) + {p}
    {
      creates := creates + {p};
    }

    method RecordWrite(p: Path, start: nat, end: nat)
      modifies this`files
      ensures files.Keys == old(files.Keys) + {p}
      ensures forall q :: q in old(files) && q != p ==> files[q] == old(files)[q]
      ensures files[p].synced == if p in old(files) then old(files)[p].synced else start
      ensures files[p].written == Max(if p in old(files) then old(files)[p].written else start, end)
    {
      var entry := if p in files then files[p] else FileState(start, start);
      files := files[p := entry.(written := Max(entry.written, end))];
    }

    method RecordSync(p: Path, offset: nat)
      modifies this`files
      ensures files.Keys == old(files.Keys) + {p}
      ensures forall q :: q in old(files) && q != p ==> files[q] == old(files)[q]
      ensures files[p].synced == if p in old(files) then Max(old(files)[p].synced, offset) else offset
      ensures files[p].written == if p in old(files) then Max(old(files)[p].written, offset) else offset
    {
      var entry := if p in files then files[p] else FileState(offset, offset);
      files := files[p := FileState(Max(entry.written, offset), Max(entry.synced, offset))];
    }

    method RecordTruncateSync(p: Path, len: nat)
      modifies this`files
      ensures files == old(files)[p := FileState(len, len)]
    {
      files := files[p := FileState(len, len)];
    }

    method RecordUnlink(p: Path, content: bytes)
      modifies this`creates, this`unlinks
      ensures unlinks == old(unlinks)[p := content] && creates == old(creates) - {p}
    {
      unlinks := unlinks[p := content];
      creates := creates - {p};
    }

    method RecordDirSync()
      modifies this`creates, this`unlinks
      ensures creates == {} && unlinks == map[]
    {
      creates := {};
      unlinks := map[];
    }

    /** The first half of `materialize`: every tracked file is cut at a random length. */
    method CutFiles(before: map<Path, bytes>) returns (dir: map<Path, bytes>)
      ensures dir.Keys == before.Keys
      ensures forall p :: p in dir ==> CutOf(files, p, before[p], dir[p])
    {
      dir := before;
      var todo := files.Keys;
      while todo != {}
        invariant todo <= files.Keys
        invariant dir.Keys == before.Keys
        invariant forall p :: p in dir && p in todo ==> dir[p] == before[p]
        invariant forall p :: p in dir && p !in todo ==> CutOf(files, p, before[p], dir[p])
        decreases todo
      {
        var p :| p in todo;
        todo := todo - {p};
        if p in dir {
          var cur := |dir[p]|;
          var cut: nat :| Lower(files[p], cur) <= cut <= Upper(files[p], cur);
          if cut < cur {
            dir := dir[p := dir[p][..cut]];
          }
        }
      }
    }

    /**
     * Cut the tracked files, bring back pending unlinks, drop pending creates. Whatever cuts are
     * drawn, the directory left behind is one the disk model allows.
     */
    method Materialize(d: Disk) returns (dir: map<Path, bytes>)
      requires Tracks(d)
      modifies this
      ensures CrashOf(d, Disk(dir, Lengths(dir), {}, map[]))
      ensures dir.Keys == d.dir.Keys + old(unlinks.Keys) - old(creates)
      ensures forall p :: p in d.dir && p in dir ==> CutOf(old(files), p, d.dir[p], dir[p])
      ensures files == map[] && creates == {} && unlinks == map[]
    {
      var cut := CutFiles(d.dir);
      var back := map p | p in unlinks && p !in cut :: unlinks[p];
      dir := (cut + back) - creates;
      CutIsLoss(d, files, cut, dir);
      files, creates, unlinks := map[], {}, map[];
    }
  }

  /** Cuts no shorter than what was synced, pending unlinks undone and pending creates dropped: a loss the disk model allows. */
  lemma {:induction false} CutIsLoss(d: Disk, files: map<Path, FileState>, cut: map<Path, bytes>, dir: map<Path, bytes>)
    requires WellFormed(d) && cut.Keys == d.dir.Keys
    requires forall p :: p in files && p in d.dir ==> d.durable[p] <= files[p].synced
    requires forall p :: p in cut ==> CutOf(files, p, d.dir[p], cut[p])
    requires dir == (cut + map p | p in d.unlinks && p !in cut :: d.unlinks[p]) - d.creates
    ensures CrashOf(d, Disk(dir, Lengths(dir), {}, map[]))
    ensures dir.Keys == d.dir.Keys + d.unlinks.Keys - d.creates
    ensures forall p :: p in d.dir && p in dir ==> CutOf(files, p, d.dir[p], dir[p])
  {
    assert forall p :: p in dir <==> (p in cut || p in d.unlinks) && p !in d.creates;
    assert forall p :: p in cut && p in dir ==> dir[p] == cut[p];
    assert forall p :: p in cut ==> p in d.dir && d.durable[p] <= |cut[p]| && cut[p] <= d.dir[p];
  }

  function Lengths(dir: map<Path, bytes>): map<Path, nat>
  {
    map p | p in dir :: |dir[p]|
  }

  // ---------- Each hook, called beside its file operation, keeps the tracker consistent ----------

  /** `pl_create` after opening a fresh file. */
  method CreateTracked(t: Tracker, d: Disk, p: Path) returns (d': Disk)
    requires t.Tracks(d)
    modifies t
    ensures d' == Create(d, p) && t.Tracks(d')
  {
    d' := Create(d, p);
    t.RecordCreate(p);
  }

  method AppendTracked(t: Tracker, d: Disk, p: Path, bs: bytes) returns (d': Disk)
    requires t.Tracks(d) && p in d.dir
    modifies t
    ensures d' == Append(d, p, bs) && t.Tracks(d')
  {
    d' := Append(d, p, bs);
    t.RecordWrite(p, |d.dir[p]|, |d'.dir[p]|);
  }

  method SyncTracked(t: Tracker, d: Disk, p: Path) returns (d': Disk)
    requires t.Tracks(d) && p in d.dir
    modifies t
    ensures d' == Sync(d, p) && t.Tracks(d')
  {
    d' := Sync(d, p);
    t.RecordSync(p, |d.dir[p]|);
  }

  method TruncateTracked(t: Tracker, d: Disk, p: Path, len: nat) returns (d': Disk)
    requires t.Tracks(d) && p in d.dir
    modifies t
    ensures d' == TruncateSync(d, p, len) && t.Tracks(d')
  {
    d' := TruncateSync(d, p, len);
    t.RecordTruncateSync(p, len);
  }

  method UnlinkTracked(t: Tracker, d: Disk, p: Path) returns (d': Disk)
    requires t.Tracks(d) && p in d.dir
    modifies t
    ensures d' == Unlink(d, p) && t.Tracks(d')
  {
    d' := Unlink(d, p);
    t.RecordUnlink(p, d.dir[p]);
  }

  method DirSyncTracked(t: Tracker, d: Disk) returns (d': Disk)
    requires t.Tracks(d)
    modifies t
    ensures d' == DirSync(d) && t.Tracks(d')
  {
    d' := DirSync(d);
    t.RecordDirSync();
  }
}
