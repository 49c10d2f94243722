/**
 * The data directory as a crash sees it: each file has a durable length, and creates and unlinks
 * stay pending until the directory is synced.
 */
module Disk {
  import opened Bytes

  /** Files of the data directory. Only `Segment` names end in `.liven`. */
  datatype Path =
    | Segment(id: nat)
    | SalvageMarker(source: nat, offset: nat)
    | TornBackup(source: nat, offset: nat)
    | RepairBackup(source: nat)

  datatype Disk = Disk(dir: map<Path, bytes>, durable: map<Path, nat>, creates: set<Path>, unlinks: map<Path, bytes>)

  const EMPTY_DISK: Disk := Disk(map[], map[], {}, map[])

  ghost predicate WellFormed(d: Disk)
  {
    && d.durable.Keys == d.dir.Keys
    && (forall p :: p in d.dir ==> d.durable[p] <= |d.dir[p]|)
    && d.creates <= d.dir.Keys
  }

  /** Open with create and truncate: an empty file whose directory entry is pending. */
  function Create(d: Disk, p: Path): Disk
  {
    d.(dir := d.dir[p := []], durable := d.durable[p := 0], creates := d.creates + {p})
  }

  function Append(d: Disk, p: Path, bs: bytes): Disk
    requires p in d.dir
  {
    d.(dir := d.dir[p := d.dir[p] + bs])
  }

  function Sync(d: Disk, p: Path): Disk
    requires p in d.dir
  {
    d.(durable := d.durable[p := |d.dir[p]|])
  }

  function DirSync(d: Disk): Disk
  {
    d.(creates := {}, unlinks := map[])
  }

  function Unlink(d: Disk, p: Path): Disk
    requires p in d.dir
  {
    Disk(d.dir - {p}, d.durable - {p}, d.creates - {p}, d.unlinks[p := d.dir[p]])
  }

  /** `set_len`: cut, or extend with zeros. */
  function SetLen(file: bytes, len: nat): (r: bytes)
    ensures |r| == len
  {
    if len <= |file| then file[..len] else file + seq(len - |file|, _ => 0)
  }

  /** `set_len` followed by `sync_all`. */
  function TruncateSync(d: Disk, p: Path, len: nat): Disk
    requires p in d.dir
  {
    d.(dir := d.dir[p := SetLen(d.dir[p], len)], durable := d.durable[p := len])
  }

  /**
   * `d'` is a directory that may be found after a power loss in `d`: every file is cut anywhere between
   * its durable and its written length, files whose creation was not made durable may be gone, and files
   * whose removal was not made durable may be back. Nothing is pending any more.
   */
  ghost predicate CrashOf(d: Disk, d': Disk)
  {
    && WellFormed(d')
    && d'.creates == {} && d'.unlinks == map[]
    && (forall p :: p in d'.dir ==>
          && d'.durable[p] == |d'.dir[p]|
          && (if p in d.dir then p in d.durable && d.durable[p] <= |d'.dir[p]| && d'.dir[p] <= d.dir[p]
              else p in d.unlinks && d'.dir[p] == d.unlinks[p]))
    && (forall p :: p in d.dir && p !in d'.dir ==> p in d.creates)
  }

  /** The segment files are the same. */
  ghost predicate SameSegments(d: Disk, d': Disk)
  {
    forall id: nat :: (Segment(id) in d.dir <==> Segment(id) in d'.dir) && (Segment(id) in d.dir ==> d'.dir[Segment(id)] == d.dir[Segment(id)])
  }

  /** The process dies, and either nothing else happens, so that what was pending still is, or power is lost too. */
  ghost predicate Outage(d: Disk, d': Disk)
  {
    d' == d || CrashOf(d, d')
  }

  function SegmentIds(d: Disk): set<nat>
  {
    set p | p in d.dir && p.Segment? :: p.id
  }

  lemma {:induction false} SegmentIdsIff(d: Disk, id: nat)
    ensures id in SegmentIds(d) <==> Segment(id) in d.dir
  {
    if Segment(id) in d.dir {
      assert Segment(id).id == id;
    }
  }
}
