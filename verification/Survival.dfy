/**
 * Which databases survive when some segments are still on disk, or come back, that they do without: exactly those for
 * which such a segment holds neither a deleted key's frame without a newer frame of that key, nor a frame newer than
 * a live record of its key.
 */
module Survival {
  import opened Wrappers
  import opened Bytes
  import opened Types
  import opened Frames
  import opened Index
  import opened LogMerge
  import opened Disk
  import opened GroupCommit
  import opened FlushIndex
  import opened Flusher
  import opened ShelfReplay
  import opened DiskView
  import opened FrameSets
  import opened Compaction
  import opened CompactionFrames

  /** No active frame of a deleted key is left in an input without a newer frame of that key. */
  ghost predicate InputsGuarded(c: Codec, d: Disk, inputs: set<nat>, view: map<string, Record>)
  {
    forall x: nat, g :: x in inputs && InFile(c, d, x, g) && g.IsActive() && g.Compound() !in view ==> Shadowed(OnDisk(c, d), g)
  }

  lemma {:induction false} ViewNecessary(c: Codec, d': Disk, inputs: set<nat>, view: map<string, Record>)
    requires Consistent(OnDisk(c, d')) && LiveView(OnDisk(c, d')) == view
    ensures InputsGuarded(c, d', inputs, view)
  {
    hide InFile, OnDiskExcept, LiveView, Consistent;
    var found := OnDisk(c, d');
    LiveViewSound(found);
    forall x: nat, g | x in inputs && InFile(c, d', x, g) && g.IsActive() && g.Compound() !in view
      ensures Shadowed(found, g)
    {
      OnDiskIff(c, d', {}, g);
      assert Shadowed(found, g) || IsTop(found, g);
    }
  }

  /** No frame of the inputs is newer than a live record of its key. */
  ghost predicate NoneNewer(c: Codec, d: Disk, inputs: set<nat>, view: map<string, Record>)
  {
    forall x: nat, g :: x in inputs && InFile(c, d, x, g) && g.Compound() in view ==> g.seqId <= view[g.Compound()].seqId
  }

  /** What `d'` has of the inputs does no harm: the database `view` survives. */
  ghost predicate Survives(c: Codec, inputs: set<nat>, d': Disk, view: map<string, Record>)
  {
    InputsGuarded(c, d', inputs, view) && NoneNewer(c, d', inputs, view)
  }

  /** The newest frames of all keys outside the inputs are found. */
  ghost predicate TopsFound(c: Codec, d: Disk, d': Disk, inputs: set<nat>)
  {
    forall t :: IsTop(OnDiskExcept(c, d, inputs), t) ==> t in OnDisk(c, d')
  }

  /** What comes out on top is live. */
  lemma {:induction false} TopFound(c: Codec, d: Disk, d': Disk, inputs: set<nat>, view: map<string, Record>, r: Record)
    requires Loses(c, d, d', inputs) && TopsFound(c, d, d', inputs) && Consistent(OnDisk(c, d'))
    requires ViewOnDisk(c, d, inputs, view) && NoneNewer(c, d', inputs, view) && InputsGuarded(c, d', inputs, view)
    requires IsTop(OnDisk(c, d'), r) && r.IsActive()
    ensures r.Compound() in view && view[r.Compound()] == r
  {
    hide InFile, OnDiskExcept, LiveView;
    var found, kept := OnDisk(c, d'), OnDiskExcept(c, d, inputs);
    LiveViewSound(kept);
    // A surviving frame is one of the kept segments' frames, or sits in an input.
    OnDiskIff(c, d', {}, r);
    OnDiskIff(c, d, inputs, r);
    var k := r.Compound();
    if r in kept {
      var t := TopExists(kept, r);
      assert t in found;
    } else {
      assert k in view;
      LiveStaysTop(c, d, d', inputs, view, k);
    }
  }

  /** A live record is still on top. */
  lemma {:induction false} LiveStaysTop(c: Codec, d: Disk, d': Disk, inputs: set<nat>, view: map<string, Record>, k: string)
    requires Loses(c, d, d', inputs) && TopsFound(c, d, d', inputs)
    requires ViewOnDisk(c, d, inputs, view) && NoneNewer(c, d', inputs, view) && k in view
    ensures IsTop(OnDisk(c, d'), view[k]) && view[k].IsActive() && view[k].Compound() == k
  {
    hide InFile, OnDiskExcept, LiveView, Consistent;
    LiveViewSound(OnDiskExcept(c, d, inputs));
    forall q | q in OnDisk(c, d') && q.Compound() == k
      ensures q.seqId <= view[k].seqId
    {
      // A surviving frame is one of the kept segments' frames, or sits in an input.
      assert q in OnDiskExcept(c, d, inputs) || exists x: nat :: x in inputs && InFile(c, d', x, q) && InFile(c, d, x, q) by {
        OnDiskIff(c, d', {}, q);
        OnDiskIff(c, d, inputs, q);
      }
    }
  }

  /**
   * `d'` holds the newest frames of all segments of `d` but the inputs, and any part of the inputs. The database of
   * those segments is what is found if and only if no input found holds a deleted key's frame without a newer one of
   * the key, nor a frame newer than a live record of its key.
   */
  lemma {:induction false} SurvivesExactly(c: Codec, d: Disk, d': Disk, next: nat, inputs: set<nat>, view: map<string, Record>)
    requires Loses(c, d, d', inputs) && TopsFound(c, d, d', inputs) && FramesSound(c, d', next) && ViewOnDisk(c, d, inputs, view)
    ensures Consistent(OnDisk(c, d'))
    ensures LiveView(OnDisk(c, d')) == view <==> Survives(c, inputs, d', view)
  {
    SoundSets(c, d', next, {});
    hide OnDiskExcept, LiveView, Consistent, Loses, InputsGuarded, FramesSound, ViewOnDisk, NoneNewer, TopsFound;
    if LiveView(OnDisk(c, d')) == view {
      ViewNecessary(c, d', inputs, view);
      LiveViewSound(OnDisk(c, d'));
      forall x: nat, g | x in inputs && InFile(c, d', x, g) && g.Compound() in view
        ensures g.seqId <= view[g.Compound()].seqId
      {
        OnDiskIff(c, d', {}, g);
      }
    }
    if InputsGuarded(c, d', inputs, view) && NoneNewer(c, d', inputs, view) {
      assert LiveView(OnDisk(c, d')) == view by {
        var found, kept := OnDisk(c, d'), OnDiskExcept(c, d, inputs);
        LiveViewSound(found);
        LiveViewSound(kept);
        forall k | k in LiveView(found)
          ensures k in view && view[k] == LiveView(found)[k]
        {
          TopFound(c, d, d', inputs, view, LiveView(found)[k]);
        }
        forall k | k in view
          ensures k in LiveView(found)
        {
          LiveStaysTop(c, d, d', inputs, view, k);
        }
      }
    }
  }

  /** Where the inputs hold nothing newer than a live record, neither does any part of them. */
  lemma {:induction false} NeverNewer(c: Codec, d: Disk, d': Disk, inputs: set<nat>, view: map<string, Record>)
    requires Loses(c, d, d', inputs) && LiveNotShadowed(c, d, inputs, view) && forall k :: k in view ==> view[k].Compound() == k
    ensures NoneNewer(c, d', inputs, view)
  {
    hide InFile;
    forall x: nat, g | x in inputs && InFile(c, d', x, g) && g.Compound() in view
      ensures g.seqId <= view[g.Compound()].seqId
    {
      assert NotShadowed(c, d, inputs, view[g.Compound()]);
      assert InFile(c, d, x, g);
    }
  }
}
