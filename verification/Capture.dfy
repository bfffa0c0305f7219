/** From the row CreateSnapshot makes to the protocol: the row is the one the protocol's
    model of the kernel takes, and a pull of it brings the disk as it was at that moment. */
module Capture {

  import opened Rows
  import opened Tables
  import opened ChangedSectors
  import opened Snapshots
  import Sync

  /** What the agent reads about a device is the state of the kernel: before the ioctl the
      last number, afterwards the generation and the map as the ioctl froze it. */
  ghost predicate Reads(env: SnapshotEnv, dev: DevID, venv: VolumeEnv, k: Sync.Kernel) {
    && Answered(env)
    && (forall i | EntryAt(env.cbtPre.value, dev, i) :: env.cbtPre.value[i].snapNumber == k.last)
    && (forall i | EntryAt(env.cbtPost.value, dev, i) :: env.cbtPost.value[i].generationID == k.generation)
    && (venv.bitmap.Ok? ==> venv.bitmap.value == k.stamps)
  }

  /** The k-th volume of a created snapshot is exactly the row the protocol's Create makes:
      number, generation and map are the kernel's at that moment. */
  lemma CreatedIsTaken(t: Tables, u: Tables, ids: seq<string>, env: SnapshotEnv, s: Snapshot, k: nat, st: Sync.State)
    requires Created(t, u, ids, env, s) && k < |ids|
    requires st.row.None? && st.kernel.last < 255
    requires Reads(env, s.volumes[k].originalDevice.dev, env.volumes[k], st.kernel)
    ensures Sync.Step(st, Sync.Create(s.volumes[k])).row == Some(s.volumes[k])
  {
    assert Paired(u, env, ids[k], env.volumes[k], s.volumes[k]);
  }

  /** The request for that disk finds that volume, when the disk was asked for once. */
  lemma CreatedIsFound(t: Tables, u: Tables, ids: seq<string>, env: SnapshotEnv, s: Snapshot, k: nat)
    requires Created(t, u, ids, env, s) && k < |ids| && Keyed(t)
    requires forall j | k < j < |ids| :: ids[j] != ids[k]
    ensures s.snapshotID in u.snapshots && LastOf(u.snapshots[s.snapshotID].volumes, ids[k], k)
  {
    PrepareTables(t, ids, env.stores, 0);
    forall j | k <= j < |ids| ensures s.volumes[j].originalDevice.trackingID == ids[j] {
      assert Paired(u, env, ids[j], env.volumes[j], s.volumes[j]);
    }
  }

  /** End to end: whatever happened before, a client that applies the ranges computed from
      the created volume holds, from block 1 on, the disk as it was when the snapshot was
      taken, and all of it after a full answer. */
  lemma CreatedSyncs(t: Tables, u: Tables, ids: seq<string>, env: SnapshotEnv, s: Snapshot, k: nat,
                     st: Sync.State, events: seq<Sync.Event>)
    requires Created(t, u, ids, env, s) && k < |ids|
    requires Sync.Init(st) && Sync.Run(st, events).row.None? && Sync.Run(st, events).kernel.last < 255
    requires Reads(env, s.volumes[k].originalDevice.dev, env.volumes[k], Sync.Run(st, events).kernel)
    ensures var vol := s.volumes[k];
            var before := Sync.Run(st, events);
            var taken := Sync.Step(before, Sync.Create(vol));
            var after := Sync.Step(taken, Sync.Pull);
            var ranges := ChangedRanges(vol, before.client.generation, before.client.number, st.blk);
            && |before.client.replica| == |before.kernel.disk|
            && after.client.replica == Sync.Applied(before.client.replica, before.kernel.disk, ranges)
            && Sync.HoldsFromBlock1(after.client.replica, before.kernel.disk, st.blk)
            && (IsFull(vol, before.client.generation, before.client.number) ==>
                  after.client.replica == before.kernel.disk)
  {
    CreatedIsTaken(t, u, ids, env, s, k, Sync.Run(st, events));
    Sync.CreateThenPull(st, events, s.volumes[k]);
  }
}
