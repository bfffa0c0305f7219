/** worker/manager/manager.go, FindVolumeSnapshotForDisk and GetChangedSectors. */
module ChangedSectors {

  import opened Increments
  import opened Rows

  datatype BackupType = Full | Incremental

  datatype ChangesResponse = ChangesResponse(
    trackedDiskID: string,
    snapshotID: string,
    backupType: BackupType,
    cbtBlockSize: nat,
    ranges: seq<DiskRange>)

  /** Whether the request starts from a snapshot the current map still knows about. */
  predicate IsFull(vol: VolumeSnapshot, prevGeneration: string, prevNumber: nat) {
    prevNumber == 0 || prevGeneration != vol.generationID
  }

  /** The ranges a request for `vol` is answered with. */
  function ChangedRanges(vol: VolumeSnapshot, prevGeneration: string, prevNumber: nat, blk: nat): seq<DiskRange> {
    IncrementRanges(vol.bitmap, if IsFull(vol, prevGeneration, prevNumber) then 0 else prevNumber,
                    vol.snapshotNumber, blk)
  }

  /** The k-th volume is the last one taken from that disk. */
  predicate LastOf(vols: seq<VolumeSnapshot>, diskID: string, k: int) {
    && 0 <= k < |vols| && vols[k].originalDevice.trackingID == diskID
    && forall l | k < l < |vols| :: vols[l].originalDevice.trackingID != diskID
  }

  /** The last volume of the snapshot taken from that disk; the empty ID never matches. */
  method FindVolumeSnapshotForDisk(snapshots: map<string, Snapshot>, snapshotID: string, diskID: string)
    returns (r: Result<VolumeSnapshot>)
    ensures r.Err? ==> r.error == NotFound
    ensures r.Ok? <==>
      snapshotID in snapshots && diskID != "" &&
      exists k | 0 <= k < |snapshots[snapshotID].volumes| ::
        snapshots[snapshotID].volumes[k].originalDevice.trackingID == diskID
    ensures r.Ok? ==>
      exists k | LastOf(snapshots[snapshotID].volumes, diskID, k) :: snapshots[snapshotID].volumes[k] == r.value
  {
    if snapshotID !in snapshots {
      return Err(NotFound);
    }
    var vols := snapshots[snapshotID].volumes;
    var found: Option<VolumeSnapshot> := None;
    for i := 0 to |vols|
      invariant found.None? ==> forall l | 0 <= l < i :: vols[l].originalDevice.trackingID != diskID
      invariant found.Some? ==> exists k | LastOf(vols[..i], diskID, k) :: vols[k] == found.value
    {
      assert forall k | LastOf(vols[..i], diskID, k) && vols[i].originalDevice.trackingID != diskID ::
               LastOf(vols[..i + 1], diskID, k);
      if vols[i].originalDevice.trackingID == diskID {
        found := Some(vols[i]);
        assert LastOf(vols[..i + 1], diskID, i);
      }
    }
    assert vols[..|vols|] == vols;
    if found.None? || found.value.originalDevice.trackingID == "" {
      return Err(NotFound);
    }
    return Ok(found.value);
  }

  /** `validUUID` stands for uuid.Parse, `blockSize` for the tracking-block-size ioctl. */
  method GetChangedSectors(snapshots: map<string, Snapshot>, snapshotID: string, diskID: string,
                           prevGeneration: string, prevNumber: nat,
                           validUUID: string -> bool, blockSize: Result<nat>)
    returns (r: Result<ChangesResponse>)
    ensures r.Ok? ==>
      && (prevGeneration == "" || validUUID(prevGeneration))
      && blockSize == Ok(r.value.cbtBlockSize)
      && r.value.trackedDiskID == diskID && r.value.snapshotID == snapshotID && snapshotID in snapshots
      && exists k | LastOf(snapshots[snapshotID].volumes, diskID, k) ::
           && var vol := snapshots[snapshotID].volumes[k];
           && (r.value.backupType.Full? <==> prevNumber == 0 || prevGeneration != vol.generationID)
           && r.value.ranges ==
                if r.value.cbtBlockSize == 0 then [DiskRange(0, 0)]
                else IncrementRanges(vol.bitmap, if r.value.backupType.Full? then 0 else prevNumber,
                                     vol.snapshotNumber, r.value.cbtBlockSize)
    ensures r.Err? <==>
      || (prevGeneration != "" && !validUUID(prevGeneration))
      || snapshotID !in snapshots || diskID == "" || blockSize.Err?
      || forall vol | vol in snapshots[snapshotID].volumes :: vol.originalDevice.trackingID != diskID
  {
    if prevGeneration != "" && !validUUID(prevGeneration) {
      return Err(Failed);
    }
    var found := FindVolumeSnapshotForDisk(snapshots, snapshotID, diskID);
    if found.Err? {
      return Err(found.error);
    }
    var vol := found.value;
    var backupType := Incremental;
    var previous := prevNumber;
    if previous == 0 || prevGeneration != vol.generationID {
      backupType := Full;
      previous := 0;
    }
    if blockSize.Err? {
      return Err(blockSize.error);
    }
    var ranges := FetchIncrements(vol.bitmap, previous, vol.snapshotNumber, blockSize.value);
    return Ok(ChangesResponse(diskID, snapshotID, backupType, blockSize.value, ranges));
  }
}
