/** db/models.go and internal/types/types.go: the records the agent stores and passes on. */
module Rows {

  import opened Words

  datatype Option<+T> = None | Some(value: T)

  /** The error kinds the source tells apart; everything else is Failed. */
  datatype Error = NotFound | Conflict | Failed

  datatype Result<+T> = Ok(value: T) | Err(error: Error)

  datatype DevID = DevID(major: U32, minor: U32)

  datatype TrackedDisk = TrackedDisk(trackingID: string, path: string, dev: DevID)

  datatype SnapStore = SnapStore(snapStoreID: string, disk: TrackedDisk, location: string, totalAllocated: nat)

  datatype SnapStoreFile = SnapStoreFile(trackingID: string, storeID: string, location: string, size: nat)

  datatype SnapshotImage = SnapshotImage(trackingID: string, devicePath: string, dev: DevID)

  datatype VolumeSnapshot = VolumeSnapshot(
    trackingID: string,
    snapshotNumber: nat,
    generationID: string,
    originalDevice: TrackedDisk,
    image: SnapshotImage,
    bitmap: seq<Byte>,
    snapshotID: string,
    store: Option<SnapStore>)

  datatype Snapshot = Snapshot(snapshotID: string, volumes: seq<VolumeSnapshot>)

  datatype CBTInfo = CBTInfo(dev: DevID, mapSize: nat, snapNumber: Byte, generationID: string)

  datatype ImageInfo = ImageInfo(originalDev: DevID, snapshotDev: DevID)
}
