/** db/db.go: the tables of the agent's database as finite maps, and what the rows promise
    about each other. Keys are the records' own IDs. Insert fails when the key is taken;
    update and delete fail when it is missing. */
module Tables {

  import opened Rows
  import opened Sums

  datatype Mapping = Mapping(trackingID: string, diskID: string, location: string)

  datatype Tables = Tables(
    disks: map<string, TrackedDisk>,
    locations: map<string, string>,          // path of a location, and the device that holds it
    mappings: map<string, Mapping>,
    stores: map<string, SnapStore>,
    files: map<string, SnapStoreFile>,
    images: map<string, SnapshotImage>,
    volumes: map<string, VolumeSnapshot>,
    snapshots: map<string, Snapshot>)

  // ---------------------------------------------------------------- queries

  predicate HasVolumeOf(s: Snapshot, disk: string) {
    exists i | 0 <= i < |s.volumes| :: s.volumes[i].originalDevice.trackingID == disk
  }

  /** ListSnapshotsForDisk: the snapshot rows named by volume rows of that disk. It is the
      query the agent runs; what is promised is said about the rows themselves. */
  function SnapshotsForDisk(t: Tables, disk: string): set<string> {
    set v | v in t.volumes && t.volumes[v].originalDevice.trackingID == disk && t.volumes[v].snapshotID in t.snapshots
      :: t.volumes[v].snapshotID
  }

  function FilesOfStore(t: Tables, store: string): map<string, nat> {
    map f | f in t.files && t.files[f].storeID == store :: t.files[f].size
  }

  function FilesAt(t: Tables, location: string): map<string, nat> {
    map f | f in t.files && t.files[f].location == location :: t.files[f].size
  }

  // ---------------------------------------------------------------- what the rows promise

  ghost predicate Keyed(t: Tables) {
    && (forall k | k in t.disks :: t.disks[k].trackingID == k && k != "")
    && (forall k | k in t.mappings :: t.mappings[k].trackingID == k)
    && (forall k | k in t.stores :: t.stores[k].snapStoreID == k)
    && (forall k | k in t.volumes :: t.volumes[k].trackingID == k)
    && (forall k | k in t.snapshots :: t.snapshots[k].snapshotID == k)
  }

  /** A snapshot row's volume has its own volume row, and that one its own image row. */
  ghost predicate VolumeBacked(t: Tables, id: string, v: VolumeSnapshot) {
    && v.trackingID in t.volumes
    && t.volumes[v.trackingID].originalDevice.trackingID == v.originalDevice.trackingID
    && t.volumes[v.trackingID].snapshotID == id
    && t.volumes[v.trackingID].image == v.image
  }

  ghost predicate Backed(t: Tables, s: Snapshot) {
    && (forall i | 0 <= i < |s.volumes| :: VolumeBacked(t, s.snapshotID, s.volumes[i]))
    && (forall i, j | 0 <= i < j < |s.volumes| :: s.volumes[i].trackingID != s.volumes[j].trackingID)
  }

  ghost predicate ImagesOwned(t: Tables) {
    && (forall v | v in t.volumes :: t.volumes[v].image.trackingID in t.images)
    && (forall v, w | v in t.volumes && w in t.volumes && v != w ::
          t.volumes[v].image.trackingID != t.volumes[w].image.trackingID)
  }

  /** The limit of one active snapshot per disk. */
  ghost predicate OneSnapshotPerDisk(t: Tables) {
    forall a, b, disk | a in t.snapshots && b in t.snapshots &&
      HasVolumeOf(t.snapshots[a], disk) && HasVolumeOf(t.snapshots[b], disk) :: a == b
  }

  ghost predicate OneDiskPerDevice(t: Tables) {
    forall a, b | a in t.disks && b in t.disks && t.disks[a].dev == t.disks[b].dev :: a == b
  }

  ghost predicate OneStorePerDisk(t: Tables) {
    forall a, b | a in t.stores && b in t.stores && t.stores[a].disk.trackingID == t.stores[b].disk.trackingID :: a == b
  }

  ghost predicate OneMappingPerDisk(t: Tables) {
    forall a, b | a in t.mappings && b in t.mappings && t.mappings[a].diskID == t.mappings[b].diskID :: a == b
  }

  /** File rows belong to a store and lie where the store lies; the store knows their sum. */
  ghost predicate FilesPlaced(t: Tables) {
    && (forall f | f in t.files ::
          t.files[f].storeID in t.stores && t.files[f].location == t.stores[t.files[f].storeID].location)
    && (forall s | s in t.stores :: t.stores[s].totalAllocated == Total(FilesOfStore(t, s)))
  }

  ghost predicate SnapshotsOk(t: Tables) {
    && ImagesOwned(t) && OneSnapshotPerDisk(t)
    && (forall s | s in t.snapshots :: Backed(t, t.snapshots[s]))
  }

  ghost predicate StoresOk(t: Tables) {
    OneStorePerDisk(t) && FilesPlaced(t)
  }

  ghost predicate DisksOk(t: Tables) {
    OneDiskPerDevice(t) && OneMappingPerDisk(t)
  }

  /** All but what is said about snapshots. */
  ghost predicate StorageOk(t: Tables) {
    Keyed(t) && DisksOk(t) && StoresOk(t)
  }

  ghost predicate Valid(t: Tables) {
    StorageOk(t) && SnapshotsOk(t)
  }

  // ---------------------------------------------------------------- where a disk's store goes

  predicate MapsTo(t: Tables, disk: string, location: string) {
    exists m | m in t.mappings :: t.mappings[m].diskID == disk && t.mappings[m].location == location
  }

  predicate IsPlaced(t: Tables, disk: string) {
    exists m | m in t.mappings :: t.mappings[m].diskID == disk && t.mappings[m].location in t.locations
  }

  ghost function LocationOf(t: Tables, disk: string): (location: string)
    requires IsPlaced(t, disk)
    ensures MapsTo(t, disk, location) && location in t.locations
  {
    var m :| m in t.mappings && t.mappings[m].diskID == disk && t.mappings[m].location in t.locations;
    t.mappings[m].location
  }

  lemma PlacedAt(t: Tables, disk: string, m: string)
    requires OneMappingPerDisk(t) && m in t.mappings && t.mappings[m].diskID == disk
    ensures IsPlaced(t, disk) <==> t.mappings[m].location in t.locations
    ensures IsPlaced(t, disk) ==> LocationOf(t, disk) == t.mappings[m].location
  {
  }

  // ---------------------------------------------------------------- files and stores

  /** RecordSnapStoreFileInDB as one operation: no row, no change. */
  function RecordFile(t: Tables, store: string, file: string, size: nat): Result<Tables> {
    if store !in t.stores then Err(NotFound)
    else if file in t.files then Err(Failed)
    else
      var s := t.stores[store];
      Ok(t.(files := t.files[file := SnapStoreFile(file, store, s.location, size)],
            stores := t.stores[store := s.(totalAllocated := s.totalAllocated + size)]))
  }

  lemma RecordedFiles(t: Tables, store: string, file: string, size: nat, s: string)
    requires RecordFile(t, store, file, size).Ok?
    ensures FilesOfStore(RecordFile(t, store, file, size).value, s) ==
            if s == store then FilesOfStore(t, s)[file := size] else FilesOfStore(t, s)
  {
  }

  /** A file row of that size at the store's location, and a total that much larger; no store,
      no change. */
  lemma RecordMeans(t: Tables, store: string, file: string, size: nat)
    ensures var r := RecordFile(t, store, file, size);
            && (r.Ok? <==> store in t.stores && file !in t.files)
            && (r.Ok? ==>
                  var s := t.stores[store];
                  r.value == t.(files := t.files[file := SnapStoreFile(file, store, s.location, size)],
                                stores := t.stores[store := s.(totalAllocated := s.totalAllocated + size)]))
            && (store !in t.stores ==> r == Err(NotFound))
  {
  }

  /** The allocated capacity of the store's location grows by the file's size, that of every
      other location not at all. */
  lemma RecordAtLocation(t: Tables, store: string, file: string, size: nat, location: string)
    requires RecordFile(t, store, file, size).Ok?
    ensures Total(FilesAt(RecordFile(t, store, file, size).value, location)) ==
            Total(FilesAt(t, location)) + if location == t.stores[store].location then size else 0
  {
    var u := RecordFile(t, store, file, size).value;
    if location == t.stores[store].location {
      TotalInsert(FilesAt(t, location), file, size);
      assert FilesAt(u, location) == FilesAt(t, location)[file := size];
    } else {
      assert FilesAt(u, location) == FilesAt(t, location);
    }
  }

  lemma RecordOneStore(t: Tables, store: string, file: string, size: nat)
    requires OneStorePerDisk(t) && RecordFile(t, store, file, size).Ok?
    ensures OneStorePerDisk(RecordFile(t, store, file, size).value)
  {
    var u := RecordFile(t, store, file, size).value;
    assert forall k | k in u.stores :: k in t.stores && u.stores[k].disk == t.stores[k].disk;
  }

  lemma RecordFileStores(t: Tables, store: string, file: string, size: nat)
    requires StoresOk(t) && RecordFile(t, store, file, size).Ok?
    ensures StoresOk(RecordFile(t, store, file, size).value)
  {
    var u := RecordFile(t, store, file, size).value;
    RecordOneStore(t, store, file, size);
    forall s | s in u.stores ensures u.stores[s].totalAllocated == Total(FilesOfStore(u, s)) {
      RecordedFiles(t, store, file, size, s);
      if s == store {
        TotalInsert(FilesOfStore(t, s), file, size);
      }
    }
  }

  lemma RecordFileKeeps(t: Tables, store: string, file: string, size: nat)
    requires StorageOk(t) && RecordFile(t, store, file, size).Ok?
    ensures StorageOk(RecordFile(t, store, file, size).value)
  {
    RecordFileStores(t, store, file, size);
  }

  /** The three snapshot tables alone decide what is said about snapshots. */
  lemma SnapshotsUntouched(t: Tables, u: Tables)
    requires SnapshotsOk(t)
    requires u.snapshots == t.snapshots && u.volumes == t.volumes && u.images == t.images
    ensures SnapshotsOk(u)
  {
    forall s | s in u.snapshots ensures Backed(u, u.snapshots[s]) {
      assert Backed(t, t.snapshots[s]);
    }
  }

  /** A new, empty store for a disk that has none. */
  lemma AddStoreKeeps(t: Tables, s: SnapStore)
    requires StorageOk(t) && s.snapStoreID !in t.stores && s.totalAllocated == 0
    requires forall k | k in t.stores :: t.stores[k].disk.trackingID != s.disk.trackingID
    ensures StorageOk(t.(stores := t.stores[s.snapStoreID := s]))
  {
    AddStoreStores(t, s);
  }

  lemma AddStoreStores(t: Tables, s: SnapStore)
    requires StoresOk(t) && s.snapStoreID !in t.stores && s.totalAllocated == 0
    requires forall k | k in t.stores :: t.stores[k].disk.trackingID != s.disk.trackingID
    ensures StoresOk(t.(stores := t.stores[s.snapStoreID := s]))
  {
    var u := t.(stores := t.stores[s.snapStoreID := s]);
    AddStoreOne(t, s);
    forall k | k in u.stores ensures u.stores[k].totalAllocated == Total(FilesOfStore(u, k)) {
      assert FilesOfStore(u, k) == FilesOfStore(t, k);
      if k == s.snapStoreID {
        assert FilesOfStore(t, k) == map[];
      }
    }
  }

  lemma AddStoreOne(t: Tables, s: SnapStore)
    requires OneStorePerDisk(t)
    requires forall k | k in t.stores :: t.stores[k].disk.trackingID != s.disk.trackingID
    ensures OneStorePerDisk(t.(stores := t.stores[s.snapStoreID := s]))
  {
  }

  /** Deleting a store's file rows and then its own. */
  function DropStore(t: Tables, store: string): Tables {
    t.(files := t.files - FilesOfStore(t, store).Keys, stores := t.stores - {store})
  }

  lemma DroppedFiles(t: Tables, store: string, s: string)
    requires s != store
    ensures FilesOfStore(DropStore(t, store), s) == FilesOfStore(t, s)
  {
  }

  lemma DropStoreStores(t: Tables, store: string)
    requires StoresOk(t)
    ensures StoresOk(DropStore(t, store))
  {
    var u := DropStore(t, store);
    DropStoreOne(t, store);
    forall f | f in u.files
      ensures u.files[f].storeID in u.stores && u.files[f].location == u.stores[u.files[f].storeID].location
    {
      assert f in t.files && f !in FilesOfStore(t, store);
    }
    forall s | s in u.stores ensures u.stores[s].totalAllocated == Total(FilesOfStore(u, s)) {
      DroppedFiles(t, store, s);
    }
  }

  lemma DropStoreOne(t: Tables, store: string)
    requires OneStorePerDisk(t)
    ensures OneStorePerDisk(DropStore(t, store))
  {
  }

  lemma DropStoreKeeps(t: Tables, store: string)
    requires Valid(t)
    ensures Valid(DropStore(t, store))
  {
    DropStoreStores(t, store);
    SnapshotsUntouched(t, DropStore(t, store));
  }

  // ---------------------------------------------------------------- snapshots

  function VolumeIDs(vols: seq<VolumeSnapshot>): set<string> {
    set i | 0 <= i < |vols| :: vols[i].trackingID
  }

  function ImageIDs(vols: seq<VolumeSnapshot>): set<string> {
    set i | 0 <= i < |vols| :: vols[i].image.trackingID
  }

  /** A volume row and its image row. */
  function WithVolume(t: Tables, v: VolumeSnapshot): Tables {
    t.(images := t.images[v.image.trackingID := v.image], volumes := t.volumes[v.trackingID := v])
  }

  lemma WithVolumeKeeps(t: Tables, v: VolumeSnapshot)
    requires SnapshotsOk(t) && v.trackingID !in t.volumes && v.image.trackingID !in t.images
    ensures SnapshotsOk(WithVolume(t, v))
  {
    var u := WithVolume(t, v);
    forall s | s in u.snapshots ensures Backed(u, u.snapshots[s]) {
      assert Backed(t, t.snapshots[s]);
      forall i | 0 <= i < |u.snapshots[s].volumes|
        ensures VolumeBacked(u, u.snapshots[s].snapshotID, u.snapshots[s].volumes[i])
      {
        assert VolumeBacked(t, t.snapshots[s].snapshotID, t.snapshots[s].volumes[i]);
      }
    }
  }

  /** An image row nobody refers to changes nothing. */
  lemma SpareImageKeeps(t: Tables, image: SnapshotImage)
    requires SnapshotsOk(t)
    ensures SnapshotsOk(t.(images := t.images[image.trackingID := image]))
  {
    var u := t.(images := t.images[image.trackingID := image]);
    forall s | s in u.snapshots ensures Backed(u, u.snapshots[s]) {
      assert Backed(t, t.snapshots[s]);
    }
  }

  /** No volume row of the disk names a snapshot row. */
  ghost predicate NoVolumeUnderSnapshot(t: Tables, disk: string) {
    forall v | v in t.volumes && t.volumes[v].originalDevice.trackingID == disk ::
          t.volumes[v].snapshotID !in t.snapshots
  }

  lemma NothingListedIff(t: Tables, disk: string)
    ensures SnapshotsForDisk(t, disk) == {} <==> NoVolumeUnderSnapshot(t, disk)
  {
    if v :| v in t.volumes && t.volumes[v].originalDevice.trackingID == disk && t.volumes[v].snapshotID in t.snapshots {
      assert t.volumes[v].snapshotID in SnapshotsForDisk(t, disk);
    }
  }

  /** The check CreateSnapshot begins with rules out the disk in every snapshot row, even
      with volume rows orphaned by earlier failures lying about. */
  lemma NoSnapshotOfDisk(t: Tables, disk: string)
    requires Keyed(t) && SnapshotsOk(t) && NoVolumeUnderSnapshot(t, disk)
    ensures forall a | a in t.snapshots :: !HasVolumeOf(t.snapshots[a], disk)
  {
    forall a | a in t.snapshots ensures !HasVolumeOf(t.snapshots[a], disk) {
      assert Backed(t, t.snapshots[a]);
      forall i | 0 <= i < |t.snapshots[a].volumes|
        ensures t.snapshots[a].volumes[i].originalDevice.trackingID != disk
      {
        assert VolumeBacked(t, a, t.snapshots[a].volumes[i]);
      }
    }
  }

  /** Every volume row under a snapshot row's ID is one of that snapshot's volumes: a failed
      create has left nothing under it. */
  ghost predicate NoneLeftUnder(t: Tables) {
    forall v | v in t.volumes && t.volumes[v].snapshotID in t.snapshots ::
      exists i | 0 <= i < |t.snapshots[t.volumes[v].snapshotID].volumes| ::
        t.snapshots[t.volumes[v].snapshotID].volumes[i].trackingID == v
  }

  /** And on such tables the check is no stricter: a disk that no snapshot row holds passes. */
  lemma OnlySnapshotsBlock(t: Tables, disk: string)
    requires Keyed(t) && SnapshotsOk(t) && NoneLeftUnder(t)
    ensures NoVolumeUnderSnapshot(t, disk) <==> forall a | a in t.snapshots :: !HasVolumeOf(t.snapshots[a], disk)
  {
    if NoVolumeUnderSnapshot(t, disk) {
      NoSnapshotOfDisk(t, disk);
    } else {
      var v :| v in t.volumes && t.volumes[v].originalDevice.trackingID == disk &&
               t.volumes[v].snapshotID in t.snapshots;
      var a := t.volumes[v].snapshotID;
      var i :| 0 <= i < |t.snapshots[a].volumes| && t.snapshots[a].volumes[i].trackingID == v;
      assert Backed(t, t.snapshots[a]) && VolumeBacked(t, a, t.snapshots[a].volumes[i]);
      assert HasVolumeOf(t.snapshots[a], disk);
    }
  }

  lemma AddSnapshotKeeps(t: Tables, s: Snapshot)
    requires SnapshotsOk(t) && s.snapshotID !in t.snapshots && Backed(t, s)
    requires forall a, disk | a in t.snapshots && HasVolumeOf(s, disk) :: !HasVolumeOf(t.snapshots[a], disk)
    ensures SnapshotsOk(t.(snapshots := t.snapshots[s.snapshotID := s]))
  {
    var u := t.(snapshots := t.snapshots[s.snapshotID := s]);
    forall a | a in u.snapshots ensures Backed(u, u.snapshots[a]) {
      if a != s.snapshotID {
        assert Backed(t, t.snapshots[a]);
      }
      forall i | 0 <= i < |u.snapshots[a].volumes|
        ensures VolumeBacked(u, u.snapshots[a].snapshotID, u.snapshots[a].volumes[i])
      {
        assert VolumeBacked(t, u.snapshots[a].snapshotID, u.snapshots[a].volumes[i]);
      }
    }
  }

  /** DeleteSnapshot of db/db.go:164-191, when every row it names is there. */
  function RemoveSnapshot(t: Tables, id: string): Tables
    requires id in t.snapshots
  {
    var vols := t.snapshots[id].volumes;
    t.(images := t.images - ImageIDs(vols), volumes := t.volumes - VolumeIDs(vols), snapshots := t.snapshots - {id})
  }

  lemma RemovedImages(t: Tables, id: string)
    requires SnapshotsOk(t) && id in t.snapshots
    ensures ImagesOwned(RemoveSnapshot(t, id))
  {
    var u := RemoveSnapshot(t, id);
    var vols := t.snapshots[id].volumes;
    assert Backed(t, t.snapshots[id]);
    forall w | w in u.volumes ensures u.volumes[w].image.trackingID in u.images {
      forall i | 0 <= i < |vols| ensures vols[i].image.trackingID != t.volumes[w].image.trackingID {
        assert VolumeBacked(t, t.snapshots[id].snapshotID, vols[i]);
        assert vols[i].trackingID in VolumeIDs(vols);
      }
    }
  }

  lemma RemoveSnapshotKeeps(t: Tables, id: string)
    requires Keyed(t) && SnapshotsOk(t) && id in t.snapshots
    ensures SnapshotsOk(RemoveSnapshot(t, id))
  {
    var u := RemoveSnapshot(t, id);
    var vols := t.snapshots[id].volumes;
    RemovedImages(t, id);
    forall a | a in u.snapshots ensures Backed(u, u.snapshots[a]) {
      assert Backed(t, t.snapshots[a]);
      forall i | 0 <= i < |u.snapshots[a].volumes| ensures VolumeBacked(u, a, u.snapshots[a].volumes[i]) {
        var v := t.snapshots[a].volumes[i];
        assert VolumeBacked(t, a, v);
        assert Backed(t, t.snapshots[id]);
        forall j | 0 <= j < |vols| ensures vols[j].trackingID != v.trackingID {
          assert VolumeBacked(t, id, vols[j]);
        }
      }
    }
  }

  // ---------------------------------------------------------------- location accounting

  /** Per store at a location, the sum of its file rows. */
  ghost function StoreTotalsAt(t: Tables, location: string): map<string, nat> {
    map s | s in t.stores && t.stores[s].location == location :: Total(FilesOfStore(t, s))
  }

  function FilesIn(t: Tables, stores: set<string>): map<string, nat> {
    map f | f in t.files && t.files[f].storeID in stores :: t.files[f].size
  }

  lemma FilesInSplit(t: Tables, stores: set<string>, s: string)
    requires s in stores
    ensures Total(FilesIn(t, stores)) == Total(FilesOfStore(t, s)) + Total(FilesIn(t, stores - {s}))
  {
    var own := FilesOfStore(t, s);
    TotalSplit(FilesIn(t, stores), own.Keys);
    assert Restrict(FilesIn(t, stores), own.Keys) == own;
    assert FilesIn(t, stores) - own.Keys == FilesIn(t, stores - {s});
  }

  lemma {:induction false} SumOverStores(t: Tables, totals: map<string, nat>)
    requires forall s | s in totals :: totals[s] == Total(FilesOfStore(t, s))
    ensures Total(totals) == Total(FilesIn(t, totals.Keys))
    decreases |totals|
  {
    if totals == map[] {
      assert FilesIn(t, totals.Keys) == map[];
    } else {
      var s :| s in totals;
      TotalRemove(totals, s);
      SumOverStores(t, totals - {s});
      FilesInSplit(t, totals.Keys, s);
      assert (totals - {s}).Keys == totals.Keys - {s};
    }
  }

  /** The capacity reported as allocated at a location is the sum, over the stores at that
      location, of what each store has recorded as its total. */
  lemma LocationIsPartitioned(t: Tables, location: string)
    requires FilesPlaced(t)
    ensures Total(FilesAt(t, location)) == Total(StoreTotalsAt(t, location))
    ensures forall s | s in StoreTotalsAt(t, location) :: StoreTotalsAt(t, location)[s] == t.stores[s].totalAllocated
  {
    var totals := StoreTotalsAt(t, location);
    SumOverStores(t, totals);
    assert FilesAt(t, location) == FilesIn(t, totals.Keys);
  }

  /** The allocated capacity reported for a location. */
  method AllocatedCapacity(t: Tables, location: string) returns (total: nat)
    ensures total == Total(FilesAt(t, location))
    ensures FilesPlaced(t) ==> total == Total(StoreTotalsAt(t, location))
  {
    total := SumUp(FilesAt(t, location));
    if FilesPlaced(t) {
      LocationIsPartitioned(t, location);
    }
  }

  /** The allocated space reported for a store; it agrees with the total the row carries. */
  method AllocatedDiskSpace(t: Tables, store: string) returns (total: nat)
    ensures total == Total(FilesOfStore(t, store))
    ensures FilesPlaced(t) && store in t.stores ==> total == t.stores[store].totalAllocated
  {
    total := SumUp(FilesOfStore(t, store));
  }
}
