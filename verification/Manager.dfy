/** worker/manager: the agent itself. Each operation that holds m.mux is one step on the
    tables, the kernel's tracking list and its snapshots, and so is each message of the
    handler (worker.go). What the kernel, the file system and udev answer is passed in. */
module Manager {

  import opened Words
  import opened Rows
  import opened Tables
  import opened Sums
  import opened Decimal
  import opened Snapshots
  import opened Startup
  import Restart

  datatype Request =
    | Create(ids: seq<string>, env: SnapshotEnv)
    | Delete(id: string, ioctl: bool, cleanup: string -> bool)
    | AddFile(store: string, file: string, size: nat)
    | Deleted(store: string)
    | TrackDisk(inv: Inventory, cfg: Config, answered: bool, track: Option<MapSize>, path: string)
    | NewLocation(inv: Inventory, path: string)
    | NewMapping(uuid: string, m: ConfigMapping)

  /** The kernel gives a new snapshot a number not in use. */
  predicate Possible(q: Request, kernel: set<U64>) {
    q.Create? ==> Sized(q.ids, q.env) && (q.env.ioctl.Ok? ==> q.env.ioctl.value !in kernel)
  }

  /** What the tables promise whenever no operation is under way. */
  ghost predicate Promises(t: Tables) {
    && Valid(t)
    && OneSnapshotPerDisk(t) && OneStorePerDisk(t) && OneDiskPerDevice(t) && OneMappingPerDisk(t)
    && forall location :: Total(FilesAt(t, location)) == Total(StoreTotalsAt(t, location))
  }

  lemma ValidPromises(t: Tables)
    requires Valid(t)
    ensures Promises(t)
  {
    forall location ensures Total(FilesAt(t, location)) == Total(StoreTotalsAt(t, location)) {
      LocationIsPartitioned(t, location);
    }
  }

  class SnapshotManager {
    var db: Tables
    var cbt: seq<CBTInfo>
    var kernelSnapshots: set<U64>

    /** A new database. */
    constructor ()
      ensures Valid(db) && cbt == [] && kernelSnapshots == {}
      ensures db == Tables(map[], map[], map[], map[], map[], map[], map[], map[])
    {
      db, cbt, kernelSnapshots := Tables(map[], map[], map[], map[], map[], map[], map[], map[]), [], {};
    }

    /** What start-up can see and change. */
    function Now(): World
      reads this
    {
      World(db, cbt)
    }

    // ---------------------------------------------------------------- snap stores

    /** RecordSnapStoreFileInDB, also the handler's answer to an AddFile message. */
    method RecordSnapStoreFile(store: string, file: string, size: nat) returns (r: Result<()>)
      requires StorageOk(db)
      modifies this`db
      ensures StorageOk(db)
      ensures r.Err? ==> db == old(db) && RecordFile(old(db), store, file, size) == Err(r.error)
      ensures r.Ok? ==> RecordFile(old(db), store, file, size) == Ok(db)
    {
      var next := RecordFile(db, store, file, size);
      if next.Err? {
        return Err(next.error);
      }
      RecordFileKeeps(db, store, file, size);
      db := next.value;
      return Ok(());
    }

    /** Delete a store's file rows, then its own. */
    method DropRows(store: string)
      modifies this`db
      ensures db == DropStore(old(db), store)
    {
      db := db.(files := db.files - FilesOfStore(db, store).Keys);
      db := db.(stores := db.stores - {store});
    }

    /** The handler's answer to a Deleted message. */
    method HandleDeleted(store: string)
      requires Valid(db)
      modifies this`db
      ensures Valid(db)
      ensures db == DropStore(old(db), store)
      ensures db == old(db).(stores := db.stores, files := db.files)
      ensures forall s :: s in db.stores <==> s in old(db).stores && s != store
      ensures forall s | s in db.stores :: db.stores[s] == old(db).stores[s]
      ensures forall f :: f in db.files <==> f in old(db).files && old(db).files[f].storeID != store
      ensures forall f | f in db.files :: db.files[f] == old(db).files[f]
    {
      DropStoreKeeps(db, store);
      DropRows(store);
    }

    method CreateSnapStore(disk: string, env: StoreEnv) returns (r: Result<SnapStore>)
      requires StorageOk(db)
      modifies this`db
      ensures StorageOk(db)
      ensures db == AfterCreate(old(db), disk, env)
      ensures r.Ok? <==> CanCreateStore(old(db), disk, env)
      ensures r.Ok? ==> r.value == NewStore(old(db), disk, env) && MapsTo(old(db), disk, r.value.location)
      ensures r == Err(Conflict) <==> exists k :: k in old(db).stores && old(db).stores[k].disk.trackingID == disk
    {
      CreateKeeps(db, disk, env);
      if exists k :: k in db.stores && db.stores[k].disk.trackingID == disk {
        return Err(Conflict);
      }
      if !exists m :: m in db.mappings && db.mappings[m].diskID == disk {
        return Err(NotFound);
      }
      var m :| m in db.mappings && db.mappings[m].diskID == disk;
      PlacedAt(db, disk, m);
      var location := db.mappings[m].location;
      if location !in db.locations || disk !in db.disks {
        return Err(NotFound);
      }
      var store := SnapStore(env.id, db.disks[disk], location, 0);
      if env.id in db.stores {
        return Err(Failed);
      }
      ghost var before := db.stores;
      db := db.(stores := db.stores[env.id := store]);
      if !env.prepared {
        return Err(Failed);   // err is not set, so the deferred delete does not run and the row stays
      }
      if !env.started {
        db := db.(stores := db.stores - {env.id});
        assert db.stores == before;
        return Err(Failed);
      }
      return Ok(store);
    }

    method EnsureSnapStoreForDisk(disk: string, env: StoreEnv) returns (r: Result<SnapStore>)
      requires StorageOk(db)
      modifies this`db
      ensures StorageOk(db)
      ensures db == AfterEnsure(old(db), disk, env)
      ensures r.Ok? <==> CanEnsureStore(old(db), disk, env)
      ensures r.Ok? ==> OwnStore(db, disk, r.value)
      ensures r.Ok? && HasStore(old(db), disk) ==> r.value == db.stores[r.value.snapStoreID]
      ensures r.Ok? && !HasStore(old(db), disk) ==>
        && r.value == NewStore(old(db), disk, env) && env.alloc.Ok?
        && var (file, size) := env.alloc.value;
        && db.files == old(db.files)[file := SnapStoreFile(file, env.id, r.value.location, size)]
        && env.id in db.stores && db.stores[env.id].totalAllocated == size
    {
      EnsureKeeps(db, disk, env);
      if disk !in db.disks {
        return Err(NotFound);
      }
      if exists k :: k in db.stores && db.stores[k].disk.trackingID == disk {
        var k :| k in db.stores && db.stores[k].disk.trackingID == disk;
        return Ok(db.stores[k]);
      }
      var created := CreateSnapStore(disk, env);
      if created.Err? {
        return created;
      }
      if env.alloc.Err? {
        return Err(env.alloc.error);
      }
      var recorded := RecordSnapStoreFile(created.value.snapStoreID, env.alloc.value.0, env.alloc.value.1);
      if recorded.Err? {
        return Err(recorded.error);
      }
      return created;
    }

    // ---------------------------------------------------------------- creating a snapshot

    /** One turn of CreateSnapshot's loop over devices. Because err is redeclared inside the
        loop, a failure undoes at most this turn's own rows: after a failed bitmap read the
        image and volume rows go away again, after a failed volume insert the image row stays. */
    method RecordVolume(snapshotID: string, disk: TrackedDisk, store: SnapStore, env: SnapshotEnv, venv: VolumeEnv)
      returns (r: Result<VolumeSnapshot>)
      requires SnapshotsOk(db) && Answered(env)
      modifies this`db
      ensures SnapshotsOk(db)
      ensures r.Ok? <==>
        && KernelAgrees(env, disk.dev) && venv.node.Ok? && venv.bitmap.Ok?
        && venv.imageID !in old(db).images && venv.volumeID !in old(db).volumes
      ensures r.Ok? ==>
        && db == WithVolume(old(db), Row(r.value))
        && r.value.snapshotID == snapshotID && Belongs(env, venv, disk, store, r.value)
      ensures r.Err? ==>
        db == if Strays(old(db), env, disk.dev, venv)
              then old(db).(images := old(db.images)[venv.imageID := ImageRow(env, disk.dev, venv)])
              else old(db)
    {
      LookupsAgree(env, disk.dev);
      var infoNew := FilterCBTInfo(env.cbtPost.value, disk.dev);
      if infoNew.Err? {
        return Err(infoNew.error);
      }
      var infoOld := FilterCBTInfo(env.cbtPre.value, disk.dev);
      if infoOld.Err? {
        return Err(infoOld.error);
      }
      if infoNew.value.snapNumber - infoOld.value.snapNumber != 1 {
        return Err(Failed);
      }
      var images := FindNewImages(env.imagesPre.value, env.imagesPost.value, disk.dev);
      if |images| != 1 || venv.node.Err? {
        return Err(Failed);
      }
      var image := SnapshotImage(venv.imageID, venv.node.value, images[0].snapshotDev);
      SoleNewUnique(env.imagesPre.value, env.imagesPost.value, disk.dev, image.dev, ImageRow(env, disk.dev, venv).dev);
      if venv.imageID in db.images {
        return Err(Failed);
      }
      var row := VolumeSnapshot(venv.volumeID, infoNew.value.snapNumber, infoNew.value.generationID,
                                disk, image, [], snapshotID, None);
      r := InsertVolume(row, venv.bitmap);
      if r.Ok? {
        r := Ok(r.value.(store := Some(store)));
        LookupsCapture(env, venv, r.value);
      }
    }

    /** The turn's inserts and its bitmap read, with the deferred deletions. */
    method InsertVolume(row: VolumeSnapshot, bitmap: Result<seq<Byte>>) returns (r: Result<VolumeSnapshot>)
      requires SnapshotsOk(db) && row.image.trackingID !in db.images && row == Row(row)
      modifies this`db
      ensures SnapshotsOk(db)
      ensures r.Ok? <==> row.trackingID !in old(db.volumes) && bitmap.Ok?
      ensures r.Ok? ==> db == WithVolume(old(db), row) && r.value == row.(bitmap := bitmap.value)
      ensures r.Err? ==>
        db == if row.trackingID in old(db.volumes)
              then old(db).(images := old(db.images)[row.image.trackingID := row.image])
              else old(db)
    {
      ghost var before := db;
      SpareImageKeeps(db, row.image);
      if row.trackingID !in db.volumes {
        WithVolumeKeeps(db, row);
      }
      db := db.(images := db.images[row.image.trackingID := row.image]);
      if row.trackingID in db.volumes {
        return Err(Failed);
      }
      db := db.(volumes := db.volumes[row.trackingID := row]);
      if bitmap.Err? {
        db := db.(volumes := db.volumes - {row.trackingID});
        db := db.(images := db.images - {row.image.trackingID});
        assert db.volumes == before.volumes && db.images == before.images;
        return Err(bitmap.error);
      }
      return Ok(row.(bitmap := bitmap.value));
    }

    /** The loop: `done` are the volumes recorded before the first turn that fails, and
        their rows are all that is left, but for that turn's stray image. */
    method RecordVolumes(snapshotID: string, devices: seq<DevID>, disks: map<DevID, TrackedDisk>,
                         stores: map<DevID, SnapStore>, env: SnapshotEnv)
      returns (r: Result<seq<VolumeSnapshot>>, ghost done: seq<VolumeSnapshot>)
      requires SnapshotsOk(db) && |env.volumes| == |devices| && Answered(env)
      requires forall k | 0 <= k < |devices| ::
                 devices[k] in disks && devices[k] in stores && disks[devices[k]].dev == devices[k]
      modifies this`db
      ensures SnapshotsOk(db)
      ensures db == old(db).(images := db.images, volumes := db.volumes)
      ensures |done| == FirstFailure(old(db), devices, env)
      ensures r.Ok? <==> |done| == |devices|
      ensures r.Ok? ==> r.value == done
      ensures Leftover(old(db), db, snapshotID, done, Stray(old(db), devices, env))
      ensures AllBelong(devices, disks, stores, env, done)
    {
      var vols: seq<VolumeSnapshot> := [];
      ghost var t0 := db;
      InLoopStarts(t0, snapshotID, devices, disks, stores, env);
      for i := 0 to |devices|
        invariant SnapshotsOk(db) && db == t0.(images := db.images, volumes := db.volumes)
        invariant |vols| == i && InLoop(t0, db, snapshotID, vols, devices, disks, stores, env)
      {
        ghost var t := db;
        var one := RecordVolume(snapshotID, disks[devices[i]], stores[devices[i]], env, env.volumes[i]);
        if one.Err? {
          InLoopStops(t0, t, db, snapshotID, vols, devices, disks, stores, env);
          return Err(one.error), vols;
        }
        InLoopGoesOn(t0, t, snapshotID, vols, devices, disks, stores, env, one.value);
        vols := vols + [one.value];
      }
      InLoopEnds(t0, db, snapshotID, vols, devices, disks, stores, env);
      return Ok(vols), vols;
    }

    /** One turn of the loop over disks: ensure the store, enter disk and store under the
        device. */
    method PrepareStore(ids: seq<string>, env: StoreEnv, devices: seq<DevID>,
                        disks: map<DevID, TrackedDisk>, stores: map<DevID, SnapStore>)
      returns (r: Result<(DevID, TrackedDisk, SnapStore)>)
      requires StorageOk(db) && |devices| < |ids| && AllReady(db, ids, devices, disks, stores)
      modifies this`db
      ensures StorageOk(db)
      ensures db == AfterEnsure(old(db), ids[|devices|], env)
      ensures r.Ok? <==> CanEnsureStore(old(db), ids[|devices|], env)
      ensures r.Ok? ==>
        var (dev, disk, store) := r.value;
        AllReady(db, ids, devices + [dev], disks[dev := disk], stores[dev := store])
    {
      ghost var t := db;
      var id := ids[|devices|];
      EnsureGrows(t, id, env);
      var store := EnsureSnapStoreForDisk(id, env);
      if store.Err? {
        return Err(store.error);
      }
      OneMoreReady(t, db, ids, devices, disks, stores, store.value);
      return Ok((db.disks[id].dev, db.disks[id], store.value));
    }

    /** Stores for all requested disks; the maps are keyed by device, as in the source. */
    method PrepareStores(ids: seq<string>, envs: seq<StoreEnv>)
      returns (r: Result<seq<DevID>>, disks: map<DevID, TrackedDisk>, stores: map<DevID, SnapStore>)
      requires StorageOk(db) && |envs| == |ids|
      modifies this`db
      ensures StorageOk(db)
      ensures db == AfterPrepare(old(db), ids, envs, 0)
      ensures r.Ok? <==> CanPrepare(old(db), ids, envs, 0)
      ensures r.Ok? ==> |r.value| == |ids| && AllReady(db, ids, r.value, disks, stores)
    {
      var devices: seq<DevID> := [];
      disks, stores := map[], map[];
      for i := 0 to |ids|
        invariant StorageOk(db) && |devices| == i && AllReady(db, ids, devices, disks, stores)
        invariant AfterPrepare(db, ids, envs, i) == AfterPrepare(old(db), ids, envs, 0)
        invariant CanPrepare(db, ids, envs, i) <==> CanPrepare(old(db), ids, envs, 0)
      {
        var one := PrepareStore(ids, envs[i], devices, disks, stores);
        if one.Err? {
          return Err(one.error), disks, stores;
        }
        devices := devices + [one.value.0];
        disks := disks[one.value.0 := one.value.1];
        stores := stores[one.value.0 := one.value.2];
      }
      return Ok(devices), disks, stores;
    }

    /** No requested disk may have an active snapshot already. */
    method CheckFree(ids: seq<string>) returns (free: bool)
      ensures free <==> Free(db, ids)
      ensures !free <==> exists k, v | 0 <= k < |ids| && v in db.volumes ::
                db.volumes[v].originalDevice.trackingID == ids[k] && db.volumes[v].snapshotID in db.snapshots
    {
      for i := 0 to |ids|
        invariant forall k | 0 <= k < i :: NoVolumeUnderSnapshot(db, ids[k])
      {
        NothingListedIff(db, ids[i]);
        if SnapshotsForDisk(db, ids[i]) != {} {
          return false;
        }
      }
      return true;
    }

    /** From the kernel's snapshot to the rows: the loop over devices and the final insert.
        `late` says that it was the final insert that failed. */
    method InsertSnapshot(ids: seq<string>, devices: seq<DevID>, disks: map<DevID, TrackedDisk>,
                          stores: map<DevID, SnapStore>, env: SnapshotEnv)
      returns (r: Result<Snapshot>, late: bool, ghost left: seq<VolumeSnapshot>)
      requires Valid(db) && Free(db, ids) && Sized(ids, env) && Answered(env) && env.ioctl.Ok?
      requires AllReady(db, ids, devices, disks, stores) && |devices| == |ids|
      modifies this`db
      ensures Valid(db) && Inserted(old(db), db, ids, devices, env, left)
      ensures r.Ok? <==> CanInsertSnapshot(old(db), ids, env, left)
      ensures r.Ok? ==> r.value == Snapshot(Print(env.ioctl.value), left)
      ensures late <==> r.Err? && |left| == |ids|
      ensures |left| <= |ids|
    {
      ghost var t0 := db;
      var id := Print(env.ioctl.value);
      DevicesReady(t0, ids, devices, disks, stores);
      var vols;
      vols, left := RecordVolumes(id, devices, disks, stores, env);
      LoopLeaves(t0, db, ids, devices, disks, stores, env, left);
      if vols.Err? {
        return Err(vols.error), false, left;
      }
      var snapshot := Snapshot(id, vols.value);
      if snapshot.snapshotID in db.snapshots {
        return Err(Failed), true, left;
      }
      RowGoesIn(t0, db, ids, devices, env, left);
      db := db.(snapshots := db.snapshots[snapshot.snapshotID := snapshot]);
      return Ok(snapshot), false, left;
    }

    /** Keeps every promise of the tables on every path. Succeeds exactly when CanCreate says
        so. A failure leaves the Snapshot table as it was; it leaves the rows of the `left`
        volumes, and the kernel's snapshot exactly when Leaks says so. */
    method CreateSnapshot(ids: seq<string>, env: SnapshotEnv)
      returns (r: Result<Snapshot>, ghost left: seq<VolumeSnapshot>)
      requires Valid(db) && Sized(ids, env)
      requires env.ioctl.Ok? ==> env.ioctl.value !in kernelSnapshots
      modifies this`db, this`kernelSnapshots
      ensures Valid(db)
      ensures r.Ok? <==> CanCreate(old(db), ids, env)
      ensures r.Ok? ==> Created(old(db), db, ids, env, r.value) &&
                        kernelSnapshots == old(kernelSnapshots) + {env.ioctl.value}
      ensures !Free(old(db), ids) ==> r == Err(Conflict)
      ensures r.Err? ==> db.snapshots == old(db.snapshots) && FailedCreate(old(db), db, ids, env, left)
      ensures r.Err? ==> (db.images == old(db.images) && db.volumes == old(db.volumes) <==> Restores(old(db), ids, env))
      ensures r.Err? ==>
                kernelSnapshots == old(kernelSnapshots) + (if Leaks(old(db), ids, env) then {env.ioctl.value} else {})
    {
      left := [];
      ghost var t0 := db;
      var free := CheckFree(ids);
      if !free {
        return Err(Conflict), left;
      }
      PrepareTables(t0, ids, env.stores, 0);
      FreeSince(t0, ids, env.stores);
      var devices, disks, stores := PrepareStores(ids, env.stores);
      SnapshotsUntouched(t0, db);
      if devices.Err? {
        return Err(devices.error), left;
      }
      ghost var t1 := db;
      DevicesReady(t1, ids, devices.value, disks, stores);
      r, left := TakeSnapshot(ids, devices.value, disks, stores, env);
      if Answered(env) && env.ioctl.Ok? {
        CreateSince(t0, t1, db, ids, env, left);
      }
      if r.Err? {
        RestoredIff(t0, db, ids, env, left);
      }
    }

    /** From the questions to the kernel on. */
    method TakeSnapshot(ids: seq<string>, devices: seq<DevID>, disks: map<DevID, TrackedDisk>,
                        stores: map<DevID, SnapStore>, env: SnapshotEnv)
      returns (r: Result<Snapshot>, ghost left: seq<VolumeSnapshot>)
      requires Valid(db) && Free(db, ids) && Sized(ids, env)
      requires AllReady(db, ids, devices, disks, stores) && |devices| == |ids|
      requires env.ioctl.Ok? ==> env.ioctl.value !in kernelSnapshots
      modifies this`db, this`kernelSnapshots
      ensures Valid(db)
      ensures if Answered(env) && env.ioctl.Ok?
              then Inserted(old(db), db, ids, devices, env, left) &&
                   (r.Ok? <==> CanInsertSnapshot(old(db), ids, env, left))
              else r.Err? && left == [] && db == old(db)
      ensures r.Ok? ==> r.value == Snapshot(Print(env.ioctl.value), left)
      ensures kernelSnapshots == old(kernelSnapshots) +
        if env.cbtPre.Ok? && env.imagesPre.Ok? && env.ioctl.Ok? &&
           (r.Ok? || (Answered(env) && |left| < |ids|) || !env.undone)
        then {env.ioctl.value} else {}
    {
      left := [];
      if env.cbtPre.Err? || env.imagesPre.Err? || env.ioctl.Err? {
        return Err(Failed), left;
      }
      kernelSnapshots := kernelSnapshots + {env.ioctl.value};
      var undo;
      r, undo, left := AfterTaken(ids, devices, disks, stores, env);
      if undo {
        DestroyAgain(env);
      }
    }

    /** From the kernel's snapshot on. `undo` says that the error is the one the deferred
        functions look at: the loop over devices never sets it. */
    method AfterTaken(ids: seq<string>, devices: seq<DevID>, disks: map<DevID, TrackedDisk>,
                      stores: map<DevID, SnapStore>, env: SnapshotEnv)
      returns (r: Result<Snapshot>, undo: bool, ghost left: seq<VolumeSnapshot>)
      requires Valid(db) && Free(db, ids) && Sized(ids, env) && env.cbtPre.Ok? && env.imagesPre.Ok? && env.ioctl.Ok?
      requires AllReady(db, ids, devices, disks, stores) && |devices| == |ids|
      modifies this`db
      ensures Valid(db)
      ensures if Answered(env)
              then Inserted(old(db), db, ids, devices, env, left) &&
                   (r.Ok? <==> CanInsertSnapshot(old(db), ids, env, left))
              else r.Err? && left == [] && db == old(db)
      ensures r.Ok? ==> r.value == Snapshot(Print(env.ioctl.value), left)
      ensures undo <==> r.Err? && !(Answered(env) && |left| < |ids|)
    {
      if env.cbtPost.Err? || env.imagesPost.Err? {
        return Err(Failed), true, [];
      }
      r, undo, left := InsertSnapshot(ids, devices, disks, stores, env);
    }

    /** The deferred undo; what the ioctl answers is dropped. */
    method DestroyAgain(env: SnapshotEnv)
      requires env.ioctl.Ok?
      modifies this`kernelSnapshots
      ensures kernelSnapshots == old(kernelSnapshots) - (if env.undone then {env.ioctl.value} else {})
    {
      if env.undone {
        kernelSnapshots := kernelSnapshots - {env.ioctl.value};
      }
    }

    // ---------------------------------------------------------------- deleting a snapshot

    /** DeleteSnapshot of db/db.go:164-191. On consistent tables no row is missing, so the
        loop never stops half-way. */
    method RemoveSnapshotRows(id: string) returns (r: Result<()>)
      requires Keyed(db) && SnapshotsOk(db)
      modifies this`db
      ensures r.Ok?
      ensures db == if id in old(db.snapshots) then RemoveSnapshot(old(db), id) else old(db)
      ensures id in old(db.snapshots) ==>
        var vols := old(db).snapshots[id].volumes;
        && db.snapshots == old(db).snapshots - {id}
        && (forall v :: v in db.volumes <==>
              v in old(db).volumes && forall i | 0 <= i < |vols| :: vols[i].trackingID != v)
        && (forall m :: m in db.images <==>
              m in old(db).images && forall i | 0 <= i < |vols| :: vols[i].image.trackingID != m)
    {
      if id !in db.snapshots {
        return Ok(());
      }
      ghost var t := db;
      var vols := db.snapshots[id].volumes;
      for i := 0 to |vols|
        invariant db == t.(images := t.images - ImageIDs(vols[..i]), volumes := t.volumes - VolumeIDs(vols[..i]))
      {
        RemoveOneMore(t, vols, i);
        OwnImage(t, id, i);
        if vols[i].image.trackingID !in db.images {
          return Err(NotFound);
        }
        db := db.(images := db.images - {vols[i].image.trackingID});
        db := db.(volumes := db.volumes - {vols[i].trackingID});
      }
      assert vols[..|vols|] == vols;
      db := db.(snapshots := db.snapshots - {id});
      return Ok(());
    }

    /** The loop over the snapshot's volumes: clean up each store in the kernel, then delete
        its rows. */
    method CleanStores(vols: seq<VolumeSnapshot>, cleanup: string -> bool) returns (ok: bool)
      modifies this`db
      ensures db == DropStores(old(db), StoreIDs(vols[..Cleaned(vols, cleanup)]))
      ensures ok <==> Cleaned(vols, cleanup) == |vols|
      ensures ok ==> db == DropStores(old(db), StoreIDs(vols))
    {
      ghost var t := db;
      assert StoreIDs(vols[..0]) == {};
      assert DropStores(t, {}) == t;
      for i := 0 to |vols|
        invariant db == DropStores(t, StoreIDs(vols[..i])) && i <= Cleaned(vols, cleanup)
      {
        if vols[i].store.None? || !cleanup(vols[i].store.value.snapStoreID) {
          return false;
        }
        DropOneMore(t, vols, i);
        DropRows(vols[i].store.value.snapStoreID);
      }
      assert vols[..|vols|] == vols;
      return true;
    }

    /** `ioctl` and `cleanup` say whether the kernel accepts to destroy the snapshot and to
        clean up a store. A failure leaves the three snapshot tables as they were, and drops
        the stores that were cleaned up before it. */
    method DeleteSnapshot(id: string, ioctl: bool, cleanup: string -> bool) returns (r: Result<()>)
      requires Valid(db)
      modifies this`db, this`kernelSnapshots
      ensures Valid(db)
      ensures r.Ok? <==> id in old(db.snapshots) ==>
                && ParseUint(id).Ok? && ioctl
                && Cleaned(old(db.snapshots)[id].volumes, cleanup) == |old(db.snapshots)[id].volumes|
      ensures db ==
        if id !in old(db.snapshots) then old(db)
        else if r.Ok? then RemoveSnapshot(DropStores(old(db), StoreIDs(old(db.snapshots)[id].volumes)), id)
        else old(db).(stores := db.stores, files := db.files)
      ensures id in old(db.snapshots) && r.Err? ==>
        var vols := old(db.snapshots)[id].volumes;
        var n := if ParseUint(id).Ok? && ioctl then Cleaned(vols, cleanup) else 0;
        && (forall s :: s in db.stores <==> s in old(db).stores && !LetGo(vols, n, s))
        && (forall s | s in db.stores :: db.stores[s] == old(db).stores[s])
        && (forall f :: f in db.files <==> f in old(db).files && !LetGo(vols, n, old(db).files[f].storeID))
        && (forall f | f in db.files :: db.files[f] == old(db).files[f])
      ensures kernelSnapshots ==
        old(kernelSnapshots) -
        if id in old(db.snapshots) && ParseUint(id).Ok? && ioctl then {ParseUint(id).value} else {}
    {
      if id !in db.snapshots {
        return Ok(());
      }
      var kernelID := ParseUint(id);
      if kernelID.Err? {
        return Err(kernelID.error);
      }
      if !ioctl {
        return Err(Failed);
      }
      kernelSnapshots := kernelSnapshots - {kernelID.value};
      var vols := db.snapshots[id].volumes;
      ghost var t := db;
      var cleaned := CleanStores(vols, cleanup);
      LetGoMeans(t, vols, Cleaned(vols, cleanup));
      DropStoresKeeps(t, StoreIDs(vols[..Cleaned(vols, cleanup)]));
      if !cleaned {
        return Err(Failed);
      }
      RemoveSnapshotValid(db, id);
      r := RemoveSnapshotRows(id);
    }

    // ---------------------------------------------------------------- disks, locations, mappings

    method AddSnapStoreLocation(inv: Inventory, path: string) returns (error: Option<Error>)
      requires Valid(db)
      modifies this`db
      ensures Outcome(Now(), error) == AddLocation(inv, path, old(Now()))
      ensures error == Some(Conflict) <==>
        && path in inv.hosts && inv.all.Ok?
        && var all, devPath := inv.all.value, PathOf(inv.all.value, inv.hosts[path]);
        && devPath.Some?
        && (path in old(db).locations || exists k, i | k in old(db).disks && 0 <= i < |all| ::
              && (all[i].path == devPath.value ||
                  (|all[i].partitions| > 0 && all[i].partitions[0].path == devPath.value))
              && (old(db).disks[k].path == all[i].path ||
                  (all[i].isVirtual && old(db).disks[k].path in all[i].slaves)))
      ensures error.Some? ==> db == old(db)
      ensures error.None? ==>
        && path in inv.hosts && inv.all.Ok? && PathOf(inv.all.value, inv.hosts[path]).Some?
        && db == old(db).(locations := old(db).locations[path := PathOf(inv.all.value, inv.hosts[path]).value])
      ensures Valid(db)
    {
      Restart.LocationKeeps(inv, path, Now());
      if path !in inv.hosts || inv.all.Err? {
        return Some(Failed);
      }
      var devPath := PathOf(inv.all.value, inv.hosts[path]);
      if devPath.None? {
        return Some(NotFound);
      }
      var involved := FindAllInvolvedDevices(inv.all.value, {devPath.value});
      if exists k | k in db.disks :: db.disks[k].path in involved {
        return Some(Conflict);
      }
      if path in db.locations {
        return Some(Conflict);
      }
      db := db.(locations := db.locations[path := devPath.value]);
      return None;
    }

    /** GetTrackedDisk: the zero record when there is no row. */
    method GetTrackedDisk(dev: DevID) returns (disk: TrackedDisk)
      requires Valid(db)
      ensures HasRow(db, dev) ==> disk.trackingID in db.disks && disk == db.disks[disk.trackingID] && disk.dev == dev
      ensures disk == TrackedDisk("", "", DevID(0, 0)) <==> !HasRow(db, dev)
    {
      if k :| k in db.disks && db.disks[k].dev == dev {
        disk := db.disks[k];
      } else {
        disk := TrackedDisk("", "", DevID(0, 0));
      }
    }

    method AddTrackedDisk(inv: Inventory, cfg: Config, answered: bool, track: Option<MapSize>, path: string)
      returns (r: Result<TrackedDisk>)
      requires Valid(db)
      modifies this`db, this`cbt
      ensures Outcome(Now(), if r.Ok? then None else Some(r.error)) ==
              AddDisk(inv, cfg, answered, track, path, old(Now()))
      ensures var v := Resolve(inv, cfg, path);
              && (r.Ok? <==> v.Ok? && answered && (v.value.dev in Tracked(old(cbt)) || track.Some?) &&
                             (HasRow(old(db), v.value.dev) || Base(v.value.path) !in old(db).disks))
              && Tracked(cbt) == Tracked(old(cbt)) + (if v.Ok? && answered && track.Some? then {v.value.dev} else {})
      ensures r.Err? ==> db == old(db)
      ensures r.Ok? ==> r.value.trackingID in db.disks && db.disks[r.value.trackingID] == r.value
      ensures r.Ok? ==> inv.all.Ok? && exists v | v in inv.all.value ::
                && v.path == path && v.dev == r.value.dev && path != "" && path !in cfg.cowDevices
                && forall p | 0 <= p < |v.partitions| :: v.partitions[p].path !in cfg.cowDevices
      ensures r.Ok? ==> exists i | 0 <= i < |cbt| :: cbt[i].dev == r.value.dev && cbt[i].mapSize > 0
      ensures r.Ok? ==>
                if exists k :: k in old(db).disks && old(db).disks[k].dev == r.value.dev then db == old(db)
                else r.value.path == path && r.value.trackingID !in old(db).disks &&
                     db == old(db).(disks := old(db).disks[r.value.trackingID := r.value])
      ensures r.Ok? && !(exists k :: k in old(db).disks && old(db).disks[k].dev == r.value.dev) ==>
                forall dir, name | IsName(name) && path == dir + "/" + name :: r.value.trackingID == name
      ensures Valid(db)
    {
      Restart.DiskKeepsValid(inv, cfg, answered, track, path, Now());
      var found := Resolve(inv, cfg, path);
      if found.Err? {
        return Err(found.error);
      }
      ResolvedVolume(inv, cfg, path);
      var volume := found.value;
      var row := GetTrackedDisk(volume.dev);
      if !answered {
        return Err(Failed);
      }
      var tracked := DeviceIsTracked(cbt, volume.dev);
      if !tracked {
        if track.None? {
          return Err(Failed);
        }
        cbt := AddTracking(cbt, volume.dev, track.value);
      }
      if row == TrackedDisk("", "", DevID(0, 0)) {
        var id := Base(volume.path);
        if id in db.disks {
          return Err(Failed);
        }
        forall dir, name | IsName(name) && path == dir + "/" + name ensures id == name {
          BaseIsLast(dir, name);
        }
        row := TrackedDisk(id, volume.path, volume.dev);
        db := db.(disks := db.disks[id := row]);
      }
      return Ok(row);
    }

    method CreateSnapStoreMapping(uuid: string, m: ConfigMapping) returns (error: Option<Error>)
      requires Valid(db)
      modifies this`db
      ensures Outcome(Now(), error) == AddMapping(uuid, m, old(Now()))
      ensures error == Some(Conflict) <==> m.device in db.disks && IsMapped(old(db), m.device)
      ensures error.None? ==> IsPlaced(db, m.device) && LocationOf(db, m.device) == m.location
      ensures Valid(db)
    {
      Restart.MappingExact(uuid, m, Now());
      Restart.MappingKeepsValid(uuid, m, Now());
      if m.device !in db.disks {
        return Some(Failed);
      }
      if k :| k in db.mappings && db.mappings[k].diskID == m.device {
        return Some(Conflict);
      }
      if m.location !in db.locations {
        return Some(NotFound);
      }
      if uuid in db.mappings {
        return Some(Failed);
      }
      db := db.(mappings := db.mappings[uuid := Mapping(uuid, m.device, m.location)]);
      return None;
    }

    method AddSnapStoreFilesLocations(inv: Inventory, cfg: Config) returns (error: Option<Error>)
      requires Valid(db)
      modifies this`db
      ensures Valid(db)
      ensures Outcome(Now(), error) == AddLocations(inv, cfg.destinations, 0, old(Now()))
    {
      for i := 0 to |cfg.destinations|
        invariant Valid(db)
        invariant AddLocations(inv, cfg.destinations, i, Now()) == AddLocations(inv, cfg.destinations, 0, old(Now()))
      {
        var e := AddSnapStoreLocation(inv, cfg.destinations[i]);
        if e.Some? && e != Some(Conflict) {
          return e;
        }
      }
      return None;
    }

    method InitStorageMappings(cfg: Config, env: Env) returns (error: Option<Error>)
      requires Valid(db)
      modifies this`db
      ensures Valid(db)
      ensures Outcome(Now(), error) ==
              if cfg.autoInit then AddMappings(env, cfg.mappings, 0, old(Now())) else Outcome(old(Now()), None)
    {
      if !cfg.autoInit {
        return None;
      }
      for i := 0 to |cfg.mappings|
        invariant Valid(db)
        invariant AddMappings(env, cfg.mappings, i, Now()) == AddMappings(env, cfg.mappings, 0, old(Now()))
      {
        var e := CreateSnapStoreMapping(env.uuid(i), cfg.mappings[i]);
        if e.Some? && e != Some(Conflict) {
          return e;
        }
      }
      return None;
    }

    method InitTrackedDisks(inv: Inventory, cfg: Config, env: Env) returns (error: Option<Error>)
      requires Valid(db)
      modifies this`db, this`cbt
      ensures Outcome(Now(), error) == InitDisks(inv, cfg, env, old(Now()))
      ensures Valid(db)
    {
      if !cfg.autoInit {
        return None;
      }
      if inv.physical.Err? {
        return Some(Failed);
      }
      var disks := ListDisks(inv.physical.value, cfg.cowDevices);
      for i := 0 to |disks|
        invariant Valid(db)
        invariant AddDisks(inv, cfg, env, disks, i, Now()) == AddDisks(inv, cfg, env, disks, 0, old(Now()))
      {
        var r := AddTrackedDisk(inv, cfg, env.cbtAnswered(i), env.track(i), disks[i].path);
        if r.Err? {
          return Some(r.error);
        }
      }
      error := InitStorageMappings(cfg, env);
    }

    method Initialize(inv: Inventory, cfg: Config, env: Env) returns (error: Option<Error>)
      requires Valid(db)
      modifies this`db, this`cbt
      ensures Outcome(Now(), error) == StartUp(inv, cfg, env, old(Now()))
      ensures Valid(db)
    {
      error := AddSnapStoreFilesLocations(inv, cfg);
      if error.Some? {
        return;
      }
      error := InitTrackedDisks(inv, cfg, env);
    }

    // ---------------------------------------------------------------- whole runs

    /** A request about snapshots, or a message of a watcher. */
    method ServeRows(q: Request)
      requires Valid(db) && Possible(q, kernelSnapshots)
      requires q.Create? || q.Delete? || q.AddFile? || q.Deleted?
      modifies this`db, this`kernelSnapshots
      ensures Valid(db)
      ensures db == old(db).(stores := db.stores, files := db.files,
                             images := db.images, volumes := db.volumes, snapshots := db.snapshots)
    {
      match q {
        case Create(ids, env) =>
          PrepareTables(db, ids, env.stores, 0);
          var _, _ := CreateSnapshot(ids, env);
        case Delete(id, ioctl, cleanup) =>
          var _ := DeleteSnapshot(id, ioctl, cleanup);
        case AddFile(store, file, size) =>
          var _ := RecordSnapStoreFile(store, file, size);
          SnapshotsUntouched(old(db), db);
        case Deleted(store) =>
          HandleDeleted(store);
      }
    }

    method Serve(q: Request)
      requires Valid(db) && Possible(q, kernelSnapshots)
      modifies this
      ensures Valid(db)
      ensures Restart.Extends(old(Now()), Now())
    {
      ghost var w := Now();
      match q {
        case TrackDisk(inv, cfg, answered, track, path) =>
          Restart.DiskKeepsValid(inv, cfg, answered, track, path, w);
          var _ := AddTrackedDisk(inv, cfg, answered, track, path);
        case NewLocation(inv, path) =>
          Restart.LocationKeeps(inv, path, w);
          var _ := AddSnapStoreLocation(inv, path);
        case NewMapping(uuid, m) =>
          Restart.MappingKeepsValid(uuid, m, w);
          var _ := CreateSnapStoreMapping(uuid, m);
        case _ =>
          ServeRows(q);
          Restart.ExtendsSame(w, Now());
      }
    }

    /** Whatever is requested, and whatever messages arrive, in whatever order, from the new
        database or any consistent one: one snapshot row per disk, one store per disk, one
        row per device, one mapping per disk, and at every location the stores' totals add up
        to the files there. What does not happen changes nothing. Requests for mappings come
        one at a time here: they take no lock, and what happens when they overlap is the
        subject of Mappings. */
    method ServeAll(requests: seq<Request>)
      requires Valid(db)
      modifies this
      ensures Promises(db)
      ensures Restart.Extends(old(Now()), Now())
    {
      for i := 0 to |requests|
        invariant Valid(db) && Restart.Extends(old(Now()), Now())
      {
        if Possible(requests[i], kernelSnapshots) {
          ghost var before := Now();
          Serve(requests[i]);
          Restart.ExtendsTrans(old(Now()), before, Now());
        }
      }
      ValidPromises(db);
    }
  }

  /** A process that starts, serves anything, and is started again on the same inventory and
      configuration: the second start-up finds nothing to do. */
  method StartServeRestart(m: SnapshotManager, inv: Inventory, cfg: Config, first: Env, requests: seq<Request>,
                           again: Env)
    returns (started: Option<Error>, restarted: Option<Error>, ghost served: World)
    requires Valid(m.db)
    modifies m
    ensures Promises(m.db)
    ensures started.None? ==> m.Now() == served
    ensures started.None? && restarted.Some? ==>
              inv.physical.Ok? && exists j | 0 <= j < |Eligible(inv.physical.value, cfg.cowDevices)| ::
                    !again.cbtAnswered(j)
  {
    ghost var w := m.Now();
    started := m.Initialize(inv, cfg, first);
    ghost var u := m.Now();
    m.ServeAll(requests);
    served := m.Now();
    restarted := m.Initialize(inv, cfg, again);
    if started.None? {
      Restart.RestartChangesNothing(inv, cfg, first, w, again, served);
    }
    ValidPromises(m.db);
  }

  // ---------------------------------------------------------------- create, then delete

  method DeleteCreated(m: SnapshotManager, ghost t: Tables, ids: seq<string>, env: SnapshotEnv, s: Snapshot,
                       ioctl: bool, cleanup: string -> bool)
    returns (r: Result<()>)
    requires Valid(t) && Valid(m.db) && Created(t, m.db, ids, env, s)
    modifies m
    ensures ioctl && (forall x :: cleanup(x)) ==> r.Ok?
    ensures r.Ok? ==> Undone(t, m.db, ids) && m.kernelSnapshots == old(m.kernelSnapshots) - {env.ioctl.value}
  {
    CreatedRow(t, m.db, ids, env, s);
    CreateDeleteRoundTrip(t, m.db, ids, env, s);
    r := m.DeleteSnapshot(s.snapshotID, ioctl, cleanup);
  }

  /** The same, as a client of the two operations sees it. */
  method CreateThenDelete(m: SnapshotManager, ids: seq<string>, env: SnapshotEnv, ioctl: bool, cleanup: string -> bool)
    returns (r: Result<()>)
    requires Valid(m.db) && Sized(ids, env)
    requires env.ioctl.Ok? ==> env.ioctl.value !in m.kernelSnapshots
    modifies m
    ensures CanCreate(old(m.db), ids, env) && ioctl && (forall x :: cleanup(x)) ==> r.Ok?
    ensures r.Ok? ==> Undone(old(m.db), m.db, ids) && m.kernelSnapshots == old(m.kernelSnapshots)
  {
    ghost var t := m.db;
    var created, _ := m.CreateSnapshot(ids, env);
    if created.Err? {
      return Err(created.error);
    }
    r := DeleteCreated(m, t, ids, env, created.value, ioctl, cleanup);
  }

  /** Two disks, and answers of the kernel under which the second turn of the loop fails. */
  method SecondTurnExample() returns (t: Tables, ids: seq<string>, env: SnapshotEnv)
    ensures Valid(t) && Sized(ids, env) && env.ioctl == Ok(7) && FailsInLoop(t, ids, env) && t.snapshots == map[]
    ensures forall u, left :: FailedCreate(t, u, ids, env, left) ==> u.volumes.Keys == {"v"} && u.images.Keys == {"i"}
  {
    t, ids, env := TwoDisks(), ["sda", "sdb"], SecondMapFails();
    TwoDisksValid();
    SecondTurnFails();
    forall u, left | FailedCreate(TwoDisks(), u, ["sda", "sdb"], SecondMapFails(), left)
      ensures u.volumes.Keys == {"v"} && u.images.Keys == {"i"}
    {
      SecondTurnLeaves(u, left);
    }
  }

  /** A create that fails in its second turn leaves the first disk's volume and image rows
      and the kernel's snapshot, and no Snapshot row through which to delete them. */
  method FailedCreateIsNotUndone() returns (m: SnapshotManager, r: Result<Snapshot>)
    ensures fresh(m) && Valid(m.db) && r.Err?
    ensures m.db.volumes.Keys == {"v"} && m.db.images.Keys == {"i"}
    ensures m.db.snapshots == map[] && m.kernelSnapshots == {7}
  {
    m := new SnapshotManager();
    var t, ids, env := SecondTurnExample();
    m.db := t;
    ghost var left;
    r, left := m.CreateSnapshot(ids, env);
  }
}
