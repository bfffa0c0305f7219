/** What the operations of worker/manager/manager.go and snapstores.go that hold m.mux do to
    the tables: when they succeed, what they add, and what a failure leaves behind. What the
    kernel, the file system and udev answer is passed in. */
module Snapshots {

  import opened Words
  import opened Rows
  import opened Tables
  import opened Sums
  import opened Decimal

  // ---------------------------------------------------------------- the environment's answers

  /** For a disk without a store: the drawn UUID, whether its directory could be prepared,
      whether the watcher started, and the initial allocation. */
  datatype StoreEnv = StoreEnv(id: string, prepared: bool, started: bool, alloc: Result<(string, nat)>)

  /** For one device of a snapshot: the drawn UUIDs, udev's answer, and the change map. */
  datatype VolumeEnv = VolumeEnv(volumeID: string, imageID: string, node: Result<string>, bitmap: Result<seq<Byte>>)

  datatype SnapshotEnv = SnapshotEnv(
    stores: seq<StoreEnv>,
    cbtPre: Result<seq<CBTInfo>>,
    imagesPre: Result<seq<ImageInfo>>,
    ioctl: Result<U64>,
    cbtPost: Result<seq<CBTInfo>>,
    imagesPost: Result<seq<ImageInfo>>,
    volumes: seq<VolumeEnv>,
    undone: bool)                   // whether the kernel destroys its snapshot again if asked to

  /** The kernel told what there was before and after its snapshot. */
  predicate Answered(env: SnapshotEnv) {
    env.cbtPre.Ok? && env.cbtPost.Ok? && env.imagesPre.Ok? && env.imagesPost.Ok?
  }

  // ---------------------------------------------------------------- searches

  function FilterCBTInfo(info: seq<CBTInfo>, dev: DevID): Result<CBTInfo> {
    if info == [] then Err(NotFound)
    else if info[0].dev == dev then Ok(info[0])
    else FilterCBTInfo(info[1..], dev)
  }

  /** The first entry of the list with both numbers of the device. */
  predicate EntryAt(info: seq<CBTInfo>, dev: DevID, i: int) {
    && 0 <= i < |info| && info[i].dev.major == dev.major && info[i].dev.minor == dev.minor
    && forall j | 0 <= j < i :: !(info[j].dev.major == dev.major && info[j].dev.minor == dev.minor)
  }

  /** filterCBTInfo finds an entry iff there is one, and then the first. */
  lemma {:induction false} FilterFindsFirst(info: seq<CBTInfo>, dev: DevID)
    ensures FilterCBTInfo(info, dev).Ok? <==> exists i | 0 <= i < |info| :: info[i].dev == dev
    ensures FilterCBTInfo(info, dev).Ok? ==>
              exists i :: EntryAt(info, dev, i) && FilterCBTInfo(info, dev).value == info[i]
  {
    if info != [] && info[0].dev != dev {
      FilterFindsFirst(info[1..], dev);
      if FilterCBTInfo(info, dev).Ok? {
        var i :| EntryAt(info[1..], dev, i) && FilterCBTInfo(info[1..], dev).value == info[1..][i];
        assert EntryAt(info, dev, i + 1) && info[i + 1] == info[1..][i];
      } else {
        assert forall i | 1 <= i < |info| :: info[i] == info[1..][i - 1];
      }
    } else if info != [] {
      assert EntryAt(info, dev, 0);
    }
  }

  lemma FilterAt(info: seq<CBTInfo>, dev: DevID, i: int)
    requires EntryAt(info, dev, i)
    ensures FilterCBTInfo(info, dev) == Ok(info[i])
  {
    FilterFindsFirst(info, dev);
    assert info[i].dev == dev;
  }

  predicate IsNew(pre: seq<ImageInfo>, image: ImageInfo, dev: DevID) {
    && image.originalDev == dev
    && forall j | 0 <= j < |pre| :: !(pre[j].originalDev == dev && pre[j].snapshotDev == image.snapshotDev)
  }

  /** The device's only image present after and not before the ioctl: it is listed once
      afterwards, among the images of the device that were not listed before. */
  ghost predicate SoleNew(pre: seq<ImageInfo>, post: seq<ImageInfo>, dev: DevID, image: DevID) {
    exists j | 0 <= j < |post| ::
      && post[j].snapshotDev == image && post[j].originalDev == dev
      && (forall i | 0 <= i < |pre| :: !(pre[i].originalDev == dev && pre[i].snapshotDev == image))
      && forall k | 0 <= k < |post| && k != j && post[k].originalDev == dev ::
           exists i | 0 <= i < |pre| :: pre[i].originalDev == dev && pre[i].snapshotDev == post[k].snapshotDev
  }

  method FindNewImages(pre: seq<ImageInfo>, post: seq<ImageInfo>, dev: DevID) returns (images: seq<ImageInfo>)
    ensures |images| == 1 ==> SoleNew(pre, post, dev, images[0].snapshotDev)
    ensures |images| != 1 ==> forall image :: !SoleNew(pre, post, dev, image)
  {
    images := [];
    for i := 0 to |post|
      invariant |images| == 0 ==> forall k | 0 <= k < i :: !IsNew(pre, post[k], dev)
      invariant |images| == 1 ==> SoleNew(pre, post[..i], dev, images[0].snapshotDev)
      invariant |images| > 0 ==> exists j | 0 <= j < i :: IsNew(pre, post[j], dev)
      invariant |images| > 1 ==> exists j, k | 0 <= j < k < i :: IsNew(pre, post[j], dev) && IsNew(pre, post[k], dev)
    {
      assert post[..i + 1] == post[..i] + [post[i]];
      if post[i].originalDev == dev {
        var found := false;
        for j := 0 to |pre|
          invariant found <==>
                      exists k | 0 <= k < j :: pre[k].originalDev == dev && pre[k].snapshotDev == post[i].snapshotDev
        {
          if pre[j].originalDev == dev && post[i].snapshotDev == pre[j].snapshotDev {
            found := true;
          }
        }
        if !found {
          images := images + [post[i]];
        }
      }
    }
    assert post[..|post|] == post;
  }

  // ---------------------------------------------------------------- a store for a disk

  /** Only store and file rows changed; none went away; new and changed ones are for disks
      in `ids`. */
  ghost predicate Grew(t: Tables, u: Tables, ids: seq<string>) {
    && u == t.(stores := u.stores, files := u.files)
    && (forall k | k in t.stores ::
          k in u.stores && u.stores[k] == t.stores[k].(totalAllocated := u.stores[k].totalAllocated))
    && (forall k | k in t.stores && t.stores[k].disk.trackingID !in ids :: u.stores[k] == t.stores[k])
    && (forall k | k in u.stores && k !in t.stores :: u.stores[k].disk.trackingID in ids)
    && (forall f | f in t.files :: f in u.files && u.files[f] == t.files[f])
    && (forall f | f in u.files && f !in t.files ::
          u.files[f].storeID in u.stores && u.stores[u.files[f].storeID].disk.trackingID in ids)
  }

  lemma GrewTrans(t: Tables, u: Tables, v: Tables, ids: seq<string>, jds: seq<string>)
    requires Grew(t, u, ids) && Grew(u, v, jds) && forall d | d in jds :: d in ids
    ensures Grew(t, v, ids)
  {
  }

  lemma GrewSame(t: Tables, ids: seq<string>)
    ensures Grew(t, t, ids)
  {
  }

  /** The disks that have a store. */
  function Stored(t: Tables): set<string> {
    set k | k in t.stores :: t.stores[k].disk.trackingID
  }

  predicate HasStore(t: Tables, disk: string) { disk in Stored(t) }

  predicate CanInsertStore(t: Tables, disk: string, env: StoreEnv) {
    !HasStore(t, disk) && disk in t.disks && IsPlaced(t, disk) && env.id !in t.stores
  }

  predicate CanCreateStore(t: Tables, disk: string, env: StoreEnv) {
    CanInsertStore(t, disk, env) && env.prepared && env.started
  }

  predicate CanEnsureStore(t: Tables, disk: string, env: StoreEnv) {
    && disk in t.disks
    && (HasStore(t, disk) || (CanCreateStore(t, disk, env) && env.alloc.Ok? && env.alloc.value.0 !in t.files))
  }

  /** A new store is empty and lies where its disk is mapped to. */
  ghost function NewStore(t: Tables, disk: string, env: StoreEnv): SnapStore
    requires disk in t.disks && IsPlaced(t, disk)
  {
    SnapStore(env.id, t.disks[disk], LocationOf(t, disk), 0)
  }

  function WithStore(t: Tables, s: SnapStore): Tables {
    t.(stores := t.stores[s.snapStoreID := s])
  }

  /** After CreateSnapStore. When the directory cannot be prepared the error is in another
      variable than the deferred function looks at, and the row stays; when the watcher does
      not start it goes away again. */
  ghost function AfterCreate(t: Tables, disk: string, env: StoreEnv): Tables {
    if CanInsertStore(t, disk, env) && (!env.prepared || env.started) then WithStore(t, NewStore(t, disk, env)) else t
  }

  /** After ensureSnapStoreForDisk: a new store gets its first file, or none when the
      allocation or its recording fails. */
  ghost function AfterEnsure(t: Tables, disk: string, env: StoreEnv): Tables {
    if HasStore(t, disk) then t
    else
      var u := AfterCreate(t, disk, env);
      if CanEnsureStore(t, disk, env) then RecordFile(u, env.id, env.alloc.value.0, env.alloc.value.1).value else u
  }

  /** When a store can be created, and what is left of the attempt: the row, also if the
      directory could not be prepared, or nothing. */
  lemma CreateMeans(t: Tables, disk: string, env: StoreEnv)
    ensures var fits :=
              && disk in t.disks && env.id !in t.stores
              && (forall k | k in t.stores :: t.stores[k].disk.trackingID != disk)
              && (exists m | m in t.mappings :: t.mappings[m].diskID == disk && t.mappings[m].location in t.locations);
            && (CanCreateStore(t, disk, env) <==> fits && env.prepared && env.started)
            && (if fits && (!env.prepared || env.started)
                then exists m | m in t.mappings ::
                       && t.mappings[m].diskID == disk && t.mappings[m].location in t.locations
                       && AfterCreate(t, disk, env) ==
                          t.(stores := t.stores[env.id := SnapStore(env.id, t.disks[disk], t.mappings[m].location, 0)])
                else AfterCreate(t, disk, env) == t)
  {
    StoredIff(t, disk);
  }

  lemma StoredIff(t: Tables, disk: string)
    ensures HasStore(t, disk) <==> exists k | k in t.stores :: t.stores[k].disk.trackingID == disk
  {
  }

  /** The same for a store with its first file. */
  lemma EnsureMeans(t: Tables, disk: string, env: StoreEnv)
    ensures var has := exists k | k in t.stores :: t.stores[k].disk.trackingID == disk;
            && (CanEnsureStore(t, disk, env) <==>
                  && disk in t.disks
                  && (has || (CanCreateStore(t, disk, env) && env.alloc.Ok? && env.alloc.value.0 !in t.files)))
            && (has ==> AfterEnsure(t, disk, env) == t)
            && (!has && CanEnsureStore(t, disk, env) ==>
                  exists m | m in t.mappings ::
                    var (file, size) := env.alloc.value;
                    var location := t.mappings[m].location;
                    && t.mappings[m].diskID == disk && location in t.locations
                    && AfterEnsure(t, disk, env) ==
                       t.(stores := t.stores[env.id := SnapStore(env.id, t.disks[disk], location, size)],
                          files := t.files[file := SnapStoreFile(file, env.id, location, size)]))
            && (!has && !CanEnsureStore(t, disk, env) ==> AfterEnsure(t, disk, env) == AfterCreate(t, disk, env))
  {
    StoredIff(t, disk);
    if !HasStore(t, disk) && CanEnsureStore(t, disk, env) {
      var u := AfterEnsure(t, disk, env);
      var location := LocationOf(t, disk);
      var m :| m in t.mappings && t.mappings[m].diskID == disk && t.mappings[m].location == location;
      var (file, size) := env.alloc.value;
      var empty := NewStore(t, disk, env);
      var twice := t.stores[env.id := empty][env.id := empty.(totalAllocated := size)];
      assert twice == t.stores[env.id := SnapStore(env.id, t.disks[disk], location, size)];
      assert u.stores == twice;
    }
  }

  lemma CreateKeeps(t: Tables, disk: string, env: StoreEnv)
    requires StorageOk(t)
    ensures StorageOk(AfterCreate(t, disk, env))
  {
    if CanInsertStore(t, disk, env) {
      AddStoreKeeps(t, NewStore(t, disk, env));
    }
  }

  lemma EnsureKeeps(t: Tables, disk: string, env: StoreEnv)
    requires StorageOk(t)
    ensures StorageOk(AfterEnsure(t, disk, env))
  {
    CreateKeeps(t, disk, env);
    if !HasStore(t, disk) && CanEnsureStore(t, disk, env) {
      RecordFileKeeps(AfterCreate(t, disk, env), env.id, env.alloc.value.0, env.alloc.value.1);
    }
  }

  lemma EnsureGrows(t: Tables, disk: string, env: StoreEnv)
    requires disk in t.disks ==> t.disks[disk].trackingID == disk
    ensures Grew(t, AfterEnsure(t, disk, env), [disk])
    ensures CanEnsureStore(t, disk, env) ==> HasStore(AfterEnsure(t, disk, env), disk)
  {
    var u := AfterEnsure(t, disk, env);
    if !HasStore(t, disk) && CanEnsureStore(t, disk, env) {
      assert u.stores[env.id].disk.trackingID == disk;
    }
  }

  // ---------------------------------------------------------------- stores for all disks

  /** After the loop over the requested disks from the i-th on; it ends at the first failure. */
  ghost function AfterPrepare(t: Tables, ids: seq<string>, envs: seq<StoreEnv>, i: nat): Tables
    requires |envs| == |ids| && i <= |ids|
    decreases |ids| - i
  {
    if i == |ids| then t
    else
      var u := AfterEnsure(t, ids[i], envs[i]);
      if CanEnsureStore(t, ids[i], envs[i]) then AfterPrepare(u, ids, envs, i + 1) else u
  }

  ghost predicate CanPrepare(t: Tables, ids: seq<string>, envs: seq<StoreEnv>, i: nat)
    requires |envs| == |ids| && i <= |ids|
    decreases |ids| - i
  {
    i == |ids| ||
    (CanEnsureStore(t, ids[i], envs[i]) && CanPrepare(AfterEnsure(t, ids[i], envs[i]), ids, envs, i + 1))
  }

  ghost predicate DisksKeyed(t: Tables) {
    forall k | k in t.disks :: t.disks[k].trackingID == k
  }

  lemma {:induction false} PrepareGrows(t: Tables, ids: seq<string>, envs: seq<StoreEnv>, i: nat)
    requires |envs| == |ids| && i <= |ids| && DisksKeyed(t)
    ensures Grew(t, AfterPrepare(t, ids, envs, i), ids)
    decreases |ids| - i
  {
    GrewSame(t, ids);
    if i < |ids| {
      var u := AfterEnsure(t, ids[i], envs[i]);
      EnsureGrows(t, ids[i], envs[i]);
      GrewTrans(t, t, u, ids, [ids[i]]);
      if CanEnsureStore(t, ids[i], envs[i]) {
        PrepareGrows(u, ids, envs, i + 1);
        GrewTrans(t, u, AfterPrepare(u, ids, envs, i + 1), ids, ids);
      }
    }
  }

  // -- when all stores can be had, in terms of the tables before

  predicate NeedsStore(t: Tables, ids: seq<string>, k: nat)
    requires k < |ids|
  {
    !HasStore(t, ids[k]) && ids[k] !in ids[..k]
  }

  /** The k-th disk can be served: it has a store, or one can be made whose IDs collide with
      nothing in the tables and with no store made before it. */
  predicate CanServe(t: Tables, ids: seq<string>, envs: seq<StoreEnv>, k: nat)
    requires |envs| == |ids| && k < |ids|
  {
    && ids[k] in t.disks
    && (NeedsStore(t, ids, k) ==>
          && IsPlaced(t, ids[k]) && envs[k].prepared && envs[k].started && envs[k].alloc.Ok?
          && envs[k].id !in t.stores && envs[k].alloc.value.0 !in t.files
          && forall j | 0 <= j < k && NeedsStore(t, ids, j) :: Apart(envs[j], envs[k]))
  }

  /** Two draws do not collide. */
  predicate Apart(a: StoreEnv, b: StoreEnv) {
    a.id != b.id && (a.alloc.Ok? && b.alloc.Ok? ==> a.alloc.value.0 != b.alloc.value.0)
  }

  /** The IDs of the stores made for the first i disks, and of their files. */
  function NewStores(t: Tables, ids: seq<string>, envs: seq<StoreEnv>, i: nat): set<string>
    requires |envs| == |ids| && i <= |ids|
  {
    if i == 0 then {}
    else NewStores(t, ids, envs, i - 1) + (if NeedsStore(t, ids, i - 1) then {envs[i - 1].id} else {})
  }

  function NewFiles(t: Tables, ids: seq<string>, envs: seq<StoreEnv>, i: nat): set<string>
    requires |envs| == |ids| && i <= |ids|
  {
    if i == 0 then {}
    else
      NewFiles(t, ids, envs, i - 1) +
      (if NeedsStore(t, ids, i - 1) && envs[i - 1].alloc.Ok? then {envs[i - 1].alloc.value.0} else {})
  }

  lemma {:induction false} NewStoresIff(t: Tables, ids: seq<string>, envs: seq<StoreEnv>, i: nat, x: string)
    requires |envs| == |ids| && i <= |ids|
    ensures x in NewStores(t, ids, envs, i) <==> exists j | 0 <= j < i :: NeedsStore(t, ids, j) && envs[j].id == x
  {
    if i > 0 {
      NewStoresIff(t, ids, envs, i - 1, x);
    }
  }

  lemma {:induction false} NewFilesIff(t: Tables, ids: seq<string>, envs: seq<StoreEnv>, i: nat, x: string)
    requires |envs| == |ids| && i <= |ids|
    ensures x in NewFiles(t, ids, envs, i) <==>
              exists j | 0 <= j < i :: NeedsStore(t, ids, j) && envs[j].alloc.Ok? && envs[j].alloc.value.0 == x
  {
    if i > 0 {
      NewFilesIff(t, ids, envs, i - 1, x);
    }
  }

  function Elements(s: seq<string>): set<string> { set x | x in s }

  /** After the first i disks have been served. */
  ghost predicate ServedTo(t0: Tables, t: Tables, ids: seq<string>, envs: seq<StoreEnv>, i: nat)
    requires |envs| == |ids| && i <= |ids|
  {
    && t == t0.(stores := t.stores, files := t.files)
    && Stored(t) == Stored(t0) + Elements(ids[..i])
    && t.stores.Keys == t0.stores.Keys + NewStores(t0, ids, envs, i)
    && t.files.Keys == t0.files.Keys + NewFiles(t0, ids, envs, i)
  }

  lemma ServesNext(t0: Tables, t: Tables, ids: seq<string>, envs: seq<StoreEnv>, i: nat)
    requires |envs| == |ids| && i < |ids| && ServedTo(t0, t, ids, envs, i)
    ensures CanEnsureStore(t, ids[i], envs[i]) <==> CanServe(t0, ids, envs, i)
  {
    NewStoresIff(t0, ids, envs, i, envs[i].id);
    if envs[i].alloc.Ok? {
      NewFilesIff(t0, ids, envs, i, envs[i].alloc.value.0);
    }
  }

  lemma EnsuredKeys(t: Tables, disk: string, env: StoreEnv)
    requires CanEnsureStore(t, disk, env)
    ensures var u := AfterEnsure(t, disk, env);
            && u == t.(stores := u.stores, files := u.files)
            && u.stores.Keys == t.stores.Keys + (if HasStore(t, disk) then {} else {env.id})
            && (!HasStore(t, disk) ==> env.alloc.Ok?)
            && u.files.Keys == t.files.Keys + (if HasStore(t, disk) then {} else {env.alloc.value.0})
  {
  }

  lemma ServedNext(t0: Tables, t: Tables, ids: seq<string>, envs: seq<StoreEnv>, i: nat)
    requires |envs| == |ids| && i < |ids| && ServedTo(t0, t, ids, envs, i) && DisksKeyed(t)
    requires CanEnsureStore(t, ids[i], envs[i])
    ensures ServedTo(t0, AfterEnsure(t, ids[i], envs[i]), ids, envs, i + 1)
  {
    var u := AfterEnsure(t, ids[i], envs[i]);
    EnsuredKeys(t, ids[i], envs[i]);
    StoreAdded(t, ids[i], envs[i]);
    ServedAlso(t0, t, u, ids, envs, i);
  }

  lemma ServedAlso(t0: Tables, t: Tables, u: Tables, ids: seq<string>, envs: seq<StoreEnv>, i: nat)
    requires |envs| == |ids| && i < |ids| && ServedTo(t0, t, ids, envs, i)
    requires u == t.(stores := u.stores, files := u.files) && (!HasStore(t, ids[i]) ==> envs[i].alloc.Ok?)
    requires u.stores.Keys == t.stores.Keys + (if HasStore(t, ids[i]) then {} else {envs[i].id})
    requires u.files.Keys == t.files.Keys + (if HasStore(t, ids[i]) then {} else {envs[i].alloc.value.0})
    requires Stored(u) == Stored(t) + {ids[i]}
    ensures ServedTo(t0, u, ids, envs, i + 1)
  {
    ElementsSnoc(ids, i);
    NeedsIff(t0, t, ids, envs, i);
    var more := if NeedsStore(t0, ids, i) then {envs[i].id} else {};
    var moreFiles := if NeedsStore(t0, ids, i) && envs[i].alloc.Ok? then {envs[i].alloc.value.0} else {};
    Union(Stored(t0), Elements(ids[..i]), {ids[i]});
    Union(t0.stores.Keys, NewStores(t0, ids, envs, i), more);
    Union(t0.files.Keys, NewFiles(t0, ids, envs, i), moreFiles);
  }

  lemma Union(a: set<string>, b: set<string>, c: set<string>)
    ensures a + b + c == a + (b + c)
  {
  }

  lemma ElementsSnoc(ids: seq<string>, i: nat)
    requires i < |ids|
    ensures Elements(ids[..i + 1]) == Elements(ids[..i]) + {ids[i]}
  {
    assert ids[..i + 1] == ids[..i] + [ids[i]];
  }

  lemma NeedsIff(t0: Tables, t: Tables, ids: seq<string>, envs: seq<StoreEnv>, i: nat)
    requires |envs| == |ids| && i < |ids| && ServedTo(t0, t, ids, envs, i)
    ensures NeedsStore(t0, ids, i) <==> !HasStore(t, ids[i])
  {
  }

  lemma StoreAdded(t: Tables, disk: string, env: StoreEnv)
    requires DisksKeyed(t) && CanEnsureStore(t, disk, env)
    ensures Stored(AfterEnsure(t, disk, env)) == Stored(t) + {disk}
  {
    var u := AfterEnsure(t, disk, env);
    if !HasStore(t, disk) {
      assert u.stores[env.id].disk.trackingID == disk;
      forall d | d in Stored(t) ensures d in Stored(u) {
        var k :| k in t.stores && t.stores[k].disk.trackingID == d;
        assert u.stores[k].disk.trackingID == d;
      }
    }
  }

  predicate CanServeFrom(t: Tables, ids: seq<string>, envs: seq<StoreEnv>, i: nat)
    requires |envs| == |ids|
  {
    forall k | i <= k < |ids| :: CanServe(t, ids, envs, k)
  }

  lemma {:induction false} PreparesIffServes(t0: Tables, t: Tables, ids: seq<string>, envs: seq<StoreEnv>, i: nat)
    requires |envs| == |ids| && i <= |ids| && DisksKeyed(t0) && ServedTo(t0, t, ids, envs, i)
    ensures CanPrepare(t, ids, envs, i) <==> CanServeFrom(t0, ids, envs, i)
    decreases |ids| - i
  {
    if i < |ids| {
      ServesNext(t0, t, ids, envs, i);
      assert CanServeFrom(t0, ids, envs, i) <==> CanServe(t0, ids, envs, i) && CanServeFrom(t0, ids, envs, i + 1);
      if CanEnsureStore(t, ids[i], envs[i]) {
        var u := AfterEnsure(t, ids[i], envs[i]);
        ServedNext(t0, t, ids, envs, i);
        PreparesIffServes(t0, u, ids, envs, i + 1);
      }
    }
  }

  lemma CanPrepareIff(t: Tables, ids: seq<string>, envs: seq<StoreEnv>)
    requires |envs| == |ids| && DisksKeyed(t)
    ensures CanPrepare(t, ids, envs, 0) <==> forall k | 0 <= k < |ids| :: CanServe(t, ids, envs, k)
  {
    PreparesIffServes(t, t, ids, envs, 0);
  }

  // -- the maps keyed by device

  /** The device-keyed maps hold the disk with this ID, and its store. */
  ghost predicate Ready(t: Tables, id: string, dev: DevID, disks: map<DevID, TrackedDisk>, stores: map<DevID,
                        SnapStore>) {
    && id in t.disks && dev == t.disks[id].dev
    && dev in disks && disks[dev] == t.disks[id]
    && dev in stores && OwnStore(t, id, stores[dev])
  }

  /** The disk's store; the total it carries may be older than the row's. */
  ghost predicate OwnStore(t: Tables, id: string, s: SnapStore) {
    && s.disk.trackingID == id
    && s.snapStoreID in t.stores && s == t.stores[s.snapStoreID].(totalAllocated := s.totalAllocated)
  }

  /** Adding the next disk does not disturb the earlier ones: two disks never share a device. */
  lemma StillReady(t: Tables, u: Tables, id: string, dev: DevID, disks: map<DevID, TrackedDisk>,
                   stores: map<DevID, SnapStore>, next: string, store: SnapStore, ids: seq<string>)
    requires Ready(t, id, dev, disks, stores) && Grew(t, u, ids) && OneDiskPerDevice(u)
    requires next in u.disks && OwnStore(u, next, store)
    ensures Ready(u, id, dev, disks[u.disks[next].dev := u.disks[next]], stores[u.disks[next].dev := store])
  {
  }

  ghost predicate AllReady(t: Tables, ids: seq<string>, devices: seq<DevID>,
                           disks: map<DevID, TrackedDisk>, stores: map<DevID, SnapStore>) {
    |devices| <= |ids| && forall k | 0 <= k < |devices| :: Ready(t, ids[k], devices[k], disks, stores)
  }

  lemma OneMoreReady(t: Tables, u: Tables, ids: seq<string>, devices: seq<DevID>,
                     disks: map<DevID, TrackedDisk>, stores: map<DevID, SnapStore>, store: SnapStore)
    requires AllReady(t, ids, devices, disks, stores) && |devices| < |ids|
    requires Grew(t, u, [ids[|devices|]]) && OneDiskPerDevice(u)
    requires ids[|devices|] in u.disks && OwnStore(u, ids[|devices|], store)
    ensures var d := u.disks[ids[|devices|]];
            AllReady(u, ids, devices + [d.dev], disks[d.dev := d], stores[d.dev := store])
  {
    var next := ids[|devices|];
    forall k | 0 <= k < |devices|
      ensures Ready(u, ids[k], devices[k], disks[u.disks[next].dev := u.disks[next]],
                    stores[u.disks[next].dev := store])
    {
      StillReady(t, u, ids[k], devices[k], disks, stores, next, store, [next]);
    }
  }

  lemma ReadyElsewhere(t: Tables, u: Tables, ids: seq<string>, devices: seq<DevID>,
                       disks: map<DevID, TrackedDisk>, stores: map<DevID, SnapStore>)
    requires AllReady(t, ids, devices, disks, stores) && u.disks == t.disks && u.stores == t.stores
    ensures AllReady(u, ids, devices, disks, stores)
  {
    forall k | 0 <= k < |devices| ensures Ready(u, ids[k], devices[k], disks, stores) {
      assert Ready(t, ids[k], devices[k], disks, stores);
    }
  }

  // ---------------------------------------------------------------- a volume

  /** The kernel counted exactly one snapshot of the device and shows exactly one new image. */
  ghost predicate KernelAgrees(env: SnapshotEnv, dev: DevID)
    requires Answered(env)
  {
    && (exists i, j | EntryAt(env.cbtPre.value, dev, i) && EntryAt(env.cbtPost.value, dev, j) ::
          env.cbtPost.value[j].snapNumber == env.cbtPre.value[i].snapNumber + 1)
    && exists image :: SoleNew(env.imagesPre.value, env.imagesPost.value, dev, image)
  }

  /** The same, as the lookups see it. */
  lemma LookupsAgree(env: SnapshotEnv, dev: DevID)
    requires Answered(env)
    ensures var a, b := FilterCBTInfo(env.cbtPre.value, dev), FilterCBTInfo(env.cbtPost.value, dev);
            (exists i, j | EntryAt(env.cbtPre.value, dev, i) && EntryAt(env.cbtPost.value, dev, j) ::
               env.cbtPost.value[j].snapNumber == env.cbtPre.value[i].snapNumber + 1) <==>
            a.Ok? && b.Ok? && b.value.snapNumber == a.value.snapNumber + 1
  {
    var pre, post := env.cbtPre.value, env.cbtPost.value;
    FilterFindsFirst(pre, dev);
    FilterFindsFirst(post, dev);
    if i, j :| EntryAt(pre, dev, i) && EntryAt(post, dev, j) && post[j].snapNumber == pre[i].snapNumber + 1 {
      FilterAt(pre, dev, i);
      FilterAt(post, dev, j);
    }
  }

  /** The row of the device's one new image. */
  ghost function ImageRow(env: SnapshotEnv, dev: DevID, venv: VolumeEnv): (row: SnapshotImage)
    requires Answered(env) && KernelAgrees(env, dev) && venv.node.Ok?
    ensures SoleNew(env.imagesPre.value, env.imagesPost.value, dev, row.dev)
    ensures row.trackingID == venv.imageID && venv.node == Ok(row.devicePath)
  {
    var image :| SoleNew(env.imagesPre.value, env.imagesPost.value, dev, image);
    SnapshotImage(venv.imageID, venv.node.value, image)
  }

  lemma SoleNewUnique(pre: seq<ImageInfo>, post: seq<ImageInfo>, dev: DevID, a: DevID, b: DevID)
    requires SoleNew(pre, post, dev, a) && SoleNew(pre, post, dev, b)
    ensures a == b
  {
  }

  predicate CanInsertVolume(t: Tables, venv: VolumeEnv) {
    venv.node.Ok? && venv.bitmap.Ok? && venv.imageID !in t.images && venv.volumeID !in t.volumes
  }

  /** The turn fails after its image row went in, on a volume ID that is taken: the error is
      shadowed there, and the image row stays. */
  ghost predicate Strays(t: Tables, env: SnapshotEnv, dev: DevID, venv: VolumeEnv)
    requires Answered(env)
  {
    KernelAgrees(env, dev) && venv.node.Ok? && venv.imageID !in t.images && venv.volumeID in t.volumes
  }

  /** Everything in the volume is the kernel's for the volume's own device: number and
      generation are those of the device's first entry after the ioctl, the number is one more
      than in its first entry before, the image is the only new one, the map is the one read. */
  ghost predicate Captured(env: SnapshotEnv, venv: VolumeEnv, v: VolumeSnapshot)
    requires Answered(env)
  {
    var dev := v.originalDevice.dev;
    && v.trackingID == venv.volumeID && venv.bitmap == Ok(v.bitmap)
    && (exists i, j | EntryAt(env.cbtPre.value, dev, i) && EntryAt(env.cbtPost.value, dev, j) ::
          && v.snapshotNumber == env.cbtPost.value[j].snapNumber == env.cbtPre.value[i].snapNumber + 1
          && v.generationID == env.cbtPost.value[j].generationID)
    && v.image.trackingID == venv.imageID && venv.node == Ok(v.image.devicePath)
    && SoleNew(env.imagesPre.value, env.imagesPost.value, dev, v.image.dev)
  }

  /** What RecordVolume puts together. */
  lemma LookupsCapture(env: SnapshotEnv, venv: VolumeEnv, v: VolumeSnapshot)
    requires Answered(env)
    requires var a := FilterCBTInfo(env.cbtPre.value, v.originalDevice.dev);
      var b := FilterCBTInfo(env.cbtPost.value, v.originalDevice.dev);
      && a.Ok? && b.Ok? && v.snapshotNumber == b.value.snapNumber == a.value.snapNumber + 1
      && v.generationID == b.value.generationID
    requires v.trackingID == venv.volumeID && venv.bitmap == Ok(v.bitmap)
    requires v.image.trackingID == venv.imageID && venv.node == Ok(v.image.devicePath)
    requires SoleNew(env.imagesPre.value, env.imagesPost.value, v.originalDevice.dev, v.image.dev)
    ensures Captured(env, venv, v)
  {
    FilterFindsFirst(env.cbtPre.value, v.originalDevice.dev);
    FilterFindsFirst(env.cbtPost.value, v.originalDevice.dev);
  }

  /** The volume recorded for a device: its disk, its store, and what the kernel said. */
  ghost predicate Belongs(env: SnapshotEnv, venv: VolumeEnv, disk: TrackedDisk, store: SnapStore, v: VolumeSnapshot)
    requires Answered(env)
  {
    v.originalDevice == disk && v.store == Some(store) && Captured(env, venv, v)
  }

  /** What CreateSnapshot promises about the volume it makes for a requested disk. */
  ghost predicate Paired(t: Tables, env: SnapshotEnv, id: string, venv: VolumeEnv, v: VolumeSnapshot)
    requires Answered(env)
  {
    && id in t.disks && v.originalDevice == t.disks[id]
    && v.store.Some? && OwnStore(t, id, v.store.value)
    && Captured(env, venv, v)
  }

  // ---------------------------------------------------------------- the loop over devices

  /** The k-th turn succeeds if those before it did. */
  ghost predicate TurnOk(t: Tables, devices: seq<DevID>, env: SnapshotEnv, k: nat)
    requires Answered(env) && |env.volumes| == |devices| && k < |devices|
  {
    && KernelAgrees(env, devices[k]) && CanInsertVolume(t, env.volumes[k])
    && forall j | 0 <= j < k ::
         env.volumes[j].volumeID != env.volumes[k].volumeID && env.volumes[j].imageID != env.volumes[k].imageID
  }

  /** The first turn that fails, or the number of turns. */
  ghost function FirstFailure(t: Tables, devices: seq<DevID>, env: SnapshotEnv): (f: nat)
    requires Answered(env) && |env.volumes| == |devices|
    ensures f <= |devices| && forall k | 0 <= k < f :: TurnOk(t, devices, env, k)
    ensures f < |devices| ==> !TurnOk(t, devices, env, f)
  {
    FirstFailureFrom(t, devices, env, 0)
  }

  ghost function FirstFailureFrom(t: Tables, devices: seq<DevID>, env: SnapshotEnv, k: nat): (f: nat)
    requires Answered(env) && |env.volumes| == |devices| && k <= |devices|
    ensures k <= f <= |devices| && forall j | k <= j < f :: TurnOk(t, devices, env, j)
    ensures f < |devices| ==> !TurnOk(t, devices, env, f)
    decreases |devices| - k
  {
    if k < |devices| && TurnOk(t, devices, env, k) then FirstFailureFrom(t, devices, env, k + 1) else k
  }

  /** The k-th turn, failing, leaves its image row. */
  ghost predicate StraysAt(t: Tables, devices: seq<DevID>, env: SnapshotEnv, k: nat)
    requires Answered(env) && |env.volumes| == |devices| && k < |devices|
  {
    && KernelAgrees(env, devices[k]) && env.volumes[k].node.Ok?
    && env.volumes[k].imageID !in t.images && (forall j | 0 <= j < k ::
          env.volumes[j].imageID != env.volumes[k].imageID)
    && (env.volumes[k].volumeID in t.volumes || exists j | 0 <= j < k ::
          env.volumes[j].volumeID == env.volumes[k].volumeID)
  }

  /** The image row, if any, that the loop leaves beside those of the volumes it recorded. */
  ghost function Stray(t: Tables, devices: seq<DevID>, env: SnapshotEnv): map<string, SnapshotImage>
    requires Answered(env) && |env.volumes| == |devices|
  {
    var f := FirstFailure(t, devices, env);
    if f < |devices| && StraysAt(t, devices, env, f) then
      map[env.volumes[f].imageID := ImageRow(env, devices[f], env.volumes[f])]
    else map[]
  }

  /** A volume's own row has neither map nor store: both are set after its insert. */
  function Row(v: VolumeSnapshot): VolumeSnapshot { v.(bitmap := [], store := None) }

  /** Exactly these volumes' rows were added to `t0`, each with its image. */
  ghost predicate Recorded(t0: Tables, t: Tables, id: string, vols: seq<VolumeSnapshot>) {
    && (forall i | 0 <= i < |vols| ::
          && vols[i].snapshotID == id
          && vols[i].trackingID in t.volumes && t.volumes[vols[i].trackingID] == Row(vols[i])
          && vols[i].image.trackingID in t.images && t.images[vols[i].image.trackingID] == vols[i].image)
    && (forall i, j | 0 <= i < j < |vols| :: vols[i].trackingID != vols[j].trackingID)
    && t.volumes - VolumeIDs(vols) == t0.volumes && t.images - ImageIDs(vols) == t0.images
  }

  /** The same, and the stray image row. */
  ghost predicate Leftover(t0: Tables, t: Tables, id: string, vols: seq<VolumeSnapshot>, stray: map<string,
                           SnapshotImage>) {
    && (forall x | x in stray :: x in t.images && t.images[x] == stray[x] && x !in t0.images && x !in ImageIDs(vols))
    && Recorded(t0, t.(images := t.images - stray.Keys), id, vols)
  }

  lemma RecordedBacked(t0: Tables, t: Tables, id: string, vols: seq<VolumeSnapshot>)
    requires Recorded(t0, t, id, vols)
    ensures Backed(t, Snapshot(id, vols))
  {
    forall i | 0 <= i < |vols| ensures VolumeBacked(t, id, vols[i]) {
    }
  }

  lemma NoStray(t0: Tables, t: Tables, id: string, vols: seq<VolumeSnapshot>)
    ensures Leftover(t0, t, id, vols, map[]) <==> Recorded(t0, t, id, vols)
  {
    var none: map<string, SnapshotImage> := map[];
    assert t.images - none.Keys == t.images;
  }

  lemma OneStray(t0: Tables, t: Tables, id: string, vols: seq<VolumeSnapshot>, image: SnapshotImage)
    requires Recorded(t0, t, id, vols) && image.trackingID !in t.images
    ensures Leftover(t0, t.(images := t.images[image.trackingID := image]), id, vols, map[image.trackingID := image])
  {
    var stray := map[image.trackingID := image];
    assert t.images[image.trackingID := image] - stray.Keys == t.images;
    forall i | 0 <= i < |vols| ensures vols[i].image.trackingID != image.trackingID {
    }
  }

  /** Recording one more volume keeps the account of the volumes recorded so far. */
  lemma OneMoreVolume(t0: Tables, t: Tables, id: string, vols: seq<VolumeSnapshot>, v: VolumeSnapshot)
    requires Recorded(t0, t, id, vols)
    requires v.trackingID !in t.volumes && v.image.trackingID !in t.images && v.snapshotID == id
    ensures Recorded(t0, WithVolume(t, Row(v)), id, vols + [v])
  {
    var u := WithVolume(t, Row(v));
    var more := vols + [v];
    VolumeIDsSnoc(vols, v);
    forall i, j | 0 <= i < j < |more| ensures more[i].trackingID != more[j].trackingID {
      assert vols[i].trackingID in t.volumes;
    }
    assert u.volumes - VolumeIDs(more) == t.volumes - VolumeIDs(vols);
    assert u.images - ImageIDs(more) == t.images - ImageIDs(vols);
  }

  lemma VolumeIDsSnoc(vols: seq<VolumeSnapshot>, v: VolumeSnapshot)
    ensures VolumeIDs(vols + [v]) == VolumeIDs(vols) + {v.trackingID}
    ensures ImageIDs(vols + [v]) == ImageIDs(vols) + {v.image.trackingID}
  {
    var more := vols + [v];
    assert more[|vols|] == v;
    assert forall i | 0 <= i < |vols| :: more[i] == vols[i];
    forall x | x in VolumeIDs(vols) + {v.trackingID} ensures x in VolumeIDs(more) {
      if x != v.trackingID {
        var i :| 0 <= i < |vols| && vols[i].trackingID == x;
        assert more[i].trackingID == x;
      } else {
        assert more[|vols|].trackingID == x;
      }
    }
    forall x | x in ImageIDs(vols) + {v.image.trackingID} ensures x in ImageIDs(more) {
      if x != v.image.trackingID {
        var i :| 0 <= i < |vols| && vols[i].image.trackingID == x;
        assert more[i].image.trackingID == x;
      } else {
        assert more[|vols|].image.trackingID == x;
      }
    }
  }

  /** The volumes recorded so far carry the UUIDs drawn for them. */
  ghost predicate Drawn(env: SnapshotEnv, vols: seq<VolumeSnapshot>) {
    |vols| <= |env.volumes| &&
    forall k | 0 <= k < |vols| ::
      vols[k].trackingID == env.volumes[k].volumeID && vols[k].image.trackingID == env.volumes[k].imageID
  }

  /** What the next turn meets in the tables, in terms of the tables before the loop. */
  lemma NextTurn(t0: Tables, t: Tables, id: string, vols: seq<VolumeSnapshot>, devices: seq<DevID>, env: SnapshotEnv)
    requires Answered(env) && |env.volumes| == |devices| && |vols| < |devices|
    requires Recorded(t0, t, id, vols) && Drawn(env, vols)
    ensures TurnOk(t0, devices, env, |vols|) <==>
              KernelAgrees(env, devices[|vols|]) && CanInsertVolume(t, env.volumes[|vols|])
    ensures StraysAt(t0, devices, env, |vols|) <==> Strays(t, env, devices[|vols|], env.volumes[|vols|])
  {
    var venv := env.volumes[|vols|];
    TakenIDs(t0, t, id, vols, venv.volumeID, venv.imageID);
    assert forall j | 0 <= j < |vols| ::
        vols[j].trackingID == env.volumes[j].volumeID && vols[j].image.trackingID == env.volumes[j].imageID;
  }

  lemma TakenIDs(t0: Tables, t: Tables, id: string, vols: seq<VolumeSnapshot>, v: string, i: string)
    requires Recorded(t0, t, id, vols)
    ensures v in t.volumes <==> v in t0.volumes || exists j | 0 <= j < |vols| :: vols[j].trackingID == v
    ensures i in t.images <==> i in t0.images || exists j | 0 <= j < |vols| :: vols[j].image.trackingID == i
  {
    assert v in t.volumes - VolumeIDs(vols) <==> v in t0.volumes;
    assert i in t.images - ImageIDs(vols) <==> i in t0.images;
  }

  /** What the first failing turn leaves. */
  lemma StrayLeft(t0: Tables, t: Tables, u: Tables, id: string, vols: seq<VolumeSnapshot>, devices: seq<DevID>,
                  env: SnapshotEnv)
    requires Answered(env) && |env.volumes| == |devices| && |vols| < |devices|
    requires Recorded(t0, t, id, vols) && Drawn(env, vols)
    requires (forall k | 0 <= k < |vols| :: TurnOk(t0, devices, env, k)) && !TurnOk(t0, devices, env, |vols|)
    requires StraysAt(t0, devices, env, |vols|) <==> Strays(t, env, devices[|vols|], env.volumes[|vols|])
    requires var venv := env.volumes[|vols|];
             u == if Strays(t, env, devices[|vols|], venv)
                  then t.(images := t.images[venv.imageID := ImageRow(env, devices[|vols|], venv)]) else t
    ensures FirstFailure(t0, devices, env) == |vols|
    ensures Leftover(t0, u, id, vols, Stray(t0, devices, env))
  {
    if StraysAt(t0, devices, env, |vols|) {
      OneStray(t0, t, id, vols, ImageRow(env, devices[|vols|], env.volumes[|vols|]));
    } else {
      NoStray(t0, t, id, vols);
    }
  }

  /** The same account from earlier tables that agree on images and volumes. */
  lemma LeftoverSince(t0: Tables, t1: Tables, u: Tables, id: string, vols: seq<VolumeSnapshot>, stray: map<string,
                      SnapshotImage>)
    requires Leftover(t1, u, id, vols, stray) && t0.images == t1.images && t0.volumes == t1.volumes
    ensures Leftover(t0, u, id, vols, stray)
  {
  }

  /** The loop after some of its turns: all went well, and their volumes are recorded. */
  ghost predicate InLoop(t0: Tables, t: Tables, id: string, vols: seq<VolumeSnapshot>, devices: seq<DevID>,
                         disks: map<DevID, TrackedDisk>, stores: map<DevID, SnapStore>, env: SnapshotEnv)
    requires Answered(env) && |env.volumes| == |devices|
  {
    && Recorded(t0, t, id, vols) && |vols| <= |devices|
    && (forall k | 0 <= k < |vols| :: TurnOk(t0, devices, env, k))
    && AllBelong(devices, disks, stores, env, vols)
  }

  ghost predicate AllBelong(devices: seq<DevID>, disks: map<DevID, TrackedDisk>, stores: map<DevID, SnapStore>,
                            env: SnapshotEnv, vols: seq<VolumeSnapshot>)
    requires Answered(env) && |env.volumes| == |devices|
  {
    |vols| <= |devices| &&
    forall k | 0 <= k < |vols| :: devices[k] in disks && devices[k] in stores &&
      Belongs(env, env.volumes[k], disks[devices[k]], stores[devices[k]], vols[k])
  }

  lemma BelongDrawn(devices: seq<DevID>, disks: map<DevID, TrackedDisk>, stores: map<DevID, SnapStore>,
                    env: SnapshotEnv, vols: seq<VolumeSnapshot>)
    requires Answered(env) && |env.volumes| == |devices| && AllBelong(devices, disks, stores, env, vols)
    ensures Drawn(env, vols)
  {
  }

  lemma InLoopStarts(t0: Tables, id: string, devices: seq<DevID>, disks: map<DevID, TrackedDisk>,
                     stores: map<DevID, SnapStore>, env: SnapshotEnv)
    requires Answered(env) && |env.volumes| == |devices|
    ensures InLoop(t0, t0, id, [], devices, disks, stores, env)
  {
    var none: seq<VolumeSnapshot> := [];
    assert VolumeIDs(none) == {} && ImageIDs(none) == {};
  }

  lemma InLoopGoesOn(t0: Tables, t: Tables, id: string, vols: seq<VolumeSnapshot>, devices: seq<DevID>,
                     disks: map<DevID, TrackedDisk>, stores: map<DevID, SnapStore>, env: SnapshotEnv, v: VolumeSnapshot)
    requires Answered(env) && |env.volumes| == |devices| && |vols| < |devices|
    requires InLoop(t0, t, id, vols, devices, disks, stores, env)
    requires var k := |vols|;
      && devices[k] in disks && devices[k] in stores && disks[devices[k]].dev == devices[k]
      && Belongs(env, env.volumes[k], disks[devices[k]], stores[devices[k]], v)
      && CanInsertVolume(t, env.volumes[k]) && v.snapshotID == id
    ensures InLoop(t0, WithVolume(t, Row(v)), id, vols + [v], devices, disks, stores, env)
  {
    BelongDrawn(devices, disks, stores, env, vols);
    NextTurn(t0, t, id, vols, devices, env);
    OneMoreVolume(t0, t, id, vols, v);
  }

  lemma InLoopStops(t0: Tables, t: Tables, u: Tables, id: string, vols: seq<VolumeSnapshot>, devices: seq<DevID>,
                    disks: map<DevID, TrackedDisk>, stores: map<DevID, SnapStore>, env: SnapshotEnv)
    requires Answered(env) && |env.volumes| == |devices| && |vols| < |devices|
    requires InLoop(t0, t, id, vols, devices, disks, stores, env)
    requires !(KernelAgrees(env, devices[|vols|]) && CanInsertVolume(t, env.volumes[|vols|]))
    requires var venv := env.volumes[|vols|];
             u == if Strays(t, env, devices[|vols|], venv)
                  then t.(images := t.images[venv.imageID := ImageRow(env, devices[|vols|], venv)]) else t
    ensures FirstFailure(t0, devices, env) == |vols|
    ensures Leftover(t0, u, id, vols, Stray(t0, devices, env))
  {
    BelongDrawn(devices, disks, stores, env, vols);
    NextTurn(t0, t, id, vols, devices, env);
    StrayLeft(t0, t, u, id, vols, devices, env);
  }

  lemma InLoopEnds(t0: Tables, t: Tables, id: string, vols: seq<VolumeSnapshot>, devices: seq<DevID>,
                   disks: map<DevID, TrackedDisk>, stores: map<DevID, SnapStore>, env: SnapshotEnv)
    requires Answered(env) && |env.volumes| == |devices| == |vols|
    requires InLoop(t0, t, id, vols, devices, disks, stores, env)
    ensures FirstFailure(t0, devices, env) == |vols|
    ensures Leftover(t0, t, id, vols, Stray(t0, devices, env))
  {
    NoStray(t0, t, id, vols);
  }

  lemma LeftoverKeyed(t0: Tables, t: Tables, id: string, vols: seq<VolumeSnapshot>, stray: map<string, SnapshotImage>)
    requires Leftover(t0, t, id, vols, stray)
    requires forall k | k in t0.volumes :: t0.volumes[k].trackingID == k
    ensures forall k | k in t.volumes :: t.volumes[k].trackingID == k
  {
    forall k | k in t.volumes ensures t.volumes[k].trackingID == k {
      if k in VolumeIDs(vols) {
        var i :| 0 <= i < |vols| && vols[i].trackingID == k;
        assert t.volumes[vols[i].trackingID] == Row(vols[i]);
      } else {
        assert k in t.volumes - VolumeIDs(vols);
      }
    }
  }

  // ---------------------------------------------------------------- creating a snapshot

  /** No volume row of a requested disk names a snapshot row. */
  ghost predicate Free(t: Tables, ids: seq<string>) {
    forall k | 0 <= k < |ids| :: NoVolumeUnderSnapshot(t, ids[k])
  }

  /** On tables without leftovers under a live ID: a create is refused as a conflict only if
      some snapshot row holds one of the requested disks. */
  lemma RefusedIffHeld(t: Tables, ids: seq<string>)
    requires Keyed(t) && SnapshotsOk(t) && NoneLeftUnder(t)
    ensures !Free(t, ids) <==> exists k, a | 0 <= k < |ids| && a in t.snapshots :: HasVolumeOf(t.snapshots[a], ids[k])
  {
    forall k | 0 <= k < |ids|
      ensures NoVolumeUnderSnapshot(t, ids[k]) <==> forall a | a in t.snapshots :: !HasVolumeOf(t.snapshots[a], ids[k])
    {
      OnlySnapshotsBlock(t, ids[k]);
    }
  }

  function DevicesOf(t: Tables, ids: seq<string>): (devices: seq<DevID>)
    ensures |devices| == |ids|
  {
    seq(|ids|, k requires 0 <= k < |ids| => if ids[k] in t.disks then t.disks[ids[k]].dev else DevID(0, 0))
  }

  predicate Sized(ids: seq<string>, env: SnapshotEnv) { |env.stores| == |env.volumes| == |ids| }

  /** CreateSnapshot gets as far as its loop over devices. */
  ghost predicate ReachesLoop(t: Tables, ids: seq<string>, env: SnapshotEnv)
    requires Sized(ids, env)
  {
    Free(t, ids) && CanPrepare(t, ids, env.stores, 0) && Answered(env) && env.ioctl.Ok?
  }

  ghost predicate FailsInLoop(t: Tables, ids: seq<string>, env: SnapshotEnv)
    requires Sized(ids, env)
  {
    ReachesLoop(t, ids, env) && FirstFailure(t, DevicesOf(t, ids), env) < |ids|
  }

  /** The kernel is asked for a snapshot, and takes it. */
  ghost predicate Takes(t: Tables, ids: seq<string>, env: SnapshotEnv)
    requires Sized(ids, env)
  {
    && Free(t, ids) && CanPrepare(t, ids, env.stores, 0)
    && env.cbtPre.Ok? && env.imagesPre.Ok? && env.ioctl.Ok?
  }

  /** A create that fails leaves the kernel's snapshot: in the loop over devices nobody asks
      for it to be destroyed; elsewhere the kernel is asked, and a refusal is ignored. */
  ghost predicate Leaks(t: Tables, ids: seq<string>, env: SnapshotEnv)
    requires Sized(ids, env)
  {
    Takes(t, ids, env) && (FailsInLoop(t, ids, env) || !env.undone)
  }

  ghost predicate CanCreate(t: Tables, ids: seq<string>, env: SnapshotEnv)
    requires Sized(ids, env)
  {
    && ReachesLoop(t, ids, env) && FirstFailure(t, DevicesOf(t, ids), env) == |ids|
    && Print(env.ioctl.value) !in t.snapshots
  }

  /** The k-th disk's own answers and draws: the kernel counted one snapshot of its device and
      shows one new image, udev knows it, the map can be read, and neither UUID is in the
      tables or was drawn before. */
  ghost predicate Meets(t: Tables, ids: seq<string>, env: SnapshotEnv, k: nat)
    requires Sized(ids, env) && Answered(env) && k < |ids|
  {
    && env.volumes[k].node.Ok? && env.volumes[k].bitmap.Ok?
    && env.volumes[k].imageID !in t.images && env.volumes[k].volumeID !in t.volumes
    && (forall j | 0 <= j < k ::
          env.volumes[j].volumeID != env.volumes[k].volumeID && env.volumes[j].imageID != env.volumes[k].imageID)
    && KernelAgrees(env, if ids[k] in t.disks then t.disks[ids[k]].dev else DevID(0, 0))
  }

  /** The same, disk by disk: all of them free, each with a store or one to be had, each agreed
      on by the kernel, every draw unused, and the snapshot's number new to the table. */
  lemma CanCreateIff(t: Tables, ids: seq<string>, env: SnapshotEnv)
    requires Sized(ids, env) && DisksKeyed(t)
    ensures CanCreate(t, ids, env) <==>
      && Answered(env) && env.ioctl.Ok? && Print(env.ioctl.value) !in t.snapshots
      && (forall k, v | 0 <= k < |ids| && v in t.volumes && t.volumes[v].originalDevice.trackingID == ids[k] ::
            t.volumes[v].snapshotID !in t.snapshots)
      && (forall k | 0 <= k < |ids| :: CanServe(t, ids, env.stores, k))
      && (forall k | 0 <= k < |ids| :: Meets(t, ids, env, k))
  {
    CanPrepareIff(t, ids, env.stores);
    FreeIff(t, ids);
    if Answered(env) {
      AllTurnsIff(t, ids, env);
    }
  }

  lemma FreeIff(t: Tables, ids: seq<string>)
    ensures Free(t, ids) <==>
              forall k, v | 0 <= k < |ids| && v in t.volumes && t.volumes[v].originalDevice.trackingID == ids[k] ::
                t.volumes[v].snapshotID !in t.snapshots
  {
    if Free(t, ids) {
      forall k, v | 0 <= k < |ids| && v in t.volumes && t.volumes[v].originalDevice.trackingID == ids[k]
        ensures t.volumes[v].snapshotID !in t.snapshots
      {
        assert NoVolumeUnderSnapshot(t, ids[k]);
      }
    }
  }

  lemma AllTurnsIff(t: Tables, ids: seq<string>, env: SnapshotEnv)
    requires Sized(ids, env) && Answered(env)
    ensures FirstFailure(t, DevicesOf(t, ids), env) == |ids| <==> forall k | 0 <= k < |ids| :: Meets(t, ids, env, k)
  {
    var f := FirstFailure(t, DevicesOf(t, ids), env);
    assert f < |ids| ==> !TurnOk(t, DevicesOf(t, ids), env, f);
    forall k | 0 <= k < |ids| ensures Meets(t, ids, env, k) <==> TurnOk(t, DevicesOf(t, ids), env, k) {
    }
  }

  /** The first `|vols|` volumes were made, for the first disks requested. */
  ghost predicate AllPaired(t: Tables, ids: seq<string>, env: SnapshotEnv, vols: seq<VolumeSnapshot>)
    requires Sized(ids, env) && Answered(env)
  {
    |vols| <= |ids| && forall k | 0 <= k < |vols| :: Paired(t, env, ids[k], env.volumes[k], vols[k])
  }

  /** What a successful CreateSnapshot leaves behind. */
  ghost predicate Created(t: Tables, u: Tables, ids: seq<string>, env: SnapshotEnv, s: Snapshot) {
    && Sized(ids, env) && Answered(env) && env.ioctl.Ok?
    && s.snapshotID == Print(env.ioctl.value)
    && s.snapshotID !in t.snapshots && u.snapshots == t.snapshots[s.snapshotID := s]
    && Recorded(t, u, s.snapshotID, s.volumes)
    && |s.volumes| == |ids| && AllPaired(u, ids, env, s.volumes)
    && u == AfterPrepare(t, ids, env.stores, 0).(images := u.images, volumes := u.volumes, snapshots := u.snapshots)
  }

  /** What a failed one leaves behind: the stores made before the first failure, and, from the
      loop on, the rows of the volumes before the first failing turn and its stray image. */
  ghost predicate FailedCreate(t: Tables, u: Tables, ids: seq<string>, env: SnapshotEnv, left: seq<VolumeSnapshot>)
    requires Sized(ids, env)
  {
    if !Free(t, ids) then u == t && left == []
    else
      && u == AfterPrepare(t, ids, env.stores, 0).(images := u.images, volumes := u.volumes)
      && if ReachesLoop(t, ids, env) then
           && Leftover(t, u, Print(env.ioctl.value), left, Stray(t, DevicesOf(t, ids), env))
           && |left| == FirstFailure(t, DevicesOf(t, ids), env) && AllPaired(u, ids, env, left)
         else u.images == t.images && u.volumes == t.volumes && left == []
  }

  /** From the tables after preparing the stores to those before. */
  lemma CreateSince(t0: Tables, t1: Tables, u: Tables, ids: seq<string>, env: SnapshotEnv, left: seq<VolumeSnapshot>)
    requires Sized(ids, env) && ReachesLoop(t0, ids, env) && t1 == AfterPrepare(t0, ids, env.stores, 0)
    requires Inserted(t1, u, ids, DevicesOf(t1, ids), env, left)
    ensures |left| == FirstFailure(t0, DevicesOf(t0, ids), env) && t1.snapshots == t0.snapshots
    ensures if CanInsertSnapshot(t1, ids, env, left)
            then Created(t0, u, ids, env, Snapshot(Print(env.ioctl.value), left))
            else FailedCreate(t0, u, ids, env, left)
  {
    PrepareTables(t0, ids, env.stores, 0);
    assert DevicesOf(t0, ids) == DevicesOf(t1, ids);
    LoopSame(t0, t1, DevicesOf(t0, ids), env);
    LeftoverSince(t0, t1, u, Print(env.ioctl.value), left, Stray(t0, DevicesOf(t0, ids), env));
    if |left| == |ids| {
      NoStray(t0, u, Print(env.ioctl.value), left);
    }
  }

  lemma FreeSince(t0: Tables, ids: seq<string>, envs: seq<StoreEnv>)
    requires |envs| == |ids| && Free(t0, ids)
    ensures Free(AfterPrepare(t0, ids, envs, 0), ids)
  {
    PrepareTables(t0, ids, envs, 0);
    forall k | 0 <= k < |ids| ensures NoVolumeUnderSnapshot(AfterPrepare(t0, ids, envs, 0), ids[k]) {
      assert NoVolumeUnderSnapshot(t0, ids[k]);
    }
  }

  /** A failure restores the image and volume tables if and only if it came before the loop,
      or in its first turn without a volume ID that was taken, or after a loop without turns. */
  ghost predicate Restores(t: Tables, ids: seq<string>, env: SnapshotEnv)
    requires Sized(ids, env)
  {
    ReachesLoop(t, ids, env) ==>
      var devices := DevicesOf(t, ids);
      FirstFailure(t, devices, env) == 0 && (ids == [] || !StraysAt(t, devices, env, 0))
  }

  lemma RestoredIff(t: Tables, u: Tables, ids: seq<string>, env: SnapshotEnv, left: seq<VolumeSnapshot>)
    requires Sized(ids, env) && FailedCreate(t, u, ids, env, left)
    ensures u.images == t.images && u.volumes == t.volumes <==> Restores(t, ids, env)
  {
    if Free(t, ids) && ReachesLoop(t, ids, env) {
      LeftoverRestores(t, u, Print(env.ioctl.value), left, Stray(t, DevicesOf(t, ids), env));
    }
    PrepareTables(t, ids, env.stores, 0);
  }

  lemma LeftoverRestores(t: Tables, u: Tables, id: string, vols: seq<VolumeSnapshot>, stray: map<string, SnapshotImage>)
    requires Leftover(t, u, id, vols, stray)
    ensures u.images == t.images && u.volumes == t.volumes <==> vols == [] && stray == map[]
  {
    if stray != map[] {
      var x :| x in stray;
      assert x in u.images && x !in t.images;
    } else if vols != [] {
      NoStray(t, u, id, vols);
      assert vols[0].trackingID in VolumeIDs(vols);
      assert vols[0].trackingID in u.volumes && vols[0].trackingID !in t.volumes;
    } else {
      NoStray(t, u, id, vols);
      assert VolumeIDs(vols) == {} && ImageIDs(vols) == {};
    }
  }

  /** Preparing stores touches no other table. */
  lemma {:induction false} PrepareTables(t: Tables, ids: seq<string>, envs: seq<StoreEnv>, i: nat)
    requires |envs| == |ids| && i <= |ids|
    ensures var u := AfterPrepare(t, ids, envs, i); u == t.(stores := u.stores, files := u.files)
    decreases |ids| - i
  {
    if i < |ids| && CanEnsureStore(t, ids[i], envs[i]) {
      PrepareTables(AfterEnsure(t, ids[i], envs[i]), ids, envs, i + 1);
    }
  }

  /** The loop's account depends on the image and volume tables only. */
  lemma {:induction false} FailureSame(t: Tables, u: Tables, devices: seq<DevID>, env: SnapshotEnv, k: nat)
    requires Answered(env) && |env.volumes| == |devices| && k <= |devices|
    requires u.images == t.images && u.volumes == t.volumes
    ensures FirstFailureFrom(u, devices, env, k) == FirstFailureFrom(t, devices, env, k)
    decreases |devices| - k
  {
    if k < |devices| {
      FailureSame(t, u, devices, env, k + 1);
    }
  }

  lemma LoopSame(t: Tables, u: Tables, devices: seq<DevID>, env: SnapshotEnv)
    requires Answered(env) && |env.volumes| == |devices|
    requires u.images == t.images && u.volumes == t.volumes
    ensures FirstFailure(u, devices, env) == FirstFailure(t, devices, env)
    ensures Stray(u, devices, env) == Stray(t, devices, env)
  {
    FailureSame(t, u, devices, env, 0);
    var f := FirstFailure(t, devices, env);
    if f < |devices| {
      StraysSame(t, u, devices, env, f);
    }
  }

  lemma StraysSame(t: Tables, u: Tables, devices: seq<DevID>, env: SnapshotEnv, k: nat)
    requires Answered(env) && |env.volumes| == |devices| && k < |devices|
    requires u.images == t.images && u.volumes == t.volumes
    ensures StraysAt(u, devices, env, k) == StraysAt(t, devices, env, k)
  {
  }

  lemma DevicesReady(t: Tables, ids: seq<string>, devices: seq<DevID>, disks: map<DevID, TrackedDisk>,
                     stores: map<DevID, SnapStore>)
    requires AllReady(t, ids, devices, disks, stores) && |devices| == |ids|
    ensures devices == DevicesOf(t, ids)
    ensures forall k | 0 <= k < |devices| ::
              devices[k] in disks && devices[k] in stores && disks[devices[k]].dev == devices[k]
  {
    forall k | 0 <= k < |ids|
      ensures devices[k] == DevicesOf(t, ids)[k]
      ensures devices[k] in disks && devices[k] in stores && disks[devices[k]].dev == devices[k]
    {
      assert Ready(t, ids[k], devices[k], disks, stores);
    }
  }

  lemma VolumesPaired(t: Tables, env: SnapshotEnv, ids: seq<string>, devices: seq<DevID>,
                      disks: map<DevID, TrackedDisk>, stores: map<DevID, SnapStore>, vols: seq<VolumeSnapshot>)
    requires Sized(ids, env) && Answered(env) && AllReady(t, ids, devices, disks, stores) && |devices| == |ids|
    requires AllBelong(devices, disks, stores, env, vols)
    ensures AllPaired(t, ids, env, vols)
  {
    forall k | 0 <= k < |vols| ensures Paired(t, env, ids[k], env.volumes[k], vols[k]) {
      assert Ready(t, ids[k], devices[k], disks, stores);
    }
  }

  lemma PairedElsewhere(t: Tables, u: Tables, env: SnapshotEnv, ids: seq<string>, vols: seq<VolumeSnapshot>)
    requires Sized(ids, env) && Answered(env) && AllPaired(t, ids, env, vols)
    requires u.disks == t.disks && u.stores == t.stores
    ensures AllPaired(u, ids, env, vols)
  {
  }

  /** The new row's disks are the requested ones, and those had no snapshot. */
  lemma SnapshotAddable(t0: Tables, t: Tables, ids: seq<string>, s: Snapshot)
    requires Keyed(t0) && SnapshotsOk(t0) && Free(t0, ids)
    requires SnapshotsOk(t) && t.snapshots == t0.snapshots && s.snapshotID !in t.snapshots && Backed(t, s)
    requires |s.volumes| == |ids| && forall k | 0 <= k < |ids| :: s.volumes[k].originalDevice.trackingID == ids[k]
    ensures SnapshotsOk(t.(snapshots := t.snapshots[s.snapshotID := s]))
  {
    forall a, disk | a in t.snapshots && HasVolumeOf(s, disk) ensures !HasVolumeOf(t.snapshots[a], disk) {
      NoSnapshotOfDisk(t0, disk);
    }
    AddSnapshotKeeps(t, s);
  }

  /** Everything outside the three snapshot tables is as it was. */
  lemma StoresUntouched(t: Tables, u: Tables)
    requires Valid(t) && u == t.(images := u.images, volumes := u.volumes, snapshots := u.snapshots)
    ensures DisksOk(u) && StoresOk(u)
  {
    assert forall s :: FilesOfStore(u, s) == FilesOfStore(t, s);
  }

  /** Whether all volumes were recorded and their snapshot's number is new to the table. */
  predicate CanInsertSnapshot(t: Tables, ids: seq<string>, env: SnapshotEnv, left: seq<VolumeSnapshot>)
    requires env.ioctl.Ok?
  {
    |left| == |ids| && Print(env.ioctl.value) !in t.snapshots
  }

  /** From the tables when the kernel has taken its snapshot to those afterwards. */
  ghost predicate Inserted(t: Tables, u: Tables, ids: seq<string>, devices: seq<DevID>, env: SnapshotEnv,
                           left: seq<VolumeSnapshot>)
    requires Sized(ids, env) && |devices| == |ids| && Answered(env) && env.ioctl.Ok?
  {
    var s := Snapshot(Print(env.ioctl.value), left);
    && |left| == FirstFailure(t, devices, env) && AllPaired(u, ids, env, left)
    && Leftover(t, u, s.snapshotID, left, Stray(t, devices, env))
    && u == t.(images := u.images, volumes := u.volumes, snapshots := u.snapshots)
    && u.snapshots == if CanInsertSnapshot(t, ids, env, left) then t.snapshots[s.snapshotID := s] else t.snapshots
  }

  /** After the loop over devices. */
  lemma LoopLeaves(t: Tables, u: Tables, ids: seq<string>, devices: seq<DevID>, disks: map<DevID, TrackedDisk>,
                   stores: map<DevID, SnapStore>, env: SnapshotEnv, left: seq<VolumeSnapshot>)
    requires Sized(ids, env) && |devices| == |ids| && Answered(env) && env.ioctl.Ok?
    requires Valid(t) && AllReady(t, ids, devices, disks, stores)
    requires SnapshotsOk(u) && u == t.(images := u.images, volumes := u.volumes)
    requires Leftover(t, u, Print(env.ioctl.value), left, Stray(t, devices, env))
    requires AllBelong(devices, disks, stores, env, left)
    ensures Valid(u) && AllPaired(u, ids, env, left)
  {
    LeftoverKeyed(t, u, Print(env.ioctl.value), left, Stray(t, devices, env));
    StoresUntouched(t, u);
    ReadyElsewhere(t, u, ids, devices, disks, stores);
    VolumesPaired(u, env, ids, devices, disks, stores, left);
  }

  /** Inserting the row of a snapshot all of whose volumes were recorded. */
  lemma RowGoesIn(t: Tables, u: Tables, ids: seq<string>, devices: seq<DevID>, env: SnapshotEnv,
                  left: seq<VolumeSnapshot>)
    requires Sized(ids, env) && |devices| == |ids| && Answered(env) && env.ioctl.Ok?
    requires Valid(t) && Free(t, ids) && Valid(u) && u == t.(images := u.images, volumes := u.volumes)
    requires |left| == |ids| == FirstFailure(t, devices, env) && AllPaired(u, ids, env, left)
    requires Leftover(t, u, Print(env.ioctl.value), left, Stray(t, devices, env))
    requires Print(env.ioctl.value) !in u.snapshots
    ensures var s := Snapshot(Print(env.ioctl.value), left);
            var v := u.(snapshots := u.snapshots[s.snapshotID := s]);
            Valid(v) && Inserted(t, v, ids, devices, env, left)
  {
    var s := Snapshot(Print(env.ioctl.value), left);
    NoStray(t, u, s.snapshotID, left);
    RowKeeps(t, u, ids, env, left);
    RowInserted(t, u, u.(snapshots := u.snapshots[s.snapshotID := s]), ids, devices, env, left);
  }

  lemma RowKeeps(t: Tables, u: Tables, ids: seq<string>, env: SnapshotEnv, left: seq<VolumeSnapshot>)
    requires Sized(ids, env) && Answered(env) && env.ioctl.Ok?
    requires Valid(t) && Free(t, ids) && Valid(u) && u.snapshots == t.snapshots
    requires |left| == |ids| && AllPaired(u, ids, env, left) && Recorded(t, u, Print(env.ioctl.value), left)
    requires Print(env.ioctl.value) !in u.snapshots
    ensures var s := Snapshot(Print(env.ioctl.value), left); Valid(u.(snapshots := u.snapshots[s.snapshotID := s]))
  {
    var s := Snapshot(Print(env.ioctl.value), left);
    RecordedBacked(t, u, s.snapshotID, left);
    VolumesOfDisks(u, ids, env, left);
    SnapshotAddable(t, u, ids, s);
    StoresUntouched(u, u.(snapshots := u.snapshots[s.snapshotID := s]));
  }

  lemma RowInserted(t: Tables, u: Tables, v: Tables, ids: seq<string>, devices: seq<DevID>, env: SnapshotEnv,
                    left: seq<VolumeSnapshot>)
    requires Sized(ids, env) && |devices| == |ids| && Answered(env) && env.ioctl.Ok?
    requires u == t.(images := u.images, volumes := u.volumes) && CanInsertSnapshot(t, ids, env, left)
    requires var s := Snapshot(Print(env.ioctl.value), left); v == u.(snapshots := t.snapshots[s.snapshotID := s])
    requires |left| == FirstFailure(t, devices, env) && AllPaired(u, ids, env, left)
    requires Leftover(t, u, Print(env.ioctl.value), left, Stray(t, devices, env))
    ensures Inserted(t, v, ids, devices, env, left)
  {
    PairedElsewhere(u, v, env, ids, left);
    LeftoverElsewhere(t, u, v, Print(env.ioctl.value), left, Stray(t, devices, env));
  }

  lemma LeftoverElsewhere(t: Tables, u: Tables, v: Tables, id: string, vols: seq<VolumeSnapshot>, stray: map<string,
                          SnapshotImage>)
    requires Leftover(t, u, id, vols, stray) && v.images == u.images && v.volumes == u.volumes
    ensures Leftover(t, v, id, vols, stray)
  {
  }

  lemma VolumesOfDisks(t: Tables, ids: seq<string>, env: SnapshotEnv, vols: seq<VolumeSnapshot>)
    requires Sized(ids, env) && Answered(env) && AllPaired(t, ids, env, vols) && DisksKeyed(t)
    ensures forall k | 0 <= k < |vols| :: vols[k].originalDevice.trackingID == ids[k]
  {
    forall k | 0 <= k < |vols| ensures vols[k].originalDevice.trackingID == ids[k] {
      assert Paired(t, env, ids[k], env.volumes[k], vols[k]);
    }
  }

  // ---------------------------------------------------------------- a create that is not undone

  function DiskA(): TrackedDisk { TrackedDisk("sda", "/dev/sda", DevID(8, 0)) }

  function DiskB(): TrackedDisk { TrackedDisk("sdb", "/dev/sdb", DevID(8, 16)) }

  /** Two tracked disks with a store each. */
  function TwoDisks(): Tables {
    Tables(map["sda" := DiskA(), "sdb" := DiskB()], map[], map[],
           map["1" := SnapStore("1", DiskA(), "/mnt", 0), "2" := SnapStore("2", DiskB(), "/mnt", 0)],
           map[], map[], map[], map[])
  }

  /** The kernel takes snapshot 7 of both; reading the second change map fails. */
  function SecondMapFails(): SnapshotEnv {
    SnapshotEnv([StoreEnv("3", true, true, Err(Failed)), StoreEnv("4", true, true, Err(Failed))],
                Ok([CBTInfo(DiskA().dev, 1, 0, "g"), CBTInfo(DiskB().dev, 1, 0, "h")]), Ok([]), Ok(7),
                Ok([CBTInfo(DiskA().dev, 1, 1, "g"), CBTInfo(DiskB().dev, 1, 1, "h")]),
                Ok([ImageInfo(DiskA().dev, DevID(252, 0)), ImageInfo(DiskB().dev, DevID(252, 1))]),
                [VolumeEnv("v", "i", Ok("/dev/x"), Ok([0])), VolumeEnv("w", "j", Ok("/dev/y"), Err(Failed))],
                true)
  }

  lemma TwoDisksValid()
    ensures Valid(TwoDisks())
  {
    var t := TwoDisks();
    assert Keyed(t) && DisksOk(t) && SnapshotsOk(t);
    TwoDisksStores();
  }

  lemma TwoDisksStores()
    ensures StoresOk(TwoDisks())
  {
    var t := TwoDisks();
    assert t.stores.Keys == {"1", "2"};
    assert t.stores["1"].disk.trackingID == "sda" && t.stores["2"].disk.trackingID == "sdb";
    assert FilesOfStore(t, "1") == map[] && FilesOfStore(t, "2") == map[];
  }

  lemma FirstAgrees()
    ensures KernelAgrees(SecondMapFails(), DiskA().dev)
  {
    var env, a, b := SecondMapFails(), DiskA().dev, DiskB().dev;
    var post := env.imagesPost.value;
    assert EntryAt(env.cbtPre.value, a, 0) && EntryAt(env.cbtPost.value, a, 0);
    assert a != b && post[0].snapshotDev == DevID(252, 0) && IsNew([], post[0], a) && !IsNew([], post[1], a);
    assert SoleNew([], post, a, DevID(252, 0));
  }

  /** The failure is in the loop's second turn, and leaves no stray image. */
  lemma SecondTurnFails()
    ensures var t, ids, env := TwoDisks(), ["sda", "sdb"], SecondMapFails();
            && ReachesLoop(t, ids, env) && FirstFailure(t, DevicesOf(t, ids), env) == 1 && FailsInLoop(t, ids, env)
            && !Restores(t, ids, env) && Stray(t, DevicesOf(t, ids), env) == map[]
  {
    var t, ids, env := TwoDisks(), ["sda", "sdb"], SecondMapFails();
    assert t.stores["1"].disk.trackingID == "sda" && t.stores["2"].disk.trackingID == "sdb";
    assert HasStore(t, "sda") && HasStore(t, "sdb");
    assert AfterEnsure(t, "sda", env.stores[0]) == t && AfterEnsure(t, "sdb", env.stores[1]) == t;
    assert CanPrepare(t, ids, env.stores, 2) && CanPrepare(t, ids, env.stores, 1);
    FirstAgrees();
    var devices := DevicesOf(t, ids);
    assert devices == [DiskA().dev, DiskB().dev];
    assert TurnOk(t, devices, env, 0) && !TurnOk(t, devices, env, 1);
  }

  /** The other way to leave a snapshot behind: the question after it fails, and so does the
      undo, although the loop is never reached. */
  lemma UndoFails()
    ensures var t, ids := TwoDisks(), ["sda", "sdb"];
            var env := SecondMapFails().(cbtPost := Err(Failed), undone := false);
            Leaks(t, ids, env) && !ReachesLoop(t, ids, env)
  {
    SecondTurnFails();
  }

  lemma SecondTurnLeaves(u: Tables, left: seq<VolumeSnapshot>)
    requires FailedCreate(TwoDisks(), u, ["sda", "sdb"], SecondMapFails(), left)
    ensures u.volumes.Keys == {"v"} && u.images.Keys == {"i"}
  {
    SecondTurnFails();
    var t := TwoDisks();
    NoStray(t, u, Print(7), left);
    assert Paired(u, SecondMapFails(), "sda", SecondMapFails().volumes[0], left[0]);
    OneLeft(t, u, Print(7), left, "v", "i");
  }

  lemma OneLeft(t: Tables, u: Tables, id: string, left: seq<VolumeSnapshot>, v: string, i: string)
    requires Recorded(t, u, id, left) && t.volumes == map[] && t.images == map[]
    requires |left| == 1 && left[0].trackingID == v && left[0].image.trackingID == i
    ensures u.volumes.Keys == {v} && u.images.Keys == {i}
  {
    assert VolumeIDs(left) == {v} && ImageIDs(left) == {i};
    forall x | x in u.volumes ensures x == v {
      assert x in u.volumes - VolumeIDs(left) || x in VolumeIDs(left);
    }
    forall x | x in u.images ensures x == i {
      assert x in u.images - ImageIDs(left) || x in ImageIDs(left);
    }
  }

  // ---------------------------------------------------------------- deleting a snapshot

  function StoreIDs(vols: seq<VolumeSnapshot>): set<string> {
    set i | 0 <= i < |vols| && vols[i].store.Some? :: vols[i].store.value.snapStoreID
  }

  function DropStores(t: Tables, stores: set<string>): Tables {
    t.(files := map f | f in t.files && t.files[f].storeID !in stores :: t.files[f], stores := t.stores - stores)
  }

  /** How many leading volumes' stores the kernel lets go of. */
  function Cleaned(vols: seq<VolumeSnapshot>, cleanup: string -> bool): (n: nat)
    ensures n <= |vols|
    ensures forall k | 0 <= k < n :: vols[k].store.Some? && cleanup(vols[k].store.value.snapStoreID)
    ensures n < |vols| ==> vols[n].store.None? || !cleanup(vols[n].store.value.snapStoreID)
  {
    if vols == [] || vols[0].store.None? || !cleanup(vols[0].store.value.snapStoreID) then 0
    else 1 + Cleaned(vols[1..], cleanup)
  }

  /** The store is that of one of the first n volumes. */
  predicate LetGo(vols: seq<VolumeSnapshot>, n: nat, store: string)
    requires n <= |vols|
  {
    exists i | 0 <= i < n :: vols[i].store.Some? && vols[i].store.value.snapStoreID == store
  }

  /** Dropping the first n volumes' stores takes their rows and files, and no others. */
  lemma LetGoMeans(t: Tables, vols: seq<VolumeSnapshot>, n: nat)
    requires n <= |vols|
    ensures var u := DropStores(t, StoreIDs(vols[..n]));
            && u == t.(stores := u.stores, files := u.files)
            && (forall s :: s in u.stores <==> s in t.stores && !LetGo(vols, n, s))
            && (forall s | s in u.stores :: u.stores[s] == t.stores[s])
            && (forall f :: f in u.files <==> f in t.files && !LetGo(vols, n, t.files[f].storeID))
            && (forall f | f in u.files :: u.files[f] == t.files[f])
  {
    forall s ensures s in StoreIDs(vols[..n]) <==> LetGo(vols, n, s) {
      if LetGo(vols, n, s) {
        var i :| 0 <= i < n && vols[i].store.Some? && vols[i].store.value.snapStoreID == s;
        assert vols[..n][i] == vols[i];
      }
    }
  }

  lemma DropStoresKeeps(t: Tables, stores: set<string>)
    requires Valid(t)
    ensures Valid(DropStores(t, stores))
  {
    var u := DropStores(t, stores);
    SnapshotsUntouched(t, u);
    DropStoresStores(t, stores);
  }

  lemma DropStoresStores(t: Tables, stores: set<string>)
    requires StoresOk(t)
    ensures StoresOk(DropStores(t, stores))
  {
    var u := DropStores(t, stores);
    assert OneStorePerDisk(u);
    forall s | s in u.stores ensures u.stores[s].totalAllocated == Total(FilesOfStore(u, s)) {
      DropStoresFiles(t, stores, s);
    }
  }

  lemma DropStoresFiles(t: Tables, stores: set<string>, s: string)
    requires s !in stores
    ensures FilesOfStore(DropStores(t, stores), s) == FilesOfStore(t, s)
  {
  }

  lemma DropOneMore(t: Tables, vols: seq<VolumeSnapshot>, i: nat)
    requires i < |vols| && vols[i].store.Some?
    ensures DropStores(t, StoreIDs(vols[..i + 1])) ==
            DropStore(DropStores(t, StoreIDs(vols[..i])), vols[i].store.value.snapStoreID)
  {
    var before, after := StoreIDs(vols[..i]), StoreIDs(vols[..i + 1]);
    var id := vols[i].store.value.snapStoreID;
    assert after == before + {id} by {
      assert vols[..i + 1][i] == vols[i];
      assert forall k | 0 <= k < i :: vols[..i + 1][k] == vols[..i][k];
      forall x | x in before ensures x in after {
        var k :| 0 <= k < |vols[..i]| && vols[..i][k].store.Some? && vols[..i][k].store.value.snapStoreID == x;
        assert vols[..i + 1][k].store.value.snapStoreID == x;
      }
      assert vols[..i + 1][i].store.value.snapStoreID == id;
    }
  }

  lemma RemoveSnapshotValid(t: Tables, id: string)
    requires Valid(t) && id in t.snapshots
    ensures Valid(RemoveSnapshot(t, id))
  {
    RemoveSnapshotKeeps(t, id);
    StoresUntouched(t, RemoveSnapshot(t, id));
  }

  lemma RemoveOneMore(t: Tables, vols: seq<VolumeSnapshot>, i: nat)
    requires i < |vols|
    ensures t.images - ImageIDs(vols[..i + 1]) == t.images - ImageIDs(vols[..i]) - {vols[i].image.trackingID}
    ensures t.volumes - VolumeIDs(vols[..i + 1]) == t.volumes - VolumeIDs(vols[..i]) - {vols[i].trackingID}
  {
    VolumeIDsSnoc(vols[..i], vols[i]);
    assert vols[..i + 1] == vols[..i] + [vols[i]];
  }

  /** A snapshot's i-th image row is not one of the earlier ones. */
  lemma OwnImage(t: Tables, id: string, i: nat)
    requires Keyed(t) && SnapshotsOk(t) && id in t.snapshots && i < |t.snapshots[id].volumes|
    ensures var vols := t.snapshots[id].volumes;
            vols[i].image.trackingID in t.images - ImageIDs(vols[..i])
  {
    var vols := t.snapshots[id].volumes;
    assert Backed(t, t.snapshots[id]);
    assert VolumeBacked(t, id, vols[i]);
    forall j | 0 <= j < i ensures vols[j].image.trackingID != vols[i].image.trackingID {
      assert VolumeBacked(t, id, vols[j]);
    }
  }

  // ---------------------------------------------------------------- create, then delete

  lemma StoresOfSnapshot(u: Tables, ids: seq<string>, env: SnapshotEnv, s: Snapshot)
    requires Sized(ids, env) && Answered(env)
    requires OneStorePerDisk(u) && |s.volumes| == |ids| && AllPaired(u, ids, env, s.volumes)
    ensures forall k | k in u.stores :: k in StoreIDs(s.volumes) <==> u.stores[k].disk.trackingID in ids
  {
    forall k | k in u.stores ensures k in StoreIDs(s.volumes) <==> u.stores[k].disk.trackingID in ids {
      if k in StoreIDs(s.volumes) {
        var i :| 0 <= i < |s.volumes| && s.volumes[i].store.Some? && s.volumes[i].store.value.snapStoreID == k;
        assert Paired(u, env, ids[i], env.volumes[i], s.volumes[i]);
      }
      if u.stores[k].disk.trackingID in ids {
        var i :| 0 <= i < |ids| && ids[i] == u.stores[k].disk.trackingID;
        assert Paired(u, env, ids[i], env.volumes[i], s.volumes[i]);
        assert s.volumes[i].store.value.snapStoreID == k;
      }
    }
  }

  /** The stores of disks other than those, and their files. */
  function StoresOfOthers(t: Tables, ids: seq<string>): map<string, SnapStore> {
    map k | k in t.stores && t.stores[k].disk.trackingID !in ids :: t.stores[k]
  }

  function FilesOfOthers(t: Tables, ids: seq<string>): map<string, SnapStoreFile> {
    map f | f in t.files && t.files[f].storeID in t.stores &&
            t.stores[t.files[f].storeID].disk.trackingID !in ids :: t.files[f]
  }

  lemma StoresAfterRoundTrip(t: Tables, u: Tables, ids: seq<string>, gone: set<string>)
    requires Grew(t, u, ids)
    requires forall k | k in u.stores :: k in gone <==> u.stores[k].disk.trackingID in ids
    ensures DropStores(u, gone).stores == StoresOfOthers(t, ids)
  {
  }

  lemma FilesAfterRoundTrip(t: Tables, u: Tables, ids: seq<string>, gone: set<string>)
    requires Grew(t, u, ids)
    requires forall f | f in t.files :: t.files[f].storeID in t.stores
    requires forall k | k in u.stores :: k in gone <==> u.stores[k].disk.trackingID in ids
    ensures DropStores(u, gone).files == FilesOfOthers(t, ids)
  {
    var left, right := DropStores(u, gone).files, FilesOfOthers(t, ids);
    forall f ensures f in left <==> f in right {
      if f in t.files {
        var store := t.files[f].storeID;
        assert store in u.stores && u.stores[store].disk == t.stores[store].disk;
      }
    }
  }

  /** Deleting the snapshot just created restores the Snapshot, VolumeSnapshot and
      SnapshotImage tables exactly, and of the stores and files it removes precisely those of
      the disks involved; the kernel is asked for the very snapshot it created. */
  lemma CreateDeleteRoundTrip(t: Tables, u: Tables, ids: seq<string>, env: SnapshotEnv, s: Snapshot)
    requires Valid(t) && Valid(u) && Created(t, u, ids, env, s)
    ensures ParseUint(s.snapshotID) == Ok(env.ioctl.value)
    ensures Undone(t, RemoveSnapshot(DropStores(u, StoreIDs(s.volumes)), s.snapshotID), ids)
  {
    ParseOfPrint(env.ioctl.value);
    StoresOfSnapshot(u, ids, env, s);
    RowsAfterRoundTrip(t, u, ids, env, s);
    SnapshotRowsAfterRoundTrip(t, u, ids, env, s);
    PrepareTables(t, ids, env.stores, 0);
  }

  /** All that a create and a delete leave different from `t`. */
  ghost predicate Undone(t: Tables, u: Tables, ids: seq<string>) {
    u == t.(stores := StoresOfOthers(t, ids), files := FilesOfOthers(t, ids))
  }

  lemma SnapshotRowsAfterRoundTrip(t: Tables, u: Tables, ids: seq<string>, env: SnapshotEnv, s: Snapshot)
    requires Created(t, u, ids, env, s)
    ensures u.volumes - VolumeIDs(s.volumes) == t.volumes && u.images - ImageIDs(s.volumes) == t.images
    ensures u.snapshots - {s.snapshotID} == t.snapshots && u.snapshots[s.snapshotID] == s
  {
    assert u.snapshots - {s.snapshotID} == t.snapshots;
  }

  lemma RowsAfterRoundTrip(t: Tables, u: Tables, ids: seq<string>, env: SnapshotEnv, s: Snapshot)
    requires DisksKeyed(t) && FilesPlaced(t) && Created(t, u, ids, env, s)
    requires forall k | k in u.stores :: k in StoreIDs(s.volumes) <==> u.stores[k].disk.trackingID in ids
    ensures var d := DropStores(u, StoreIDs(s.volumes));
            d.stores == StoresOfOthers(t, ids) && d.files == FilesOfOthers(t, ids)
  {
    var grown := AfterPrepare(t, ids, env.stores, 0);
    PrepareGrows(t, ids, env.stores, 0);
    StoresAfterRoundTrip(t, grown, ids, StoreIDs(s.volumes));
    FilesAfterRoundTrip(t, grown, ids, StoreIDs(s.volumes));
  }

  /** The row just inserted, and that DeleteSnapshot finds a store in each of its volumes. */
  lemma CreatedRow(t: Tables, u: Tables, ids: seq<string>, env: SnapshotEnv, s: Snapshot)
    requires Created(t, u, ids, env, s)
    ensures s.snapshotID in u.snapshots && u.snapshots[s.snapshotID] == s
    ensures forall cleanup: string -> bool | (forall x :: cleanup(x)) :: Cleaned(s.volumes, cleanup) == |s.volumes|
  {
    assert forall k | 0 <= k < |ids| :: Paired(u, env, ids[k], env.volumes[k], s.volumes[k]);
  }
}
