/** What start-up achieves, exactly, and that repeating it changes nothing. */
module Restart {

  import opened Rows
  import opened Tables
  import opened Startup

  // ---------------------------------------------------------------- states only grow

  /** Everything start-up looks at in `w` is still there in `v`; snapshots, stores and files
      may have come and gone. */
  ghost predicate Extends(w: World, v: World) {
    && (forall k | k in w.db.disks :: k in v.db.disks && v.db.disks[k] == w.db.disks[k])
    && (forall k | k in w.db.locations :: k in v.db.locations && v.db.locations[k] == w.db.locations[k])
    && (forall k | k in w.db.mappings :: k in v.db.mappings && v.db.mappings[k] == w.db.mappings[k])
    && Tracked(w.cbt) <= Tracked(v.cbt)
  }

  lemma ExtendsSame(w: World, v: World)
    requires v.cbt == w.cbt
    requires v.db.disks == w.db.disks && v.db.locations == w.db.locations && v.db.mappings == w.db.mappings
    ensures Extends(w, v)
  {
  }

  lemma {:induction false} LocationsExtend(inv: Inventory, paths: seq<string>, i: nat, w: World)
    requires i <= |paths|
    ensures Extends(w, AddLocations(inv, paths, i, w).w)
    decreases |paths| - i
  {
    if i < |paths| && !Aborts(AddLocation(inv, paths[i], w)) {
      LocationsExtend(inv, paths, i + 1, AddLocation(inv, paths[i], w).w);
    }
  }

  lemma DiskExtends(inv: Inventory, cfg: Config, answered: bool, track: Option<MapSize>, path: string, w: World)
    ensures Extends(w, AddDisk(inv, cfg, answered, track, path, w).w)
  {
  }

  lemma ExtendsTrans(u: World, v: World, w: World)
    requires Extends(u, v) && Extends(v, w)
    ensures Extends(u, w)
  {
  }

  lemma {:induction false} DisksExtend(inv: Inventory, cfg: Config, env: Env, disks: seq<Volume>, i: nat, w: World)
    requires i <= |disks|
    ensures Extends(w, AddDisks(inv, cfg, env, disks, i, w).w)
    decreases |disks| - i
  {
    if i < |disks| {
      var o := AddDisk(inv, cfg, env.cbtAnswered(i), env.track(i), disks[i].path, w);
      DiskExtends(inv, cfg, env.cbtAnswered(i), env.track(i), disks[i].path, w);
      if o.error.None? {
        DisksExtend(inv, cfg, env, disks, i + 1, o.w);
        ExtendsTrans(w, o.w, AddDisks(inv, cfg, env, disks, i, w).w);
      }
    }
  }

  lemma {:induction false} MappingsExtend(env: Env, mappings: seq<ConfigMapping>, i: nat, w: World)
    requires i <= |mappings|
    ensures Extends(w, AddMappings(env, mappings, i, w).w)
    decreases |mappings| - i
  {
    if i < |mappings| && !Aborts(AddMapping(env.uuid(i), mappings[i], w)) {
      MappingsExtend(env, mappings, i + 1, AddMapping(env.uuid(i), mappings[i], w).w);
    }
  }

  // ---------------------------------------------------------------- settled

  /** Adding the location again would be a conflict. */
  ghost predicate LocationSettled(inv: Inventory, path: string, w: World) {
    AddLocation(inv, path, w) == Outcome(w, Some(Conflict))
  }

  ghost predicate DiskSettled(inv: Inventory, cfg: Config, path: string, w: World) {
    var v := Resolve(inv, cfg, path);
    v.Ok? && v.value.dev in Tracked(w.cbt) && HasRow(w.db, v.value.dev)
  }

  ghost predicate MappingSettled(m: ConfigMapping, w: World) {
    m.device in w.db.disks && IsMapped(w.db, m.device)
  }

  ghost predicate Settled(inv: Inventory, cfg: Config, w: World) {
    && (forall i | 0 <= i < |cfg.destinations| :: LocationSettled(inv, cfg.destinations[i], w))
    && (cfg.autoInit ==> DisksSettled(inv, cfg, w))
  }

  ghost predicate DisksSettled(inv: Inventory, cfg: Config, w: World) {
    && inv.physical.Ok?
    && (forall v | v in Eligible(inv.physical.value, cfg.cowDevices) :: DiskSettled(inv, cfg, v.path, w))
    && (forall i | 0 <= i < |cfg.mappings| :: MappingSettled(cfg.mappings[i], w))
  }

  lemma LocationStaysSettled(inv: Inventory, path: string, w: World, v: World)
    requires LocationSettled(inv, path, w) && Extends(w, v)
    ensures LocationSettled(inv, path, v)
  {
  }

  lemma SettledStays(inv: Inventory, cfg: Config, w: World, v: World)
    requires Settled(inv, cfg, w) && Extends(w, v)
    ensures Settled(inv, cfg, v)
  {
    forall i | 0 <= i < |cfg.destinations| ensures LocationSettled(inv, cfg.destinations[i], v) {
      LocationStaysSettled(inv, cfg.destinations[i], w, v);
    }
  }

  lemma {:induction false} LocationsSettle(inv: Inventory, paths: seq<string>, i: nat, w: World, j: nat)
    requires i <= j < |paths| && AddLocations(inv, paths, i, w).error.None?
    ensures LocationSettled(inv, paths[j], AddLocations(inv, paths, i, w).w)
    decreases |paths| - i
  {
    var o := AddLocation(inv, paths[i], w);
    if i == j {
      assert LocationSettled(inv, paths[i], o.w);
      LocationsExtend(inv, paths, i + 1, o.w);
      LocationStaysSettled(inv, paths[i], o.w, AddLocations(inv, paths, i + 1, o.w).w);
    } else {
      LocationsSettle(inv, paths, i + 1, o.w, j);
    }
  }

  lemma {:induction false} DisksSettle(inv: Inventory, cfg: Config, env: Env, disks: seq<Volume>, i: nat, w: World,
                                       j: nat)
    requires i <= j < |disks| && AddDisks(inv, cfg, env, disks, i, w).error.None?
    ensures DiskSettled(inv, cfg, disks[j].path, AddDisks(inv, cfg, env, disks, i, w).w)
    decreases |disks| - i
  {
    var o := AddDisk(inv, cfg, env.cbtAnswered(i), env.track(i), disks[i].path, w);
    if i == j {
      DiskSettles(inv, cfg, env.cbtAnswered(i), env.track(i), disks[i].path, w);
      DisksExtend(inv, cfg, env, disks, i + 1, o.w);
    } else {
      DisksSettle(inv, cfg, env, disks, i + 1, o.w, j);
    }
  }

  lemma DiskSettles(inv: Inventory, cfg: Config, answered: bool, track: Option<MapSize>, path: string, w: World)
    requires AddDisk(inv, cfg, answered, track, path, w).error.None?
    ensures DiskSettled(inv, cfg, path, AddDisk(inv, cfg, answered, track, path, w).w)
  {
    var v := Resolve(inv, cfg, path).value;
    var u := AddDisk(inv, cfg, answered, track, path, w).w;
    assert HasRow(w.db, v.dev) || u.db.disks[Base(v.path)].dev == v.dev;
  }

  lemma {:induction false} MappingsSettle(env: Env, mappings: seq<ConfigMapping>, i: nat, w: World, j: nat)
    requires i <= j < |mappings| && AddMappings(env, mappings, i, w).error.None?
    ensures MappingSettled(mappings[j], AddMappings(env, mappings, i, w).w)
    decreases |mappings| - i
  {
    var o := AddMapping(env.uuid(i), mappings[i], w);
    if i == j {
      assert IsMapped(w.db, mappings[i].device) || o.w.db.mappings[env.uuid(i)].diskID == mappings[i].device;
      MappingsExtend(env, mappings, i + 1, o.w);
    } else {
      MappingsSettle(env, mappings, i + 1, o.w, j);
    }
  }

  lemma InitSettles(inv: Inventory, cfg: Config, env: Env, w: World)
    requires cfg.autoInit && InitDisks(inv, cfg, env, w).error.None?
    ensures Extends(w, InitDisks(inv, cfg, env, w).w)
    ensures forall v | v in Eligible(inv.physical.value, cfg.cowDevices) ::
              DiskSettled(inv, cfg, v.path, InitDisks(inv, cfg, env, w).w)
    ensures forall i | 0 <= i < |cfg.mappings| :: MappingSettled(cfg.mappings[i], InitDisks(inv, cfg, env, w).w)
  {
    var disks := Eligible(inv.physical.value, cfg.cowDevices);
    var o := AddDisks(inv, cfg, env, disks, 0, w);
    DisksExtend(inv, cfg, env, disks, 0, w);
    MappingsExtend(env, cfg.mappings, 0, o.w);
    forall j | 0 <= j < |disks| ensures DiskSettled(inv, cfg, disks[j].path, o.w) {
      DisksSettle(inv, cfg, env, disks, 0, w, j);
    }
    forall i | 0 <= i < |cfg.mappings| ensures MappingSettled(cfg.mappings[i], InitDisks(inv, cfg, env, w).w) {
      MappingsSettle(env, cfg.mappings, 0, o.w, i);
    }
  }

  lemma StartupSettles(inv: Inventory, cfg: Config, env: Env, w: World)
    requires StartUp(inv, cfg, env, w).error.None?
    ensures Extends(w, StartUp(inv, cfg, env, w).w)
    ensures Settled(inv, cfg, StartUp(inv, cfg, env, w).w)
  {
    var o := AddLocations(inv, cfg.destinations, 0, w);
    LocationsExtend(inv, cfg.destinations, 0, w);
    if cfg.autoInit {
      InitSettles(inv, cfg, env, o.w);
    }
    forall i | 0 <= i < |cfg.destinations|
      ensures LocationSettled(inv, cfg.destinations[i], StartUp(inv, cfg, env, w).w)
    {
      LocationsSettle(inv, cfg.destinations, 0, w, i);
      LocationStaysSettled(inv, cfg.destinations[i], o.w, StartUp(inv, cfg, env, w).w);
    }
  }

  // ---------------------------------------------------------------- nothing left to do

  lemma {:induction false} LocationsIdle(inv: Inventory, paths: seq<string>, i: nat, w: World)
    requires i <= |paths| && forall j | 0 <= j < |paths| :: LocationSettled(inv, paths[j], w)
    ensures AddLocations(inv, paths, i, w) == Outcome(w, None)
    decreases |paths| - i
  {
    if i < |paths| {
      LocationsIdle(inv, paths, i + 1, w);
    }
  }

  lemma {:induction false} DisksIdle(inv: Inventory, cfg: Config, env: Env, disks: seq<Volume>, i: nat, w: World)
    requires i <= |disks| && forall v | v in disks :: DiskSettled(inv, cfg, v.path, w)
    ensures AddDisks(inv, cfg, env, disks, i, w).w == w
    ensures AddDisks(inv, cfg, env, disks, i, w).error.None? <==> forall j | i <= j < |disks| :: env.cbtAnswered(j)
    decreases |disks| - i
  {
    if i < |disks| {
      assert DiskSettled(inv, cfg, disks[i].path, w);
      DisksIdle(inv, cfg, env, disks, i + 1, w);
    }
  }

  lemma {:induction false} MappingsIdle(env: Env, mappings: seq<ConfigMapping>, i: nat, w: World)
    requires i <= |mappings| && forall j | 0 <= j < |mappings| :: MappingSettled(mappings[j], w)
    ensures AddMappings(env, mappings, i, w) == Outcome(w, None)
    decreases |mappings| - i
  {
    if i < |mappings| {
      assert MappingSettled(mappings[i], w);
      MappingsIdle(env, mappings, i + 1, w);
    }
  }

  /** Start-up is idempotent. Once it has succeeded, a later start-up on the same inventory
      and configuration changes neither a table nor the kernel's tracking, whatever UUIDs are
      drawn and whatever the kernel answers, and whatever snapshots were taken and deleted in
      between; it succeeds exactly when the kernel lists its tracked devices each time. */
  lemma RestartChangesNothing(inv: Inventory, cfg: Config, first: Env, w: World, again: Env, v: World)
    requires StartUp(inv, cfg, first, w).error.None?
    requires Extends(StartUp(inv, cfg, first, w).w, v)
    ensures StartUp(inv, cfg, again, v).w == v
    ensures StartUp(inv, cfg, again, v).error.None? <==>
              (cfg.autoInit ==> forall j | 0 <= j < |Eligible(inv.physical.value, cfg.cowDevices)| ::
                    again.cbtAnswered(j))
  {
    var u := StartUp(inv, cfg, first, w).w;
    StartupSettles(inv, cfg, first, w);
    SettledStays(inv, cfg, u, v);
    LocationsIdle(inv, cfg.destinations, 0, v);
    if cfg.autoInit {
      DisksIdle(inv, cfg, again, Eligible(inv.physical.value, cfg.cowDevices), 0, v);
      MappingsIdle(again, cfg.mappings, 0, v);
    }
  }

  // ---------------------------------------------------------------- what was done

  /** The device numbers of the disks start-up is to track. */
  ghost function Wanted(inv: Inventory, cfg: Config, disks: seq<Volume>): set<DevID> {
    set v | v in disks && Resolve(inv, cfg, v.path).Ok? :: Resolve(inv, cfg, v.path).value.dev
  }

  ghost function Devices(t: Tables): set<DevID> {
    set k | k in t.disks :: t.disks[k].dev
  }

  ghost predicate OnlyDisks(w: World, u: World) {
    u.db == w.db.(disks := u.db.disks)
  }

  lemma DiskExact(inv: Inventory, cfg: Config, answered: bool, track: Option<MapSize>, path: string, w: World)
    requires AddDisk(inv, cfg, answered, track, path, w).error.None?
    ensures var u := AddDisk(inv, cfg, answered, track, path, w).w;
            && Resolve(inv, cfg, path).Ok? && OnlyDisks(w, u)
            && Devices(u.db) == Devices(w.db) + {Resolve(inv, cfg, path).value.dev}
            && Tracked(u.cbt) == Tracked(w.cbt) + {Resolve(inv, cfg, path).value.dev}
  {
    var v := Resolve(inv, cfg, path).value;
    var u := AddDisk(inv, cfg, answered, track, path, w).w;
    if !HasRow(w.db, v.dev) {
      var id := Base(v.path);
      assert u.db.disks == w.db.disks[id := TrackedDisk(id, v.path, v.dev)];
      assert u.db.disks[id].dev == v.dev;
      assert forall k | k in w.db.disks :: u.db.disks[k] == w.db.disks[k];
    }
  }

  lemma {:induction false} DisksExact(inv: Inventory, cfg: Config, env: Env, disks: seq<Volume>, i: nat, w: World)
    requires i <= |disks| && AddDisks(inv, cfg, env, disks, i, w).error.None?
    ensures var u := AddDisks(inv, cfg, env, disks, i, w).w;
            && OnlyDisks(w, u)
            && Devices(u.db) == Devices(w.db) + Wanted(inv, cfg, disks[i..])
            && Tracked(u.cbt) == Tracked(w.cbt) + Wanted(inv, cfg, disks[i..])
    decreases |disks| - i
  {
    if i < |disks| {
      var o := AddDisk(inv, cfg, env.cbtAnswered(i), env.track(i), disks[i].path, w);
      DiskExact(inv, cfg, env.cbtAnswered(i), env.track(i), disks[i].path, w);
      DisksExact(inv, cfg, env, disks, i + 1, o.w);
      WantedCons(inv, cfg, disks, i);
    }
  }

  lemma WantedCons(inv: Inventory, cfg: Config, disks: seq<Volume>, i: nat)
    requires i < |disks| && Resolve(inv, cfg, disks[i].path).Ok?
    ensures Wanted(inv, cfg, disks[i..]) ==
            {Resolve(inv, cfg, disks[i].path).value.dev} + Wanted(inv, cfg, disks[i + 1..])
  {
    assert disks[i..] == [disks[i]] + disks[i + 1..];
  }

  /** Whether a configured destination is hosted, in whole or part, by a disk in the table. */
  ghost predicate HostedOnTracked(inv: Inventory, t: Tables, path: string) {
    && path in inv.hosts && inv.all.Ok? && PathOf(inv.all.value, inv.hosts[path]).Some?
    && OnTracked(t, Involved(inv.all.value, {PathOf(inv.all.value, inv.hosts[path]).value}))
  }

  lemma {:induction false} LocationsExact(inv: Inventory, paths: seq<string>, i: nat, w: World)
    requires i <= |paths| && AddLocations(inv, paths, i, w).error.None?
    ensures var u := AddLocations(inv, paths, i, w).w;
            && u == w.(db := w.db.(locations := u.db.locations))
            && forall p :: p in u.db.locations <==>
                 p in w.db.locations || (p in paths[i..] && !HostedOnTracked(inv, w.db, p))
    decreases |paths| - i
  {
    if i < |paths| {
      var o := AddLocation(inv, paths[i], w);
      LocationsExact(inv, paths, i + 1, o.w);
      assert paths[i..] == [paths[i]] + paths[i + 1..];
      assert forall p :: HostedOnTracked(inv, o.w.db, p) == HostedOnTracked(inv, w.db, p);
    }
  }

  ghost predicate OnlyMappings(w: World, u: World) {
    u == w.(db := w.db.(mappings := u.db.mappings))
  }

  lemma {:induction false} MappingsOnly(env: Env, mappings: seq<ConfigMapping>, i: nat, w: World)
    requires i <= |mappings|
    ensures OnlyMappings(w, AddMappings(env, mappings, i, w).w)
    decreases |mappings| - i
  {
    if i < |mappings| && !Aborts(AddMapping(env.uuid(i), mappings[i], w)) {
      MappingsOnly(env, mappings, i + 1, AddMapping(env.uuid(i), mappings[i], w).w);
    }
  }

  /** The whole effect of a successful start-up with automatic initialisation: the locations
      are the old ones and the destinations no tracked disk hosts; rows and kernel tracking
      both gain exactly the devices of the physical disks that hold no CoW destination;
      snapshots, stores and files are untouched. */
  lemma StartupExact(inv: Inventory, cfg: Config, env: Env, w: World)
    requires cfg.autoInit && StartUp(inv, cfg, env, w).error.None?
    ensures inv.physical.Ok?
    ensures var u := StartUp(inv, cfg, env, w).w;
            var wanted := Wanted(inv, cfg, Eligible(inv.physical.value, cfg.cowDevices));
            && u.db == w.db.(disks := u.db.disks, locations := u.db.locations, mappings := u.db.mappings)
            && Devices(u.db) == Devices(w.db) + wanted
            && Tracked(u.cbt) == Tracked(w.cbt) + wanted
            && forall p :: p in u.db.locations <==>
                 p in w.db.locations || (p in cfg.destinations && !HostedOnTracked(inv, w.db, p))
  {
    LocationsExact(inv, cfg.destinations, 0, w);
    var a := AddLocations(inv, cfg.destinations, 0, w).w;
    var disks := Eligible(inv.physical.value, cfg.cowDevices);
    DisksExact(inv, cfg, env, disks, 0, a);
    var b := AddDisks(inv, cfg, env, disks, 0, a).w;
    MappingsOnly(env, cfg.mappings, 0, b);
    assert cfg.destinations[0..] == cfg.destinations && disks[0..] == disks;
    assert Devices(a.db) == Devices(w.db);
  }

  /** Without automatic initialisation only locations are added. */
  lemma WithoutAutoInit(inv: Inventory, cfg: Config, env: Env, w: World)
    requires !cfg.autoInit && StartUp(inv, cfg, env, w).error.None?
    ensures var u := StartUp(inv, cfg, env, w).w;
            && u == w.(db := w.db.(locations := u.db.locations))
            && forall p :: p in u.db.locations <==>
                 p in w.db.locations || (p in cfg.destinations && !HostedOnTracked(inv, w.db, p))
  {
    LocationsExact(inv, cfg.destinations, 0, w);
    assert cfg.destinations[0..] == cfg.destinations;
  }

  /** Every newly tracked device is that of a listed volume that is not excluded, at the path
      of a physical disk that is not excluded either. */
  lemma NewlyTrackedIsEligible(inv: Inventory, cfg: Config, env: Env, w: World, dev: DevID)
    requires cfg.autoInit && StartUp(inv, cfg, env, w).error.None?
    requires dev in Tracked(StartUp(inv, cfg, env, w).w.cbt) && dev !in Tracked(w.cbt)
    ensures inv.all.Ok? && inv.physical.Ok?
    ensures exists v, p | v in inv.all.value && p in inv.physical.value ::
              v.dev == dev && v.path == p.path && !Excluded(v, cfg.cowDevices) && !Excluded(p, cfg.cowDevices)
  {
    StartupExact(inv, cfg, env, w);
    var disks := Eligible(inv.physical.value, cfg.cowDevices);
    var p :| p in disks && Resolve(inv, cfg, p.path).Ok? && Resolve(inv, cfg, p.path).value.dev == dev;
    EligibleIff(inv.all.value, cfg.cowDevices, Resolve(inv, cfg, p.path).value);
    EligibleIff(inv.physical.value, cfg.cowDevices, p);
  }

  /** A disk backing a CoW destination, by its own path or a partition's, is not newly
      tracked, unless the list gives its number to another volume as well. */
  lemma DestinationsStayUntracked(inv: Inventory, cfg: Config, env: Env, w: World, x: Volume)
    requires cfg.autoInit && StartUp(inv, cfg, env, w).error.None? && inv.all.Ok?
    requires x in inv.all.value && Excluded(x, cfg.cowDevices)
    requires forall v | v in inv.all.value && v != x :: v.dev != x.dev
    ensures x.dev in Tracked(StartUp(inv, cfg, env, w).w.cbt) ==> x.dev in Tracked(w.cbt)
  {
    if x.dev in Tracked(StartUp(inv, cfg, env, w).w.cbt) && x.dev !in Tracked(w.cbt) {
      NewlyTrackedIsEligible(inv, cfg, env, w, x.dev);
      assert false;
    }
  }

  // ---------------------------------------------------------------- names

  /** Nothing outside the agent stands in the way of the disk: it is listed, the kernel lists
      its tracked devices, and tracks this one or agrees to. */
  ghost predicate Trackable(inv: Inventory, cfg: Config, env: Env, i: nat, path: string, w: World) {
    && Resolve(inv, cfg, path).Ok? && env.cbtAnswered(i)
    && (Resolve(inv, cfg, path).value.dev in Tracked(w.cbt) || env.track(i).Some?)
  }

  /** The names are the last elements of the disks' paths. */
  ghost predicate NameDisks(disks: seq<Volume>, names: seq<string>) {
    && |names| == |disks|
    && forall k | 0 <= k < |disks| ::
         IsName(names[k]) && (disks[k].path == names[k] || exists dir :: disks[k].path == dir + "/" + names[k])
  }

  ghost predicate HaveBases(disks: seq<Volume>, names: seq<string>) {
    |names| == |disks| && forall k | 0 <= k < |disks| :: Base(disks[k].path) == names[k]
  }

  lemma NamesAreBases(disks: seq<Volume>, names: seq<string>)
    requires NameDisks(disks, names)
    ensures HaveBases(disks, names)
  {
    forall k | 0 <= k < |disks| ensures Base(disks[k].path) == names[k] {
      if dir :| disks[k].path == dir + "/" + names[k] {
        BaseIsLast(dir, names[k]);
      }
      BaseIsLast("", names[k]);
    }
  }

  /** From the i-th disk on, nothing stands in the way, and no name is taken or comes twice. */
  ghost predicate Addable(inv: Inventory, cfg: Config, env: Env, disks: seq<Volume>, names: seq<string>, i: nat,
                          w: World)
    requires |names| == |disks|
  {
    && (forall k | i <= k < |disks| :: Trackable(inv, cfg, env, k, disks[k].path, w) && names[k] !in w.db.disks)
    && (forall j, k | i <= j < k < |disks| :: names[j] != names[k])
  }

  lemma OneNamed(inv: Inventory, cfg: Config, env: Env, i: nat, path: string, w: World)
    requires Trackable(inv, cfg, env, i, path, w) && Base(path) !in w.db.disks
    ensures var o := AddDisk(inv, cfg, env.cbtAnswered(i), env.track(i), path, w);
            && o.error.None? && Tracked(w.cbt) <= Tracked(o.w.cbt)
            && o.w.db.disks.Keys <= w.db.disks.Keys + {Base(path)}
  {
    DiskExtends(inv, cfg, env.cbtAnswered(i), env.track(i), path, w);
    AddDiskIsAddRow(inv, cfg, env.cbtAnswered(i), env.track(i), path, w);
    ResolvedVolume(inv, cfg, path);
    NotRefused(inv, cfg, env, i, path, w);
  }

  lemma NotRefused(inv: Inventory, cfg: Config, env: Env, i: nat, path: string, w: World)
    requires Trackable(inv, cfg, env, i, path, w) && Base(path) !in w.db.disks
    ensures AddDisk(inv, cfg, env.cbtAnswered(i), env.track(i), path, w).error.None?
  {
    ResolvedVolume(inv, cfg, path);
  }

  lemma StillAddable(inv: Inventory, cfg: Config, env: Env, disks: seq<Volume>, names: seq<string>, i: nat, w: World,
                     u: World)
    requires |names| == |disks| && i < |disks| && Addable(inv, cfg, env, disks, names, i, w)
    requires Tracked(w.cbt) <= Tracked(u.cbt) && u.db.disks.Keys <= w.db.disks.Keys + {names[i]}
    ensures Addable(inv, cfg, env, disks, names, i + 1, u)
  {
    forall k | i < k < |disks| ensures Trackable(inv, cfg, env, k, disks[k].path, u) && names[k] !in u.db.disks {
      assert Trackable(inv, cfg, env, k, disks[k].path, w) && names[k] != names[i];
    }
  }

  lemma AddableNow(inv: Inventory, cfg: Config, env: Env, disks: seq<Volume>, names: seq<string>, i: nat, w: World)
    requires i < |disks| && HaveBases(disks, names) && Addable(inv, cfg, env, disks, names, i, w)
    ensures Trackable(inv, cfg, env, i, disks[i].path, w)
    ensures Base(disks[i].path) == names[i] && names[i] !in w.db.disks
  {
  }

  lemma {:induction false} AllAdded(inv: Inventory, cfg: Config, env: Env, disks: seq<Volume>, names: seq<string>,
                                    i: nat, w: World)
    requires i <= |disks| && HaveBases(disks, names) && Addable(inv, cfg, env, disks, names, i, w)
    ensures AddDisks(inv, cfg, env, disks, i, w).error.None?
    decreases |disks| - i
  {
    if i < |disks| {
      var o := AddDisk(inv, cfg, env.cbtAnswered(i), env.track(i), disks[i].path, w);
      AddableNow(inv, cfg, env, disks, names, i, w);
      OneNamed(inv, cfg, env, i, disks[i].path, w);
      StillAddable(inv, cfg, env, disks, names, i, w, o.w);
      AllAdded(inv, cfg, env, disks, names, i + 1, o.w);
    }
  }

  /** Start-up does not fail for want of an ID: disks nothing else stands in the way of are
      all added when the last elements of their paths are distinct and not taken. */
  lemma DistinctNamesSuffice(inv: Inventory, cfg: Config, env: Env, disks: seq<Volume>, names: seq<string>, w: World)
    requires NameDisks(disks, names) && Addable(inv, cfg, env, disks, names, 0, w)
    ensures AddDisks(inv, cfg, env, disks, 0, w).error.None?
  {
    NamesAreBases(disks, names);
    AllAdded(inv, cfg, env, disks, names, 0, w);
  }

  /** Then start-up as a whole can only fail over locations or mappings. */
  lemma StartUpFindsIDs(inv: Inventory, cfg: Config, env: Env, names: seq<string>, w: World)
    requires cfg.autoInit && inv.physical.Ok? && AddLocations(inv, cfg.destinations, 0, w).error.None?
    requires var disks := Eligible(inv.physical.value, cfg.cowDevices);
             NameDisks(disks, names) &&
             Addable(inv, cfg, env, disks, names, 0, AddLocations(inv, cfg.destinations, 0, w).w)
    ensures var u := AddDisks(inv, cfg, env, Eligible(inv.physical.value, cfg.cowDevices), 0,
                              AddLocations(inv, cfg.destinations, 0, w).w).w;
            StartUp(inv, cfg, env, w) == AddMappings(env, cfg.mappings, 0, u)
    ensures cfg.mappings == [] ==> StartUp(inv, cfg, env, w).error.None?
  {
    DistinctNamesSuffice(inv, cfg, env, Eligible(inv.physical.value, cfg.cowDevices), names,
                         AddLocations(inv, cfg.destinations, 0, w).w);
  }

  /** The row is that of a listed volume at the path, under the name. */
  ghost predicate RowOf(inv: Inventory, row: TrackedDisk, name: string, path: string) {
    && row.trackingID == name && row.path == path
    && inv.all.Ok? && exists v | v in inv.all.value :: v.path == path && v.dev == row.dev
  }

  lemma OneRow(inv: Inventory, cfg: Config, answered: bool, track: Option<MapSize>, path: string, w: World, x: string)
    requires x in AddDisk(inv, cfg, answered, track, path, w).w.db.disks && x !in w.db.disks
    ensures x == Base(path) && RowOf(inv, AddDisk(inv, cfg, answered, track, path, w).w.db.disks[x], x, path)
    ensures AddDisk(inv, cfg, answered, track, path, w).error.None?
  {
    AddDiskIsAddRow(inv, cfg, answered, track, path, w);
    ResolvedVolume(inv, cfg, path);
    AddRowAdds(w, Resolve(inv, cfg, path).value, x);
  }

  /** As far as the tables go, adding a disk is adding its row, if it gets that far. */
  lemma AddDiskIsAddRow(inv: Inventory, cfg: Config, answered: bool, track: Option<MapSize>, path: string, w: World)
    ensures var o, v := AddDisk(inv, cfg, answered, track, path, w), Resolve(inv, cfg, path);
            o.w.db == w.db || (v.Ok? && o.w.db == AddRow(w, v.value).w.db && o.error == AddRow(w, v.value).error)
  {
  }

  lemma AddRowAdds(w: World, v: Volume, x: string)
    requires x in AddRow(w, v).w.db.disks && x !in w.db.disks
    ensures x == Base(v.path) && AddRow(w, v).w.db.disks[x] == TrackedDisk(x, v.path, v.dev) && AddRow(w, v).error.None?
  {
  }

  lemma {:induction false} NewRow(inv: Inventory, cfg: Config, env: Env, disks: seq<Volume>, i: nat, w: World,
                                  x: string)
    requires i <= |disks| && x in AddDisks(inv, cfg, env, disks, i, w).w.db.disks && x !in w.db.disks
    ensures exists k | i <= k < |disks| ::
              && x == Base(disks[k].path)
              && RowOf(inv, AddDisks(inv, cfg, env, disks, i, w).w.db.disks[x], x, disks[k].path)
    decreases |disks| - i
  {
    if i < |disks| {
      var o := AddDisk(inv, cfg, env.cbtAnswered(i), env.track(i), disks[i].path, w);
      if x in o.w.db.disks {
        OneRow(inv, cfg, env.cbtAnswered(i), env.track(i), disks[i].path, w, x);
        DisksExtend(inv, cfg, env, disks, i + 1, o.w);
      } else {
        NewRow(inv, cfg, env, disks, i + 1, o.w, x);
      }
    }
  }

  /** Every row start-up adds is that of a disk it was to add, under the last element of the
      disk's path. */
  lemma RowsAreNamed(inv: Inventory, cfg: Config, env: Env, disks: seq<Volume>, names: seq<string>, w: World, x: string)
    requires NameDisks(disks, names)
    requires x in AddDisks(inv, cfg, env, disks, 0, w).w.db.disks && x !in w.db.disks
    ensures exists k | 0 <= k < |disks| ::
              x == names[k] && RowOf(inv, AddDisks(inv, cfg, env, disks, 0, w).w.db.disks[x], names[k], disks[k].path)
  {
    NamesAreBases(disks, names);
    NewRow(inv, cfg, env, disks, 0, w, x);
  }

  // ---------------------------------------------------------------- duplicate mappings

  /** No entry before i speaks of the disk, and the tables map it nowhere: then at i it is
      still unmapped. */
  lemma {:induction false} FirstMapping(env: Env, mappings: seq<ConfigMapping>, i: nat, w: World, j: nat)
    requires i <= j < |mappings| && AddMappings(env, mappings, i, w).error.None?
    requires !IsMapped(w.db, mappings[j].device)
    requires forall k | i <= k < j :: mappings[k].device != mappings[j].device
    ensures var u := AddMappings(env, mappings, i, w).w;
            env.uuid(j) in u.db.mappings
            && u.db.mappings[env.uuid(j)] == Mapping(env.uuid(j), mappings[j].device, mappings[j].location)
    decreases |mappings| - i
  {
    var o := AddMapping(env.uuid(i), mappings[i], w);
    if i == j {
      MappingsExtend(env, mappings, i + 1, o.w);
    } else {
      FirstMapping(env, mappings, i + 1, o.w, j);
    }
  }

  /** Of several configured mappings of one disk the first counts: on tables that map the
      disk nowhere, the one row it gets is the first entry's. */
  lemma FirstMappingWins(inv: Inventory, cfg: Config, env: Env, w: World, j: nat)
    requires cfg.autoInit && StartUp(inv, cfg, env, w).error.None? && Valid(w.db)
    requires j < |cfg.mappings| && !IsMapped(w.db, cfg.mappings[j].device)
    requires forall k | 0 <= k < j :: cfg.mappings[k].device != cfg.mappings[j].device
    ensures var u := StartUp(inv, cfg, env, w).w.db;
            forall k | k in u.mappings && u.mappings[k].diskID == cfg.mappings[j].device ::
              u.mappings[k].location == cfg.mappings[j].location
    ensures IsMapped(StartUp(inv, cfg, env, w).w.db, cfg.mappings[j].device)
  {
    LocationsExact(inv, cfg.destinations, 0, w);
    var a := AddLocations(inv, cfg.destinations, 0, w).w;
    var disks := Eligible(inv.physical.value, cfg.cowDevices);
    DisksExact(inv, cfg, env, disks, 0, a);
    var b := AddDisks(inv, cfg, env, disks, 0, a).w;
    FirstMapping(env, cfg.mappings, 0, b, j);
    StartupKeepsValid(inv, cfg, env, w);
  }

  // ---------------------------------------------------------------- the tables' invariant

  /** What concerns disks, locations and mappings, and nothing else. */
  ghost predicate Setup(t: Tables) {
    && DisksOk(t)
    && (forall k | k in t.disks :: t.disks[k].trackingID == k && k != "")
    && (forall k | k in t.mappings :: t.mappings[k].trackingID == k)
  }

  lemma DiskKeeps(inv: Inventory, cfg: Config, answered: bool, track: Option<MapSize>, path: string, w: World)
    requires Setup(w.db)
    ensures Setup(AddDisk(inv, cfg, answered, track, path, w).w.db)
    ensures OnlyDisks(w, AddDisk(inv, cfg, answered, track, path, w).w)
  {
  }

  lemma {:induction false} DisksKeep(inv: Inventory, cfg: Config, env: Env, disks: seq<Volume>, i: nat, w: World)
    requires i <= |disks| && Setup(w.db)
    ensures Setup(AddDisks(inv, cfg, env, disks, i, w).w.db)
    ensures OnlyDisks(w, AddDisks(inv, cfg, env, disks, i, w).w)
    decreases |disks| - i
  {
    if i < |disks| {
      var o := AddDisk(inv, cfg, env.cbtAnswered(i), env.track(i), disks[i].path, w);
      DiskKeeps(inv, cfg, env.cbtAnswered(i), env.track(i), disks[i].path, w);
      if o.error.None? {
        DisksKeep(inv, cfg, env, disks, i + 1, o.w);
      }
    }
  }

  lemma {:induction false} MappingsKeep(env: Env, mappings: seq<ConfigMapping>, i: nat, w: World)
    requires i <= |mappings| && Setup(w.db)
    ensures Setup(AddMappings(env, mappings, i, w).w.db)
    decreases |mappings| - i
  {
    if i < |mappings| {
      var o := AddMapping(env.uuid(i), mappings[i], w);
      assert Setup(o.w.db);
      if !Aborts(o) {
        MappingsKeep(env, mappings, i + 1, o.w);
      }
    }
  }

  lemma {:induction false} LocationsOnly(inv: Inventory, paths: seq<string>, i: nat, w: World)
    requires i <= |paths|
    ensures var u := AddLocations(inv, paths, i, w).w; u == w.(db := w.db.(locations := u.db.locations))
    decreases |paths| - i
  {
    if i < |paths| {
      LocationOnly(inv, paths[i], w);
    }
    if i < |paths| && !Aborts(AddLocation(inv, paths[i], w)) {
      LocationsOnly(inv, paths, i + 1, AddLocation(inv, paths[i], w).w);
    }
  }

  /** Whether it succeeds or stops half-way, start-up keeps the tables' invariant. */
  lemma StartupKeepsValid(inv: Inventory, cfg: Config, env: Env, w: World)
    requires Valid(w.db)
    ensures Valid(StartUp(inv, cfg, env, w).w.db)
  {
    LocationsOnly(inv, cfg.destinations, 0, w);
    var a := AddLocations(inv, cfg.destinations, 0, w).w;
    if cfg.autoInit && inv.physical.Ok? {
      var disks := Eligible(inv.physical.value, cfg.cowDevices);
      DisksKeep(inv, cfg, env, disks, 0, a);
      var b := AddDisks(inv, cfg, env, disks, 0, a).w;
      MappingsKeep(env, cfg.mappings, 0, b);
      MappingsOnly(env, cfg.mappings, 0, b);
    }
    SetupSuffices(w.db, StartUp(inv, cfg, env, w).w.db);
  }

  /** Adding a location touches nothing else, and removes none. */
  lemma LocationOnly(inv: Inventory, path: string, w: World)
    ensures var u := AddLocation(inv, path, w).w;
            && u == w.(db := w.db.(locations := u.db.locations))
            && forall k | k in w.db.locations :: k in u.db.locations && u.db.locations[k] == w.db.locations[k]
  {
  }

  lemma MoreLocations(w: World, u: World)
    requires Valid(w.db) && u == w.(db := w.db.(locations := u.db.locations))
    requires forall k | k in w.db.locations :: k in u.db.locations && u.db.locations[k] == w.db.locations[k]
    ensures Valid(u.db) && Extends(w, u)
  {
    SetupSuffices(w.db, u.db);
  }

  lemma LocationKeeps(inv: Inventory, path: string, w: World)
    requires Valid(w.db)
    ensures Valid(AddLocation(inv, path, w).w.db) && Extends(w, AddLocation(inv, path, w).w)
  {
    LocationOnly(inv, path, w);
    MoreLocations(w, AddLocation(inv, path, w).w);
  }

  lemma DiskKeepsValid(inv: Inventory, cfg: Config, answered: bool, track: Option<MapSize>, path: string, w: World)
    requires Valid(w.db)
    ensures Valid(AddDisk(inv, cfg, answered, track, path, w).w.db)
    ensures Extends(w, AddDisk(inv, cfg, answered, track, path, w).w)
  {
    DiskKeeps(inv, cfg, answered, track, path, w);
    DiskExtends(inv, cfg, answered, track, path, w);
    SetupSuffices(w.db, AddDisk(inv, cfg, answered, track, path, w).w.db);
  }

  lemma MappingKeepsValid(uuid: string, m: ConfigMapping, w: World)
    requires Valid(w.db)
    ensures Valid(AddMapping(uuid, m, w).w.db) && Extends(w, AddMapping(uuid, m, w).w)
  {
    MappingExact(uuid, m, w);
    SetupSuffices(w.db, AddMapping(uuid, m, w).w.db);
  }

  /** What a mapping means: a disk has at most one, a second is a conflict, a failure changes
      nothing, and a success adds exactly this disk at this location, which is where the
      disk's store will lie. */
  lemma MappingExact(uuid: string, m: ConfigMapping, w: World)
    requires Setup(w.db)
    ensures var o := AddMapping(uuid, m, w);
            && (o.error == Some(Conflict) <==> m.device in w.db.disks && exists location ::
                  MapsTo(w.db, m.device, location))
            && (o.error.Some? ==> o.w == w)
            && (o.error.None? <==>
                  && m.device in w.db.disks && (forall location :: !MapsTo(w.db, m.device, location))
                  && m.location in w.db.locations && uuid !in w.db.mappings)
            && (forall disk, location :: MapsTo(o.w.db, disk, location) <==>
                  MapsTo(w.db, disk, location) || (o.error.None? && disk == m.device && location == m.location))
            && (o.error.None? ==> IsPlaced(o.w.db, m.device) && LocationOf(o.w.db, m.device) == m.location)
            && Setup(o.w.db)
  {
    var o := AddMapping(uuid, m, w);
    if k :| k in w.db.mappings && w.db.mappings[k].diskID == m.device {
      assert MapsTo(w.db, m.device, w.db.mappings[k].location);
    }
    if o.error.None? {
      var u := o.w.db;
      assert u.mappings[uuid] == Mapping(uuid, m.device, m.location);
      PlacedAt(u, m.device, uuid);
      forall disk, location ensures MapsTo(u, disk, location) <==>
          MapsTo(w.db, disk, location) || (disk == m.device && location == m.location) {
        if k :| k in w.db.mappings && w.db.mappings[k].diskID == disk && w.db.mappings[k].location == location {
          assert u.mappings[k] == w.db.mappings[k];
        }
      }
    }
  }

  lemma SetupSuffices(t: Tables, u: Tables)
    requires Valid(t) && Setup(u)
    requires u == t.(disks := u.disks, locations := u.locations, mappings := u.mappings)
    ensures Valid(u)
  {
    SnapshotsUntouched(t, u);
    forall s | s in u.stores ensures FilesOfStore(u, s) == FilesOfStore(t, s) {
    }
  }
}
