/** worker/manager/initialization.go, and the operations it folds over the configuration:
    AddSnapStoreLocation, AddTrackedDisk, CreateSnapStoreMapping. The block device list, the
    file systems and the kernel's tracking list are the environment. */
module Startup {

  import opened Rows
  import opened Tables

  datatype Partition = Partition(path: string, dev: DevID)

  datatype Volume = Volume(path: string, dev: DevID, partitions: seq<Partition>, isVirtual: bool, slaves: seq<string>)

  /** BlockDeviceList without and with virtual and swap devices, and the device holding each
      path that stat and statfs can reach. */
  datatype Inventory = Inventory(physical: Result<seq<Volume>>, all: Result<seq<Volume>>, hosts: map<string, DevID>)

  datatype ConfigMapping = ConfigMapping(device: string, location: string)

  datatype Config = Config(autoInit: bool, destinations: seq<string>, cowDevices: seq<string>,
                           mappings: seq<ConfigMapping>)

  /** A device under tracking has a change map. */
  type MapSize = n: nat | n > 0 witness 1

  /** The kernel's answers for the i-th disk, and the UUID drawn for the i-th mapping. */
  datatype Env = Env(cbtAnswered: nat -> bool, track: nat -> Option<MapSize>, uuid: nat -> string)

  /** What start-up can change: the tables, and the kernel's list of tracked devices. */
  datatype World = World(db: Tables, cbt: seq<CBTInfo>)

  datatype Outcome = Outcome(w: World, error: Option<Error>)

  // ---------------------------------------------------------------- devices

  /** deviceIsTracked: an entry with an empty map does not count. */
  function Tracked(cbt: seq<CBTInfo>): set<DevID> {
    set i | 0 <= i < |cbt| && cbt[i].mapSize > 0 :: cbt[i].dev
  }

  method DeviceIsTracked(cbt: seq<CBTInfo>, dev: DevID) returns (tracked: bool)
    ensures tracked <==> exists i | 0 <= i < |cbt| ::
              cbt[i].dev.major == dev.major && cbt[i].dev.minor == dev.minor && cbt[i].mapSize > 0
    ensures tracked <==> dev in Tracked(cbt)
  {
    for i := 0 to |cbt|
      invariant forall j | 0 <= j < i :: !(cbt[j].dev == dev && cbt[j].mapSize > 0)
    {
      if cbt[i].dev == dev && cbt[i].mapSize > 0 {
        return true;
      }
    }
    return false;
  }

  predicate IsPath(v: Volume, path: string) {
    v.path == path || exists i | 0 <= i < |v.partitions| :: v.partitions[i].path == path
  }

  /** listDisks leaves out a disk that is, or has a partition that is, a CoW destination. */
  predicate Excluded(v: Volume, cowDevices: seq<string>) {
    exists i | 0 <= i < |cowDevices| :: IsPath(v, cowDevices[i])
  }

  function Eligible(devices: seq<Volume>, cowDevices: seq<string>): seq<Volume> {
    if devices == [] then []
    else (if Excluded(devices[0], cowDevices) then [] else [devices[0]]) + Eligible(devices[1..], cowDevices)
  }

  lemma {:induction false} EligibleIff(devices: seq<Volume>, cowDevices: seq<string>, v: Volume)
    ensures v in Eligible(devices, cowDevices) <==> v in devices && !Excluded(v, cowDevices)
  {
    if devices != [] {
      EligibleIff(devices[1..], cowDevices, v);
      assert devices == [devices[0]] + devices[1..];
    }
  }

  /** The list keeps its order. */
  lemma {:induction false} EligibleConcat(a: seq<Volume>, b: seq<Volume>, cowDevices: seq<string>)
    ensures Eligible(a + b, cowDevices) == Eligible(a, cowDevices) + Eligible(b, cowDevices)
  {
    if a == [] {
      assert a + b == b;
    } else {
      EligibleConcat(a[1..], b, cowDevices);
      var own := if Excluded(a[0], cowDevices) then [] else [a[0]];
      assert (a + b)[0] == a[0] && (a + b)[1..] == a[1..] + b;
      assert own + (Eligible(a[1..], cowDevices) + Eligible(b, cowDevices)) ==
             (own + Eligible(a[1..], cowDevices)) + Eligible(b, cowDevices);
    }
  }

  /** Which volumes are left: those that neither are nor contain a CoW destination. */
  lemma EligibleByPaths(devices: seq<Volume>, cowDevices: seq<string>)
    ensures forall v :: v in Eligible(devices, cowDevices) <==>
              v in devices && v.path !in cowDevices &&
              forall p | 0 <= p < |v.partitions| :: v.partitions[p].path !in cowDevices
  {
    forall v ensures v in Eligible(devices, cowDevices) <==>
        v in devices && v.path !in cowDevices &&
        forall p | 0 <= p < |v.partitions| :: v.partitions[p].path !in cowDevices
    {
      EligibleIff(devices, cowDevices, v);
      ExcludedByPaths(v, cowDevices);
    }
  }

  lemma ExcludedByPaths(v: Volume, cowDevices: seq<string>)
    ensures Excluded(v, cowDevices) <==>
              v.path in cowDevices || exists p | 0 <= p < |v.partitions| :: v.partitions[p].path in cowDevices
  {
    if v.path in cowDevices {
      var i :| 0 <= i < |cowDevices| && cowDevices[i] == v.path;
      assert IsPath(v, cowDevices[i]);
    }
    if p :| 0 <= p < |v.partitions| && v.partitions[p].path in cowDevices {
      var i :| 0 <= i < |cowDevices| && cowDevices[i] == v.partitions[p].path;
      assert IsPath(v, cowDevices[i]);
    }
  }

  method ListDisks(devices: seq<Volume>, cowDevices: seq<string>) returns (disks: seq<Volume>)
    ensures disks == Eligible(devices, cowDevices)
    ensures forall v :: v in disks <==>
              v in devices && v.path !in cowDevices &&
              forall p | 0 <= p < |v.partitions| :: v.partitions[p].path !in cowDevices
  {
    disks := [];
    for i := 0 to |devices|
      invariant disks == Eligible(devices[..i], cowDevices)
    {
      var exclude := false;
      for j := 0 to |cowDevices|
        invariant exclude <==> exists k | 0 <= k < j :: IsPath(devices[i], cowDevices[k])
      {
        if cowDevices[j] == devices[i].path {
          exclude := true;
          break;
        }
        for p := 0 to |devices[i].partitions|
          invariant exclude <==> (exists k | 0 <= k < j :: IsPath(devices[i], cowDevices[k])) ||
                                 (exists k | 0 <= k < p :: devices[i].partitions[k].path == cowDevices[j])
        {
          if devices[i].partitions[p].path == cowDevices[j] {
            exclude := true;
            break;
          }
        }
      }
      EligibleConcat(devices[..i], [devices[i]], cowDevices);
      assert [devices[i]][1..] == [];
      assert devices[..i + 1] == devices[..i] + [devices[i]];
      if exclude {
        continue;
      }
      disks := disks + [devices[i]];
    }
    assert devices[..|devices|] == devices;
    EligibleByPaths(devices, cowDevices);
  }

  /** findDiskByPath, on the list listDisks(true, true) gives. */
  function FirstAt(disks: seq<Volume>, path: string): (r: Result<Volume>)
    ensures r.Ok? ==> r.value in disks && r.value.path == path
    ensures r.Err? ==> r.error == NotFound && forall v | v in disks :: v.path != path
  {
    if disks == [] then Err(NotFound)
    else if disks[0].path == path then Ok(disks[0])
    else FirstAt(disks[1..], path)
  }

  /** The first volume with that path. */
  lemma {:induction false} FirstAtIsFirst(disks: seq<Volume>, path: string)
    ensures FirstAt(disks, path).Ok? <==> exists i | 0 <= i < |disks| :: disks[i].path == path
    ensures FirstAt(disks, path).Ok? ==> exists i | 0 <= i < |disks| ::
              && FirstAt(disks, path).value == disks[i] && disks[i].path == path
              && forall j | 0 <= j < i :: disks[j].path != path
  {
    if disks != [] && disks[0].path != path {
      var rest := disks[1..];
      FirstAtIsFirst(rest, path);
      assert forall i | 0 <= i < |rest| :: rest[i] == disks[i + 1];
      if FirstAt(rest, path).Ok? {
        var i :| 0 <= i < |rest| && FirstAt(rest, path).value == rest[i] && rest[i].path == path &&
                 forall j | 0 <= j < i :: rest[j].path != path;
        assert disks[i + 1].path == path && forall j | 0 <= j < i + 1 :: disks[j].path != path;
      } else {
        assert forall i | 1 <= i < |disks| :: disks[i] == rest[i - 1];
      }
    } else if disks != [] {
      assert disks[0].path == path;
    }
  }

  function PartitionPath(parts: seq<Partition>, dev: DevID): Option<string> {
    if parts == [] then None
    else if parts[0].dev == dev then Some(parts[0].path)
    else PartitionPath(parts[1..], dev)
  }

  /** FindDeviceByID: the path of the first volume or partition with that number. */
  function PathOf(devices: seq<Volume>, dev: DevID): Option<string> {
    if devices == [] then None
    else if devices[0].dev == dev then Some(devices[0].path)
    else
      var p := PartitionPath(devices[0].partitions, dev);
      if p.Some? then p else PathOf(devices[1..], dev)
  }

  /** The volume, or one of its partitions, has the number. */
  predicate Carries(v: Volume, dev: DevID) {
    v.dev == dev || exists p | 0 <= p < |v.partitions| :: v.partitions[p].dev == dev
  }

  lemma {:induction false} PartitionPathIsFirst(parts: seq<Partition>, dev: DevID)
    ensures PartitionPath(parts, dev).Some? <==> exists p | 0 <= p < |parts| :: parts[p].dev == dev
    ensures PartitionPath(parts, dev).Some? ==> exists p | 0 <= p < |parts| ::
              && PartitionPath(parts, dev).value == parts[p].path && parts[p].dev == dev
              && forall j | 0 <= j < p :: parts[j].dev != dev
  {
    if parts != [] && parts[0].dev != dev {
      var rest := parts[1..];
      PartitionPathIsFirst(rest, dev);
      assert forall p | 0 <= p < |rest| :: rest[p] == parts[p + 1];
      if PartitionPath(rest, dev).Some? {
        var p :| 0 <= p < |rest| && PartitionPath(rest, dev).value == rest[p].path && rest[p].dev == dev &&
                 forall j | 0 <= j < p :: rest[j].dev != dev;
        assert parts[p + 1].dev == dev && forall j | 0 <= j < p + 1 :: parts[j].dev != dev;
      } else {
        assert forall p | 1 <= p < |parts| :: parts[p] == rest[p - 1];
      }
    } else if parts != [] {
      assert parts[0].dev == dev;
    }
  }

  /** A volume's own path or that of its first partition with the number. */
  predicate NamedBy(v: Volume, dev: DevID, path: string) {
    if v.dev == dev then path == v.path
    else exists p | 0 <= p < |v.partitions| ::
           && v.partitions[p].dev == dev && v.partitions[p].path == path
           && forall j | 0 <= j < p :: v.partitions[j].dev != dev
  }

  /** FindDeviceByID succeeds iff some volume or partition has the number, and then names the
      first volume that does. */
  lemma {:induction false} PathOfIsFirst(devices: seq<Volume>, dev: DevID)
    ensures PathOf(devices, dev).Some? <==> exists i | 0 <= i < |devices| :: Carries(devices[i], dev)
    ensures PathOf(devices, dev).Some? ==> exists i | 0 <= i < |devices| ::
              NamedBy(devices[i], dev, PathOf(devices, dev).value) && forall j | 0 <= j < i :: !Carries(devices[j], dev)
  {
    if devices != [] {
      var v, rest := devices[0], devices[1..];
      PartitionPathIsFirst(v.partitions, dev);
      assert forall i | 0 <= i < |rest| :: rest[i] == devices[i + 1];
      if Carries(v, dev) {
        assert NamedBy(devices[0], dev, PathOf(devices, dev).value);
      } else {
        PathOfIsFirst(rest, dev);
        if PathOf(rest, dev).Some? {
          var i :| 0 <= i < |rest| && NamedBy(rest[i], dev, PathOf(rest, dev).value) &&
                   forall j | 0 <= j < i :: !Carries(rest[j], dev);
          assert NamedBy(devices[i + 1], dev, PathOf(devices, dev).value);
          assert Carries(devices[i + 1], dev);
          forall j | 0 <= j < i + 1 ensures !Carries(devices[j], dev) {
            if j > 0 {
              assert devices[j] == rest[j - 1];
            }
          }
        } else {
          forall i | 0 <= i < |devices| ensures !Carries(devices[i], dev) {
            if i > 0 {
              assert devices[i] == rest[i - 1];
            }
          }
        }
      }
    }
  }

  /** A volume takes part when it, or its first partition, is one of the paths. */
  predicate TakesPart(v: Volume, paths: set<string>) {
    v.path in paths || (|v.partitions| > 0 && v.partitions[0].path in paths)
  }

  /** With a volume that takes part comes, if it is virtual, everything under it. */
  function Contribution(v: Volume, paths: set<string>): set<string> {
    if !TakesPart(v, paths) then {}
    else {v.path} + (if v.isVirtual then set s | s in v.slaves else {})
  }

  ghost function Involved(devices: seq<Volume>, paths: set<string>): set<string> {
    set i, p | 0 <= i < |devices| && p in Contribution(devices[i], paths) :: p
  }

  /** FindAllInvolvedDevices after its device numbers were resolved to `paths`. */
  method FindAllInvolvedDevices(devices: seq<Volume>, paths: set<string>) returns (involved: seq<string>)
    ensures forall p :: p in involved <==> p in Involved(devices, paths)
    ensures forall p :: p in involved <==> exists i | 0 <= i < |devices| ::
              && (devices[i].path in paths || (|devices[i].partitions| > 0 && devices[i].partitions[0].path in paths))
              && (p == devices[i].path || (devices[i].isVirtual && p in devices[i].slaves))
  {
    InvolvedByPaths(devices, paths);
    involved := [];
    for i := 0 to |devices|
      invariant forall p :: p in involved <==> p in Involved(devices[..i], paths)
    {
      var v := devices[i];
      var found := false;
      ghost var was := involved;
      if v.path in paths {
        involved := involved + [v.path];
        found := true;
      } else {
        for j := 0 to |v.partitions|
          invariant j == 0 && !found && involved == was
        {
          if v.partitions[j].path in paths {
            involved := involved + [v.path];
            found := true;
          }
          break;
        }
      }
      if found && v.isVirtual {
        involved := involved + v.slaves;
      }
      assert forall p :: p in involved <==> p in was || p in Contribution(v, paths);
      InvolvedSnoc(devices, paths, i);
    }
    assert devices[..|devices|] == devices;
  }

  lemma InvolvedByPaths(devices: seq<Volume>, paths: set<string>)
    ensures forall p :: p in Involved(devices, paths) <==> exists i | 0 <= i < |devices| ::
              && (devices[i].path in paths || (|devices[i].partitions| > 0 && devices[i].partitions[0].path in paths))
              && (p == devices[i].path || (devices[i].isVirtual && p in devices[i].slaves))
  {
    forall p
      ensures p in Involved(devices, paths) <==> exists i | 0 <= i < |devices| ::
                && (devices[i].path in paths ||
                    (|devices[i].partitions| > 0 && devices[i].partitions[0].path in paths))
                && (p == devices[i].path || (devices[i].isVirtual && p in devices[i].slaves))
    {
      forall i | 0 <= i < |devices|
        ensures p in Contribution(devices[i], paths) <==>
                  && (devices[i].path in paths ||
                      (|devices[i].partitions| > 0 && devices[i].partitions[0].path in paths))
                  && (p == devices[i].path || (devices[i].isVirtual && p in devices[i].slaves))
      {
        assert p in Contribution(devices[i], paths) ==> TakesPart(devices[i], paths);
      }
      assert p in Involved(devices, paths) <==> exists i | 0 <= i < |devices| :: p in Contribution(devices[i], paths);
    }
  }

  lemma InvolvedSnoc(devices: seq<Volume>, paths: set<string>, i: nat)
    requires i < |devices|
    ensures Involved(devices[..i + 1], paths) == Involved(devices[..i], paths) + Contribution(devices[i], paths)
  {
    var a, b := devices[..i], devices[..i + 1];
    assert forall j | 0 <= j < i :: a[j] == b[j];
    assert b[i] == devices[i];
  }

  /** filepath.Base. */
  function Base(path: string): (r: string)
    ensures r != ""
    ensures r == "/" || '/' !in r
  {
    if path == "" then "." else
    var trimmed := TrimSlashes(path);
    if trimmed == "" then "/" else LastElement(trimmed)
  }

  function TrimSlashes(path: string): (r: string)
    ensures r == "" || r[|r| - 1] != '/'
  {
    if path != "" && path[|path| - 1] == '/' then TrimSlashes(path[..|path| - 1]) else path
  }

  function LastElement(path: string): (r: string)
    ensures '/' !in r
    ensures path != "" && path[|path| - 1] != '/' ==> r != ""
  {
    if path == "" || path[|path| - 1] == '/' then ""
    else LastElement(path[..|path| - 1]) + [path[|path| - 1]]
  }

  /** `name` is an element of a path. */
  predicate IsName(name: string) { name != "" && '/' !in name }

  lemma {:induction false} LastElementOf(dir: string, name: string)
    requires '/' !in name && (dir == "" || dir[|dir| - 1] == '/')
    ensures LastElement(dir + name) == name
    decreases |name|
  {
    if name == "" {
      assert dir + name == dir;
    } else {
      var path, front := dir + name, name[..|name| - 1];
      LastElementOf(dir, front);
      assert path[..|path| - 1] == dir + front && path[|path| - 1] == name[|name| - 1];
      assert name[|name| - 1] in name;
      assert name == front + [name[|name| - 1]];
    }
  }

  /** The base of a path is what follows its last slash. */
  lemma BaseIsLast(dir: string, name: string)
    requires IsName(name)
    ensures Base(name) == name && Base(dir + "/" + name) == name
  {
    LastElementOf("", name);
    assert "" + name == name;
    LastElementOf(dir + "/", name);
    assert name[|name| - 1] in name;
  }

  // ---------------------------------------------------------------- the operations

  predicate OnTracked(t: Tables, involved: set<string>) {
    exists k | k in t.disks :: t.disks[k].path in involved
  }

  ghost function AddLocation(inv: Inventory, path: string, w: World): Outcome {
    if path !in inv.hosts || inv.all.Err? then Outcome(w, Some(Failed))
    else
      var devPath := PathOf(inv.all.value, inv.hosts[path]);
      if devPath.None? then Outcome(w, Some(NotFound))
      else if OnTracked(w.db, Involved(inv.all.value, {devPath.value})) || path in w.db.locations then
        Outcome(w, Some(Conflict))
      else
        Outcome(w.(db := w.db.(locations := w.db.locations[path := devPath.value])), None)
  }

  predicate HasRow(t: Tables, dev: DevID) {
    exists k | k in t.disks :: t.disks[k].dev == dev
  }

  /** The volume AddTrackedDisk works on. */
  function Resolve(inv: Inventory, cfg: Config, path: string): Result<Volume> {
    if inv.all.Err? then Err(Failed)
    else if path == "" then Err(NotFound)
    else FirstAt(Eligible(inv.all.value, cfg.cowDevices), path)
  }

  /** A listed volume with that path that is not, and does not contain, a CoW destination. */
  lemma ResolvedVolume(inv: Inventory, cfg: Config, path: string)
    requires Resolve(inv, cfg, path).Ok?
    ensures var v := Resolve(inv, cfg, path).value;
            && inv.all.Ok? && v in inv.all.value && v.path == path && path != "" && path !in cfg.cowDevices
            && forall p | 0 <= p < |v.partitions| :: v.partitions[p].path !in cfg.cowDevices
  {
    EligibleByPaths(inv.all.value, cfg.cowDevices);
  }

  function AddTracking(cbt: seq<CBTInfo>, dev: DevID, size: MapSize): (r: seq<CBTInfo>)
    ensures Tracked(r) == Tracked(cbt) + {dev}
  {
    var r := cbt + [CBTInfo(dev, size, 0, "")];
    assert r[|cbt|].dev == dev;
    assert forall i | 0 <= i < |cbt| :: r[i] == cbt[i];
    r
  }

  function AddRow(w: World, v: Volume): Outcome {
    var id := Base(v.path);
    if HasRow(w.db, v.dev) then Outcome(w, None)
    else if id in w.db.disks then Outcome(w, Some(Failed))
    else Outcome(w.(db := w.db.(disks := w.db.disks[id := TrackedDisk(id, v.path, v.dev)])), None)
  }

  function AddDisk(inv: Inventory, cfg: Config, answered: bool, track: Option<MapSize>, path: string,
                   w: World): Outcome {
    var v := Resolve(inv, cfg, path);
    if v.Err? then Outcome(w, Some(v.error))
    else if !answered then Outcome(w, Some(Failed))
    else if v.value.dev in Tracked(w.cbt) then AddRow(w, v.value)
    else if track.None? then Outcome(w, Some(Failed))
    else AddRow(w.(cbt := AddTracking(w.cbt, v.value.dev, track.value)), v.value)
  }

  predicate IsMapped(t: Tables, disk: string) {
    exists k | k in t.mappings :: t.mappings[k].diskID == disk
  }

  function AddMapping(uuid: string, m: ConfigMapping, w: World): Outcome {
    if m.device !in w.db.disks then Outcome(w, Some(Failed))
    else if IsMapped(w.db, m.device) then Outcome(w, Some(Conflict))
    else if m.location !in w.db.locations then Outcome(w, Some(NotFound))
    else if uuid in w.db.mappings then Outcome(w, Some(Failed))
    else Outcome(w.(db := w.db.(mappings := w.db.mappings[uuid := Mapping(uuid, m.device, m.location)])), None)
  }

  // ---------------------------------------------------------------- the folds

  /** Only a conflict is passed over. */
  predicate Aborts(o: Outcome) {
    o.error.Some? && o.error != Some(Conflict)
  }

  ghost function AddLocations(inv: Inventory, paths: seq<string>, i: nat, w: World): Outcome
    requires i <= |paths|
    decreases |paths| - i
  {
    if i == |paths| then Outcome(w, None)
    else
      var o := AddLocation(inv, paths[i], w);
      if Aborts(o) then o else AddLocations(inv, paths, i + 1, o.w)
  }

  function AddDisks(inv: Inventory, cfg: Config, env: Env, disks: seq<Volume>, i: nat, w: World): Outcome
    requires i <= |disks|
    decreases |disks| - i
  {
    if i == |disks| then Outcome(w, None)
    else
      var o := AddDisk(inv, cfg, env.cbtAnswered(i), env.track(i), disks[i].path, w);
      if o.error.Some? then o else AddDisks(inv, cfg, env, disks, i + 1, o.w)
  }

  function AddMappings(env: Env, mappings: seq<ConfigMapping>, i: nat, w: World): Outcome
    requires i <= |mappings|
    decreases |mappings| - i
  {
    if i == |mappings| then Outcome(w, None)
    else
      var o := AddMapping(env.uuid(i), mappings[i], w);
      if Aborts(o) then o else AddMappings(env, mappings, i + 1, o.w)
  }

  function InitDisks(inv: Inventory, cfg: Config, env: Env, w: World): Outcome {
    if !cfg.autoInit then Outcome(w, None)
    else if inv.physical.Err? then Outcome(w, Some(Failed))
    else
      var o := AddDisks(inv, cfg, env, Eligible(inv.physical.value, cfg.cowDevices), 0, w);
      if o.error.Some? then o else AddMappings(env, cfg.mappings, 0, o.w)
  }

  ghost function StartUp(inv: Inventory, cfg: Config, env: Env, w: World): Outcome {
    var o := AddLocations(inv, cfg.destinations, 0, w);
    if o.error.Some? then o else InitDisks(inv, cfg, env, o.w)
  }
}
