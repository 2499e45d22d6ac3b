/**
  The addresses that a script has resolved: qml_engine_functions keeps what an address led to,
  and forgets all of it whenever a device or a tree changes.  Every method is one region under
  the lock, so that any interleaving of threads is a sequence of calls of these methods.
 */
module AddressCache {
  import opened Common

  /** Devices are compared by their address in memory, nodes are numbered within a device, and
      a tree is whatever the lookup functions below can tell about it. */
  type Device = nat
  type Node = nat
  type Tree = nat

  /** A parameter of a device, or a pattern that is matched anew at each use. */
  datatype Destination = Parameter(device: Device, node: Node) | Path(pattern: string)

  /** What the engine asks the devices and the parser for; any such functions will do. */
  datatype Lookup = Lookup(
    nameOf: Device -> string,
    findNode: (Tree, string) -> Option<Node>,
    root: Node,
    hasParameter: (Tree, Node) -> bool,
    isPath: string -> bool)

  function IndexOf(s: string, c: char): (d: int)
    ensures -1 <= d < |s|
    ensures d == -1 <==> c !in s
    ensures d >= 0 ==> s[d] == c && forall i :: 0 <= i < d ==> s[i] != c
  {
    if s == [] then -1
    else if s[0] == c then 0
    else
      var k := IndexOf(s[1..], c);
      if k == -1 then -1
      else
        assert s[..k + 1] == [s[0]] + s[1..][..k];
        k + 1
  }

  // ------------------------------------------------------------------ resolving an address

  function TreeOf(trees: map<Device, Tree>, dev: Device): Tree {
    if dev in trees then trees[dev] else 0
  }

  /** The parameter at a path of one device. */
  function InDevice(l: Lookup, trees: map<Device, Tree>, dev: Device, path: string): Option<Destination> {
    var tree := TreeOf(trees, dev);
    match l.findNode(tree, path)
    case Some(node) => if l.hasParameter(tree, node) then Some(Parameter(dev, node)) else None
    case None => None
  }

  /** The first device of the list that has a node at this path decides. */
  function InFirst(l: Lookup, trees: map<Device, Tree>, devices: seq<Device>, path: string): Option<Destination> {
    if devices == [] then None
    else if l.findNode(TreeOf(trees, devices[0]), path).Some? then InDevice(l, trees, devices[0], path)
    else InFirst(l, trees, devices[1..], path)
  }

  function Named(l: Lookup, devices: seq<Device>, name: string): (r: Option<Device>)
    ensures r.Some? ==> r.value in devices && l.nameOf(r.value) == name
    ensures r.None? ==> forall i :: 0 <= i < |devices| ==> l.nameOf(devices[i]) != name
  {
    if devices == [] then None
    else if l.nameOf(devices[0]) == name then Some(devices[0])
    else Named(l, devices[1..], name)
  }

  /** What an address names, resolved against the devices as they are. */
  function Fresh(l: Lookup, trees: map<Device, Tree>, devices: seq<Device>, own: Option<Device>, address: string)
    : Option<Destination>
  {
    var d := IndexOf(address, ':');
    var found :=
      if d == -1 then
        if own.Some? then InDevice(l, trees, own.value, address) else InFirst(l, trees, devices, address)
      else
        match Named(l, devices, address[..d])
        case None => None
        case Some(dev) =>
          if d == |address| - 1 && l.hasParameter(TreeOf(trees, dev), l.root) then Some(Parameter(dev, l.root))
          else InDevice(l, trees, dev, address[d + 1..]);
    if found.Some? then found
    else if l.isPath(address) then Some(Path(address))
    else None
  }

  /** The device has this node at the path, and the node has a parameter. */
  predicate HasAt(l: Lookup, trees: map<Device, Tree>, dev: Device, path: string, node: Node) {
    l.findNode(TreeOf(trees, dev), path) == Some(node) && l.hasParameter(TreeOf(trees, dev), node)
  }

  /** The device is number `k` of the list, and the first one that has any node at the path. */
  ghost predicate FirstWith(
    l: Lookup, trees: map<Device, Tree>, devices: seq<Device>, path: string, dev: Device, k: nat)
  {
    && k < |devices| && devices[k] == dev && l.findNode(TreeOf(trees, dev), path).Some?
    && forall i :: 0 <= i < k ==> l.findNode(TreeOf(trees, devices[i]), path).None?
  }

  /** The device is number `k` of the list, and the first one of that name. */
  ghost predicate FirstNamed(l: Lookup, devices: seq<Device>, name: string, dev: Device, k: nat) {
    && k < |devices| && devices[k] == dev && l.nameOf(dev) == name
    && forall i :: 0 <= i < k ==> l.nameOf(devices[i]) != name
  }

  /** What it means that an address names a node of a device.  Without a colon it is a path, in the
      script's own device if there is one, and otherwise in the first device that knows it.  In
      front of the first colon stands the name of a device, behind it a path; an address that ends
      there names the root. */
  ghost predicate Names(
    l: Lookup, trees: map<Device, Tree>, devices: seq<Device>, own: Option<Device>, address: string,
    dev: Device, node: Node)
  {
    if ':' !in address then
      && HasAt(l, trees, dev, address, node)
      && if own.Some? then own.value == dev else exists k :: FirstWith(l, trees, devices, address, dev, k)
    else
      exists d, k :: 0 <= d < |address| && address[d] == ':' && ':' !in address[..d]
        && FirstNamed(l, devices, address[..d], dev, k)
        && if d == |address| - 1 && l.hasParameter(TreeOf(trees, dev), l.root) then node == l.root
           else HasAt(l, trees, dev, address[d + 1..], node)
  }

  lemma {:induction false} InFirstIs(
    l: Lookup, trees: map<Device, Tree>, devices: seq<Device>, path: string, dev: Device, node: Node)
    ensures InFirst(l, trees, devices, path) == Some(Parameter(dev, node))
        <==> HasAt(l, trees, dev, path, node) && exists k :: FirstWith(l, trees, devices, path, dev, k)
  {
    if devices != [] {
      if l.findNode(TreeOf(trees, devices[0]), path).Some? {
        assert FirstWith(l, trees, devices, path, devices[0], 0);
      } else {
        InFirstIs(l, trees, devices[1..], path, dev, node);
        OneDeviceMore(l, trees, devices, path, dev);
      }
    }
  }

  lemma OneDeviceMore(l: Lookup, trees: map<Device, Tree>, devices: seq<Device>, path: string, dev: Device)
    requires devices != [] && l.findNode(TreeOf(trees, devices[0]), path).None?
    ensures (exists k :: FirstWith(l, trees, devices, path, dev, k))
        <==> exists k :: FirstWith(l, trees, devices[1..], path, dev, k)
  {
    if k: nat :| FirstWith(l, trees, devices, path, dev, k) {
      assert FirstWith(l, trees, devices[1..], path, dev, k - 1);
    }
    if k: nat :| FirstWith(l, trees, devices[1..], path, dev, k) {
      assert FirstWith(l, trees, devices, path, dev, k + 1);
    }
  }

  lemma {:induction false} NamedIsFirst(l: Lookup, devices: seq<Device>, name: string, dev: Device)
    ensures Named(l, devices, name) == Some(dev) <==> exists k :: FirstNamed(l, devices, name, dev, k)
  {
    if devices != [] {
      if l.nameOf(devices[0]) == name {
        assert FirstNamed(l, devices, name, devices[0], 0);
      } else {
        NamedIsFirst(l, devices[1..], name, dev);
        if k: nat :| FirstNamed(l, devices, name, dev, k) {
          assert FirstNamed(l, devices[1..], name, dev, k - 1);
        }
        if k: nat :| FirstNamed(l, devices[1..], name, dev, k) {
          assert FirstNamed(l, devices, name, dev, k + 1);
        }
      }
    }
  }

  lemma FirstColon(address: string, d: nat)
    requires d < |address| && address[d] == ':' && ':' !in address[..d]
    ensures IndexOf(address, ':') == d
  {
    assert forall i :: 0 <= i < d ==> address[i] == address[..d][i];
  }

  /** A qualified address, by its first colon. */
  lemma QualifiedIs(
    l: Lookup, trees: map<Device, Tree>, devices: seq<Device>, own: Option<Device>, address: string, d: nat,
    dev: Device, node: Node)
    requires d == IndexOf(address, ':')
    ensures d < |address| && address[d] == ':' && ':' !in address[..d]
    ensures Names(l, trees, devices, own, address, dev, node)
        <==> Named(l, devices, address[..d]) == Some(dev)
             && if d == |address| - 1 && l.hasParameter(TreeOf(trees, dev), l.root) then node == l.root
                else HasAt(l, trees, dev, address[d + 1..], node)
  {
    hide HasAt, FirstNamed, Named, IndexOf;
    NamedIsFirst(l, devices, address[..d], dev);
    assert address[d] in address;
    if Names(l, trees, devices, own, address, dev, node) {
      var e, k: nat :| 0 <= e < |address| && address[e] == ':' && ':' !in address[..e]
        && FirstNamed(l, devices, address[..e], dev, k)
        && if e == |address| - 1 && l.hasParameter(TreeOf(trees, dev), l.root) then node == l.root
           else HasAt(l, trees, dev, address[e + 1..], node);
      FirstColon(address, e);
    }
  }

  lemma InDeviceIs(l: Lookup, trees: map<Device, Tree>, dev: Device, path: string, node: Node)
    ensures InDevice(l, trees, dev, path) == Some(Parameter(dev, node)) <==> HasAt(l, trees, dev, path, node)
    ensures InDevice(l, trees, dev, path).Some? ==>
      InDevice(l, trees, dev, path).value.Parameter? && InDevice(l, trees, dev, path).value.device == dev
  {
  }

  /** An address without a colon. */
  lemma UnqualifiedIs(
    l: Lookup, trees: map<Device, Tree>, devices: seq<Device>, own: Option<Device>, address: string,
    dev: Device, node: Node)
    requires ':' !in address
    ensures var r := if own.Some? then InDevice(l, trees, own.value, address) else InFirst(l, trees, devices, address);
            && (r == Some(Parameter(dev, node)) <==> Names(l, trees, devices, own, address, dev, node))
            && (r.Some? ==> r.value.Parameter?)
  {
    hide InFirst, InDevice, HasAt, FirstWith, FirstNamed;
    if own.Some? { InDeviceIs(l, trees, own.value, address, node); }
    InFirstOnly(l, trees, devices, address);
    InFirstIs(l, trees, devices, address, dev, node);
  }

  /** An address leads to the parameter of the node that it names; if it names none that has one,
      it leads to itself if it is a pattern, and to nothing otherwise. */
  lemma FreshIs(
    l: Lookup, trees: map<Device, Tree>, devices: seq<Device>, own: Option<Device>, address: string,
    dev: Device, node: Node)
    ensures var r := Fresh(l, trees, devices, own, address);
            && (r == Some(Parameter(dev, node)) <==> Names(l, trees, devices, own, address, dev, node))
            && (r.Some? && r.value.Path? ==> r.value.pattern == address)
            && (r.None? || r.value.Path? ==> (r.Some? <==> l.isPath(address)))
  {
    hide Names, Named, IndexOf, InFirst, InDevice, HasAt;
    var d := IndexOf(address, ':');
    if d == -1 {
      UnqualifiedIs(l, trees, devices, own, address, dev, node);
    } else {
      QualifiedIs(l, trees, devices, own, address, d, dev, node);
      var named := Named(l, devices, address[..d]);
      if named.Some? { InDeviceIs(l, trees, named.value, address[d + 1..], node); }
    }
  }

  lemma {:induction false} InFirstOnly(l: Lookup, trees: map<Device, Tree>, devices: seq<Device>, path: string)
    ensures InFirst(l, trees, devices, path).Some? ==> InFirst(l, trees, devices, path).value.Parameter?
  {
    if devices != [] {
      InFirstOnly(l, trees, devices[1..], path);
    }
  }

  /** A parameter is found in a device of the list or in the script's own one. */
  lemma FreshIsInDevices(
    l: Lookup, trees: map<Device, Tree>, devices: seq<Device>, own: Option<Device>, address: string)
    ensures var r := Fresh(l, trees, devices, own, address);
            r.Some? && r.value.Parameter? ==>
              && (r.value.device in devices || own == Some(r.value.device))
              && l.hasParameter(TreeOf(trees, r.value.device), r.value.node)
  {
    InFirstIsInDevices(l, trees, devices, address);
  }

  lemma {:induction false} InFirstIsInDevices(l: Lookup, trees: map<Device, Tree>, devices: seq<Device>, path: string)
    ensures var r := InFirst(l, trees, devices, path);
            r.Some? ==> r.value.Parameter? && r.value.device in devices
                        && l.hasParameter(TreeOf(trees, r.value.device), r.value.node)
  {
    if devices != [] {
      InFirstIsInDevices(l, trees, devices[1..], path);
    }
  }

  // ------------------------------------------------------------------ sorted device lists

  predicate Ascending(s: seq<Device>) {
    forall i, j :: 0 <= i < j < |s| ==> s[i] < s[j]
  }

  function Insert(s: seq<Device>, d: Device): seq<Device> {
    if s == [] || d < s[0] then [d] + s
    else if d == s[0] then s
    else [s[0]] + Insert(s[1..], d)
  }

  function SortedUnique(s: seq<Device>): seq<Device> {
    if s == [] then [] else Insert(SortedUnique(s[1..]), s[0])
  }

  lemma {:induction false} InsertSorts(s: seq<Device>, d: Device)
    requires Ascending(s)
    ensures Ascending(Insert(s, d)) && forall e :: e in Insert(s, d) <==> e == d || e in s
  {
    hide Ascending;
    if s != [] {
      AscendingTail(s);
    }
    if s == [] || d < s[0] {
      AscendingCons(d, s);
    } else if d > s[0] {
      InsertSorts(s[1..], d);
      AscendingCons(s[0], Insert(s[1..], d));
    }
  }

  lemma AscendingTail(s: seq<Device>)
    requires Ascending(s) && s != []
    ensures Ascending(s[1..]) && (forall e :: e in s[1..] ==> s[0] < e)
    ensures forall e :: e in s <==> e == s[0] || e in s[1..]
  {
    assert s == [s[0]] + s[1..];
  }

  lemma AscendingCons(d: Device, s: seq<Device>)
    requires Ascending(s) && forall e :: e in s ==> d < e
    ensures Ascending([d] + s)
  {
    assert forall i :: 0 <= i < |s| ==> s[i] in s;
  }

  /** Sorting and dropping duplicates gives the one ascending list of the same devices. */
  lemma {:induction false} SortedUniqueIs(s: seq<Device>)
    ensures Ascending(SortedUnique(s)) && forall e :: e in SortedUnique(s) <==> e in s
  {
    if s != [] {
      SortedUniqueIs(s[1..]);
      InsertSorts(SortedUnique(s[1..]), s[0]);
      assert s == [s[0]] + s[1..];
    }
  }

  function Without(s: seq<Device>, d: Device): (r: seq<Device>)
    ensures d !in r && forall e :: e in r ==> e in s
    ensures forall e :: e in s && e != d ==> e in r
  {
    if s == [] then []
    else if s[0] == d then Without(s[1..], d)
    else [s[0]] + Without(s[1..], d)
  }

  /** The other devices stay in order. */
  lemma {:induction false} WithoutInOrder(a: seq<Device>, b: seq<Device>, d: Device)
    ensures Without(a + b, d) == Without(a, d) + Without(b, d)
    ensures forall e: Device :: Without([e], d) == if e == d then [] else [e]
    decreases |a|
  {
    if a == [] {
      assert a + b == b;
    } else {
      assert (a + b)[1..] == a[1..] + b;
      WithoutInOrder(a[1..], b, d);
    }
  }

  /** The list with one more device, as addDevice makes it. */
  function Added(devices: seq<Device>, d: Device): (r: seq<Device>)
    ensures forall e :: e in r <==> e in devices || e == d
    ensures if devices == [] then r == [d] else Ascending(r)
  {
    if devices == [] then [d]
    else
      SortedUniqueIs(devices + [d]);
      SortedUnique(devices + [d])
  }

  // ------------------------------------------------------------------ runs

  /** What a thread does while it holds the lock.  setDevice takes it twice: it is Owning and
      then, if there is a device, Adding. */
  datatype Region =
    | Setting(list: seq<Device>)
    | Adding(device: Option<Device>)
    | Removing(removed: Device)
    | Owning(own: Option<Device>)
    | Disabling
    | Accessing(address: string)
    | Editing(edit: Tree -> Tree)

  /** Which devices addresses are resolved in. */
  datatype Scope = Scope(devices: seq<Device>, own: Option<Device>, enabled: bool)

  function After(s: Scope, r: Region): Scope {
    match r
    case Setting(list) => if s.enabled then s.(devices := list) else s
    case Adding(device) => if s.enabled && device.Some? then s.(devices := Added(s.devices, device.value)) else s
    case Removing(d) => s.(devices := Without(s.devices, d), own := if s.own == Some(d) then None else s.own)
    case Owning(own) => if s.enabled then s.(own := own) else s
    case Disabling => Scope([], None, false)
    case _ => s
  }

  function AfterRun(s: Scope, rs: seq<Region>): Scope {
    if rs == [] then s else After(AfterRun(s, rs[..|rs| - 1]), rs[|rs| - 1])
  }

  /** The region sees to it that the device is in the list, or that it is not. */
  predicate Lists(r: Region, d: Device) {
    r == Adding(Some(d)) || (r.Setting? && d in r.list)
  }

  predicate Unlists(r: Region, d: Device) {
    r == Removing(d) || r == Disabling || (r.Setting? && d !in r.list)
  }

  predicate Owns(r: Region, d: Device) {
    r == Owning(Some(d))
  }

  predicate Disowns(r: Region, d: Device) {
    r == Removing(d) || r == Disabling || (r.Owning? && r.own != Some(d))
  }

  /** Some region listed the device, and none that came later unlisted it. */
  ghost predicate ListedLast(rs: seq<Region>, d: Device) {
    exists k :: 0 <= k < |rs| && Lists(rs[k], d) && forall j :: k < j < |rs| ==> !Unlists(rs[j], d)
  }

  ghost predicate OwnedLast(rs: seq<Region>, d: Device) {
    exists k :: 0 <= k < |rs| && Owns(rs[k], d) && forall j :: k < j < |rs| ==> !Disowns(rs[j], d)
  }

  lemma ListedStep(rs: seq<Region>, d: Device)
    requires rs != []
    ensures var front, last := rs[..|rs| - 1], rs[|rs| - 1];
            ListedLast(rs, d) <==> Lists(last, d) || (ListedLast(front, d) && !Unlists(last, d))
  {
    var front, last := rs[..|rs| - 1], rs[|rs| - 1];
    if Lists(last, d) {
      assert ListedLast(rs, d);
    } else if ListedLast(front, d) && !Unlists(last, d) {
      var k :| 0 <= k < |front| && Lists(front[k], d) && forall j :: k < j < |front| ==> !Unlists(front[j], d);
      forall j | k < j < |rs|
        ensures !Unlists(rs[j], d)
      {
        assert j < |front| ==> front[j] == rs[j];
      }
      assert Lists(rs[k], d);
    }
  }

  lemma OwnedStep(rs: seq<Region>, d: Device)
    requires rs != []
    ensures var front, last := rs[..|rs| - 1], rs[|rs| - 1];
            OwnedLast(rs, d) <==> Owns(last, d) || (OwnedLast(front, d) && !Disowns(last, d))
  {
    var front, last := rs[..|rs| - 1], rs[|rs| - 1];
    if Owns(last, d) {
      assert OwnedLast(rs, d);
    } else if OwnedLast(front, d) && !Disowns(last, d) {
      var k :| 0 <= k < |front| && Owns(front[k], d) && forall j :: k < j < |front| ==> !Disowns(front[j], d);
      forall j | k < j < |rs|
        ensures !Disowns(rs[j], d)
      {
        assert j < |front| ==> front[j] == rs[j];
      }
      assert Owns(rs[k], d);
    }
  }

  /** Behind a removal of the device, it is in the list exactly when some region put it there
      after the last one that took it out, and the script's own device exactly when it was made
      so after the last change of that; and neither once the engine is disabled. */
  lemma {:induction false} BehindRemoval(s: Scope, rs: seq<Region>, d: Device)
    requires d !in s.devices && s.own != Some(d) && (!s.enabled ==> s.devices == [] && s.own == None)
    ensures var r := AfterRun(s, rs);
            && (!r.enabled ==> r.devices == [] && r.own == None)
            && (d in r.devices <==> r.enabled && ListedLast(rs, d))
            && (r.own == Some(d) <==> r.enabled && OwnedLast(rs, d))
    decreases |rs|
  {
    hide ListedLast, OwnedLast;
    if rs == [] {
      NothingListed(d);
    } else {
      ListedStep(rs, d);
      OwnedStep(rs, d);
      BehindRemoval(s, rs[..|rs| - 1], d);
    }
  }

  lemma NothingListed(d: Device)
    ensures !ListedLast([], d) && !OwnedLast([], d)
  {
  }

  /** So a removed device comes back when setDevice takes the lock for the second time. */
  lemma RemovedDeviceComesBack(s: Scope, d: Device)
    requires s.enabled
    ensures d in AfterRun(s, [Owning(Some(d)), Removing(d), Adding(Some(d))]).devices
  {
    var rs := [Owning(Some(d)), Removing(d), Adding(Some(d))];
    assert rs[..2] == [Owning(Some(d)), Removing(d)] && rs[..2][..1] == [Owning(Some(d))];
    assert AfterRun(s, rs[..2][..1]).enabled && AfterRun(s, rs[..2]).enabled;
  }

  // ------------------------------------------------------------------ the engine functions

  class EngineFunctions {
    const lookup: Lookup
    var devices: seq<Device>
    var own: Option<Device>
    var enabled: bool
    var cache: map<string, Destination>
    var deferring: bool            // a tree editor is set, which runs edits later
    var trees: map<Device, Tree>   // the trees of the devices, which belong to the document

    ghost function Resolved(address: string): Option<Destination>
      reads this
    {
      Fresh(lookup, trees, devices, own, address)
    }

    /** Whatever the cache knows is what the address names now. */
    ghost predicate Valid()
      reads this
    {
      && (forall a :: a in cache ==> Resolved(a) == Some(cache[a]))
      && (!enabled ==> devices == [] && own == None && cache == map[])
    }

    ghost function InScope(): Scope
      reads this
    {
      Scope(devices, own, enabled)
    }

    constructor (lookup: Lookup, state: seq<Device>, trees: map<Device, Tree>)
      ensures Valid() && enabled && devices == state && own == None && this.trees == trees && this.lookup == lookup
    {
      this.lookup, this.trees := lookup, trees;
      devices, own, enabled, cache, deferring := state, None, true, map[], false;
    }

    /** A parameter in the cache is one of a device that is still there, and exists. */
    lemma NoStaleParameter(address: string)
      requires Valid() && address in cache && cache[address].Parameter?
      ensures var dev := cache[address].device;
              && (dev in devices || own == Some(dev))
              && lookup.hasParameter(TreeOf(trees, dev), cache[address].node)
    {
      FreshIsInDevices(lookup, trees, devices, own, address);
    }

    method FindAddress(address: string) returns (r: Option<Destination>)
      requires Valid() && enabled
      modifies `cache
      ensures Valid() && r == Resolved(address)
      ensures cache == if r.Some? then old(cache)[address := r.value] else old(cache)
    {
      if address in cache {
        return Some(cache[address]);
      }
      r := Resolve(address);
      if r.Some? {
        cache := cache[address := r.value];
      }
    }

    /** What find_address does when the cache does not know the address. */
    method Resolve(address: string) returns (r: Option<Destination>)
      ensures r == Resolved(address)
    {
      var d := IndexOf(address, ':');
      r := None;
      if d == -1 {
        if own.Some? {
          r := InDevice(lookup, trees, own.value, address);
        } else {
          r := FindInDevices(address);
        }
      } else {
        var dev := FindDevice(address[..d]);
        if dev.Some? {
          if d == |address| - 1 {
            if lookup.hasParameter(TreeOf(trees, dev.value), lookup.root) {
              return Some(Parameter(dev.value, lookup.root));
            }
          }
          r := InDevice(lookup, trees, dev.value, address[d + 1..]);
        }
      }
      if r.None? && lookup.isPath(address) {
        r := Some(Path(address));
      }
    }

    /** The static find_node: the first device that has such a node. */
    method FindInDevices(path: string) returns (r: Option<Destination>)
      ensures r == InFirst(lookup, trees, devices, path)
    {
      assert devices[0..] == devices;
      for i := 0 to |devices|
        invariant InFirst(lookup, trees, devices[i..], path) == InFirst(lookup, trees, devices, path)
      {
        assert devices[i..][1..] == devices[i + 1..];
        if lookup.findNode(TreeOf(trees, devices[i]), path).Some? {
          return InDevice(lookup, trees, devices[i], path);
        }
      }
      r := None;
    }

    method FindDevice(name: string) returns (r: Option<Device>)
      ensures r == Named(lookup, devices, name)
    {
      assert devices[0..] == devices;
      for i := 0 to |devices|
        invariant Named(lookup, devices[i..], name) == Named(lookup, devices, name)
      {
        assert devices[i..][1..] == devices[i + 1..];
        if lookup.nameOf(devices[i]) == name {
          return Some(devices[i]);
        }
      }
      r := None;
    }

    /** `find`, `read` and `write` begin like this, and do nothing for None. */
    method Access(address: string) returns (r: Option<Destination>)
      requires Valid()
      modifies `cache
      ensures Valid() && r == if enabled then Resolved(address) else None
      ensures !enabled ==> cache == map[]
    {
      if !enabled {
        return None;
      }
      r := FindAddress(address);
    }

    method SetDevices(list: seq<Device>)
      requires Valid()
      modifies `devices, `cache
      ensures Valid() && InScope() == After(old(InScope()), Setting(list))
      ensures enabled ==> devices == list && cache == map[]
    {
      if enabled {
        devices := list;
        cache := map[];
      }
    }

    /** The new device takes its place by its address, not behind the others. */
    method AddDevice(device: Option<Device>)
      requires Valid()
      modifies `devices, `cache
      ensures Valid() && InScope() == After(old(InScope()), Adding(device))
      ensures enabled && device.Some? ==>
        (forall e :: e in devices <==> e in old(devices) || e == device.value) && cache == map[]
    {
      if enabled && device.Some? {
        devices := devices + [device.value];
        if |devices| > 1 {
          devices := SortedUnique(devices);
        }
        cache := map[];
      }
    }

    method RemoveDevice(device: Device)
      requires Valid()
      modifies `devices, `own, `cache
      ensures Valid() && InScope() == After(old(InScope()), Removing(device))
      ensures device !in devices && own != Some(device)
      ensures forall a :: a in cache && cache[a].Parameter? ==> cache[a].device != device
    {
      devices := Without(devices, device);
      if own == Some(device) {
        own := None;
      }
      cache := map[];
    }

    /** The first half of setDevice; the second one is AddDevice, under the lock again. */
    method SetOwnDevice(device: Option<Device>)
      requires Valid()
      modifies `own, `cache
      ensures Valid() && InScope() == After(old(InScope()), Owning(device))
      ensures enabled ==> own == device && devices == old(devices) && cache == map[]
    {
      if enabled {
        own := device;
        cache := map[];
      }
    }

    method Disable()
      requires Valid()
      modifies `enabled, `devices, `own, `cache
      ensures Valid() && InScope() == After(old(InScope()), Disabling)
    {
      enabled, devices, own, cache := false, [], None, map[];
    }

    /** An edit of the script's own tree; `deferred` says that it is handed to the tree editor
        instead, which calls RunEdit some time later, from any thread. */
    method EditTree(edit: Tree -> Tree) returns (deferred: bool)
      requires Valid()
      modifies `trees, `cache
      ensures Valid()
      ensures deferred == (enabled && own.Some? && deferring)
      ensures if enabled && own.Some? && !deferring
              then trees == old(trees)[own.value := edit(TreeOf(old(trees), own.value))] && cache == map[]
              else trees == old(trees) && cache == old(cache)
    {
      deferred := false;
      if enabled && own.Some? {
        if !deferring {
          RunEdit(edit);
        } else {
          deferred := true;
        }
      }
    }

    /** The edit itself.  It goes to the device that is the script's own one by then. */
    method RunEdit(edit: Tree -> Tree)
      requires Valid()
      modifies `trees, `cache
      ensures Valid()
      ensures if enabled && own.Some?
              then trees == old(trees)[own.value := edit(TreeOf(old(trees), own.value))] && cache == map[]
              else trees == old(trees) && cache == old(cache)
    {
      if enabled && own.Some? {
        trees := trees[own.value := edit(TreeOf(trees, own.value))];
        cache := map[];
      }
    }

    /** One region under the lock, of any thread. */
    method Do(r: Region)
      requires Valid()
      modifies this
      ensures Valid() && InScope() == After(old(InScope()), r)
    {
      match r
      case Setting(list) => SetDevices(list);
      case Adding(device) => AddDevice(device);
      case Removing(device) => RemoveDevice(device);
      case Owning(device) => SetOwnDevice(device);
      case Disabling => Disable();
      case Accessing(address) => var _ := Access(address);
      case Editing(edit) => RunEdit(edit);
    }

    /** Any interleaving of threads. */
    method Run(rs: seq<Region>)
      requires Valid()
      modifies this
      ensures Valid() && InScope() == AfterRun(old(InScope()), rs)
    {
      assert rs[..0] == [];
      for i := 0 to |rs|
        invariant Valid() && InScope() == AfterRun(old(InScope()), rs[..i])
      {
        Do(rs[i]);
        assert rs[..i + 1][..i] == rs[..i];
      }
      assert rs[..|rs|] == rs;
    }

    /** Behind a removal that nobody revokes, nothing names the device any more: not the list,
        not the script's own device, and no parameter in the cache. */
    method RunBehindRemoval(d: Device, rs: seq<Region>)
      requires Valid()
      requires forall i :: 0 <= i < |rs| ==> !Lists(rs[i], d) && !Owns(rs[i], d)
      modifies this
      ensures Valid() && d !in devices && own != Some(d)
      ensures forall a :: a in cache && cache[a].Parameter? ==> cache[a].device != d
    {
      RemoveDevice(d);
      BehindRemoval(InScope(), rs, d);
      Run(rs);
      forall a | a in cache && cache[a].Parameter?
        ensures cache[a].device != d
      {
        NoStaleParameter(a);
      }
    }
  }
}
