/**
 * USB enumeration: giving each device on the bus an address, walking down through hubs, and
 * following devices that come and go, against a bus that may answer anything.
 */
module UsbTree {
  import opened Bytes

  const MAX_DEPTH: nat := 6
  const MAX_ADDRESS: nat := 127
  /** Looks at a port being reset before giving up: 500 ms, every 10 ms. */
  const RESET_POLLS: nat := 50

  datatype Speed = Low | Full | High

  datatype Translator = Translator(hub: nat, port: nat)

  datatype Target = Target(address: nat, speed: Speed, translator: Option<Translator>)

  datatype PortStatus = PortStatus(connected: bool, connectionChanged: bool, resetting: bool, resetChanged: bool,
                                   enabled: bool, speed: Speed)

  /** A bus's answer to a control transfer: whether it worked, and what its data says, where there is any. */
  datatype Reply = Reply(ok: bool, parses: bool, isHub: bool, ports: nat, status: PortStatus)

  datatype Error = BusError | BadDescriptor | OutOfAddresses | ResetTimedOut | NotEnabled | TooDeep

  datatype Result<+T> = Ok(value: T) | Err(error: Error)

  datatype Device = Device(address: nat, speed: Speed, translator: Option<Translator>, hub: Hubness)

  datatype Hubness = NoHub | Hub(ports: seq<Port>)

  datatype Port = Empty | Present(device: Device) | Failed(error: Error)

  datatype Change = Added(address: nat) | Removed(address: nat)

  // The addresses in a tree.

  /** How often address `a` is used by `device` and what is behind it. */
  function Count(device: Device, a: nat): nat {
    (if device.address == a then 1 else 0) + (if device.hub.Hub? then CountPorts(device.hub.ports, a) else 0)
  }

  function CountPorts(ports: seq<Port>, a: nat): nat {
    if ports == [] then 0 else CountPorts(ports[..|ports| - 1], a) + CountPort(ports[|ports| - 1], a)
  }

  function CountPort(port: Port, a: nat): nat { if port.Present? then Count(port.device, a) else 0 }

  lemma {:induction false} CountPut(ports: seq<Port>, i: nat, port: Port, a: nat)
    requires i < |ports|
    ensures CountPorts(ports[i := port], a) == CountPorts(ports, a) - CountPort(ports[i], a) + CountPort(port, a)
    ensures CountPort(ports[i], a) <= CountPorts(ports, a)
  {
    var n := |ports| - 1;
    if i < n {
      assert ports[i := port][..n] == ports[..n][i := port];
      CountPut(ports[..n], i, port, a);
    } else {
      assert ports[i := port][..n] == ports[..n];
    }
  }

  lemma {:induction false} CountPrefix(ports: seq<Port>, i: nat, a: nat)
    requires i < |ports|
    ensures CountPorts(ports[..i + 1], a) == CountPorts(ports[..i], a) + CountPort(ports[i], a) <= CountPorts(ports, a)
  {
    assert ports[..i + 1][..i] == ports[..i];
    var n := |ports| - 1;
    if i < n {
      CountPrefix(ports[..n], i, a);
      assert ports[..n][..i + 1] == ports[..i + 1] && ports[..n][..i] == ports[..i];
    } else {
      assert ports[..i + 1] == ports;
    }
  }

  // What reaches a device.

  /** A hub on the way to a device, and the port of it the way goes on through. */
  datatype Hop = Hop(speed: Speed, address: nat, port: nat)

  /** The translator of the nearest high speed hub on the way. */
  function Nearest(path: seq<Hop>): Option<Translator> {
    if path == [] then None else
    var hop := path[|path| - 1];
    if hop.speed == High then Some(Translator(hop.address, hop.port)) else Nearest(path[..|path| - 1])
  }

  /** A slower device is reached through the nearest high speed hub above it, a high speed one below such a hub
      directly. */
  function Expected(path: seq<Hop>, speed: Speed): Option<Translator> {
    if path != [] && path[|path| - 1].speed == High && speed == High then None else Nearest(path)
  }

  /** `device`, at the end of `path`, and everything behind it, are not too deep and have the translators they need. */
  ghost predicate Sound(device: Device, path: seq<Hop>) {
    && |path| < MAX_DEPTH && device.translator == Expected(path, device.speed)
    && (device.hub.Hub? ==>
          forall i :: 0 <= i < |device.hub.ports| ==>
              SoundPort(device.hub.ports[i], path + [Hop(device.speed, device.address, i + 1)]))
  }

  ghost predicate SoundPort(port: Port, path: seq<Hop>) { port.Present? ==> Sound(port.device, path) }

  /** A translator is an ancestor hub, and a high speed one, with only slower hubs below it on the way. */
  lemma {:induction false} NearestIsAncestor(path: seq<Hop>)
    ensures Nearest(path).None? <==> forall i :: 0 <= i < |path| ==> path[i].speed != High
    ensures Nearest(path).Some? ==>
              exists i :: && 0 <= i < |path| && path[i].speed == High
                  && Nearest(path).value == Translator(path[i].address, path[i].port)
                          && forall j :: i < j < |path| ==> path[j].speed != High
  {
    if path != [] {
      var n := |path| - 1;
      NearestIsAncestor(path[..n]);
      assert forall i :: 0 <= i < n ==> path[..n][i] == path[i];
      if path[n].speed != High && Nearest(path[..n]).Some? {
        var i :| 0 <= i < n && path[..n][i].speed == High
          && Nearest(path[..n]).value == Translator(path[..n][i].address, path[..n][i].port)
                 && forall j :: i < j < n ==> path[..n][j].speed != High;
        assert path[i].speed == High;
        assert forall j :: i < j < n ==> path[j] == path[..n][j];
      }
    }
  }

  // The table of addresses.

  function InUse(used: seq<bool>, a: nat): nat { if a < |used| && used[a] then 1 else 0 }

  /** From `used` on, the addresses of `device` were taken, once each. */
  ghost predicate Takes(used: seq<bool>, used': seq<bool>, device: Device) {
    forall a: nat :: InUse(used', a) == InUse(used, a) + Count(device, a)
  }

  predicate IsReset(status: PortStatus) { status.resetChanged || (!status.resetting && status.enabled) }

  /** A bus where every transfer works. */
  ghost predicate Answers(script: nat -> Reply) { forall n :: script(n).ok && script(n).parses }

  class Enumerator {
    /** The bus's answers, whatever they are, one after another. */
    const script: nat -> Reply
    var asked: nat
    /** Device addresses in use. */
    var used: seq<bool>

    ghost predicate Valid()
      reads this`used
    {
      |used| == MAX_ADDRESS + 1 && !used[0]
    }

    constructor (script: nat -> Reply)
      ensures Valid() && this.script == script && forall a: nat :: InUse(used, a) == 0
    {
      this.script, asked, used := script, 0, seq(MAX_ADDRESS + 1, i => false);
    }

    method Control() returns (reply: Reply)
      modifies this`asked
      ensures reply == script(old(asked)) && asked == old(asked) + 1
    {
      reply := script(asked);
      asked := asked + 1;
    }

    /** The lowest free address. */
    method Take() returns (address: Option<nat>)
      requires Valid()
      modifies this`used
      ensures Valid()
      ensures address.None? ==> used == old(used) && forall a :: 1 <= a <= MAX_ADDRESS ==> used[a]
      ensures address.Some? ==>
                && 1 <= address.value <= MAX_ADDRESS && !old(used)[address.value]
                   && used == old(used)[address.value := true]
                && forall a :: 1 <= a < address.value ==> old(used)[a]
    {
      var a := 1;
      while a <= MAX_ADDRESS
        invariant 1 <= a <= MAX_ADDRESS + 1 && used == old(used)
        invariant forall b :: 1 <= b < a ==> used[b]
      {
        if !used[a] {
          used := used[a := true];
          return Some(a);
        }
        a := a + 1;
      }
      return None;
    }

    /** Gives back the addresses of a device and of everything behind it. */
    method Free(device: Device)
      requires Valid() && forall a: nat :: Count(device, a) <= InUse(used, a)
      modifies this`used
      ensures Valid() && forall a: nat :: InUse(used, a) == InUse(old(used), a) - Count(device, a)
      decreases device
    {
      assert Count(device, device.address) <= InUse(used, device.address);
      used := used[device.address := false];
      if device.hub.Hub? {
        var ports := device.hub.ports;
        var i := 0;
        while i < |ports|
          invariant 0 <= i <= |ports| && Valid()
          invariant forall a: nat ::
                      InUse(used, a)
                        == InUse(old(used), a) - (if device.address == a then 1 else 0) - CountPorts(ports[..i], a)
        {
          ghost var was := used;
          forall a: nat
            ensures CountPorts(ports[..i + 1], a)
                    == CountPorts(ports[..i], a) + CountPort(ports[i], a) <= CountPorts(ports, a)
          {
            CountPrefix(ports, i, a);
          }
          if ports[i].Present? {
            Free(ports[i].device);
          }
          i := i + 1;
        }
        assert ports[..i] == ports;
      }
    }
  
    /** Resets a port with a device on it, for the device's speed. */
    method ResetPort() returns (r: Result<Speed>)
      modifies this`asked
      ensures old(asked) < asked <= old(asked) + RESET_POLLS + 3
      ensures r.Ok? ==>
              exists n :: old(asked) < n < asked && IsReset(script(n).status) && script(n).status.enabled
                  && r.value == script(n).status.speed
      ensures r == Err(NotEnabled) ==>
              exists n :: old(asked) < n < asked && IsReset(script(n).status) && !script(n).status.enabled
      ensures r == Err(ResetTimedOut) ==>
                asked == old(asked) + 1 + RESET_POLLS
                  && forall n :: old(asked) < n < asked ==> script(n).ok && !IsReset(script(n).status)
      ensures r.Err? ==> r.error in {NotEnabled, ResetTimedOut} || (r.error == BusError && !script(asked - 1).ok)
    {
      var reply := Control();
      if !reply.ok {
        return Err(BusError);
      }
      var polls := 0;
      while true
        invariant polls < RESET_POLLS && asked == old(asked) + 1 + polls
        invariant forall n :: old(asked) < n < asked ==> script(n).ok && !IsReset(script(n).status)
        decreases RESET_POLLS - polls
      {
        reply := Control();
        if !reply.ok {
          return Err(BusError);
        }
        polls := polls + 1;
        if IsReset(reply.status) {
          break;
        }
        if polls >= RESET_POLLS {
          return Err(ResetTimedOut);
        }
      }
      var status := reply.status;
      assert status == script(asked - 1).status;
      reply := Control();
      if !reply.ok {
        return Err(BusError);
      }
      reply := Control();
      if !reply.ok {
        return Err(BusError);
      }
      return if status.enabled then Ok(status.speed) else Err(NotEnabled);
    }

    /** Enumerates the device answering at address 0, `depth` hubs below the root. */
    method Enumerate(speed: Speed, translator: Option<Translator>, depth: nat, ghost path: seq<Hop>)
      returns (r: Result<Device>)
      requires Valid() && |path| == depth < MAX_DEPTH && translator == Expected(path, speed)
      modifies this
      ensures Valid()
      ensures r.Ok? ==> Sound(r.value, path) && Takes(old(used), used, r.value)
      ensures r.Ok? ==> 1 <= r.value.address <= MAX_ADDRESS && forall a :: 1 <= a < r.value.address ==> old(used)[a]
      ensures r.Err? ==> used == old(used)
      ensures Answers(script) && r.Err? ==> r.error == OutOfAddresses && forall a :: 1 <= a <= MAX_ADDRESS ==> used[a]
      decreases MAX_DEPTH - depth, 3
    {
      var reply := Control();
      if !reply.ok {
        return Err(BusError);
      }
      if !reply.parses {
        return Err(BadDescriptor);
      }
      var address := Take();
      if address.None? {
        return Err(OutOfAddresses);
      }
      r := Addressed(Target(address.value, speed, translator), depth, path);
      if r.Err? {
        used := used[address.value := false];
      }
    }

    /** The rest of enumerating a device, from giving it its address. */
    method Addressed(target: Target, depth: nat, ghost path: seq<Hop>) returns (r: Result<Device>)
      requires Valid() && |path| == depth < MAX_DEPTH && target.translator == Expected(path, target.speed)
      modifies this
      ensures Valid()
      ensures r.Ok? ==> Sound(r.value, path) && r.value.address == target.address
      ensures r.Ok? ==>
              forall a: nat ::
                  InUse(used, a) + (if a == target.address then 1 else 0) == InUse(old(used), a) + Count(r.value, a)
      ensures r.Err? ==> used == old(used) && !Answers(script)
      decreases MAX_DEPTH - depth, 2
    {
      var reply := Control();
      if !reply.ok {
        return Err(BusError);
      }
      var descriptor := Control();
      if !descriptor.ok {
        return Err(BusError);
      }
      if !descriptor.parses {
        return Err(BadDescriptor);
      }
      reply := Control();
      if !reply.ok {
        return Err(BusError);
      }
      if !reply.parses {
        return Err(BadDescriptor);
      }
      var configuration := Control();
      if !configuration.ok {
        return Err(BusError);
      }
      if !configuration.parses {
        return Err(BadDescriptor);
      }
      reply := Control();
      if !reply.ok {
        return Err(BusError);
      }
      if descriptor.isHub || configuration.isHub {
        var ports := EnumerateHub(target, depth, path);
        if ports.Err? {
          return Err(ports.error);
        }
        return Ok(Device(target.address, target.speed, target.translator, Hub(ports.value)));
      }
      return Ok(Device(target.address, target.speed, target.translator, NoHub));
    }

    /** Powers a hub's ports and enumerates what is on each. */
    method EnumerateHub(hub: Target, depth: nat, ghost path: seq<Hop>) returns (r: Result<seq<Port>>)
      requires Valid() && |path| == depth < MAX_DEPTH && hub.translator == Expected(path, hub.speed)
      modifies this
      ensures Valid()
      ensures r.Ok? ==>
                && (forall i :: 0 <= i < |r.value| ==>
                      SoundPort(r.value[i], path + [Hop(hub.speed, hub.address, i + 1)]))
                && forall a: nat :: InUse(used, a) == InUse(old(used), a) + CountPorts(r.value, a)
      ensures r.Err? ==> used == old(used) && !Answers(script)
      decreases MAX_DEPTH - depth, 1
    {
      var descriptor := Control();
      if !descriptor.ok {
        return Err(BusError);
      }
      if !descriptor.parses {
        return Err(BadDescriptor);
      }
      var port := 1;
      while port <= descriptor.ports
        invariant 1 <= port <= descriptor.ports + 1 && Valid() && used == old(used)
      {
        var reply := Control();
        if !reply.ok {
          return Err(BusError);
        }
        port := port + 1;
      }
      var ports: seq<Port> := [];
      while |ports| < descriptor.ports
        invariant |ports| <= descriptor.ports && Valid()
        invariant forall i :: 0 <= i < |ports| ==> SoundPort(ports[i], path + [Hop(hub.speed, hub.address, i + 1)])
        invariant forall a: nat :: InUse(used, a) == InUse(old(used), a) + CountPorts(ports, a)
      {
        var found := EnumeratePort(hub, |ports| + 1, depth, path);
        assert (ports + [found])[..|ports|] == ports;
        ports := ports + [found];
      }
      return Ok(ports);
    }

    /** Resets the port and enumerates the device on it, if there is one. */
    method EnumeratePort(hub: Target, number: nat, depth: nat, ghost path: seq<Hop>) returns (port: Port)
      requires Valid() && |path| == depth < MAX_DEPTH && hub.translator == Expected(path, hub.speed)
      modifies this
      ensures Valid() && SoundPort(port, path + [Hop(hub.speed, hub.address, number)])
      ensures port.Empty? <==> script(old(asked)).ok && !script(old(asked)).status.connected
      ensures forall a: nat :: InUse(used, a) == InUse(old(used), a) + CountPort(port, a)
      decreases MAX_DEPTH - depth, 0
    {
      var reply := Control();
      if reply.ok && !reply.status.connected {
        return Empty;
      }
      if !reply.ok {
        return Failed(BusError);
      }
      var speed := ResetPort();
      if speed.Err? {
        port := Failed(speed.error);
      } else if depth + 1 >= MAX_DEPTH {
        port := Failed(TooDeep);
      } else {
        var translator := if hub.speed == High then
            (if speed.value == High then None else Some(Translator(hub.address, number))) else hub.translator;
        ghost var path' := path + [Hop(hub.speed, hub.address, number)];
        assert path'[..|path|] == path;
        var device := Enumerate(speed.value, translator, depth + 1, path');
        port := if device.Ok? then Present(device.value) else Failed(device.error);
      }
      if !port.Present? {
        var _ := Control();
      }
    }

    /** Looks at `device`'s ports, if it is a hub, and on down, for devices that came or went. */
    method PollHub(device: Device, depth: nat, ghost path: seq<Hop>, changes: seq<Change>)
      returns (device': Device, changes': seq<Change>)
      requires Valid() && |path| == depth && Sound(device, path) && forall a: nat :: Count(device, a) <= InUse(used, a)
      modifies this
      ensures Valid() && Sound(device', path) && device'.address == device.address
      ensures forall a: nat :: Count(device', a) <= InUse(used, a)
      ensures forall a: nat :: InUse(used, a) - Count(device', a) == InUse(old(used), a) - Count(device, a)
      ensures changes <= changes' && (changes' == changes ==> forall a: nat :: Count(device', a) == Count(device, a))
      decreases device
    {
      changes' := changes;
      if device.hub.NoHub? {
        return device, changes;
      }
      var target := Target(device.address, device.speed, device.translator);
      var ports := device.hub.ports;
      var i := 0;
      while i < |ports|
        invariant 0 <= i <= |ports| == |device.hub.ports| && Valid() && changes <= changes'
        invariant forall k :: i <= k < |ports| ==> ports[k] == device.hub.ports[k]
        invariant forall k :: 0 <= k < |ports| ==>
                    SoundPort(ports[k], path + [Hop(device.speed, device.address, k + 1)])
        invariant forall a: nat ::
                    InUse(used, a) - CountPorts(ports, a) == InUse(old(used), a) - CountPorts(device.hub.ports, a)
        invariant changes' == changes ==> forall a: nat :: CountPorts(ports, a) == CountPorts(device.hub.ports, a)
      {
        var was := ports[i];
        var now: Port;
        forall a: nat ensures CountPort(was, a) <= InUse(used, a) {
          CountPut(ports, i, was, a);
          assert Count(device, a) <= InUse(old(used), a);
        }
        now, changes' := PollPort(target, was, i + 1, depth, path, changes');
        forall a: nat
          ensures CountPorts(ports[i := now], a) == CountPorts(ports, a) - CountPort(was, a) + CountPort(now, a)
        {
          CountPut(ports, i, now, a);
        }
        ports := ports[i := now];
        i := i + 1;
      }
      device' := Device(device.address, device.speed, device.translator, Hub(ports));
    }

    /** One port of a hub being looked at. */
    method PollPort(target: Target, port: Port, number: nat, depth: nat, ghost path: seq<Hop>, changes: seq<Change>)
      returns (port': Port, changes': seq<Change>)
      requires Valid() && |path| == depth < MAX_DEPTH && target.translator == Expected(path, target.speed)
      requires SoundPort(port, path + [Hop(target.speed, target.address, number)])
               && forall a: nat :: CountPort(port, a) <= InUse(used, a)
      modifies this
      ensures Valid() && SoundPort(port', path + [Hop(target.speed, target.address, number)])
      ensures forall a: nat :: InUse(used, a) - CountPort(port', a) == InUse(old(used), a) - CountPort(port, a)
      ensures changes <= changes'
              && (changes' == changes ==> forall a: nat :: CountPort(port', a) == CountPort(port, a))
      decreases port
    {
      port', changes' := port, changes;
      var reply := Control();
      if !reply.ok {
        return;
      }
      if !reply.status.connectionChanged {
        if port.Present? {
          var child, more :=
            PollHub(port.device, depth + 1, path + [Hop(target.speed, target.address, number)], changes);
          return Present(child), more;
        }
        return;
      }
      var _ := Control();
      if port.Present? {
        Free(port.device);
        changes' := changes' + [Removed(port.device.address)];
      }
      port' := Empty;
      if reply.status.connected {
        port' := EnumeratePort(target, number, depth, path);
        if port'.Present? {
          changes' := changes' + [Added(port'.device.address)];
        }
      }
    }
  }

  /** The whole bus, and the table of addresses it uses: exactly those in the tree, once each. */
  class Tree {
    const enumerator: Enumerator
    var root: Device

    ghost predicate Valid()
      reads this, enumerator
    {
      && enumerator.Valid() && Sound(root, [])
      && forall a: nat :: Count(root, a) == InUse(enumerator.used, a)
    }

    constructor (enumerator: Enumerator, root: Device)
      requires enumerator.Valid() && Sound(root, []) && forall a: nat :: Count(root, a) == InUse(enumerator.used, a)
      ensures Valid() && this.enumerator == enumerator && this.root == root
    {
      this.enumerator, this.root := enumerator, root;
    }

    /** Enumerates the device on the root port, and everything behind it. */
    static method New(script: nat -> Reply, speed: Speed) returns (tree: Tree?)
      ensures Answers(script) ==> tree != null
      ensures tree != null ==> tree.Valid() && fresh(tree) && fresh(tree.enumerator)
    {
      var enumerator := new Enumerator(script);
      assert InUse(enumerator.used, 1) == 0;
      var root := enumerator.Enumerate(speed, None, 0, []);
      if root.Err? {
        return null;
      }
      tree := new Tree(enumerator, root.value);
    }

    /** Follows what came and went since the last look. */
    method PollChanges() returns (changes: seq<Change>)
      requires Valid()
      modifies this`root, enumerator
      ensures Valid() && root.address == old(root.address)
      ensures changes == [] ==> enumerator.used == old(enumerator.used)
    {
      root, changes := enumerator.PollHub(root, 0, [], []);
      if changes == [] {
        SameTable(old(enumerator.used), enumerator.used);
      }
    }
  }

  lemma SameTable(used: seq<bool>, used': seq<bool>)
    requires |used| == |used'| && forall a: nat :: InUse(used, a) == InUse(used', a)
    ensures used == used'
  {
    forall i | 0 <= i < |used| ensures used[i] == used'[i] {
      assert InUse(used, i) == InUse(used', i);
    }
  }

  /** Addresses in a tree are distinct, and from 1 to 127. */
  lemma AddressesAreDistinct(root: Device, used: seq<bool>, a: nat)
    requires |used| == MAX_ADDRESS + 1 && !used[0] && forall b: nat :: Count(root, b) == InUse(used, b)
    ensures Count(root, a) <= 1 && (Count(root, a) == 1 ==> 1 <= a <= MAX_ADDRESS)
  {
    assert Count(root, a) == InUse(used, a);
  }
}
