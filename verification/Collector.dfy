/**
 The collector of discovery records: an incremental join of PTR, SRV, TXT and A records.

 Records arrive in any order, in any grouping into packets, and repeatedly. The collector keeps one
 table per record type and a table of devices, which it completes as the parts come in.
 */
module Collector {

  type Name = string
  type Key = string

  /** An address is written in dotted decimal, so it is never empty. */
  type Address = s: string | s != "" witness "0.0.0.0"

  const SERVICE: Name := "._quava._udp.local."

  datatype Service = Service(name: Name, target: Name, port: nat)

  /** A record whose payload was decoded; Other is one of another type, or whose payload is malformed. */
  datatype Record =
    | A(host: Name, address: Address)
    | Ptr(target: Name)
    | Srv(service: Service)
    | Txt(name: Name, id: string)
    | Other

  datatype Device = Device(id: string, name: Name, host: Name, address: string, port: nat)

  // ---- Keys ----

  predicate HasSuffix(s: string, suffix: string) {
    |suffix| <= |s| && s[|s| - |suffix|..] == suffix
  }

  predicate IsInstance(n: Name) {
    HasSuffix(n, SERVICE)
  }

  function Trimmed(n: Name): Name {
    if IsInstance(n) then n[..|n| - |SERVICE|] else n
  }

  function Decimal(n: nat): string {
    if n < 10 then [(48 + n) as char] else Decimal(n / 10) + [(48 + n % 10) as char]
  }

  function KeyOf(d: Device): Key {
    d.name + ("|" + (d.host + ("|" + Decimal(d.port))))
  }

  // ---- The tables ----

  datatype State = State(ptrs: set<Name>, srvs: map<Name, Service>, addresses: map<Name, Address>,
                         ids: map<Name, string>, devices: map<Key, Device>)

  const EMPTY := State({}, map[], map[], map[], map[])

  function Get(m: map<Name, string>, n: Name): string {
    if n in m then m[n] else ""
  }

  function DeviceOf(instance: Name, srv: Service, address: string, id: string): Device {
    var name := if Trimmed(instance) != "" then Trimmed(instance)
                else if Trimmed(srv.name) != "" then Trimmed(srv.name) else instance;
    Device(id, name, srv.target, address, srv.port)
  }

  /** A device is entered when it is new, or when it brings the address that the known one lacks. */
  predicate Improves(devices: map<Key, Device>, d: Device) {
    KeyOf(d) in devices ==> devices[KeyOf(d)].address == "" && d.address != ""
  }

  function Put(devices: map<Key, Device>, d: Device): map<Key, Device> {
    if Improves(devices, d) then devices[KeyOf(d) := d] else devices
  }

  /** The device of an instance, as the tables describe it now. */
  function Listing(s: State, n: Name): Device
    requires n in s.srvs
  {
    DeviceOf(n, s.srvs[n], Get(s.addresses, s.srvs[n].target), Get(s.ids, n))
  }

  function Listed(s: State, n: Name): State
    requires n in s.srvs
  {
    s.(devices := Put(s.devices, Listing(s, n)))
  }

  function ListedAll(s: State, order: seq<Name>): (t: State)
    requires forall n :: n in order ==> n in s.srvs
    ensures t == s.(devices := t.devices)
  {
    if order == [] then s else Listed(ListedAll(s, order[..|order| - 1]), order[|order| - 1])
  }

  predicate Active(s: State, n: Name) {
    n in s.srvs && n in s.ptrs
  }

  /** `order` names the instances on this host that have been pointed to, each once. */
  ghost predicate Orders(s: State, host: Name, order: seq<Name>) {
    && (forall i, j :: 0 <= i < j < |order| ==> order[i] != order[j])
    && (forall n :: n in order <==> Active(s, n) && s.srvs[n].target == host)
  }

  function Renamed(devices: map<Key, Device>, name: Name, id: string): map<Key, Device> {
    map k | k in devices :: if Trimmed(name) + "|" <= k then devices[k].(id := id) else devices[k]
  }

  /** What one record does; an address visits the instances on its host in whatever order the map yields. */
  ghost predicate Step(s: State, r: Record, t: State) {
    match r
    case A(host, address) =>
      var u := s.(addresses := s.addresses[host := address]);
      exists order :: Orders(u, host, order) && t == ListedAll(u, order)
    case Ptr(target) =>
      var u := s.(ptrs := s.ptrs + {target});
      if !IsInstance(target) then t == s
      else t == if target in u.srvs then Listed(u, target) else u
    case Srv(service) =>
      var u := s.(srvs := s.srvs[service.name := service]);
      if !IsInstance(service.name) then t == s
      else t == if service.name in u.ptrs then Listed(u, service.name) else u
    case Txt(name, id) =>
      var u := s.(ids := s.ids[name := id]);
      t == u.(devices := Renamed(u.devices, name, id))
    case Other => t == s
  }

  ghost predicate Run(s: State, records: seq<Record>, t: State)
    decreases |records|
  {
    if records == [] then t == s
    else
      var front, last := records[..|records| - 1], records[|records| - 1];
      exists u :: Run(s, front, u) && Step(u, last, t)
  }

  lemma RunSnoc(s: State, records: seq<Record>, u: State, r: Record, t: State)
    requires Run(s, records, u) && Step(u, r, t)
    ensures Run(s, records + [r], t)
  {
    hide Step;
    assert (records + [r])[..|records|] == records;
  }

  lemma RunNothing(s: State)
    ensures Run(s, [], s)
  {
  }

  /** Cutting the records into packets differently makes no difference. */
  lemma {:induction false} RunAppend(s: State, a: seq<Record>, u: State, b: seq<Record>, t: State)
    requires Run(s, a, u) && Run(u, b, t)
    ensures Run(s, a + b, t)
    decreases |b|
  {
    hide Step;
    if b == [] {
      assert a + b == a;
    } else {
      var front, last := b[..|b| - 1], b[|b| - 1];
      var v :| Run(u, front, v) && Step(v, last, t);
      RunAppend(s, a, u, front, v);
      RunSnoc(s, a + front, v, last, t);
      assert (a + front) + [last] == a + b;
    }
  }

  // ---- The collector ----

  /** Every device that is new or different is reported, and every reported one is listed. */
  ghost predicate Reported(before: map<Key, Device>, after: map<Key, Device>, updated: seq<Device>) {
    && before.Keys <= after.Keys
    && (forall k :: k in after && (k in before ==> before[k] != after[k]) ==> after[k] in updated)
    && (forall d :: d in updated ==> KeyOf(d) in after)
  }

  /** Every device stands under its own key. */
  ghost predicate Keyed(devices: map<Key, Device>) {
    forall k :: k in devices ==> KeyOf(devices[k]) == k
  }

  lemma SameKey(d: Device, id: string)
    ensures KeyOf(d.(id := id)) == KeyOf(d)
  {
  }

  lemma ReportedTwice(a: map<Key, Device>, b: map<Key, Device>, c: map<Key, Device>,
                      first: seq<Device>, second: seq<Device>)
    requires Reported(a, b, first) && Reported(b, c, second)
    ensures Reported(a, c, first + second)
  {
  }

  lemma NothingListed(s: State)
    ensures ListedAll(s, []) == s && Reported(s.devices, s.devices, [])
  {
  }

  lemma ListedOneMore(s: State, order: seq<Name>, n: Name)
    requires n in s.srvs && forall m :: m in order ==> m in s.srvs
    ensures ListedAll(s, order + [n]) == Listed(ListedAll(s, order), n)
  {
    hide Listed;
    assert (order + [n])[..|order|] == order;
  }

  class RecordCollector {
    var ptrTargets: set<Name>
    var srvByName: map<Name, Service>
    var addressByHost: map<Name, Address>
    var devicesByKey: map<Key, Device>
    var idByName: map<Name, string>

    ghost function Tables(): State
      reads this
    {
      State(ptrTargets, srvByName, addressByHost, idByName, devicesByKey)
    }

    constructor ()
      ensures Tables() == EMPTY && Keyed(devicesByKey)
    {
      ptrTargets, srvByName, addressByHost, devicesByKey, idByName := {}, map[], map[], map[], map[];
    }

    method AddDevice(instance: Name, srv: Service, address: string, id: string)
      returns (device: Device, added: bool)
      requires Keyed(devicesByKey)
      modifies this`devicesByKey
      ensures Keyed(devicesByKey)
      ensures var d := DeviceOf(instance, srv, address, id);
              && devicesByKey == Put(old(devicesByKey), d)
              && added == Improves(old(devicesByKey), d)
              && device == devicesByKey[KeyOf(d)]
    {
      var name := Trimmed(instance);
      if name == "" {
        name := Trimmed(srv.name);
      }
      if name == "" {
        name := instance;
      }
      device := Device(id, name, srv.target, address, srv.port);
      var key := KeyOf(device);
      if key in devicesByKey {
        var existing := devicesByKey[key];
        if existing.address == "" && device.address != "" {
          devicesByKey := devicesByKey[key := device];
          return device, true;
        }
        return existing, false;
      }
      devicesByKey := devicesByKey[key := device];
      return device, true;
    }

    /** Enters the instance's device as the tables describe it now. */
    method Enter(n: Name, srv: Service, address: string, id: string) returns (updated: seq<Device>)
      requires Keyed(devicesByKey) && n in srvByName && srv == srvByName[n]
      requires address == Get(addressByHost, srv.target) && id == Get(idByName, n)
      modifies this`devicesByKey
      ensures Keyed(devicesByKey) && Tables() == Listed(old(Tables()), n)
      ensures Reported(old(devicesByKey), devicesByKey, updated)
    {
      hide DeviceOf, KeyOf;
      var device, added := AddDevice(n, srv, address, id);
      return if added then [device] else [];
    }

    method IngestAddress(host: Name, address: Address) returns (updated: seq<Device>)
      requires Keyed(devicesByKey)
      modifies this`addressByHost, this`devicesByKey
      ensures Keyed(devicesByKey)
      ensures Step(old(Tables()), A(host, address), Tables())
      ensures Reported(old(devicesByKey), devicesByKey, updated)
    {
      hide KeyOf, Keyed, Reported, Listed, ListedAll;
      addressByHost := addressByHost[host := address];
      updated := [];
      ghost var u := Tables();
      ghost var order: seq<Name> := [];
      NothingListed(u);
      var todo := srvByName.Keys;
      while todo != {}
        invariant todo <= srvByName.Keys
        invariant forall n :: n in order <==> n !in todo && Active(u, n) && u.srvs[n].target == host
        invariant forall i, j :: 0 <= i < j < |order| ==> order[i] != order[j]
        invariant Tables() == ListedAll(u, order) && Keyed(devicesByKey)
        invariant Reported(u.devices, devicesByKey, updated)
        decreases todo
      {
        var n :| n in todo;
        todo := todo - {n};
        var srv := srvByName[n];
        if srv.target == host && n in ptrTargets {
          ghost var before := devicesByKey;
          var more := Enter(n, srv, address, Get(idByName, n));
          ReportedTwice(u.devices, before, devicesByKey, updated, more);
          updated := updated + more;
          ListedOneMore(u, order, n);
          order := order + [n];
        }
      }
      assert Orders(u, host, order);
    }

    method IngestPointer(target: Name) returns (updated: seq<Device>)
      requires Keyed(devicesByKey)
      modifies this`ptrTargets, this`devicesByKey
      ensures Keyed(devicesByKey)
      ensures Step(old(Tables()), Ptr(target), Tables())
      ensures Reported(old(devicesByKey), devicesByKey, updated)
    {
      hide KeyOf, Listed;
      updated := [];
      if !HasSuffix(target, SERVICE) { return; }
      ptrTargets := ptrTargets + {target};
      if target in srvByName {
        var srv := srvByName[target];
        updated := Enter(target, srv, Get(addressByHost, srv.target), Get(idByName, target));
      }
    }

    method IngestService(srv: Service) returns (updated: seq<Device>)
      requires Keyed(devicesByKey)
      modifies this`srvByName, this`devicesByKey
      ensures Keyed(devicesByKey)
      ensures Step(old(Tables()), Srv(srv), Tables())
      ensures Reported(old(devicesByKey), devicesByKey, updated)
    {
      hide KeyOf, Listed;
      updated := [];
      if !HasSuffix(srv.name, SERVICE) { return; }
      srvByName := srvByName[srv.name := srv];
      if srv.name in ptrTargets {
        updated := Enter(srv.name, srv, Get(addressByHost, srv.target), Get(idByName, srv.name));
      }
    }

    method IngestText(name: Name, id: string) returns (updated: seq<Device>)
      requires Keyed(devicesByKey)
      modifies this`idByName, this`devicesByKey
      ensures Keyed(devicesByKey)
      ensures Step(old(Tables()), Txt(name, id), Tables())
      ensures Reported(old(devicesByKey), devicesByKey, updated)
    {
      hide KeyOf, Trimmed, IsInstance;
      idByName := idByName[name := id];
      updated := [];
      var before := devicesByKey;
      var todo := devicesByKey.Keys;
      while todo != {}
        invariant todo <= devicesByKey.Keys == before.Keys && idByName == old(idByName)[name := id]
        invariant forall k :: k in before ==>
                    devicesByKey[k] == if k in todo then before[k] else Renamed(before, name, id)[k]
        invariant Reported(before, devicesByKey, updated) && Keyed(devicesByKey)
        decreases todo
      {
        var key :| key in todo;
        todo := todo - {key};
        if Trimmed(name) + "|" <= key {
          var device := devicesByKey[key].(id := idByName[name]);
          SameKey(devicesByKey[key], idByName[name]);
          devicesByKey := devicesByKey[key := device];
          updated := updated + [device];
        }
      }
      assert devicesByKey == Renamed(before, name, id);
    }

    method IngestRecord(r: Record) returns (updated: seq<Device>)
      requires Keyed(devicesByKey)
      modifies this
      ensures Keyed(devicesByKey)
      ensures Step(old(Tables()), r, Tables())
      ensures Reported(old(devicesByKey), devicesByKey, updated)
    {
      match r
      case A(host, address) => updated := IngestAddress(host, address);
      case Ptr(target) => updated := IngestPointer(target);
      case Srv(service) => updated := IngestService(service);
      case Txt(name, id) => updated := IngestText(name, id);
      case Other => updated := [];
    }

    /** The records of one packet, answers before additional records. */
    method Ingest(records: seq<Record>) returns (updated: seq<Device>)
      requires Keyed(devicesByKey)
      modifies this
      ensures Keyed(devicesByKey)
      ensures Run(old(Tables()), records, Tables())
      ensures Reported(old(devicesByKey), devicesByKey, updated)
    {
      hide Step, Run;
      updated := [];
      RunNothing(Tables());
      for i := 0 to |records|
        invariant Run(old(Tables()), records[..i], Tables()) && Keyed(devicesByKey)
        invariant Reported(old(devicesByKey), devicesByKey, updated)
      {
        ghost var before := Tables();
        var more := IngestRecord(records[i]);
        RunSnoc(old(Tables()), records[..i], before, records[i], Tables());
        ReportedTwice(old(devicesByKey), before.devices, devicesByKey, updated, more);
        assert records[..i + 1] == records[..i] + [records[i]];
        updated := updated + more;
      }
      assert records[..|records|] == records;
    }
  }
}
