/**
 What the collector ends up with, whatever the order in which the records came.

 The device map is a join of the records seen. That it does not depend on their order rests on what
 `Consistent` asks of the announcing devices and, exactly, on one address for each host that serves
 a listed instance (`IndependentIff`).
 */
module CollectedDevices {
  import opened Collector

  // ---- Keys ----

  lemma {:induction false} DecimalDigits(n: nat)
    ensures |Decimal(n)| >= 1 && '|' !in Decimal(n)
    decreases n
  {
    if n >= 10 {
      DecimalDigits(n / 10);
    }
  }

  lemma {:induction false} DecimalInjective(m: nat, n: nat)
    requires Decimal(m) == Decimal(n)
    ensures m == n
    decreases m
  {
    var last := |Decimal(m)| - 1;
    if m < 10 {
      if n >= 10 { DecimalDigits(n / 10); }
      assert Decimal(m)[0] == Decimal(n)[0];
    } else {
      DecimalDigits(m / 10);
      assert n >= 10;
      assert Decimal(m)[..last] == Decimal(m / 10) && Decimal(n)[..last] == Decimal(n / 10);
      DecimalInjective(m / 10, n / 10);
      assert Decimal(m)[last] == Decimal(n)[last];
    }
  }

  lemma BarPlace(a: string, x: string)
    ensures var s := a + ("|" + x);
            && s[|a|] == '|' && a == s[..|a|] && x == s[|a| + 1..]
            && ('|' !in a ==> forall i :: 0 <= i < |a| ==> s[i] != '|')
            && ('|' !in x ==> forall i :: |a| < i < |s| ==> s[i] != '|')
  {
    var s := a + ("|" + x);
    forall i | |a| < i < |s| ensures s[i] in x {
      assert s[i] == x[i - |a| - 1];
    }
  }

  /** A string has one first bar and one last bar. */
  lemma SameBar(a: string, x: string, b: string, y: string)
    requires a + ("|" + x) == b + ("|" + y)
    requires ('|' !in a && '|' !in b) || ('|' !in x && '|' !in y)
    ensures a == b && x == y
  {
    BarPlace(a, x);
    BarPlace(b, y);
    assert |a| == |b|;
  }

  /** A key says which name, host and port it was made from. */
  lemma KeyInjective(d: Device, e: Device)
    requires '|' !in d.name && '|' !in e.name && KeyOf(d) == KeyOf(e)
    ensures d.name == e.name && d.host == e.host && d.port == e.port
  {
    hide Decimal;
    SameBar(d.name, d.host + ("|" + Decimal(d.port)), e.name, e.host + ("|" + Decimal(e.port)));
    DecimalDigits(d.port);
    DecimalDigits(e.port);
    SameBar(d.host, Decimal(d.port), e.host, Decimal(e.port));
    DecimalInjective(d.port, e.port);
  }

  lemma KeyPrefix(name: Name, d: Device)
    requires '|' !in name && '|' !in d.name
    ensures name + "|" <= KeyOf(d) <==> name == d.name
  {
    hide Decimal;
    var key, rest := KeyOf(d), d.host + ("|" + Decimal(d.port));
    if name == d.name {
      assert key == (name + "|") + rest;
    }
    if name + "|" <= key {
      var y := key[|name| + 1..];
      assert key == (name + "|") + y;
      assert key == name + ("|" + y);
      SameBar(name, y, d.name, rest);
    }
  }

  lemma TrimmedInjective(m: Name, n: Name)
    requires IsInstance(m) && IsInstance(n) && Trimmed(m) == Trimmed(n)
    ensures m == n
  {
    assert m == Trimmed(m) + SERVICE && n == Trimmed(n) + SERVICE;
  }

  // ---- What the announcing devices must observe ----

  predicate OwnName(n: Name) {
    Trimmed(n) != "" && '|' !in Trimmed(n)
  }

  /** One SRV and one ID per instance; a TXT that names an instance names it in full. */
  predicate Agree(r: Record, q: Record) {
    && (r.Srv? && q.Srv? && r.service.name == q.service.name && IsInstance(r.service.name) ==> r == q)
    && (r.Txt? && q.Txt? && r.name == q.name ==> r.id == q.id)
    && (r.Txt? && q.Srv? && IsInstance(q.service.name) && Trimmed(r.name) == Trimmed(q.service.name) ==>
          r.name == q.service.name)
  }

  predicate WellNamed(r: Record) {
    && (r.Srv? && IsInstance(r.service.name) ==> OwnName(r.service.name))
    && (r.Txt? ==> '|' !in Trimmed(r.name))
  }

  ghost predicate Consistent(seen: set<Record>) {
    && (forall r :: r in seen ==> WellNamed(r))
    && (forall r, q :: r in seen && q in seen ==> Agree(r, q))
  }

  /** The host serves an instance that is pointed to. */
  ghost predicate Hosts(seen: set<Record>, host: Name) {
    exists n, port :: Ptr(n) in seen && IsInstance(n) && Srv(Service(n, host, port)) in seen
  }

  ghost predicate OneAddress(seen: set<Record>) {
    forall h, x, y :: A(h, x) in seen && A(h, y) in seen && Hosts(seen, h) ==> x == y
  }

  ghost predicate Conforming(seen: set<Record>) {
    Consistent(seen) && OneAddress(seen)
  }

  // ---- The tables hold what was seen ----

  ghost predicate Holds(seen: set<Record>, s: State) {
    && (forall n :: n in s.ptrs <==> Ptr(n) in seen && IsInstance(n))
    && (forall n :: n in s.srvs ==> s.srvs[n].name == n && IsInstance(n) && Srv(s.srvs[n]) in seen)
    && (forall v :: Srv(v) in seen && IsInstance(v.name) ==> v.name in s.srvs)
    && (forall h :: h in s.addresses ==> A(h, s.addresses[h]) in seen)
    && (forall h, a :: A(h, a) in seen ==> h in s.addresses)
    && (forall n :: n in s.ids ==> Txt(n, s.ids[n]) in seen)
    && (forall n, id :: Txt(n, id) in seen ==> n in s.ids)
  }

  lemma TablesAfter(s: State, r: Record, t: State)
    requires Step(s, r, t)
    ensures t.ptrs == if r.Ptr? && IsInstance(r.target) then s.ptrs + {r.target} else s.ptrs
    ensures t.srvs == if r.Srv? && IsInstance(r.service.name) then s.srvs[r.service.name := r.service] else s.srvs
    ensures t.addresses == if r.A? then s.addresses[r.host := r.address] else s.addresses
    ensures t.ids == if r.Txt? then s.ids[r.name := r.id] else s.ids
  {
    hide IsInstance, Listing, Put, Renamed, Orders;
  }

  lemma HoldsStep(seen: set<Record>, s: State, r: Record, t: State)
    requires Holds(seen, s) && Step(s, r, t)
    ensures Holds(seen + {r}, t)
  {
    hide Step, IsInstance;
    TablesAfter(s, r, t);
  }

  // ---- The devices follow from the other tables ----

  function KeyFor(s: State, n: Name): Key
    requires n in s.srvs
  {
    KeyOf(Listing(s, n))
  }

  /** The instance's device is listed as the tables describe it. */
  predicate Settled(s: State, n: Name)
    requires n in s.srvs
  {
    KeyFor(s, n) in s.devices && s.devices[KeyFor(s, n)] == Listing(s, n)
  }

  ghost predicate AllListed(s: State) {
    forall k :: k in s.devices ==> exists n :: Active(s, n) && k == KeyFor(s, n)
  }

  /** Every active instance is settled, or one of `todo`, which an entry will settle. */
  ghost predicate SettledBut(s: State, todo: set<Name>) {
    && (forall n :: Active(s, n) ==> Settled(s, n) || (n in todo && Improves(s.devices, Listing(s, n))))
    && AllListed(s)
  }

  ghost predicate Derived(s: State) {
    (forall n :: Active(s, n) ==> Settled(s, n)) && AllListed(s)
  }

  ghost predicate Plain(s: State) {
    forall n :: n in s.srvs ==> IsInstance(n) && OwnName(n)
  }

  lemma KeysApart(s: State, m: Name, n: Name)
    requires Plain(s) && m in s.srvs && n in s.srvs && m != n
    ensures KeyFor(s, m) != KeyFor(s, n)
  {
    hide KeyOf, Trimmed;
    if KeyFor(s, m) == KeyFor(s, n) {
      KeyInjective(Listing(s, m), Listing(s, n));
      TrimmedInjective(m, n);
    }
  }

  lemma EntryListed(s: State, n: Name)
    requires AllListed(s) && Active(s, n)
    ensures AllListed(Listed(s, n))
  {
    hide KeyOf, DeviceOf, Improves;
    var t := Listed(s, n);
    forall k | k in t.devices ensures exists m :: Active(t, m) && k == KeyFor(t, m) {
      if k == KeyFor(s, n) {
        assert Active(t, n) && k == KeyFor(t, n);
      } else {
        var m :| Active(s, m) && k == KeyFor(s, m);
        assert Active(t, m) && k == KeyFor(t, m);
      }
    }
  }

  lemma EntryOthers(s: State, n: Name, m: Name)
    requires Plain(s) && n in s.srvs && m in s.srvs && m != n
    ensures Settled(Listed(s, n), m) == Settled(s, m)
    ensures Improves(Listed(s, n).devices, Listing(s, m)) == Improves(s.devices, Listing(s, m))
  {
    hide KeyOf, DeviceOf, Trimmed, Plain;
    KeysApart(s, m, n);
  }

  /** Entering an instance settles it and leaves the others as they are. */
  lemma EntrySettles(s: State, todo: set<Name>, n: Name)
    requires Plain(s) && SettledBut(s, todo) && Active(s, n)
    ensures SettledBut(Listed(s, n), todo - {n})
  {
    hide KeyOf, DeviceOf, Plain, AllListed;
    EntryListed(s, n);
    var t := Listed(s, n);
    forall m | Active(t, m)
      ensures Settled(t, m) || (m in todo - {n} && Improves(t.devices, Listing(t, m)))
    {
      if m != n { EntryOthers(s, n, m); }
    }
  }

  lemma {:induction false} EntriesSettle(s: State, todo: set<Name>, order: seq<Name>)
    requires Plain(s) && SettledBut(s, todo)
    requires forall n :: n in order ==> Active(s, n)
    requires forall n :: n in todo ==> n in order
    ensures Derived(ListedAll(s, order))
  {
    hide KeyOf, DeviceOf, Trimmed, Settled, AllListed, Improves;
    var left := EntriesLeave(s, todo, order);
    assert left == {};
  }

  lemma {:induction false} EntriesLeave(s: State, todo: set<Name>, order: seq<Name>) returns (left: set<Name>)
    requires Plain(s) && SettledBut(s, todo)
    requires forall n :: n in order ==> Active(s, n)
    ensures SettledBut(ListedAll(s, order), left)
    ensures forall n :: n in left <==> n in todo && n !in order
    decreases |order|
  {
    hide SettledBut, Listed, OwnName;
    if order == [] {
      left := todo;
    } else {
      var front, last := order[..|order| - 1], order[|order| - 1];
      left := EntriesLeave(s, todo, front);
      EntrySettles(ListedAll(s, front), left, last);
      left := left - {last};
    }
  }

  // ---- One record ----

  /** The same device, now with the address it lacked. */
  predicate Completes(d: Device, e: Device) {
    d.address == "" && e.address != "" && KeyOf(d) == KeyOf(e)
  }

  /** The instance is described as before, or is one of `todo` and is new or has gained its address. */
  ghost predicate MovedOn(s: State, u: State, todo: set<Name>, n: Name) {
    Active(u, n) ==>
      if Active(s, n) then Listing(u, n) == Listing(s, n) || (n in todo && Completes(Listing(s, n), Listing(u, n)))
      else n in todo
  }

  lemma ReadyOne(s: State, u: State, todo: set<Name>, n: Name)
    requires Derived(s) && u.devices == s.devices && Active(u, n) && MovedOn(s, u, todo, n)
    requires Active(s, n) || KeyFor(u, n) !in u.devices
    ensures Settled(u, n) || (n in todo && Improves(u.devices, Listing(u, n)))
  {
    hide KeyOf, DeviceOf, Trimmed, Listing, AllListed;
    assert Active(s, n) ==> Settled(s, n);
  }

  lemma SameKeys(s: State, u: State, todo: set<Name>, n: Name)
    requires Active(s, n) && Active(u, n) && MovedOn(s, u, todo, n)
    ensures KeyFor(u, n) == KeyFor(s, n)
  {
    hide KeyOf, DeviceOf, Trimmed, Listing;
  }

  lemma ReadyKeys(s: State, u: State, todo: set<Name>)
    requires AllListed(s) && Plain(u) && u.devices == s.devices
    requires forall n :: Active(s, n) ==> Active(u, n)
    requires forall n :: MovedOn(s, u, todo, n)
    ensures AllListed(u)
    ensures forall n :: Active(u, n) && !Active(s, n) ==> KeyFor(u, n) !in u.devices
  {
    hide KeyFor, Plain, MovedOn;
    forall k | k in u.devices ensures exists n :: Active(s, n) && Active(u, n) && k == KeyFor(u, n) {
      var n :| Active(s, n) && k == KeyFor(s, n);
      SameKeys(s, u, todo, n);
      assert Active(s, n) && Active(u, n) && k == KeyFor(u, n);
    }
    forall n | Active(u, n) && !Active(s, n) ensures KeyFor(u, n) !in u.devices {
      if KeyFor(u, n) in u.devices {
        var m :| Active(s, m) && Active(u, m) && KeyFor(u, n) == KeyFor(u, m);
        KeysApart(u, m, n);
      }
    }
  }

  /** The other tables have moved on and the devices not yet: `todo` are the instances to enter. */
  lemma Ready(s: State, u: State, todo: set<Name>)
    requires Derived(s) && Plain(u) && u.devices == s.devices
    requires forall n :: Active(s, n) ==> Active(u, n)
    requires forall n :: MovedOn(s, u, todo, n)
    ensures SettledBut(u, todo)
  {
    hide MovedOn, KeyFor, Listing, Settled, Improves, AllListed, Plain;
    ReadyKeys(s, u, todo);
    forall n | Active(u, n) ensures Settled(u, n) || (n in todo && Improves(u.devices, Listing(u, n))) {
      ReadyOne(s, u, todo, n);
    }
  }

  /** Some active instance is on this host. */
  ghost predicate Serves(s: State, host: Name) {
    exists n :: Active(s, n) && s.srvs[n].target == host
  }

  /** What the tables ask of the next record. */
  ghost predicate Fits(s: State, r: Record) {
    match r
    case A(host, address) => Serves(s, host) && host in s.addresses ==> s.addresses[host] == address
    case Srv(service) =>
      IsInstance(service.name) ==>
        OwnName(service.name) && (service.name in s.srvs ==> s.srvs[service.name] == service)
    case Txt(name, id) =>
      '|' !in Trimmed(name) && forall n :: n in s.srvs && Trimmed(name) == Trimmed(n) ==> name == n
    case Ptr(_) => true
    case Other => true
  }

  lemma ConformingFits(seen: set<Record>, s: State, r: Record)
    requires Conforming(seen + {r}) && Holds(seen, s)
    ensures Plain(s) && Fits(s, r)
  {
    hide Trimmed, IsInstance, OwnName;
    forall n | n in s.srvs ensures IsInstance(n) && OwnName(n) {
      assert WellNamed(Srv(s.srvs[n]));
    }
    assert WellNamed(r);
    match r
    case A(host, address) =>
      if Serves(s, host) && host in s.addresses {
        var n :| Active(s, n) && s.srvs[n].target == host;
        assert Ptr(n) in seen + {r} && Srv(Service(n, host, s.srvs[n].port)) in seen + {r};
        assert Hosts(seen + {r}, host);
      }
    case Srv(service) =>
      if service.name in s.srvs { assert Agree(Srv(s.srvs[service.name]), r); }
    case Txt(name, id) =>
      forall n | n in s.srvs && Trimmed(name) == Trimmed(n) ensures name == n {
        assert Agree(r, Srv(s.srvs[n]));
      }
    case Ptr(_) =>
    case Other =>
  }

  lemma PointerKeeps(s: State, target: Name, t: State)
    requires Derived(s) && Plain(s) && Step(s, Ptr(target), t)
    ensures Derived(t)
  {
    hide KeyOf, DeviceOf, OwnName, IsInstance, Settled, AllListed, Improves, Put;
    if IsInstance(target) {
      var u := s.(ptrs := s.ptrs + {target});
      if target in u.srvs {
        Ready(s, u, {target});
        EntrySettles(u, {target}, target);
      } else {
        Ready(s, u, {});
      }
    }
  }

  lemma ServiceKeeps(s: State, service: Service, t: State)
    requires Derived(s) && Plain(s) && Fits(s, Srv(service)) && Step(s, Srv(service), t)
    ensures Derived(t)
  {
    hide KeyOf, DeviceOf, OwnName, IsInstance, Settled, AllListed, Improves, Put;
    var name := service.name;
    if IsInstance(name) {
      var u := s.(srvs := s.srvs[name := service]);
      if name in u.ptrs {
        Ready(s, u, {name});
        EntrySettles(u, {name}, name);
      } else {
        Ready(s, u, {});
      }
    }
  }

  lemma AddressReady(s: State, host: Name, address: Address, n: Name)
    requires Fits(s, A(host, address)) && Active(s, n)
    ensures var u := s.(addresses := s.addresses[host := address]);
            || Listing(u, n) == Listing(s, n)
            || (s.srvs[n].target == host && Completes(Listing(s, n), Listing(u, n)))
  {
    hide Trimmed;
    assert s.srvs[n].target == host ==> Serves(s, host);
  }

  lemma AddressKeeps(s: State, host: Name, address: Address, t: State)
    requires Derived(s) && Plain(s) && Fits(s, A(host, address)) && Step(s, A(host, address), t)
    ensures Derived(t)
  {
    hide KeyOf, DeviceOf, OwnName, IsInstance, Settled, AllListed, Improves, Completes, Listing, Listed, Fits;
    var u := s.(addresses := s.addresses[host := address]);
    var order :| Orders(u, host, order) && t == ListedAll(u, order);
    hide ListedAll;
    var todo := set n | n in order;
    forall n ensures MovedOn(s, u, todo, n) {
      if Active(u, n) { AddressReady(s, host, address, n); }
    }
    Ready(s, u, todo);
    EntriesSettle(u, todo, order);
  }

  lemma RenamedSettles(s: State, name: Name, id: string, n: Name)
    requires Plain(s) && Fits(s, Txt(name, id)) && n in s.srvs && Settled(s, n)
    ensures var t := s.(ids := s.ids[name := id], devices := Renamed(s.devices, name, id));
            KeyFor(t, n) == KeyFor(s, n) && Settled(t, n)
  {
    hide KeyOf;
    KeyPrefix(Trimmed(name), Listing(s, n));
    hide Trimmed;
    var t := s.(ids := s.ids[name := id], devices := Renamed(s.devices, name, id));
    SameKey(Listing(s, n), id);
    assert Listing(t, n) == if n == name then Listing(s, n).(id := id) else Listing(s, n);
  }

  lemma TextKeeps(s: State, name: Name, id: string, t: State)
    requires Derived(s) && Plain(s) && Fits(s, Txt(name, id)) && Step(s, Txt(name, id), t)
    ensures Derived(t)
  {
    hide KeyOf, DeviceOf, Trimmed, OwnName, Fits, Settled, Listing;
    forall n | Active(s, n) ensures KeyFor(t, n) == KeyFor(s, n) && Settled(t, n) {
      RenamedSettles(s, name, id, n);
    }
    forall k | k in t.devices ensures exists n :: Active(t, n) && k == KeyFor(t, n) {
      assert k in s.devices;
      var n :| Active(s, n) && k == KeyFor(s, n);
      assert Active(t, n) && k == KeyFor(t, n);
    }
  }

  lemma StepKeeps(s: State, r: Record, t: State)
    requires Derived(s) && Plain(s) && Fits(s, r) && Step(s, r, t)
    ensures Derived(t)
  {
    match r
    case A(host, address) => AddressKeeps(s, host, address, t);
    case Ptr(target) => PointerKeeps(s, target, t);
    case Srv(service) => ServiceKeeps(s, service, t);
    case Txt(name, id) => TextKeeps(s, name, id, t);
    case Other =>
  }

  // ---- All records ----

  function Members(records: seq<Record>): set<Record> {
    set r | r in records
  }

  lemma ConformingShrinks(seen: set<Record>, r: Record)
    requires Conforming(seen + {r})
    ensures Conforming(seen)
  {
    hide WellNamed, Agree, IsInstance;
    assert forall q :: q in seen ==> q in seen + {r};
    forall h | Hosts(seen, h) ensures Hosts(seen + {r}, h) {
      var n, port :| Ptr(n) in seen && IsInstance(n) && Srv(Service(n, h, port)) in seen;
      assert Ptr(n) in seen + {r} && Srv(Service(n, h, port)) in seen + {r};
    }
  }

  lemma {:induction false} CollectedHolds(records: seq<Record>, s: State)
    requires Run(EMPTY, records, s)
    ensures Holds(Members(records), s)
    ensures Conforming(Members(records)) ==> Derived(s)
    decreases |records|
  {
    if records != [] {
      hide Holds, Step, Derived, Fits, Plain, WellNamed, Agree, Hosts;
      var front, last := records[..|records| - 1], records[|records| - 1];
      var u :| Run(EMPTY, front, u) && Step(u, last, s);
      CollectedHolds(front, u);
      HoldsStep(Members(front), u, last, s);
      assert Members(front) + {last} == Members(records) by {
        assert records == front + [last];
      }
      if Conforming(Members(records)) {
        ConformingShrinks(Members(front), last);
        ConformingFits(Members(front), u, last);
        StepKeeps(u, last, s);
      }
    }
  }

  /** The join of the records: `d` is the device of the instance `n`, as far as it has been described. */
  ghost predicate Joined(seen: set<Record>, n: Name, d: Device) {
    && Ptr(n) in seen && n == d.name + "._quava._udp.local." && Srv(Service(n, d.host, d.port)) in seen
    && (if d.address == "" then forall a :: A(d.host, a) !in seen else A(d.host, d.address) in seen)
    && (if d.id == "" then forall id :: Txt(n, id) in seen ==> id == "" else Txt(n, d.id) in seen)
  }

  /** The devices listed are exactly the joins of the records seen. */
  lemma ClosedForm(records: seq<Record>, s: State)
    requires Run(EMPTY, records, s) && Conforming(Members(records))
    ensures forall d :: (KeyOf(d) in s.devices && s.devices[KeyOf(d)] == d) <==>
                        exists n :: Joined(Members(records), n, d)
    ensures forall k :: k in s.devices ==> KeyOf(s.devices[k]) == k
  {
    CollectedHolds(records, s);
    var seen := Members(records);
    forall k | k in s.devices ensures KeyOf(s.devices[k]) == k {
      var n :| Active(s, n) && k == KeyFor(s, n);
      assert Settled(s, n);
    }
    forall d
      ensures (KeyOf(d) in s.devices && s.devices[KeyOf(d)] == d) <==> exists n :: Joined(seen, n, d)
    {
      if KeyOf(d) in s.devices && s.devices[KeyOf(d)] == d {
        var n :| Active(s, n) && KeyOf(d) == KeyFor(s, n);
        assert Settled(s, n);
        ListingJoined(seen, s, n, d);
      }
      if exists n :: Joined(seen, n, d) {
        var n :| Joined(seen, n, d);
        ListingJoined(seen, s, n, d);
        assert Settled(s, n);
      }
    }
  }

  lemma NameOfInstance(n: Name, name: Name)
    ensures n == name + "._quava._udp.local." <==> IsInstance(n) && Trimmed(n) == name
  {
    if n == name + SERVICE {
      assert n[|n| - |SERVICE|..] == SERVICE && n[..|n| - |SERVICE|] == name;
    } else if IsInstance(n) {
      assert n == n[..|n| - |SERVICE|] + SERVICE;
    }
  }

  lemma ListingJoined(seen: set<Record>, s: State, n: Name, d: Device)
    requires Holds(seen, s) && Conforming(seen)
    ensures Joined(seen, n, d) <==> Active(s, n) && d == Listing(s, n)
  {
    NameOfInstance(n, d.name);
    hide Trimmed, IsInstance;
    assert Joined(seen, n, d) ==> Hosts(seen, d.host);
    if Active(s, n) {
      assert Srv(Service(n, s.srvs[n].target, s.srvs[n].port)) in seen;
    }
  }

  /** Order, repetition and grouping of the records make no difference to the devices listed. */
  lemma OrderIrrelevant(a: seq<Record>, s: State, b: seq<Record>, t: State)
    requires Run(EMPTY, a, s) && Run(EMPTY, b, t)
    requires Members(a) == Members(b) && Conforming(Members(a))
    ensures s.devices == t.devices
  {
    ClosedForm(a, s);
    ClosedForm(b, t);
    hide *;
    forall k | k in s.devices ensures k in t.devices && t.devices[k] == s.devices[k] {
      assert KeyOf(s.devices[k]) == k;
    }
    forall k | k in t.devices ensures k in s.devices {
      assert KeyOf(t.devices[k]) == k;
    }
  }

  // ---- Hosts with several addresses ----

  lemma RunOne(s: State, r: Record, t: State)
    requires Step(s, r, t)
    ensures Run(s, [r], t)
  {
    hide Step;
    RunNothing(s);
    RunSnoc(s, [], s, r, t);
    assert [] + [r] == [r];
  }

  lemma {:induction false} SetAsSeq<T>(s: set<T>) returns (q: seq<T>)
    ensures forall x :: x in q <==> x in s
    ensures forall i, j :: 0 <= i < j < |q| ==> q[i] != q[j]
    decreases s
  {
    if s == {} {
      q := [];
    } else {
      var x :| x in s;
      q := SetAsSeq(s - {x});
      q := q + [x];
    }
  }

  /** Every record has a step: the map yields the instances of a host in some order. */
  lemma StepExists(s: State, r: Record) returns (t: State)
    ensures Step(s, r, t)
  {
    hide Listed, IsInstance, Renamed;
    match r
    case A(host, address) =>
      var u := s.(addresses := s.addresses[host := address]);
      var order := SetAsSeq(set n | n in u.srvs && n in u.ptrs && u.srvs[n].target == host);
      assert Orders(u, host, order);
      t := ListedAll(u, order);
    case Ptr(target) =>
      var u := s.(ptrs := s.ptrs + {target});
      t := if !IsInstance(target) then s else if target in u.srvs then Listed(u, target) else u;
    case Srv(service) =>
      var u := s.(srvs := s.srvs[service.name := service]);
      t := if !IsInstance(service.name) then s
           else if service.name in u.ptrs then Listed(u, service.name) else u;
    case Txt(name, id) =>
      t := s.(ids := s.ids[name := id], devices := Renamed(s.devices, name, id));
    case Other => t := s;
  }

  predicate HasAddress(s: State, k: Key, address: string) {
    k in s.devices && s.devices[k].address == address
  }

  lemma {:induction false} EntriesStick(s: State, order: seq<Name>, k: Key, address: Address)
    requires HasAddress(s, k, address) && forall n :: n in order ==> n in s.srvs
    ensures HasAddress(ListedAll(s, order), k, address)
    decreases |order|
  {
    hide KeyOf, DeviceOf;
    if order != [] {
      EntriesStick(s, order[..|order| - 1], k, address);
    }
  }

  /** A device with an address keeps it, whatever comes. */
  lemma StepSticks(s: State, r: Record, t: State, k: Key, address: Address)
    requires HasAddress(s, k, address) && Step(s, r, t)
    ensures HasAddress(t, k, address)
  {
    hide KeyOf, DeviceOf, IsInstance, Trimmed;
    match r
    case A(host, a) =>
      var u := s.(addresses := s.addresses[host := a]);
      var order :| Orders(u, host, order) && t == ListedAll(u, order);
      EntriesStick(u, order, k, address);
    case Ptr(_) =>
    case Srv(_) =>
    case Txt(_, _) =>
    case Other =>
  }

  lemma {:induction false} RunOn(s: State, records: seq<Record>, u: State, more: seq<Record>, k: Key, address: Address)
    returns (t: State)
    requires Run(s, records, u) && HasAddress(u, k, address)
    ensures Run(s, records + more, t) && HasAddress(t, k, address)
    decreases |more|
  {
    hide Run, Step, HasAddress;
    if more == [] {
      t := u;
      assert records + more == records;
    } else {
      var front, last := more[..|more| - 1], more[|more| - 1];
      var v := RunOn(s, records, u, front, k, address);
      t := StepExists(v, last);
      StepSticks(v, last, t, k, address);
      RunSnoc(s, records + front, v, last, t);
      assert (records + front) + [last] == records + more;
    }
  }

  function InstanceKey(n: Name, service: Service): Key {
    KeyOf(DeviceOf(n, service, "", ""))
  }

  lemma SameKeyElsewhere(d: Device, e: Device)
    requires d.name == e.name && d.host == e.host && d.port == e.port
    ensures KeyOf(d) == KeyOf(e)
  {
  }

  lemma KeyOfListing(s: State, n: Name)
    requires n in s.srvs
    ensures KeyFor(s, n) == InstanceKey(n, s.srvs[n])
  {
    hide KeyOf;
    SameKeyElsewhere(Listing(s, n), DeviceOf(n, s.srvs[n], "", ""));
  }

  /** Pointer, service, address, from the beginning. */
  lemma ListedAt(n: Name, service: Service, x: Address) returns (t: State)
    requires IsInstance(n) && service.name == n
    ensures Run(EMPTY, [Ptr(n), Srv(service), A(service.target, x)], t)
    ensures HasAddress(t, InstanceKey(n, service), x)
  {
    hide KeyOf, Trimmed, IsInstance, Run, HasSuffix;
    var pointed := EMPTY.(ptrs := {n});
    assert EMPTY.ptrs + {n} == {n};
    assert Step(EMPTY, Ptr(n), pointed);
    var served := pointed.(srvs := map[n := service]);
    var entered := Listed(served, n);
    assert Step(pointed, Srv(service), entered);
    RunOne(EMPTY, Ptr(n), pointed);
    RunSnoc(EMPTY, [Ptr(n)], pointed, Srv(service), entered);
    t := LocatedAt(entered, n, x);
    RunSnoc(EMPTY, [Ptr(n)] + [Srv(service)], entered, A(service.target, x), t);
    assert [Ptr(n)] + [Srv(service)] + [A(service.target, x)] == [Ptr(n), Srv(service), A(service.target, x)];
  }

  /** The only instance, listed without an address, gets the one that arrives. */
  lemma LocatedAt(s: State, n: Name, x: Address) returns (t: State)
    requires s.srvs.Keys == {n} && s.ptrs == {n} && s.addresses == map[]
    requires s.devices == map[KeyFor(s, n) := Listing(s, n)]
    ensures Step(s, A(s.srvs[n].target, x), t) && HasAddress(t, InstanceKey(n, s.srvs[n]), x)
  {
    hide KeyOf, Trimmed;
    var host := s.srvs[n].target;
    var u := s.(addresses := s.addresses[host := x]);
    KeyOfListing(s, n);
    KeyOfListing(u, n);
    t := Listed(u, n);
    assert ListedAll(u, [n]) == t by {
      assert [n][..0] == [];
      assert ListedAll(u, []) == u;
    }
    assert Orders(u, host, [n]);
  }

  ghost predicate Independent(seen: set<Record>) {
    forall a, s, b, t :: Run(EMPTY, a, s) && Run(EMPTY, b, t) && Members(a) == seen && Members(b) == seen ==>
      s.devices == t.devices
  }

  lemma SeenAfter(first: seq<Record>, rest: seq<Record>, seen: set<Record>)
    requires Members(rest) == seen && forall r :: r in first ==> r in seen
    ensures Members(first + rest) == seen
  {
  }

  /** With two addresses for the host of a listed instance, two orders of the same records disagree. */
  lemma AddressOrderMatters(seen: set<Record>, n: Name, service: Service, x: Address, y: Address)
    requires IsInstance(n) && service.name == n && Ptr(n) in seen && Srv(service) in seen
    requires A(service.target, x) in seen && A(service.target, y) in seen && x != y
    ensures !Independent(seen)
  {
    hide Run, IsInstance, InstanceKey;
    var k := InstanceKey(n, service);
    var rest := SetAsSeq(seen);
    assert Members(rest) == seen;
    var u := ListedAt(n, service, x);
    var v := ListedAt(n, service, y);
    var first, second := [Ptr(n), Srv(service), A(service.target, x)], [Ptr(n), Srv(service), A(service.target, y)];
    var s := RunOn(EMPTY, first, u, rest, k, x);
    var t := RunOn(EMPTY, second, v, rest, k, y);
    SeenAfter(first, rest, seen);
    SeenAfter(second, rest, seen);
    assert s.devices != t.devices;
  }

  /**
   For records that are otherwise consistent, the devices listed do not depend on the order exactly
   when no host of a listed instance has two addresses.
   */
  lemma IndependentIff(seen: set<Record>)
    requires Consistent(seen)
    ensures Independent(seen) <==> OneAddress(seen)
  {
    hide Run, IsInstance, Consistent;
    if OneAddress(seen) {
      forall a, s, b, t | Run(EMPTY, a, s) && Run(EMPTY, b, t) && Members(a) == seen && Members(b) == seen
        ensures s.devices == t.devices
      {
        OrderIrrelevant(a, s, b, t);
      }
    } else {
      var h, x, y :| A(h, x) in seen && A(h, y) in seen && Hosts(seen, h) && x != y;
      var n, port :| Ptr(n) in seen && IsInstance(n) && Srv(Service(n, h, port)) in seen;
      AddressOrderMatters(seen, n, Service(n, h, port), x, y);
    }
  }

  /** Before the instance is listed an address is overwritten by the next: here the last one counts. */
  lemma EarlyAddressOverwritten(n: Name, service: Service, x: Address, y: Address) returns (t: State)
    requires IsInstance(n) && service.name == n
    ensures Run(EMPTY, [A(service.target, x), A(service.target, y), Ptr(n), Srv(service)], t)
    ensures HasAddress(t, InstanceKey(n, service), y)
  {
    hide KeyOf, Trimmed, IsInstance, Run, HasSuffix;
    var h := service.target;
    var first, second := EMPTY.(addresses := map[h := x]), EMPTY.(addresses := map[h := y]);
    UnlistedAddress(EMPTY, h, x);
    UnlistedAddress(first, h, y);
    assert first.addresses[h := y] == second.addresses;
    var pointed := second.(ptrs := {n});
    assert second.ptrs + {n} == {n};
    assert Step(second, Ptr(n), pointed);
    var served := pointed.(srvs := map[n := service]);
    t := Listed(served, n);
    KeyOfListing(served, n);
    assert Step(pointed, Srv(service), t);
    RunOne(EMPTY, A(h, x), first);
    RunSnoc(EMPTY, [A(h, x)], first, A(h, y), second);
    RunSnoc(EMPTY, [A(h, x)] + [A(h, y)], second, Ptr(n), pointed);
    RunSnoc(EMPTY, [A(h, x)] + [A(h, y)] + [Ptr(n)], pointed, Srv(service), t);
    assert [A(h, x)] + [A(h, y)] + [Ptr(n)] + [Srv(service)] == [A(h, x), A(h, y), Ptr(n), Srv(service)];
  }

  lemma UnlistedAddress(s: State, host: Name, address: Address)
    requires s.ptrs == {}
    ensures Step(s, A(host, address), s.(addresses := s.addresses[host := address]))
  {
    var u := s.(addresses := s.addresses[host := address]);
    assert Orders(u, host, []) && ListedAll(u, []) == u;
  }
}
