/** Connection slots and revocation (`api/mod.rs`): accept, handshake, per-device slot, request loop.
    Connections and RPCs interleave step by step. */
module Connections {
  import opened Wrappers

  const MAX_CONCURRENT_CONNS: nat := 64
  const PER_DEVICE_MAX_CONNS: nat := 8

  type Key = string
  type ConnId = nat

  datatype Device = Device(id: nat, pubkey: Key)

  // ---- Per-device slots ----

  /** `DeviceConnGuard::acquire`. */
  function Acquired(counts: map<Key, nat>, key: Key, max: nat): Option<map<Key, nat>> {
    var n := if key in counts then counts[key] else 0;
    if n >= max then None else Some(counts[key := n + 1])
  }

  /** `Drop` of the guard. */
  function Released(counts: map<Key, nat>, key: Key): map<Key, nat> {
    if key !in counts then counts
    else if counts[key] <= 1 then counts - {key}
    else counts[key := counts[key] - 1]
  }

  class DeviceConns {
    var counts: map<Key, nat>

    constructor ()
      ensures counts == map[]
    {
      counts := map[];
    }

    method Acquire(key: Key, max: nat) returns (ok: bool)
      requires max > 0
      modifies this`counts
      ensures ok <==> Acquired(old(counts), key, max).Some?
      ensures ok ==> counts == Acquired(old(counts), key, max).value
      ensures !ok ==> counts == old(counts)
    {
      if key !in counts { counts := counts[key := 0]; }
      if counts[key] >= max { return false; }
      counts := counts[key := counts[key] + 1];
      ok := true;
    }

    method Release(key: Key)
      modifies this`counts
      ensures counts == Released(old(counts), key)
    {
      if key in counts {
        var n := counts[key];
        counts := counts[key := if n == 0 then 0 else n - 1];
        if counts[key] == 0 { counts := counts - {key}; }
      }
    }
  }

  // ---- Devices ----

  function Without(devices: seq<Device>, id: nat, key: Option<Key>): (r: seq<Device>)
    ensures forall d :: d in r <==> d in devices && d.id != id && Some(d.pubkey) != key
  {
    Filter(devices, (d: Device) => d.id != id && Some(d.pubkey) != key)
  }

  lemma WithoutKeepsUnique(devices: seq<Device>, id: nat, key: Option<Key>)
    ensures UniqueKeys(devices) ==> UniqueKeys(Without(devices, id, key))
  {
    if UniqueKeys(devices) {
      FilterStaysApart(devices, (d: Device) => d.id != id && Some(d.pubkey) != key, (d: Device, e: Device) => d.pubkey != e.pubkey);
    }
  }

  predicate UniqueKeys(devices: seq<Device>) {
    forall i, j | 0 <= i < j < |devices| :: devices[i].pubkey != devices[j].pubkey
  }

  /** `add_device`: an earlier registration of the same id or key gives way. */
  function Added(devices: seq<Device>, d: Device): (r: seq<Device>)
    ensures UniqueKeys(devices) ==> UniqueKeys(r)
    ensures forall e :: e in r <==> e == d || (e in devices && e.id != d.id && e.pubkey != d.pubkey)
  {
    WithoutKeepsUnique(devices, d.id, Some(d.pubkey));
    Without(devices, d.id, Some(d.pubkey)) + [d]
  }

  /** `remove_device`. */
  function Removed(devices: seq<Device>, id: nat): (r: seq<Device>)
    ensures UniqueKeys(devices) ==> UniqueKeys(r)
    ensures forall d :: d in r <==> d in devices && d.id != id
  {
    WithoutKeepsUnique(devices, id, None);
    Without(devices, id, None)
  }

  /** `get_device_by_pubkey`. */
  function FindDevice(devices: seq<Device>, key: Key): (r: Option<nat>)
    ensures r.Some? <==> exists d :: d in devices && d.pubkey == key
    ensures r.Some? ==> exists d :: d in devices && d.pubkey == key && d.id == r.value
  {
    if devices == [] then None
    else
      assert devices == [devices[0]] + devices[1..];
      if devices[0].pubkey == key then Some(devices[0].id) else FindDevice(devices[1..], key)
  }

  // ---- The server ----

  datatype Phase =
    | Handshaking
    | Authorized(key: Key)              // handshake done, no slot yet
    | Serving(key: Key)                 // holds a slot, waits for a request
    | Checked(key: Key, device: nat)    // a request has passed its recheck

  predicate Holds(p: Phase, key: Key) {
    (p.Serving? || p.Checked?) && p.key == key
  }

  datatype Server = Server(conns: map<ConnId, Phase>, next: ConnId, counts: map<Key, nat>, permits: nat, devices: seq<Device>)

  /** `Authorize` carries the id a valid pairing code would register and whether the store saves;
      `early` says that its lookup of the key came before somebody else's pairing of it. */
  datatype Event =
    | Accept(withinRate: bool)
    | Authorize(conn: ConnId, key: Key, pairing: Option<nat>, saved: bool, early: bool)
    | Acquire(conn: ConnId)
    | Request(conn: ConnId)
    | Dispatch(conn: ConnId)
    | End(conn: ConnId)
    | Revoke(device: nat)

  /** A connection ends: its guard, if any, and its permit are dropped. */
  function Closed(s: Server, c: ConnId): Server
    requires c in s.conns && s.permits > 0
  {
    var p := s.conns[c];
    s.(conns := s.conns - {c},
       permits := s.permits - 1,
       counts := if p.Serving? || p.Checked? then Released(s.counts, p.key) else s.counts)
  }

  function Moved(s: Server, c: ConnId, p: Phase): Server {
    s.(conns := s.conns[c := p])
  }

  function Next(s: Server, ev: Event): Server
    requires s.conns != map[] ==> s.permits > 0
  {
    match ev
    case Accept(withinRate) =>
      if !withinRate || s.permits >= MAX_CONCURRENT_CONNS then s
      else s.(conns := s.conns[s.next := Handshaking], next := s.next + 1, permits := s.permits + 1)
    case Authorize(c, key, pairing, saved, early) =>
      if !(c in s.conns && s.conns[c].Handshaking?) then s
      else if FindDevice(s.devices, key).Some? && !early then Moved(s, c, Authorized(key))
      else if pairing.None? then Closed(s, c)
      else
        var t := s.(devices := Added(s.devices, Device(pairing.value, key)));
        if saved then Moved(t, c, Authorized(key)) else Closed(t, c)
    case Acquire(c) =>
      if !(c in s.conns && s.conns[c].Authorized?) then s
      else
        var key := s.conns[c].key;
        var counts := Acquired(s.counts, key, PER_DEVICE_MAX_CONNS);
        if counts.None? then Closed(s, c) else Moved(s, c, Serving(key)).(counts := counts.value)
    case Request(c) =>
      if !(c in s.conns && s.conns[c].Serving?) then s
      else
        var key := s.conns[c].key;
        var device := FindDevice(s.devices, key);
        if device.None? then Closed(s, c) else Moved(s, c, Checked(key, device.value))
    case Dispatch(c) =>
      if c in s.conns && s.conns[c].Checked? then Moved(s, c, Serving(s.conns[c].key)) else s
    case End(c) =>
      if c in s.conns then Closed(s, c) else s
    case Revoke(id) =>
      s.(devices := Removed(s.devices, id))
  }

  // ---- Slots ----

  /** The live guards of a key. */
  function Live(conns: map<ConnId, Phase>, key: Key): set<ConnId> {
    set c | c in conns && Holds(conns[c], key)
  }

  ghost predicate Invariant(s: Server) {
    && s.permits == |s.conns| <= MAX_CONCURRENT_CONNS
    && (forall c | c in s.conns :: c < s.next)
    && UniqueKeys(s.devices)
    && CountsMatch(s.counts, s.conns)
  }

  ghost predicate CountsMatch(counts: map<Key, nat>, conns: map<ConnId, Phase>) {
    forall key :: CountMatches(counts, |Live(conns, key)|, key)
  }

  /** The stored count is the number of guards, and an unused key is not stored. */
  predicate CountMatches(counts: map<Key, nat>, live: nat, key: Key) {
    && live <= PER_DEVICE_MAX_CONNS
    && if key in counts then counts[key] == live >= 1 else live == 0
  }

  /** What becomes of a connection: it is let in while it is within the rate and fewer than 64 are; it
      passes if its key is known, or newly paired and saved; it gets a slot while its key holds fewer than 8;
      and its request is taken up while a device has its key. Otherwise it is closed. */
  lemma ConnectionPassesIff(s: Server, ev: Event)
    requires Invariant(s)
    ensures
      var t := Next(s, ev);
      match ev
      case Accept(withinRate) => s.next in t.conns <==> withinRate && |s.conns| < 64
      case Authorize(c, key, pairing, saved, early) =>
        c in s.conns && s.conns[c] == Handshaking ==>
          if ((exists d | d in s.devices :: d.pubkey == key) && !early) || (pairing.Some? && saved)
          then c in t.conns && t.conns[c] == Authorized(key) else c !in t.conns
      case Acquire(c) =>
        c in s.conns && s.conns[c].Authorized? ==>
          if |Live(s.conns, s.conns[c].key)| < 8 then c in t.conns && t.conns[c] == Serving(s.conns[c].key) else c !in t.conns
      case Request(c) =>
        c in s.conns && s.conns[c].Serving? ==>
          if exists d | d in s.devices :: d.pubkey == s.conns[c].key
          then c in t.conns && t.conns[c].Checked? && t.conns[c].key == s.conns[c].key
               && Device(t.conns[c].device, s.conns[c].key) in s.devices
          else c !in t.conns
      case Dispatch(c) => c in s.conns && s.conns[c].Checked? ==> c in t.conns && t.conns[c] == Serving(s.conns[c].key)
      case End(c) => c !in t.conns
      case Revoke(id) => t.conns == s.conns && forall d :: d in t.devices <==> d in s.devices && d.id != id
  {
    match ev
    case Acquire(c) =>
      if c in s.conns && s.conns[c].Authorized? {
        assert CountMatches(s.counts, |Live(s.conns, s.conns[c].key)|, s.conns[c].key);
      }
    case Request(c) =>
      if c in s.conns && s.conns[c].Serving? && FindDevice(s.devices, s.conns[c].key).Some? {
        var d :| d in s.devices && d.pubkey == s.conns[c].key && d.id == FindDevice(s.devices, s.conns[c].key).value;
        assert d == Device(d.id, d.pubkey);
      }
    case _ =>
  }

  /** And no event touches another connection. */
  lemma OthersUntouched(s: Server, ev: Event, c: ConnId)
    requires Invariant(s) && c in s.conns && !(ev.Authorize? && ev.conn == c) && !(ev.Acquire? && ev.conn == c)
    requires !(ev.Request? && ev.conn == c) && !(ev.Dispatch? && ev.conn == c) && !(ev.End? && ev.conn == c)
    ensures c in Next(s, ev).conns && Next(s, ev).conns[c] == s.conns[c]
  {
  }

  lemma LiveMoved(conns: map<ConnId, Phase>, c: ConnId, p: Phase, key: Key)
    ensures Live(conns[c := p], key) == if Holds(p, key) then Live(conns, key) + {c} else Live(conns, key) - {c}
  {
  }

  lemma LiveClosed(conns: map<ConnId, Phase>, c: ConnId, key: Key)
    ensures Live(conns - {c}, key) == Live(conns, key) - {c}
  {
  }

  /** A move between phases with the same guard changes no count. */
  lemma MoveKeepsCounts(s: Server, c: ConnId, p: Phase)
    requires CountsMatch(s.counts, s.conns)
    requires forall key :: Holds(p, key) <==> c in s.conns && Holds(s.conns[c], key)
    ensures CountsMatch(s.counts, s.conns[c := p])
  {
    var conns := s.conns[c := p];
    forall key ensures CountMatches(s.counts, |Live(conns, key)|, key) {
      LiveMoved(s.conns, c, p, key);
      assert Live(conns, key) == Live(s.conns, key);
    }
  }

  lemma AcquireKeepsCounts(s: Server, c: ConnId, key: Key)
    requires CountsMatch(s.counts, s.conns) && c in s.conns && s.conns[c] == Authorized(key)
    requires Acquired(s.counts, key, PER_DEVICE_MAX_CONNS).Some?
    ensures CountsMatch(Acquired(s.counts, key, PER_DEVICE_MAX_CONNS).value, s.conns[c := Serving(key)])
  {
    var counts, conns := Acquired(s.counts, key, PER_DEVICE_MAX_CONNS).value, s.conns[c := Serving(key)];
    forall k ensures CountMatches(counts, |Live(conns, k)|, k) {
      LiveMoved(s.conns, c, Serving(key), k);
      assert CountMatches(s.counts, |Live(s.conns, k)|, k);
      OneMore(Live(s.conns, k), c);
    }
  }

  lemma OneMore(live: set<ConnId>, c: ConnId)
    requires c !in live
    ensures |live + {c}| == |live| + 1 && live - {c} == live
  {
  }

  lemma CloseKeepsInvariant(s: Server, c: ConnId)
    requires Invariant(s) && c in s.conns && s.permits > 0
    ensures Invariant(Closed(s, c))
  {
    var p, t := s.conns[c], Closed(s, c);
    assert |t.conns| == |s.conns| - 1 by {
      assert t.conns.Keys == s.conns.Keys - {c};
      assert |s.conns.Keys| == |s.conns| && |t.conns.Keys| == |t.conns|;
    }
    forall k ensures CountMatches(t.counts, |Live(t.conns, k)|, k) {
      LiveClosed(s.conns, c, k);
      assert CountMatches(s.counts, |Live(s.conns, k)|, k);
      if !Holds(p, k) {
        assert Live(t.conns, k) == Live(s.conns, k);
      }
    }
  }

  lemma PermitsPositive(s: Server)
    requires Invariant(s)
    ensures s.conns != map[] ==> s.permits > 0
  {
  }

  /** Every step keeps the counts equal to the live guards, the bounds of 8 and 64, and the keys unique. */
  lemma {:induction false} NextKeepsInvariant(s: Server, ev: Event)
    requires Invariant(s)
    ensures s.conns != map[] ==> s.permits > 0
    ensures Invariant(Next(s, ev))
  {
    PermitsPositive(s);
    match ev
    case Accept(withinRate) =>
      if withinRate && s.permits < MAX_CONCURRENT_CONNS { AcceptKeepsInvariant(s); }
    case Authorize(c, key, pairing, saved, early) => AuthorizeKeepsInvariant(s, c, key, pairing, saved, early);
    case Acquire(c) => AcquireKeepsInvariant(s, c);
    case Request(c) => RequestKeepsInvariant(s, c);
    case Dispatch(c) =>
      if c in s.conns && s.conns[c].Checked? { MoveKeepsInvariant(s, c, Serving(s.conns[c].key)); }
    case End(c) =>
      if c in s.conns { CloseKeepsInvariant(s, c); }
    case Revoke(id) =>
  }

  lemma AcceptKeepsInvariant(s: Server)
    requires Invariant(s) && s.permits < MAX_CONCURRENT_CONNS
    ensures Invariant(s.(conns := s.conns[s.next := Handshaking], next := s.next + 1, permits := s.permits + 1))
  {
    var conns := s.conns[s.next := Handshaking];
    assert conns.Keys == s.conns.Keys + {s.next};
    assert |conns.Keys| == |conns| && |s.conns.Keys| == |s.conns|;
    MoveKeepsCounts(s, s.next, Handshaking);
  }

  lemma MoveKeepsInvariant(s: Server, c: ConnId, p: Phase)
    requires Invariant(s) && c in s.conns
    requires forall key :: Holds(p, key) <==> Holds(s.conns[c], key)
    ensures Invariant(Moved(s, c, p))
  {
    MoveKeepsCounts(s, c, p);
    assert s.conns[c := p].Keys == s.conns.Keys;
    assert |s.conns[c := p].Keys| == |s.conns[c := p]| && |s.conns.Keys| == |s.conns|;
  }

  lemma AuthorizeKeepsInvariant(s: Server, c: ConnId, key: Key, pairing: Option<nat>, saved: bool, early: bool)
    requires Invariant(s) && (s.conns != map[] ==> s.permits > 0)
    ensures Invariant(Next(s, Authorize(c, key, pairing, saved, early)))
  {
    if c in s.conns && s.conns[c].Handshaking? {
      if FindDevice(s.devices, key).Some? && !early {
        MoveKeepsInvariant(s, c, Authorized(key));
      } else if pairing.None? {
        CloseKeepsInvariant(s, c);
      } else {
        var t := s.(devices := Added(s.devices, Device(pairing.value, key)));
        if saved { MoveKeepsInvariant(t, c, Authorized(key)); } else { CloseKeepsInvariant(t, c); }
      }
    }
  }

  lemma AcquireKeepsInvariant(s: Server, c: ConnId)
    requires Invariant(s) && (s.conns != map[] ==> s.permits > 0)
    ensures Invariant(Next(s, Acquire(c)))
  {
    if c in s.conns && s.conns[c].Authorized? {
      var key := s.conns[c].key;
      if Acquired(s.counts, key, PER_DEVICE_MAX_CONNS).None? {
        CloseKeepsInvariant(s, c);
      } else {
        AcquireKeepsCounts(s, c, key);
        assert s.conns[c := Serving(key)].Keys == s.conns.Keys;
        assert |s.conns[c := Serving(key)].Keys| == |s.conns[c := Serving(key)]| && |s.conns.Keys| == |s.conns|;
      }
    }
  }

  lemma RequestKeepsInvariant(s: Server, c: ConnId)
    requires Invariant(s) && (s.conns != map[] ==> s.permits > 0)
    ensures Invariant(Next(s, Request(c)))
  {
    if c in s.conns && s.conns[c].Serving? {
      var key := s.conns[c].key;
      var device := FindDevice(s.devices, key);
      if device.None? { CloseKeepsInvariant(s, c); } else { MoveKeepsInvariant(s, c, Checked(key, device.value)); }
    }
  }

  function Run(s: Server, run: seq<Event>): (t: Server)
    requires Invariant(s)
    ensures Invariant(t)
    decreases |run|
  {
    if run == [] then s
    else
      NextKeepsInvariant(s, run[0]);
      Run(Next(s, run[0]), run[1..])
  }

  /** A starting server: devices from disk, nobody connected. */
  lemma SlotsOverRuns(devices: seq<Device>, run: seq<Event>, key: Key)
    requires UniqueKeys(devices)
    ensures
      && Invariant(Server(map[], 0, map[], 0, devices))
      && var t := Run(Server(map[], 0, map[], 0, devices), run);
         && t.permits == |t.conns| <= 64
         && (if key in t.counts then t.counts[key] else 0) == |Live(t.conns, key)| <= 8
         && (key in t.counts ==> t.counts[key] > 0)
  {
    var s := Server(map[], 0, map[], 0, devices);
    forall k ensures CountMatches(s.counts, |Live(s.conns, k)|, k) {
      assert Live(s.conns, k) == {};
    }
    assert Invariant(s);
    var t := Run(s, run);
    assert CountMatches(t.counts, |Live(t.conns, key)|, key);
  }

  // ---- Revocation ----

  /** Requests of connection `c` that are executed for `key`. */
  function Executed(s: Server, run: seq<Event>, c: ConnId, key: Key): nat
    requires Invariant(s)
    decreases |run|
  {
    if run == [] then 0
    else
      NextKeepsInvariant(s, run[0]);
      (if run[0] == Dispatch(c) && PastRecheck(s, c, key) then 1 else 0) + Executed(Next(s, run[0]), run[1..], c, key)
  }

  predicate PastRecheck(s: Server, c: ConnId, key: Key) {
    c in s.conns && s.conns[c].Checked? && s.conns[c].key == key
  }

  predicate Pairs(ev: Event, key: Key) {
    ev.Authorize? && ev.key == key && ev.pairing.Some?
  }

  predicate Known(s: Server, key: Key) {
    FindDevice(s.devices, key).Some?
  }

  /** Without a pairing an unknown key stays unknown, and no connection of it passes a recheck. */
  lemma UnknownStays(s: Server, ev: Event, c: ConnId, key: Key)
    requires Invariant(s) && !Known(s, key) && !Pairs(ev, key)
    ensures s.conns != map[] ==> s.permits > 0
    ensures !Known(Next(s, ev), key)
    ensures PastRecheck(Next(s, ev), c, key) ==> PastRecheck(s, c, key) && ev != Dispatch(c)
  {
    PermitsPositive(s);
  }

  lemma {:induction false} AtMostOneExecuted(s: Server, run: seq<Event>, c: ConnId, key: Key)
    requires Invariant(s) && !Known(s, key) && forall ev | ev in run :: !Pairs(ev, key)
    ensures Executed(s, run, c, key) <= if PastRecheck(s, c, key) then 1 else 0
    decreases |run|
  {
    if run != [] {
      NextKeepsInvariant(s, run[0]);
      UnknownStays(s, run[0], c, key);
      AtMostOneExecuted(Next(s, run[0]), run[1..], c, key);
    }
  }

  /** After a device is revoked, whatever happens next, each connection of its key executes at most
      the one request that was already past its recheck, and none that was not, unless the key is
      paired again. */
  lemma RevokedExecutesAtMostOne(s: Server, d: Device, run: seq<Event>, c: ConnId)
    requires Invariant(s) && d in s.devices
    requires forall ev | ev in run :: !Pairs(ev, d.pubkey)
    ensures Invariant(Next(s, Revoke(d.id)))
    ensures Executed(Next(s, Revoke(d.id)), run, c, d.pubkey) <= if PastRecheck(s, c, d.pubkey) then 1 else 0
  {
    NextKeepsInvariant(s, Revoke(d.id));
    var t := Next(s, Revoke(d.id));
    forall e | e in t.devices ensures e.pubkey != d.pubkey {
    }
    AtMostOneExecuted(t, run, c, d.pubkey);
  }
}
