/** Port forwards: the stored rules, the resolver with its fallback cache, and the commit of the
    whole NAT table (`forward.rs`, `store.rs`, `proto/src/forward.rs`). */
module Forwards {
  import opened Wrappers
  import opened Ports

  type Octet = b: int | 0 <= b < 256

  datatype Ip = Ip(a: Octet, b: Octet, c: Octet, d: Octet)

  datatype ForwardSource = Auto | Fixed(ip: Ip)

  datatype Request = Request(
    proto: ForwardProto,
    iface: Option<string>,
    listen: PortRange,
    destHost: string,
    destPort: PortRange,
    source: ForwardSource)

  datatype ForwardRule = ForwardRule(id: nat, req: Request)

  datatype ResolvedForward = ResolvedForward(
    proto: ForwardProto,
    iface: string,
    listen: PortRange,
    remoteIp: Ip,
    destPort: PortRange,
    sourceIp: Ip)

  /** What the host answers during one resolution: DNS (literals resolve to themselves), the default
      route's interface and the IPv4 addresses of each interface. */
  datatype Env = Env(dns: string -> Option<Ip>, defaultIface: Option<string>, addrs: string -> seq<Ip>)

  predicate IsIfaceChar(c: char) {
    'a' <= c <= 'z' || 'A' <= c <= 'Z' || '0' <= c <= '9' || c == '.' || c == '_' || c == '-'
  }

  predicate ValidIfaceName(name: string) {
    name != "" && |name| <= 15 && forall c | c in name :: IsIfaceChar(c)
  }

  /** One to fifteen ASCII letters, digits, full stops, underscores and hyphens, by their code points. */
  lemma IfaceNames(name: string)
    ensures ValidIfaceName(name) <==>
      && 1 <= |name| < 16
      && forall c | c in name :: 97 <= c as int < 123 || 65 <= c as int < 91 || 48 <= c as int < 58 || c as int in {45, 46, 95}
  {
  }

  /** Addresses nothing may be forwarded to: metadata endpoints, loopback, link-local, this-network,
      broadcast and multicast. */
  predicate Forbidden(ip: Ip) {
    || ip == Ip(100, 100, 100, 200) || ip == Ip(100, 100, 100, 136)
    || ip.a == 127
    || (ip.a == 169 && ip.b == 254)
    || ip.a == 0
    || ip == Ip(255, 255, 255, 255)
    || 224 <= ip.a < 240
  }

  function Number(ip: Ip): nat { ((ip.a * 256 + ip.b) * 256 + ip.c) * 256 + ip.d }

  /** In CIDR terms: the address agrees with the network's in all but the low bits. */
  predicate InNet(ip: Ip, net: Ip, size: nat)
    requires size > 0
  {
    Number(ip) / size == Number(net) / size
  }

  /** 127/8, 169.254/16, 0/8, 224/4, the broadcast address and the two metadata endpoints. */
  lemma ForbiddenNets(ip: Ip)
    ensures Forbidden(ip) <==>
      || InNet(ip, Ip(127, 0, 0, 0), 0x100_0000) || InNet(ip, Ip(169, 254, 0, 0), 0x1_0000) || InNet(ip, Ip(0, 0, 0, 0), 0x100_0000)
      || InNet(ip, Ip(224, 0, 0, 0), 0x1000_0000) || Number(ip) == 0xffff_ffff
      || Number(ip) == Number(Ip(100, 100, 100, 200)) || Number(ip) == Number(Ip(100, 100, 100, 136))
  {
  }

  predicate ValidPorts(listen: PortRange, dest: PortRange) {
    && listen.IsValid() && dest.IsValid()
    && (dest.start == dest.end || listen.end - listen.start == dest.end - dest.start)
  }

  /** `resolve_one`; the error texts are dropped. */
  function ResolveOne(req: Request, prev: Option<Ip>, env: Env): (r: Option<ResolvedForward>)
    ensures r.Some? ==> !Forbidden(r.value.remoteIp) && r.value.sourceIp in env.addrs(r.value.iface)
  {
    if req.iface.Some? && !ValidIfaceName(req.iface.value) then None
    else if req.iface.None? && env.defaultIface.None? then None
    else
      var iface := if req.iface.Some? then req.iface.value else env.defaultIface.value;
      var answer := env.dns(req.destHost);
      var target := if answer.Some? then answer else prev;
      if target.None? || Forbidden(target.value) then None
      else
        var addrs := env.addrs(iface);
        var first := if addrs == [] then None else Some(addrs[0]);
        var src := match req.source
          case Auto => first
          case Fixed(ip) => if ip in addrs then Some(ip) else first;
        if src.None? then None
        else Some(ResolvedForward(req.proto, iface, req.listen, target.value, req.destPort, src.value))
  }

  /** The interface a request is about: its own or the default route's. */
  function EffectiveIface(req: Request, defaultIface: Option<string>): Option<string> {
    if req.iface.Some? then req.iface else defaultIface
  }

  function AnswerFor(req: Request, prev: Option<Ip>, env: Env): Option<Ip> {
    if env.dns(req.destHost).Some? then env.dns(req.destHost) else prev
  }

  /** A request resolves exactly if its interface has a usable name and an address and its host an answer,
      or one remembered, that is permitted. It keeps its ports and protocol; its source address is the
      fixed one if the interface holds that, else the interface's first. */
  lemma ResolvedMeans(req: Request, prev: Option<Ip>, env: Env)
    ensures ResolveOne(req, prev, env).Some? <==>
      && EffectiveIface(req, env.defaultIface).Some? && (req.iface.Some? ==> ValidIfaceName(req.iface.value)) && env.addrs(EffectiveIface(req, env.defaultIface).value) != []
      && AnswerFor(req, prev, env).Some? && !Forbidden(AnswerFor(req, prev, env).value)
    ensures ResolveOne(req, prev, env).Some? ==>
      var fwd := ResolveOne(req, prev, env).value;
      && fwd.proto == req.proto && fwd.listen == req.listen && fwd.destPort == req.destPort
      && Some(fwd.iface) == EffectiveIface(req, env.defaultIface) && Some(fwd.remoteIp) == AnswerFor(req, prev, env)
      && (if req.source.Fixed? && req.source.ip in env.addrs(fwd.iface) then fwd.sourceIp == req.source.ip
          else fwd.sourceIp == env.addrs(fwd.iface)[0])
  {
  }

  /** One rule of the committed NAT table, with the id of the forward it came from. */
  datatype Live = Live(id: nat, fwd: ResolvedForward)

  function Lookup(cache: map<nat, Ip>, id: nat): Option<Ip> {
    if id in cache then Some(cache[id]) else None
  }

  /** The rules that resolve, in stored order; the others are skipped. */
  function ResolveList(rules: seq<ForwardRule>, cache: map<nat, Ip>, env: Env): seq<Live> {
    if rules == [] then []
    else
      var init, last := rules[..|rules| - 1], rules[|rules| - 1];
      match ResolveOne(last.req, Lookup(cache, last.id), env)
      case Some(fwd) => ResolveList(init, cache, env) + [Live(last.id, fwd)]
      case None => ResolveList(init, cache, env)
  }

  function CacheOf(table: seq<Live>): map<nat, Ip> {
    if table == [] then map[]
    else CacheOf(table[..|table| - 1])[table[|table| - 1].id := table[|table| - 1].fwd.remoteIp]
  }

  /** The store and the table in the kernel; no rules and a flushed table are the same thing. */
  datatype State = State(forwards: seq<ForwardRule>, cache: map<nat, Ip>, table: seq<Live>, nextId: nat)

  datatype Event =
    | Add(req: Request)
    | Update(id: nat, req: Request)
    | Remove(id: nat)
    // resolve everything and commit; `ok` is nft's answer
    | Commit(env: Env, ok: bool)

  function WithoutListen(rules: seq<ForwardRule>, iface: Option<string>, listen: PortRange): (r: seq<ForwardRule>)
    ensures forall f :: f in r <==> f in rules && !(f.req.iface == iface && f.req.listen == listen)
  {
    Filter(rules, (f: ForwardRule) => !(f.req.iface == iface && f.req.listen == listen))
  }

  function WithoutId(rules: seq<ForwardRule>, id: nat): (r: seq<ForwardRule>)
    ensures forall f :: f in r <==> f in rules && f.id != id
  {
    Filter(rules, (f: ForwardRule) => f.id != id)
  }

  function IndexOfId(rules: seq<ForwardRule>, id: nat): (r: Option<nat>)
    ensures r.Some? ==> r.value < |rules| && rules[r.value].id == id
    ensures r.None? ==> forall f | f in rules :: f.id != id
  {
    if rules == [] then None
    else
      assert rules == [rules[0]] + rules[1..];
      if rules[0].id == id then Some(0)
      else match IndexOfId(rules[1..], id)
        case None => None
        case Some(i) => Some(i + 1)
  }

  function Next(s: State, ev: Event): State {
    match ev
    case Add(req) =>
      s.(forwards := WithoutListen(s.forwards, req.iface, req.listen) + [ForwardRule(s.nextId, req)], nextId := s.nextId + 1)
    case Update(id, req) =>
      (match IndexOfId(s.forwards, id)
       case None => s
       case Some(i) =>
         s.(forwards := s.forwards[i := ForwardRule(id, req)],
            cache := if s.forwards[i].req.destHost != req.destHost then s.cache - {id} else s.cache))
    case Remove(id) =>
      if IndexOfId(s.forwards, id).None? then s
      else s.(forwards := WithoutId(s.forwards, id), cache := s.cache - {id})
    case Commit(env, ok) =>
      if !ok then s
      else
        var resolved := ResolveList(s.forwards, s.cache, env);
        s.(table := resolved, cache := CacheOf(resolved))
  }

  function Exec(s: State, evs: seq<Event>): State {
    if evs == [] then s else Next(Exec(s, evs[..|evs| - 1]), evs[|evs| - 1])
  }

  lemma ExecSnoc(s: State, evs: seq<Event>, ev: Event)
    ensures Exec(s, evs + [ev]) == Next(Exec(s, evs), ev)
  {
    assert (evs + [ev])[..|evs|] == evs;
  }

  lemma ExecStep(s: State, evs: seq<Event>, i: nat)
    requires i < |evs|
    ensures Exec(s, evs[..i + 1]) == Next(Exec(s, evs[..i]), evs[i])
  {
    assert evs[..i + 1] == evs[..i] + [evs[i]];
    ExecSnoc(s, evs[..i], evs[i]);
  }

  lemma {:induction false} ExecAppend(s: State, a: seq<Event>, b: seq<Event>)
    ensures Exec(s, a + b) == Exec(Exec(s, a), b)
  {
    if b == [] {
      assert a + b == a;
    } else {
      var init, last := b[..|b| - 1], b[|b| - 1];
      assert a + b == (a + init) + [last];
      ExecAppend(s, a, init);
      ExecSnoc(s, a + init, last);
    }
  }

  ghost predicate UniqueIds(rules: seq<ForwardRule>) {
    forall i, j | 0 <= i < j < |rules| :: rules[i].id != rules[j].id
  }

  /** What every run keeps, from a service start on: the store is whatever the state file held, the
      kernel's table may be gone. */
  ghost predicate Invariant(s: State) {
    && UniqueIds(s.forwards)
    && (forall f | f in s.forwards :: f.id < s.nextId)
    && (forall id | id in s.cache :: id < s.nextId)
    && (forall l | l in s.table :: !Forbidden(l.fwd.remoteIp) && l.id < s.nextId)
  }

  /** The fallback cache holds nothing but what the committed table holds. */
  ghost predicate CacheAgrees(s: State) {
    forall id | id in s.cache :: id in CacheOf(s.table) && s.cache[id] == CacheOf(s.table)[id]
  }

  lemma {:induction false} CacheOfTable(table: seq<Live>, id: nat)
    ensures id in CacheOf(table) <==> exists l :: l in table && l.id == id
    ensures id in CacheOf(table) ==> exists l :: l in table && l.id == id && l.fwd.remoteIp == CacheOf(table)[id]
  {
    if table != [] {
      CacheOfTable(table[..|table| - 1], id);
      assert table == table[..|table| - 1] + [table[|table| - 1]];
      assert table[|table| - 1] in table;
    }
  }

  lemma {:induction false} ResolveListMembers(rules: seq<ForwardRule>, cache: map<nat, Ip>, env: Env)
    ensures forall l :: l in ResolveList(rules, cache, env) <==>
      exists f :: f in rules && l.id == f.id && ResolveOne(f.req, Lookup(cache, f.id), env) == Some(l.fwd)
  {
    if rules != [] {
      var init, last := rules[..|rules| - 1], rules[|rules| - 1];
      ResolveListMembers(init, cache, env);
      assert rules == init + [last];
      forall l ensures l in ResolveList(rules, cache, env) <==>
        exists f :: f in rules && l.id == f.id && ResolveOne(f.req, Lookup(cache, f.id), env) == Some(l.fwd)
      {
        if l in ResolveList(init, cache, env) {
          var f :| f in init && l.id == f.id && ResolveOne(f.req, Lookup(cache, f.id), env) == Some(l.fwd);
          assert f in rules;
        }
        assert last in rules;
      }
    }
  }

  lemma WithoutListenKeepsUnique(rules: seq<ForwardRule>, iface: Option<string>, listen: PortRange)
    requires UniqueIds(rules)
    ensures UniqueIds(WithoutListen(rules, iface, listen))
  {
    FilterStaysApart(
      rules, (f: ForwardRule) => !(f.req.iface == iface && f.req.listen == listen), (f: ForwardRule, g: ForwardRule) => f.id != g.id);
  }

  lemma WithoutIdKeepsUnique(rules: seq<ForwardRule>, id: nat)
    requires UniqueIds(rules)
    ensures UniqueIds(WithoutId(rules, id))
  {
    FilterStaysApart(rules, (f: ForwardRule) => f.id != id, (f: ForwardRule, g: ForwardRule) => f.id != g.id);
  }

  lemma {:induction false} NextKeepsInvariant(s: State, ev: Event)
    requires Invariant(s)
    ensures Invariant(Next(s, ev))
  {
    match ev
    case Add(req) => WithoutListenKeepsUnique(s.forwards, req.iface, req.listen);
    case Update(id, req) =>
    case Remove(id) => WithoutIdKeepsUnique(s.forwards, id);
    case Commit(env, ok) =>
      ResolveListMembers(s.forwards, s.cache, env);
      forall id | id in Next(s, ev).cache ensures id < s.nextId {
        CacheOfTable(ResolveList(s.forwards, s.cache, env), id);
      }
  }

  /** No run ever commits a forbidden target, whatever the store and the cache were at its start. */
  lemma {:induction false} RunsKeepInvariant(s: State, evs: seq<Event>)
    requires Invariant(s)
    ensures Invariant(Exec(s, evs))
  {
    if evs != [] {
      RunsKeepInvariant(s, evs[..|evs| - 1]);
      NextKeepsInvariant(Exec(s, evs[..|evs| - 1]), evs[|evs| - 1]);
    }
  }

  predicate IsCommitted(ev: Event) { ev.Commit? && ev.ok }

  predicate HasCommit(evs: seq<Event>) {
    exists i | 0 <= i < |evs| :: IsCommitted(evs[i])
  }

  /** Since the last successful commit, the cache agrees with the committed table; and it goes on
      agreeing if it did at the start. */
  lemma {:induction false} CacheAgreesSinceCommit(s: State, evs: seq<Event>)
    requires Invariant(s) && (CacheAgrees(s) || HasCommit(evs))
    ensures CacheAgrees(Exec(s, evs))
  {
    if evs != [] && !IsCommitted(evs[|evs| - 1]) {
      HasCommitStep(evs);
      CacheAgreesSinceCommit(s, evs[..|evs| - 1]);
    }
  }

  lemma HasCommitStep(evs: seq<Event>)
    requires evs != []
    ensures HasCommit(evs) <==> HasCommit(evs[..|evs| - 1]) || IsCommitted(evs[|evs| - 1])
  {
    var n := |evs| - 1;
    if HasCommit(evs[..n]) {
      var i :| 0 <= i < n && IsCommitted(evs[..n][i]);
      assert IsCommitted(evs[i]);
    }
    if HasCommit(evs) && !IsCommitted(evs[n]) {
      var i :| 0 <= i < |evs| && IsCommitted(evs[i]);
      assert evs[..n][i] == evs[i];
    }
  }

  predicate InTable(s: State, id: nat) {
    exists l :: l in s.table && l.id == id
  }

  predicate HasHost(s: State, id: nat, host: string) {
    exists f :: f in s.forwards && f.id == id && f.req.destHost == host
  }

  /** The conditions under which the resolver promises to keep the forward `id` alive: edits leave
      its host and a usable interface, DNS is silent or permitted, its interface keeps an address. */
  predicate Gentle(s: State, ev: Event, id: nat) {
    match ev
    case Add(req) => forall f | f in s.forwards && f.id == id :: !(f.req.iface == req.iface && f.req.listen == req.listen)
    case Update(i, req) =>
      i == id ==> && (forall f | f in s.forwards && f.id == id :: f.req.destHost == req.destHost)
                  && (req.iface.Some? ==> ValidIfaceName(req.iface.value))
    case Remove(i) => i != id
    case Commit(env, ok) =>
      forall f | f in s.forwards && f.id == id :: EnvServes(f.req, env)
  }

  predicate EnvServes(req: Request, env: Env) {
    && (env.dns(req.destHost).Some? ==> !Forbidden(env.dns(req.destHost).value))
    && var iface := if req.iface.Some? then req.iface else env.defaultIface;
       iface.Some? && env.addrs(iface.value) != []
  }

  /** A stored forward with a usable interface and a permitted address to fall back on. */
  ghost predicate Backed(s: State, id: nat, host: string) {
    && HasHost(s, id, host)
    && (forall f | f in s.forwards && f.id == id :: f.req.iface.Some? ==> ValidIfaceName(f.req.iface.value))
    && id in s.cache && !Forbidden(s.cache[id])
  }

  /** And it is in the committed table. */
  ghost predicate Served(s: State, id: nat, host: string) {
    Backed(s, id, host) && InTable(s, id)
  }

  lemma GentleUpdateKeeps(s: State, i: nat, req: Request, id: nat, host: string)
    requires Invariant(s) && Backed(s, id, host) && Gentle(s, Update(i, req), id)
    ensures Backed(Next(s, Update(i, req)), id, host)
  {
    var f :| f in s.forwards && f.id == id && f.req.destHost == host;
    var s' := Next(s, Update(i, req));
    if at :| at == IndexOfId(s.forwards, i) && at.Some? {
      if i == id {
        assert s.forwards[at.value] in s.forwards;
        assert s'.forwards[at.value] == ForwardRule(id, req);
      } else {
        var k :| 0 <= k < |s.forwards| && s.forwards[k] == f;
        assert s'.forwards[k] == f;
      }
      forall g | g in s'.forwards && g.id == id ensures g.req.iface.Some? ==> ValidIfaceName(g.req.iface.value) {
        assert g in s.forwards || g == ForwardRule(i, req);
      }
    }
  }

  /** A successful commit under gentle conditions serves a backed forward. */
  lemma GentleCommitServes(s: State, env: Env, id: nat, host: string)
    requires Invariant(s) && Backed(s, id, host) && Gentle(s, Commit(env, true), id)
    ensures Served(Next(s, Commit(env, true)), id, host)
  {
    var f :| f in s.forwards && f.id == id && f.req.destHost == host;
    assert ResolveOne(f.req, Lookup(s.cache, id), env).Some?;
    CommitServes(s, env, f);
  }

  lemma GentleStepServes(s: State, ev: Event, id: nat, host: string)
    requires Invariant(s) && Backed(s, id, host) && Gentle(s, ev, id)
    ensures Backed(Next(s, ev), id, host)
    ensures InTable(s, id) || IsCommitted(ev) ==> InTable(Next(s, ev), id)
  {
    var f :| f in s.forwards && f.id == id && f.req.destHost == host;
    match ev
    case Add(req) =>
      assert f in Next(s, ev).forwards;
    case Update(i, req) => GentleUpdateKeeps(s, i, req, id, host);
    case Remove(i) =>
      assert i != id ==> f in Next(s, ev).forwards;
    case Commit(env, ok) =>
      if ok { GentleCommitServes(s, env, id, host); }
  }

  ghost predicate GentleRun(s: State, evs: seq<Event>, id: nat) {
    forall i | 0 <= i < |evs| :: Gentle(Exec(s, evs[..i]), evs[i], id)
  }

  /** As long as its host is not edited, each DNS answer is absent or permitted and its interface keeps
      an address, a forward with a permitted cached address is in every committed table from the first
      commit on: also after a reboot, when there is only the cache of the state file. */
  lemma {:induction false} CommittedStays(s: State, evs: seq<Event>, id: nat, host: string)
    requires Invariant(s) && Backed(s, id, host) && GentleRun(s, evs, id)
    ensures Backed(Exec(s, evs), id, host)
    ensures InTable(s, id) || HasCommit(evs) ==> Served(Exec(s, evs), id, host)
  {
    if evs != [] {
      var n := |evs| - 1;
      GentlePrefix(s, evs, id);
      CommittedStays(s, evs[..n], id, host);
      RunsKeepInvariant(s, evs[..n]);
      GentleStepServes(Exec(s, evs[..n]), evs[n], id, host);
      HasCommitStep(evs);
    }
  }

  lemma {:induction false} GentlePrefix(s: State, evs: seq<Event>, id: nat)
    requires evs != [] && GentleRun(s, evs, id)
    ensures GentleRun(s, evs[..|evs| - 1], id) && Gentle(Exec(s, evs[..|evs| - 1]), evs[|evs| - 1], id)
  {
    var n := |evs| - 1;
    forall i | 0 <= i < n ensures Gentle(Exec(s, evs[..n][..i]), evs[..n][i], id) {
      assert evs[..n][..i] == evs[..i];
    }
  }

  /** A start after a reboot: the state file's forwards and cache, and no table. */
  lemma RebootIsStart(forwards: seq<ForwardRule>, cache: map<nat, Ip>, nextId: nat, id: nat, host: string)
    requires UniqueIds(forwards) && (forall f | f in forwards :: f.id < nextId) && (forall i | i in cache :: i < nextId)
    ensures Invariant(State(forwards, cache, [], nextId))
    ensures cache != map[] ==> !CacheAgrees(State(forwards, cache, [], nextId))
    ensures !InTable(State(forwards, cache, [], nextId), id)
  {
    if cache != map[] {
      var i :| i in cache;
      assert i !in CacheOf([]);
    }
  }

  /** A successful commit that resolves the forward is where that guarantee starts. */
  lemma CommitServes(s: State, env: Env, f: ForwardRule)
    requires Invariant(s) && f in s.forwards && ResolveOne(f.req, Lookup(s.cache, f.id), env).Some?
    ensures Served(Next(s, Commit(env, true)), f.id, f.req.destHost)
  {
    var s' := Next(s, Commit(env, true));
    ResolveListMembers(s.forwards, s.cache, env);
    assert Live(f.id, ResolveOne(f.req, Lookup(s.cache, f.id), env).value) in s'.table;
    CacheOfTable(s'.table, f.id);
    forall g | g in s'.forwards && g.id == f.id ensures g == f {}
  }

  // ---- The periodic loop, which skips a commit when its own last one had the same hash ----

  function Fwds(table: seq<Live>): seq<ResolvedForward> {
    if table == [] then [] else Fwds(table[..|table| - 1]) + [table[|table| - 1].fwd]
  }

  /** One tick of `resolve_loop`: the new state and the hash to remember. */
  function Tick(s: State, lastHash: Option<int>, env: Env, ok: bool, hash: Hash): (State, Option<int>) {
    var h := hash(Fwds(ResolveList(s.forwards, s.cache, env)));
    if Some(h) == lastHash then (s, lastHash)
    else if ok then (Next(s, Commit(env, true)), Some(h))
    else (s, lastHash)
  }

  /** The loop and the handlers work on the same store; the hash is the loop's own. */
  datatype LoopEvent = TickOf(env: Env, ok: bool) | Rpc(ev: Event)

  datatype LoopState = LoopState(s: State, lastHash: Option<int>)

  type Hash = seq<ResolvedForward> -> int

  function LoopNext(l: LoopState, ev: LoopEvent, hash: Hash): LoopState {
    match ev
    case TickOf(env, ok) => var (s, h) := Tick(l.s, l.lastHash, env, ok, hash); LoopState(s, h)
    case Rpc(e) => l.(s := Next(l.s, e))
  }

  /** A run from the start of the loop, which remembers nothing. */
  function LoopExec(s: State, run: seq<LoopEvent>, hash: Hash): LoopState {
    if run == [] then LoopState(s, None) else LoopNext(LoopExec(s, run[..|run| - 1], hash), run[|run| - 1], hash)
  }

  function Resolution(s: State, env: Env): seq<ResolvedForward> {
    Fwds(ResolveList(s.forwards, s.cache, env))
  }

  /** The last event is a tick that commits. */
  predicate LoopCommits(s: State, run: seq<LoopEvent>, hash: Hash)
    requires run != []
  {
    var l, ev := LoopExec(s, run[..|run| - 1], hash), run[|run| - 1];
    ev.TickOf? && ev.ok && Some(hash(Resolution(l.s, ev.env))) != l.lastHash
  }

  /** What the loop itself last committed. */
  function LoopTable(s: State, run: seq<LoopEvent>, hash: Hash): Option<seq<ResolvedForward>> {
    if run == [] then None
    else if LoopCommits(s, run, hash) then Some(Resolution(LoopExec(s, run[..|run| - 1], hash).s, run[|run| - 1].env))
    else LoopTable(s, run[..|run| - 1], hash)
  }

  /** No handler's commit since then left another table behind. */
  predicate Undisturbed(s: State, run: seq<LoopEvent>, hash: Hash) {
    if run == [] || LoopCommits(s, run, hash) then true
    else
      var pre, ev := run[..|run| - 1], run[|run| - 1];
      if ev.Rpc? && IsCommitted(ev.ev)
      then Some(Resolution(LoopExec(s, pre, hash).s, ev.ev.env)) == LoopTable(s, pre, hash)
      else Undisturbed(s, pre, hash)
  }

  lemma {:induction false} LoopRemembers(s: State, run: seq<LoopEvent>, hash: Hash)
    ensures LoopExec(s, run, hash).lastHash ==
      if LoopTable(s, run, hash).Some? then Some(hash(LoopTable(s, run, hash).value)) else None
    ensures LoopTable(s, run, hash).Some? ==>
      (Undisturbed(s, run, hash) <==> Fwds(LoopExec(s, run, hash).s.table) == LoopTable(s, run, hash).value)
  {
    if run != [] {
      LoopRemembers(s, run[..|run| - 1], hash);
      LoopStep(LoopExec(s, run[..|run| - 1], hash), run[|run| - 1], hash);
    }
  }

  /** One event: a tick commits the resolution and remembers it, or does nothing; a handler changes the
      table only by committing. */
  lemma LoopStep(l: LoopState, ev: LoopEvent, hash: Hash)
    ensures
      var end := LoopNext(l, ev, hash);
      match ev
      case TickOf(env, ok) =>
        var now := Resolution(l.s, env);
        if ok && Some(hash(now)) != l.lastHash then end.lastHash == Some(hash(now)) && Fwds(end.s.table) == now else end == l
      case Rpc(e) =>
        && end.lastHash == l.lastHash
        && Fwds(end.s.table) == if IsCommitted(e) then Resolution(l.s, e.env) else Fwds(l.s.table)
  {
  }

  /** After any run of ticks and handlers, a tick that nft does not refuse leaves the kernel with the
      current resolution exactly when that resolution is not the one the loop last committed, or no
      handler has left another table since. The hash may collide, but not on these two. */
  lemma TickFreshIff(s: State, run: seq<LoopEvent>, env: Env, hash: Hash)
    requires
      var now, last := Resolution(LoopExec(s, run, hash).s, env), LoopTable(s, run, hash);
      last.Some? && hash(last.value) == hash(now) ==> last.value == now
    ensures
      var now := Resolution(LoopExec(s, run, hash).s, env);
      Fwds(LoopNext(LoopExec(s, run, hash), TickOf(env, true), hash).s.table) == now <==>
        LoopTable(s, run, hash) != Some(now) || Undisturbed(s, run, hash)
  {
    LoopRemembers(s, run, hash);
  }

  /** A colliding hash makes the tick skip a resolution that has changed: the kernel then has the current
      one only if some handler happened to commit it. */
  lemma {:induction false} CollisionSkips(s: State, run: seq<LoopEvent>, env: Env, ok: bool, hash: Hash)
    requires
      var now, last := Resolution(LoopExec(s, run, hash).s, env), LoopTable(s, run, hash);
      last.Some? && hash(last.value) == hash(now) && last.value != now
    ensures LoopNext(LoopExec(s, run, hash), TickOf(env, ok), hash) == LoopExec(s, run, hash)
    ensures Undisturbed(s, run, hash) ==>
      Fwds(LoopNext(LoopExec(s, run, hash), TickOf(env, ok), hash).s.table) != Resolution(LoopExec(s, run, hash).s, env)
  {
    LoopRemembers(s, run, hash);
  }

  /** The skip does go wrong: the loop commits; a forward is added and committed by its RPC; it is
      removed again and that RPC's commit is refused by nft. Every later tick sees the hash it
      remembers, and the removed forward stays in the kernel. */
  lemma SkipKeepsRemovedForward(req: Request, env: Env, hash: Hash)
    returns (added: State, stuck: State, lastHash: Option<int>)
    requires ResolveOne(req, None, env).Some?
    ensures
      var start := State([], map[], [], 0);
      && lastHash == Tick(start, None, env, true, hash).1
      && added == Exec(Tick(start, None, env, true, hash).0, [Add(req), Commit(env, true)])
      && stuck == Exec(added, [Remove(0), Commit(env, false)])
    ensures stuck.forwards == [] && InTable(stuck, 0)
    ensures forall ok :: Tick(stuck, lastHash, env, ok, hash) == (stuck, lastHash)
  {
    var start := State([], map[], [], 0);
    var (ticked, h) := Tick(start, None, env, true, hash);
    lastHash := h;
    assert ticked == start;
    var s1 := Next(ticked, Add(req));
    assert s1.forwards == [ForwardRule(0, req)];
    added := Next(s1, Commit(env, true));
    var fwd := ResolveOne(req, None, env).value;
    assert ResolveList([ForwardRule(0, req)][..0], s1.cache, env) == [];
    assert added.table == [Live(0, fwd)];
    var evs := [Add(req), Commit(env, true)];
    assert evs[..1] == [Add(req)] && [Add(req)][..0] == [];
    assert Exec(ticked, [Add(req)]) == s1;
    assert Exec(ticked, evs) == added;
    var s2 := Next(added, Remove(0));
    stuck := Next(s2, Commit(env, false));
    var evs2 := [Remove(0), Commit(env, false)];
    assert evs2[..1] == [Remove(0)] && [Remove(0)][..0] == [];
    assert Exec(added, [Remove(0)]) == s2;
    assert WithoutId([ForwardRule(0, req)], 0) == [];
    assert stuck.table[0] == Live(0, fwd);
  }

  /** Resolving and committing hold the store lock separately. An edit of the host between the two
      puts the old host's address back into the cache, and when the new host does not resolve the
      forward goes on to the old one, which `update_forward` had meant to forget. */
  lemma SplitCommitRevivesOldTarget(a: Request, b: Request, env: Env, silent: Env)
    requires ResolveOne(a, None, env).Some? && env.dns(a.destHost).Some?
    requires a.destHost != b.destHost && silent.dns(b.destHost).None? && EnvServes(b, silent)
    requires b.iface.Some? ==> ValidIfaceName(b.iface.value)
    ensures
      var before := State([ForwardRule(0, a)], map[], [], 1);
      var snapshot := ResolveList(before.forwards, before.cache, env);
      var edited := Next(before, Update(0, b));
      var after := edited.(table := snapshot, cache := CacheOf(snapshot));
      && ResolveOne(b, Lookup(edited.cache, 0), silent) == None
      && ResolveOne(b, Lookup(after.cache, 0), silent).Some?
      && ResolveOne(b, Lookup(after.cache, 0), silent).value.remoteIp == env.dns(a.destHost).value
  {
    var fwd := ResolveOne(a, None, env).value;
    OneRuleResolves(ForwardRule(0, a), env);
    assert IndexOfId([ForwardRule(0, a)], 0) == Some(0);
    FallsBackOn(b, fwd.remoteIp, silent);
  }

  lemma OneRuleResolves(f: ForwardRule, env: Env)
    requires ResolveOne(f.req, None, env).Some?
    ensures
      var fwd := ResolveOne(f.req, None, env).value;
      ResolveList([f], map[], env) == [Live(f.id, fwd)] && CacheOf([Live(f.id, fwd)]) == map[f.id := fwd.remoteIp]
  {
    var fwd := ResolveOne(f.req, None, env).value;
    assert [f][..0] == [] && [Live(f.id, fwd)][..0] == [];
    assert ResolveList([f][..0], map[], env) == [];
    assert CacheOf([Live(f.id, fwd)][..0]) == map[];
  }

  /** While DNS is silent the cached address decides. */
  lemma FallsBackOn(req: Request, ip: Ip, silent: Env)
    requires !Forbidden(ip) && silent.dns(req.destHost).None? && EnvServes(req, silent)
    requires req.iface.Some? ==> ValidIfaceName(req.iface.value)
    ensures ResolveOne(req, None, silent) == None
    ensures ResolveOne(req, Some(ip), silent).Some? && ResolveOne(req, Some(ip), silent).value.remoteIp == ip
  {
  }

  // ---- Which host a cached address was resolved for ----

  /** The state with, for every cached address, the host whose DNS answer it is. */
  datatype Tracked = Tracked(s: State, hosts: map<nat, string>)

  /** An address just resolved belongs to the rule's host, one fallen back on to whatever it belonged to. */
  function OriginOf(f: ForwardRule, hosts: map<nat, string>, env: Env): string {
    if env.dns(f.req.destHost).Some? || f.id !in hosts then f.req.destHost else hosts[f.id]
  }

  function HostsOf(rules: seq<ForwardRule>, cache: map<nat, Ip>, hosts: map<nat, string>, env: Env): map<nat, string> {
    if rules == [] then map[]
    else
      var init, last := rules[..|rules| - 1], rules[|rules| - 1];
      var before := HostsOf(init, cache, hosts, env);
      if ResolveOne(last.req, Lookup(cache, last.id), env).Some? then before[last.id := OriginOf(last, hosts, env)] else before
  }

  /** Every cached address has a host. */
  ghost predicate AllTracked(t: Tracked) {
    t.hosts.Keys == t.s.cache.Keys
  }

  /** Every cached address is an answer for its host that `answered` knows of. */
  ghost predicate Honest(t: Tracked, answered: (string, Ip) -> bool) {
    forall id | id in t.s.cache && id in t.hosts :: answered(t.hosts[id], t.s.cache[id])
  }

  /** The cached address of a stored forward was resolved for its present host. */
  ghost predicate Fits(t: Tracked, f: ForwardRule) {
    f.id in t.s.cache ==> f.id in t.hosts && t.hosts[f.id] == f.req.destHost
  }

  ghost predicate AllFit(t: Tracked) {
    forall f | f in t.s.forwards :: Fits(t, f)
  }

  /** An edit of the store drops an address together with its host. */
  function EditTracked(t: Tracked, ev: Event): Tracked
    requires !ev.Commit?
  {
    var s := Next(t.s, ev);
    Tracked(s, map id | id in t.hosts && id in s.cache :: t.hosts[id])
  }

  /** The snapshot resolved at `t` under `env`, committed into `later`, whatever the store holds by then. */
  function CommitSnapshot(t: Tracked, env: Env, later: State): Tracked {
    var table := ResolveList(t.s.forwards, t.s.cache, env);
    Tracked(later.(table := table, cache := CacheOf(table)), HostsOf(t.s.forwards, t.s.cache, t.hosts, env))
  }

  lemma {:induction false} HostsOfKeys(rules: seq<ForwardRule>, cache: map<nat, Ip>, hosts: map<nat, string>, env: Env)
    ensures HostsOf(rules, cache, hosts, env).Keys == CacheOf(ResolveList(rules, cache, env)).Keys
  {
    if rules != [] {
      var init, last := rules[..|rules| - 1], rules[|rules| - 1];
      HostsOfKeys(init, cache, hosts, env);
      if ResolveOne(last.req, Lookup(cache, last.id), env).Some? {
        var table := ResolveList(rules, cache, env);
        LastCached(table);
        assert table[..|table| - 1] == ResolveList(init, cache, env);
        assert HostsOf(rules, cache, hosts, env).Keys == HostsOf(init, cache, hosts, env).Keys + {last.id};
      }
    }
  }

  lemma LastCached(table: seq<Live>)
    requires table != []
    ensures CacheOf(table).Keys == CacheOf(table[..|table| - 1]).Keys + {table[|table| - 1].id}
  {
  }

  /** The rule's entry in the committed cache, and its host. */
  lemma {:induction false} HostOfRule(rules: seq<ForwardRule>, cache: map<nat, Ip>, hosts: map<nat, string>, env: Env, f: ForwardRule)
    requires UniqueIds(rules) && f in rules && ResolveOne(f.req, Lookup(cache, f.id), env).Some?
    ensures f.id in HostsOf(rules, cache, hosts, env) && HostsOf(rules, cache, hosts, env)[f.id] == OriginOf(f, hosts, env)
    ensures
      var committed := CacheOf(ResolveList(rules, cache, env));
      f.id in committed && committed[f.id] == ResolveOne(f.req, Lookup(cache, f.id), env).value.remoteIp
  {
    var init, last := rules[..|rules| - 1], rules[|rules| - 1];
    var table := ResolveList(rules, cache, env);
    if ResolveOne(last.req, Lookup(cache, last.id), env).Some? {
      assert table[..|table| - 1] == ResolveList(init, cache, env);
    }
    if f != last {
      assert rules == init + [last] && f in init;
      var i :| 0 <= i < |init| && init[i] == f;
      assert rules[i] == f;
      HostOfRule(init, cache, hosts, env, f);
    }
  }

  lemma SnapshotRule(t: Tracked, env: Env, later: State, id: nat) returns (f: ForwardRule)
    requires UniqueIds(t.s.forwards) && id in CommitSnapshot(t, env, later).s.cache
    ensures f in t.s.forwards && f.id == id && ResolveOne(f.req, Lookup(t.s.cache, id), env).Some?
  {
    var table := ResolveList(t.s.forwards, t.s.cache, env);
    CacheOfTable(table, id);
    var l :| l in table && l.id == id;
    ResolveListMembers(t.s.forwards, t.s.cache, env);
    f :| f in t.s.forwards && l.id == f.id && ResolveOne(f.req, Lookup(t.s.cache, f.id), env) == Some(l.fwd);
  }

  /** The hosts are true: what is cached after any commit is an answer DNS has given for them, in this
      resolution or before. */
  lemma CommitIsHonest(t: Tracked, env: Env, later: State, answered: (string, Ip) -> bool)
    requires UniqueIds(t.s.forwards) && AllTracked(t) && Honest(t, answered)
    ensures AllTracked(CommitSnapshot(t, env, later))
    ensures Honest(CommitSnapshot(t, env, later), (host, ip) => answered(host, ip) || env.dns(host) == Some(ip))
  {
    var c := CommitSnapshot(t, env, later);
    HostsOfKeys(t.s.forwards, t.s.cache, t.hosts, env);
    forall id | id in c.s.cache && id in c.hosts
      ensures answered(c.hosts[id], c.s.cache[id]) || env.dns(c.hosts[id]) == Some(c.s.cache[id])
    {
      var f := SnapshotRule(t, env, later, id);
      HostOfRule(t.s.forwards, t.s.cache, t.hosts, env, f);
    }
  }

  /** After resolving, any edits of the store, and committing what was resolved: the cached address of a
      forward was resolved for its present host exactly when that is the host it had at the snapshot. */
  lemma SplitCommitFitsIff(t: Tracked, env: Env, later: State, f: ForwardRule)
    requires UniqueIds(t.s.forwards) && AllTracked(t) && AllFit(t)
    requires f in later.forwards && f.id in CommitSnapshot(t, env, later).s.cache
    ensures Fits(CommitSnapshot(t, env, later), f) <==> HasHost(t.s, f.id, f.req.destHost)
  {
    var g := SnapshotRule(t, env, later, f.id);
    HostOfRule(t.s.forwards, t.s.cache, t.hosts, env, g);
    assert Fits(t, g);
    forall h | h in t.s.forwards && h.id == f.id ensures h == g {}
  }

  /** Edits keep every address with the host it was resolved for, and so does a commit that nothing has
      come before: only the two together go wrong. */
  lemma EditKeepsFit(t: Tracked, ev: Event)
    requires Invariant(t.s) && AllTracked(t) && AllFit(t) && !ev.Commit?
    ensures AllTracked(EditTracked(t, ev)) && AllFit(EditTracked(t, ev))
  {
    var u := EditTracked(t, ev);
    forall f | f in u.s.forwards ensures Fits(u, f) {
      if f in t.s.forwards {
        assert Fits(t, f);
      } else {
        NewRule(t.s, ev, f);
        if ev.Update? {
          var i := IndexOfId(t.s.forwards, ev.id).value;
          assert t.s.forwards[i] in t.s.forwards && Fits(t, t.s.forwards[i]);
        }
      }
    }
  }

  /** A rule that an edit brings in: added under a fresh id, or put in the place of the one with its id. */
  lemma NewRule(s: State, ev: Event, f: ForwardRule)
    requires !ev.Commit? && f in Next(s, ev).forwards && f !in s.forwards
    ensures ev.Add? || (ev.Update? && IndexOfId(s.forwards, ev.id).Some?)
    ensures f == if ev.Add? then ForwardRule(s.nextId, ev.req) else ForwardRule(ev.id, ev.req)
  {
    if ev.Update? && IndexOfId(s.forwards, ev.id).Some? {
      var i := IndexOfId(s.forwards, ev.id).value;
      var at :| 0 <= at < |s.forwards| && Next(s, ev).forwards[at] == f;
    }
  }

  lemma OneStepCommitFits(t: Tracked, env: Env)
    requires UniqueIds(t.s.forwards) && AllTracked(t) && AllFit(t)
    ensures CommitSnapshot(t, env, t.s).s == Next(t.s, Commit(env, true)) && AllFit(CommitSnapshot(t, env, t.s))
  {
    forall f | f in t.s.forwards && f.id in CommitSnapshot(t, env, t.s).s.cache ensures Fits(CommitSnapshot(t, env, t.s), f) {
      SplitCommitFitsIff(t, env, t.s, f);
    }
  }

  // ---- The same steps as the source performs them, in place ----

  class Forwarder {
    var forwards: seq<ForwardRule>
    var cache: map<nat, Ip>
    var table: seq<Live>
    var nextId: nat

    function Abs(): State
      reads this
    {
      State(forwards, cache, table, nextId)
    }

    constructor (s: State)
      ensures Abs() == s
    {
      forwards, cache, table, nextId := s.forwards, s.cache, s.table, s.nextId;
    }

    /** `Store::add_forward`. */
    method AddForward(req: Request) returns (id: nat)
      modifies this
      ensures id == old(nextId) && Abs() == Next(old(Abs()), Add(req))
    {
      id := nextId;
      forwards := WithoutListen(forwards, req.iface, req.listen) + [ForwardRule(id, req)];
      nextId := nextId + 1;
    }

    /** `Store::update_forward`. */
    method UpdateForward(id: nat, req: Request) returns (found: bool)
      modifies this
      ensures found <==> exists f :: f in old(forwards) && f.id == id
      ensures Abs() == Next(old(Abs()), Update(id, req))
    {
      match IndexOfId(forwards, id)
      case None => found := false;
      case Some(i) =>
        assert forwards[i] in forwards;
        if forwards[i].req.destHost != req.destHost { cache := cache - {id}; }
        forwards := forwards[i := ForwardRule(id, req)];
        found := true;
    }

    /** `Store::remove_forward`. */
    method RemoveForward(id: nat) returns (removed: bool)
      modifies this
      ensures removed <==> exists f :: f in old(forwards) && f.id == id
      ensures Abs() == Next(old(Abs()), Remove(id))
    {
      removed := IndexOfId(forwards, id).Some?;
      if removed {
        assert forwards[IndexOfId(forwards, id).value] in forwards;
        forwards := WithoutId(forwards, id);
        cache := cache - {id};
      }
    }

    /** `resolve_all`. */
    method ResolveAll(env: Env) returns (resolved: seq<Live>, newMap: map<nat, Ip>)
      ensures resolved == ResolveList(forwards, cache, env) && newMap == CacheOf(resolved)
    {
      resolved, newMap := [], map[];
      for i := 0 to |forwards|
        invariant resolved == ResolveList(forwards[..i], cache, env) && newMap == CacheOf(resolved)
      {
        var rule := forwards[i];
        assert forwards[..i + 1][..i] == forwards[..i];
        match ResolveOne(rule.req, Lookup(cache, rule.id), env)
        case Some(fwd) =>
          newMap := newMap[rule.id := fwd.remoteIp];
          assert (resolved + [Live(rule.id, fwd)])[..|resolved|] == resolved;
          resolved := resolved + [Live(rule.id, fwd)];
        case None =>
      }
      assert forwards[..|forwards|] == forwards;
    }

    /** What another thread does to the store and the table. */
    method Do(ev: Event)
      modifies this
      ensures Abs() == Next(old(Abs()), ev)
    {
      var s := Next(Abs(), ev);
      forwards, cache, table, nextId := s.forwards, s.cache, s.table, s.nextId;
    }

    /** `apply_now`: resolve and commit as one step, if nft accepts; a refused table leaves the cache alone. */
    method ApplyNow(env: Env, accepts: bool)
      modifies this
      ensures Abs() == Next(old(Abs()), Commit(env, accepts))
    {
      var resolved, newMap := ResolveAll(env);
      if accepts {
        table := resolved;
        cache := newMap;
      }
    }
  }
}
