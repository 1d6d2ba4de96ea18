/** The runtime settings and the handlers that change them: every toggle goes to the kernel first
    and into the store afterwards (`api/handlers.rs`, `config.rs`, `store.rs`, `main.rs`). */
module Settings {
  import opened Wrappers
  import opened Entries
  import opened Ports
  import opened Ruleset
  import opened Elements
  import opened Apply

  datatype PublicPort = PublicPort(proto: ForwardProto, ports: PortRange, note: string)

  datatype AgentConfig = AgentConfig(
    sshPort: Port,
    sshKnock: Option<SshKnock>,
    publicTcp: seq<PortRange>,
    publicUdp: seq<PortRange>)

  /** The settings kept in the store. */
  datatype Flags = Flags(sshAllowlistOnly: bool, forwardAllowlistOnly: bool, publicPorts: seq<PublicPort>)

  datatype Saved = Saved(entries: seq<Entry>, flags: Flags)

  datatype Error = BadRequest | NotFound | NftFailure(reason: string) | Internal

  predicate CoversSsh(cfg: AgentConfig, proto: ForwardProto, ports: PortRange) {
    proto != OnlyUdp && ports.Contains(cfg.sshPort)
  }

  predicate ClientPortCoversSsh(cfg: AgentConfig, flags: Flags) {
    exists i | 0 <= i < |flags.publicPorts| :: CoversSsh(cfg, flags.publicPorts[i].proto, flags.publicPorts[i].ports)
  }

  /** `public_port_covering_ssh` finds something: a config range or a client's. */
  predicate AnyPortCoversSsh(cfg: AgentConfig, flags: Flags) {
    Covers(cfg.publicTcp, cfg.sshPort) || ClientPortCoversSsh(cfg, flags)
  }

  /** The client ranges that apply to one protocol, in order. */
  function RangesFor(ports: seq<PublicPort>, other: ForwardProto): seq<PortRange> {
    if ports == [] then []
    else
      var rest := RangesFor(ports[..|ports| - 1], other);
      var p := ports[|ports| - 1];
      if p.proto != other then rest + [p.ports] else rest
  }

  function RulesetWith(cfg: AgentConfig, flags: Flags): RulesetConfig {
    RulesetConfig(
      cfg.sshPort, flags.sshAllowlistOnly, cfg.sshKnock, flags.forwardAllowlistOnly,
      cfg.publicTcp + RangesFor(flags.publicPorts, OnlyUdp),
      cfg.publicUdp + RangesFor(flags.publicPorts, OnlyTcp))
  }

  /** `ruleset_with`. */
  method BuildRuleset(cfg: AgentConfig, flags: Flags) returns (r: RulesetConfig)
    ensures r == RulesetWith(cfg, flags)
  {
    var tcp, udp := cfg.publicTcp, cfg.publicUdp;
    var ps := flags.publicPorts;
    for i := 0 to |ps|
      invariant tcp == cfg.publicTcp + RangesFor(ps[..i], OnlyUdp)
      invariant udp == cfg.publicUdp + RangesFor(ps[..i], OnlyTcp)
    {
      assert ps[..i + 1][..i] == ps[..i];
      if ps[i].proto != OnlyUdp { tcp := tcp + [ps[i].ports]; }
      if ps[i].proto != OnlyTcp { udp := udp + [ps[i].ports]; }
    }
    assert ps[..|ps|] == ps;
    r := RulesetConfig(cfg.sshPort, flags.sshAllowlistOnly, cfg.sshKnock, flags.forwardAllowlistOnly, tcp, udp);
  }

  lemma {:induction false} RangesForCovers(ports: seq<PublicPort>, other: ForwardProto, p: Port)
    ensures Covers(RangesFor(ports, other), p) <==>
      exists i | 0 <= i < |ports| :: ports[i].proto != other && ports[i].ports.Contains(p)
  {
    if ports != [] {
      var init, last := ports[..|ports| - 1], ports[|ports| - 1];
      RangesForCovers(init, other, p);
      CoversAppend(RangesFor(init, other), last.ports, p);
      assert forall i | 0 <= i < |init| :: init[i] == ports[i];
      assert ports[|ports| - 1] == last;
    }
  }

  lemma {:induction false} CoversConcat(a: seq<PortRange>, b: seq<PortRange>, p: Port)
    ensures Covers(a + b, p) <==> Covers(a, p) || Covers(b, p)
  {
    if b == [] {
      assert a + b == a;
    } else {
      var init, last := b[..|b| - 1], b[|b| - 1];
      assert a + b == (a + init) + [last] && b == init + [last];
      CoversAppend(a + init, last, p);
      CoversAppend(init, last, p);
      CoversConcat(a, init, p);
    }
  }

  /** The guard the handlers check before they restrict SSH is exactly whether the ruleset would
      still open the SSH port to everybody through its public TCP ports. */
  lemma GuardMeansRuleset(cfg: AgentConfig, flags: Flags)
    ensures AnyPortCoversSsh(cfg, flags) <==> Covers(RulesetWith(cfg, flags).publicTcp, cfg.sshPort)
  {
    CoversConcat(cfg.publicTcp, RangesFor(flags.publicPorts, OnlyUdp), cfg.sshPort);
    RangesForCovers(flags.publicPorts, OnlyUdp, cfg.sshPort);
  }

  /** What a config file must satisfy. */
  ghost predicate ValidConfig(cfg: AgentConfig) {
    cfg.sshPort != 0 && AllValid(cfg.publicTcp) && AllValid(cfg.publicUdp)
  }

  /** `AgentConfig::validate`. */
  method Validate(mgmtPort: Port, cfg: AgentConfig) returns (ok: bool)
    ensures ok <==> mgmtPort != 0 && ValidConfig(cfg)
  {
    if mgmtPort == 0 || cfg.sshPort == 0 { return false; }
    var all := cfg.publicTcp + cfg.publicUdp;
    AllValidJoined(cfg.publicTcp, cfg.publicUdp);
    for i := 0 to |all|
      invariant forall j | 0 <= j < i :: all[j].IsValid()
    {
      if !all[i].IsValid() { return false; }
    }
    ok := true;
  }

  lemma AllValidJoined(a: seq<PortRange>, b: seq<PortRange>)
    ensures AllValid(a + b) <==> AllValid(a) && AllValid(b)
  {
    assert forall i | 0 <= i < |a| :: (a + b)[i] == a[i];
    assert forall i | 0 <= i < |b| :: (a + b)[|a| + i] == b[i];
  }

  lemma {:induction false} RangesForValid(ports: seq<PublicPort>, other: ForwardProto)
    requires forall i | 0 <= i < |ports| :: ports[i].ports.IsValid()
    ensures AllValid(RangesFor(ports, other))
  {
    if ports != [] {
      RangesForValid(ports[..|ports| - 1], other);
    }
  }

  /** Every ruleset the agent builds, in whatever rung of the ladder, is one the compiler accepts. */
  lemma RulesetIsValid(cfg: AgentConfig, flags: Flags, f: Features)
    requires ValidConfig(cfg) && FlagsSafe(cfg, flags)
    ensures WithFeatures(RulesetWith(cfg, flags), f).Valid()
  {
    RangesForValid(flags.publicPorts, OnlyUdp);
    RangesForValid(flags.publicPorts, OnlyTcp);
  }

  // ---- The state of the agent ----

  /** Besides the store, the state file, the kernel and the reported features, the state keeps three
      marks of what has happened since the last committed table: prefixes with an edit under way,
      refused or without effect; entries pruned because they had expired; and whether that table is
      the one of a toggle that could not be rolled back. */
  datatype State = State(
    entries: seq<Entry>,
    flags: Flags,
    disk: Saved,
    live: Features,
    running: bool,
    installed: Option<Installed>,
    unsettled: set<Net>,
    lapsed: seq<Entry>,
    stuck: bool)

  /** Client ranges are valid, and a restricted SSH port lies in none of them. */
  ghost predicate FlagsSafe(cfg: AgentConfig, flags: Flags) {
    && (forall i | 0 <= i < |flags.publicPorts| :: flags.publicPorts[i].ports.IsValid())
    && (flags.sshAllowlistOnly ==> !ClientPortCoversSsh(cfg, flags))
  }

  /** The kernel's ruleset against the stored settings of a running service. A refused feature is
      missing; SSH is stricter exactly when a rollback has failed. */
  ghost predicate KernelAgrees(cfg: AgentConfig, s: State) {
    && s.installed.Some?
    && var k := s.installed.value.cfg;
       var want := RulesetWith(cfg, s.flags);
       && k.sshPort == want.sshPort && k.publicTcp == want.publicTcp && k.publicUdp == want.publicUdp
       && k.sshAllowlistOnly == (s.flags.sshAllowlistOnly || s.stuck)
       && (k.forwardAllowlistOnly ==> s.flags.forwardAllowlistOnly)
       && (k.sshAllowlistOnly ==> !ClientPortCoversSsh(cfg, s.flags))
       && (k.sshKnock.Some? ==> k.sshKnock == cfg.sshKnock)
       && (s.stuck ==> !s.flags.sshAllowlistOnly)
       // what is reported is what is in the kernel
       && s.live == Wanted(k)
  }

  /** The entry has its element, which lasts as long; or it had expired when the table was built. */
  ghost predicate Backed(i: Installed, e: Entry) {
    e.IsExpired(i.builtAt) || exists x | x in i.Elements() :: Mask(x.target) == Mask(e.target) && Outlasts(x, e)
  }

  /** The element belongs to an entry, or to a pruned one, and ends with it. */
  ghost predicate Owned(s: State, x: Timed) {
    exists e | e in s.entries + s.lapsed :: Mask(e.target) == Mask(x.target) && EndsWith(x, e)
  }

  /** The kernel's elements against the stored entries, prefix by prefix. */
  ghost predicate SetsAgree(s: State) {
    && s.installed.Some?
    && (forall e | e in s.entries && Mask(e.target) !in s.unsettled :: Backed(s.installed.value, e))
    && (forall x | x in s.installed.value.Elements() && Mask(x.target) !in s.unsettled :: Owned(s, x))
  }

  ghost predicate Invariant(cfg: AgentConfig, s: State) {
    && FlagsSafe(cfg, s.disk.flags)
    && (s.running ==> FlagsSafe(cfg, s.flags) && KernelAgrees(cfg, s) && SetsAgree(s))
  }

  // ---- What each step does, given the answers of nft and of the disk ----

  /** A committed rebuild for `want`. */
  function Committed(s: State, cfg: AgentConfig, want: Flags, a: Applied, now: Time): State {
    s.(installed := Some(Installed(WithFeatures(RulesetWith(cfg, want), a.Granted()), s.entries, now, [])),
       live := a.Granted(),
       unsettled := {},
       lapsed := [],
       stuck := want.sshAllowlistOnly && !s.flags.sshAllowlistOnly)
  }

  function Stored(s: State, flags: Flags, saved: bool): State {
    s.(flags := flags, disk := if saved then Saved(s.entries, flags) else s.disk, stuck := s.stuck && !flags.sshAllowlistOnly)
  }

  type Outcome = Result<Applied, string>

  function SshRefused(s: State, cfg: AgentConfig, on: bool, now: Time): bool {
    on && ((forall e | e in s.entries :: e.IsExpired(now)) || AnyPortCoversSsh(cfg, s.flags))
  }

  /** `first` answers the table for the new mode, `second` the one that takes it back. */
  function SshToggle(s: State, cfg: AgentConfig, on: bool, now: Time, first: Outcome, second: Outcome, saved: bool)
    : (State, Result<(), Error>)
  {
    var want := s.flags.(sshAllowlistOnly := on);
    if SshRefused(s, cfg, on, now) then (s, Err(BadRequest))
    else match first
      case Err(e) => (s, Err(NftFailure(e)))
      case Ok(a) =>
        var t := Committed(s, cfg, want, a, now);
        if !a.knock.Rejected? then (Stored(t, want, saved), if saved then Ok(()) else Err(Internal))
        else match second
          case Err(e) => (t, Err(NftFailure(e)))
          case Ok(b) => (Committed(t, cfg, s.flags, b, now), Err(NftFailure(a.knock.reason)))
  }

  function ForwardToggle(s: State, cfg: AgentConfig, on: bool, now: Time, first: Outcome, saved: bool): (State, Result<(), Error>) {
    var want := s.flags.(forwardAllowlistOnly := on);
    match first
    case Err(e) => (s, Err(NftFailure(e)))
    case Ok(a) =>
      var t := Committed(s, cfg, want, a, now);
      if a.gate.Rejected? then (t, Err(NftFailure(a.gate.reason)))
      else (Stored(t, want, saved), if saved then Ok(()) else Err(Internal))
  }

  function PortAdded(
    s: State, cfg: AgentConfig, proto: ForwardProto, range: PortRange, note: string, now: Time, first: Outcome, saved: bool)
    : (State, Result<(), Error>)
  {
    var ps := s.flags.publicPorts;
    if range.start == 0 || !range.IsValid() then (s, Err(BadRequest))
    else match IndexOf(ps, proto, range)
      case Some(i) =>
        (Stored(s, s.flags.(publicPorts := ps[i := ps[i].(note := note)]), saved), if saved then Ok(()) else Err(Internal))
      case None =>
        var want := s.flags.(publicPorts := ps + [PublicPort(proto, range, note)]);
        if s.flags.sshAllowlistOnly && CoversSsh(cfg, proto, range) then (s, Err(BadRequest))
        else match first
          case Err(e) => (s, Err(NftFailure(e)))
          case Ok(a) => (Stored(Committed(s, cfg, want, a, now), want, saved), if saved then Ok(()) else Err(Internal))
  }

  function PortRemoved(s: State, cfg: AgentConfig, proto: ForwardProto, range: PortRange, now: Time, first: Outcome, saved: bool)
    : (State, Result<(), Error>)
  {
    var want := s.flags.(publicPorts := Without(s.flags.publicPorts, proto, range));
    if IndexOf(s.flags.publicPorts, proto, range).None? then (s, Err(NotFound))
    else match first
      case Err(e) => (s, Err(NftFailure(e)))
      case Ok(a) => (Stored(Committed(s, cfg, want, a, now), want, saved), if saved then Ok(()) else Err(Internal))
  }

  /** `Store::allow` and its save. */
  function AllowStored(s: State, e: Entry, saved: bool): State {
    var entries := WithoutTarget(s.entries, e.target) + [e];
    s.(entries := entries,
       disk := if saved then Saved(entries, s.flags) else s.disk,
       unsettled := s.unsettled + {Mask(e.target)})
  }

  /** The element just put is all that the store has for its prefix. */
  predicate Settles(entries: seq<Entry>, e: Entry, now: Time) {
    && !e.IsExpired(now) && e in entries
    && forall x | x in entries && Mask(x.target) == Mask(e.target) :: x == e
  }

  /** The kernel step of `allow`, and an addition of the reconcile loop. */
  function ElementAdded(s: State, e: Entry, now: Time, put: bool): State
    requires put ==> s.installed.Some?
  {
    if !put then s
    else
      s.(installed := Some(WithEdit(s.installed.value, PutEdit(e, now))),
         unsettled := if Settles(s.entries, e, now) then s.unsettled - {Mask(e.target)} else s.unsettled + {Mask(e.target)})
  }

  /** `Store::revoke_by_target` and its save. */
  function RevokeStored(s: State, t: Net, saved: bool): State {
    var entries := WithoutTarget(s.entries, t);
    s.(entries := entries,
       disk := if saved then Saved(entries, s.flags) else s.disk,
       unsettled := s.unsettled + {Mask(t)})
  }

  /** The kernel step of `revoke`, and a removal of the reconcile loop. */
  function ElementRemoved(s: State, t: Net, now: Time, taken: bool): State
    requires taken ==> s.installed.Some?
  {
    if !taken then s
    else
      s.(installed := Some(WithEdit(s.installed.value, Take(t, now))),
         unsettled := if exists e | e in s.entries :: Mask(e.target) == Mask(t) then s.unsettled + {Mask(t)} else s.unsettled - {Mask(t)})
  }

  function Expired(entries: seq<Entry>, now: Time): (r: seq<Entry>)
    ensures forall e :: e in r <==> e in entries && e.IsExpired(now)
  {
    Filter(entries, (e: Entry) => e.IsExpired(now))
  }

  function Pruned(s: State, now: Time, saved: bool): State {
    var entries := Unexpired(s.entries, now);
    s.(entries := entries,
       disk := if saved then Saved(entries, s.flags) else s.disk,
       lapsed := s.lapsed + Expired(s.entries, now))
  }

  /** The service is down: the rescue command works on the state file. */
  function Loaded(s: State): State {
    s.(entries := s.disk.entries, flags := s.disk.flags)
  }

  function CliSshToggle(s: State, cfg: AgentConfig, on: bool, now: Time, first: Outcome, second: Outcome, saved: bool): (State, bool) {
    var l := Loaded(s);
    var want := l.flags.(sshAllowlistOnly := on);
    if on && AnyPortCoversSsh(cfg, l.flags) then (l, false)
    else match first
      case Err(_) => (l.(flags := want), false)
      case Ok(a) =>
        var t := Committed(l, cfg, want, a, now).(flags := want);
        if !a.knock.Rejected? then (Stored(t, want, saved), saved)
        else match second
          case Err(_) => (t, false)
          case Ok(b) => (Committed(t, cfg, l.flags, b, now), false)
  }

  function CliForwardToggle(s: State, cfg: AgentConfig, on: bool, now: Time, first: Outcome, saved: bool): (State, bool) {
    var l := Loaded(s);
    var want := l.flags.(forwardAllowlistOnly := on);
    match first
    case Err(_) => (l.(flags := want), false)
    case Ok(a) =>
      var t := Committed(l, cfg, want, a, now).(flags := want);
      if a.gate.Rejected? then (t, false) else (Stored(t, want, saved), saved)
  }

  /** The start of `run`: load, prune, build the whole table. The service serves only if that worked. */
  function ServiceStarted(s: State, cfg: AgentConfig, now: Time, first: Outcome, saved: bool): (State, bool) {
    var entries := Unexpired(s.disk.entries, now);
    var l := s.(entries := entries, flags := s.disk.flags, live := PLAIN, running := false);
    if entries != s.disk.entries && !saved then (l, false)
    else
      var m := if entries != s.disk.entries then l.(disk := Saved(entries, l.flags)) else l;
      match first
      case Err(_) => (m, false)
      case Ok(a) => (Committed(m, cfg, m.flags, a, now).(running := true), true)
  }

  class Agent {
    const cfg: AgentConfig
    const backend: Backend
    var entries: seq<Entry>
    var flags: Flags
    var disk: Saved
    var live: Features
    var running: bool
    ghost var unsettled: set<Net>
    ghost var lapsed: seq<Entry>
    ghost var stuck: bool

    ghost function Abs(): State
      reads this, backend
    {
      State(entries, flags, disk, live, running, backend.installed, unsettled, lapsed, stuck)
    }

    /** A host with the service stopped and whatever is in its state file and its kernel. */
    constructor (cfg: AgentConfig, backend: Backend, disk: Saved)
      ensures this.cfg == cfg && this.backend == backend
      ensures Abs() == State(disk.entries, disk.flags, disk, PLAIN, false, backend.installed, {}, [], false)
    {
      this.cfg := cfg;
      this.backend := backend;
      entries, flags, this.disk, live, running := disk.entries, disk.flags, disk, PLAIN, false;
      unsettled, lapsed, stuck := {}, [], false;
    }

    /** `works` says whether the disk takes it. */
    method Save(works: bool)
      modifies this`disk
      ensures disk == if works then Saved(entries, flags) else old(disk)
    {
      if works { disk := Saved(entries, flags); }
    }

    /** `reapply_ruleset`; also the startup apply and the fallback rebuild of the reconcile loop. */
    method Reapply(want: Flags, now: Time, answers: Answers) returns (r: Outcome)
      modifies this`live, this`unsettled, this`lapsed, this`stuck, backend
      ensures r == Ladder(Wanted(RulesetWith(cfg, want)), answers)
      ensures Abs() == if r.Ok? then Committed(old(Abs()), cfg, want, r.value, now) else old(Abs())
    {
      var ruleset := BuildRuleset(cfg, want);
      ghost var attempts;
      r, attempts := ApplyRuleset(backend, ruleset, entries, now, answers);
      LadderIsFunction(Wanted(ruleset), attempts, r, answers);
      if r.Ok? {
        live := r.value.Granted();
        unsettled, lapsed, stuck := {}, [], want.sshAllowlistOnly && !flags.sshAllowlistOnly;
      }
    }

    /** `set_ssh_exposure`. `one` and `two` are nft's answers to its calls, `works` whether the disk takes the
        new state. */
    method SetSshExposure(on: bool, now: Time, one: Answers, two: Answers, works: bool) returns (r: Result<(), Error>)
      modifies this, backend
      ensures
        var first := Ladder(Wanted(RulesetWith(cfg, old(flags).(sshAllowlistOnly := on))), one);
        (Abs(), r) == SshToggle(old(Abs()), cfg, on, now, first, Ladder(Wanted(RulesetWith(cfg, old(flags))), two), works)
    {
      var want := flags.(sshAllowlistOnly := on);
      if on {
        if forall e | e in entries :: e.IsExpired(now) { r := Err(BadRequest); return; }
        if AnyPortCoversSsh(cfg, want) { r := Err(BadRequest); return; }
      }
      var applied := Reapply(want, now, one);
      if applied.Err? { r := Err(NftFailure(applied.error)); return; }
      if applied.value.knock.Rejected? {
        var back := Reapply(flags, now, two);
        if back.Err? { r := Err(NftFailure(back.error)); return; }
        r := Err(NftFailure(applied.value.knock.reason));
        return;
      }
      flags := want;
      stuck := stuck && !flags.sshAllowlistOnly;
      Save(works);
      r := if works then Ok(()) else Err(Internal);
    }

    /** `set_forward_exposure`. */
    method SetForwardExposure(on: bool, now: Time, one: Answers, works: bool) returns (r: Result<(), Error>)
      modifies this, backend
      ensures
        (Abs(), r) == ForwardToggle(
          old(Abs()), cfg, on, now, Ladder(Wanted(RulesetWith(cfg, old(flags).(forwardAllowlistOnly := on))), one), works)
    {
      var want := flags.(forwardAllowlistOnly := on);
      var applied := Reapply(want, now, one);
      if applied.Err? { r := Err(NftFailure(applied.error)); return; }
      if applied.value.gate.Rejected? { r := Err(NftFailure(applied.value.gate.reason)); return; }
      flags := want;
      stuck := stuck && !flags.sshAllowlistOnly;
      Save(works);
      r := if works then Ok(()) else Err(Internal);
    }

    /** `add_public_port`. A range already present for the protocol only has its note replaced. */
    method AddPublicPort(proto: ForwardProto, range: PortRange, note: string, now: Time, one: Answers, works: bool)
      returns (r: Result<(), Error>)
      modifies this, backend
      ensures
        var want := old(flags).(publicPorts := old(flags).publicPorts + [PublicPort(proto, range, note)]);
        (Abs(), r) == PortAdded(old(Abs()), cfg, proto, range, note, now, Ladder(Wanted(RulesetWith(cfg, want)), one), works)
    {
      var ports := flags.publicPorts;
      if range.start == 0 || !range.IsValid() { r := Err(BadRequest); return; }
      match IndexOf(ports, proto, range) {
        case Some(i) =>
          ports := ports[i := ports[i].(note := note)];
        case None =>
          ports := ports + [PublicPort(proto, range, note)];
          if flags.sshAllowlistOnly && CoversSsh(cfg, proto, range) { r := Err(BadRequest); return; }
          var applied := Reapply(flags.(publicPorts := ports), now, one);
          if applied.Err? { r := Err(NftFailure(applied.error)); return; }
      }
      flags := flags.(publicPorts := ports);
      stuck := stuck && !flags.sshAllowlistOnly;
      Save(works);
      r := if works then Ok(()) else Err(Internal);
    }

    /** `remove_public_port`: drops every client range equal to the given one. */
    method RemovePublicPort(proto: ForwardProto, range: PortRange, now: Time, one: Answers, works: bool) returns (r: Result<(), Error>)
      modifies this, backend
      ensures
        var want := old(flags).(publicPorts := Without(old(flags).publicPorts, proto, range));
        (Abs(), r) == PortRemoved(old(Abs()), cfg, proto, range, now, Ladder(Wanted(RulesetWith(cfg, want)), one), works)
    {
      var ports := Without(flags.publicPorts, proto, range);
      WithoutDrops(flags.publicPorts, proto, range);
      if |ports| == |flags.publicPorts| { r := Err(NotFound); return; }
      var applied := Reapply(flags.(publicPorts := ports), now, one);
      if applied.Err? { r := Err(NftFailure(applied.error)); return; }
      flags := flags.(publicPorts := ports);
      stuck := stuck && !flags.sshAllowlistOnly;
      Save(works);
      r := if works then Ok(()) else Err(Internal);
    }

    /** The store half of `allow`. */
    method StoreAllow(e: Entry, works: bool)
      modifies this
      ensures Abs() == AllowStored(old(Abs()), e, works)
    {
      entries := WithoutTarget(entries, e.target) + [e];
      unsettled := unsettled + {Mask(e.target)};
      Save(works);
    }

    /** The kernel half of `allow`, outside the store's lock; also a repair of the reconcile loop. */
    method KernelAdd(e: Entry, now: Time, accepts: bool, takes: bool)
      modifies this`unsettled, backend
      ensures Abs() == ElementAdded(old(Abs()), e, now, accepts && takes && old(backend.installed).Some?)
    {
      var put := backend.Add(e, now, accepts, takes);
      if put {
        unsettled := if Settles(entries, e, now) then unsettled - {Mask(e.target)} else unsettled + {Mask(e.target)};
      }
    }

    /** `allow` when no other step comes in between: the prefix is settled unless the disk or nft
        refuses, nft keeps an older element, the entry has expired, or another entry shares its prefix. */
    method Allow(e: Entry, now: Time, works: bool, accepts: bool, takes: bool) returns (r: Result<(), Error>)
      modifies this, backend
      ensures r == if !works then Err(Internal) else if accepts then Ok(()) else Err(NftFailure(""))
      ensures
        var put := works && accepts && takes && old(backend.installed).Some?;
        && Abs() == ElementAdded(AllowStored(old(Abs()), e, works), e, now, put)
        && (put && Settles(entries, e, now) ==> Mask(e.target) !in unsettled)
      ensures e in entries && (forall x | x in entries && x.target == e.target :: x == e)
      ensures r != Err(Internal) ==> disk == Saved(entries, flags) && Kept(Abs(), e)
      ensures forall x: Entry | x.target != e.target :: x in entries <==> x in old(entries)
      ensures unsettled - {Mask(e.target)} == old(unsettled) - {Mask(e.target)}
    {
      StoreAllow(e, works);
      if !works { r := Err(Internal); return; }
      KernelAdd(e, now, accepts, takes);
      r := if accepts then Ok(()) else Err(NftFailure(""));
    }

    /** The store half of `revoke`. */
    method StoreRevoke(t: Net, works: bool) returns (found: bool)
      modifies this
      ensures found <==> exists e | e in old(entries) :: e.target == t
      ensures Abs() == if found then RevokeStored(old(Abs()), t, works) else old(Abs())
    {
      found := exists e | e in entries :: e.target == t;
      if found {
        entries := WithoutTarget(entries, t);
        unsettled := unsettled + {Mask(t)};
        Save(works);
      }
    }

    /** The kernel half of `revoke`; also a repair of the reconcile loop. */
    method KernelRemove(t: Net, now: Time, accepts: bool) returns (taken: bool)
      modifies this`unsettled, backend
      ensures taken == (accepts && old(backend.installed).Some?)
      ensures Abs() == ElementRemoved(old(Abs()), t, now, taken)
    {
      taken := backend.Remove(t, now, accepts);
      if taken {
        unsettled := if exists e | e in entries :: Mask(e.target) == Mask(t) then unsettled + {Mask(t)} else unsettled - {Mask(t)};
      }
    }

    /** `revoke` when no other step comes in between. */
    method Revoke(t: Net, now: Time, works: bool, accepts: bool) returns (r: Result<(), Error>)
      modifies this, backend
      ensures
        var there, taken := exists e | e in old(entries) :: e.target == t, accepts && old(backend.installed).Some?;
        && r == (if !there then Err(NotFound) else if !works then Err(Internal) else if taken then Ok(()) else Err(NftFailure("")))
        && Abs() == if !there then old(Abs())
                    else if !works then RevokeStored(old(Abs()), t, false)
                    else ElementRemoved(RevokeStored(old(Abs()), t, true), t, now, taken)
      // exactly the entries on that target are gone, and from the file too unless saving failed
      ensures forall e :: e in entries <==> e in old(entries) && e.target != t
      ensures flags == old(flags)
      ensures r == Err(Internal) ==> disk == old(disk)
      ensures r != Err(Internal) && r != Err(NotFound) ==> disk == Saved(entries, flags) && Gone(Abs(), t)
      ensures r.Ok? && (forall e | e in entries :: Mask(e.target) != Mask(t)) ==> Mask(t) !in unsettled
      ensures unsettled - {Mask(t)} == old(unsettled) - {Mask(t)}
    {
      var found := StoreRevoke(t, works);
      if !found { return Err(NotFound); }
      if !works { return Err(Internal); }
      var taken := KernelRemove(t, now, accepts);
      r := if taken then Ok(()) else Err(NftFailure(""));
    }

    /** The pruning of the reconcile loop; without a change nothing is written. */
    method Prune(now: Time, works: bool)
      modifies this
      ensures Abs() == Pruned(old(Abs()), now, works && Unexpired(old(entries), now) != old(entries))
    {
      var kept := Unexpired(entries, now);
      lapsed := lapsed + Expired(entries, now);
      var changed := kept != entries;
      entries := kept;
      if changed { Save(works); }
    }

    /** The rebuild of the reconcile loop when the kernel cannot be listed; a failure is ignored. */
    method FallbackRebuild(now: Time, one: Answers) returns (r: Outcome)
      modifies this, backend
      ensures r == Ladder(Wanted(RulesetWith(cfg, flags)), one)
      ensures Abs() == if r.Ok? then Committed(old(Abs()), cfg, flags, r.value, now) else old(Abs())
    {
      r := Reapply(flags, now, one);
    }

    method Start(now: Time, one: Answers, works: bool) returns (ok: bool)
      requires !running
      modifies this, backend
      ensures
        (Abs(), ok) == ServiceStarted(old(Abs()), cfg, now, Ladder(Wanted(RulesetWith(cfg, old(disk).flags)), one), works)
    {
      live := PLAIN;
      flags := disk.flags;
      entries := Unexpired(disk.entries, now);
      if entries != disk.entries {
        Save(works);
        if !works { ok := false; return; }
      }
      var applied := Reapply(flags, now, one);
      if applied.Err? { ok := false; return; }
      running := true;
      ok := true;
    }

    /** The process dies: memory is lost, kernel and state file stay. */
    method Crash()
      modifies this`running
      ensures Abs() == old(Abs()).(running := false)
    {
      running := false;
    }

    /** `ssh_expose_cli`, used while the service is down: works on the state file. */
    method SshExposeCli(on: bool, now: Time, one: Answers, two: Answers, works: bool) returns (ok: bool)
      requires !running
      modifies this, backend
      ensures
        var first := Ladder(Wanted(RulesetWith(cfg, old(disk).flags.(sshAllowlistOnly := on))), one);
        (Abs(), ok) == CliSshToggle(old(Abs()), cfg, on, now, first, Ladder(Wanted(RulesetWith(cfg, old(disk).flags)), two), works)
    {
      entries := disk.entries;
      flags := disk.flags;
      var before := flags;
      var want := flags.(sshAllowlistOnly := on);
      if on && AnyPortCoversSsh(cfg, flags) { ok := false; return; }
      var applied := Reapply(want, now, one);
      flags := want;
      if applied.Err? { ok := false; return; }
      if applied.value.knock.Rejected? {
        var back := Reapply(before, now, two);
        ok := false;
        return;
      }
      stuck := stuck && !flags.sshAllowlistOnly;
      Save(works);
      ok := works;
    }

    /** `forward_expose_cli`, likewise. */
    method ForwardExposeCli(on: bool, now: Time, one: Answers, works: bool) returns (ok: bool)
      requires !running
      modifies this, backend
      ensures
        (Abs(), ok) == CliForwardToggle(
          old(Abs()), cfg, on, now, Ladder(Wanted(RulesetWith(cfg, old(disk).flags.(forwardAllowlistOnly := on))), one), works)
    {
      entries := disk.entries;
      flags := disk.flags;
      var want := flags.(forwardAllowlistOnly := on);
      var applied := Reapply(want, now, one);
      flags := want;
      if applied.Err? || applied.value.gate.Rejected? { ok := false; return; }
      stuck := stuck && !flags.sshAllowlistOnly;
      Save(works);
      ok := works;
    }

    /** One command, whatever it is and however nft, the disk and the clock behave: it does what `After`
        says, and keeps the invariant. */
    method Step(c: Command, n: Nature)
      requires Invariant(cfg, Abs())
      modifies this, backend
      ensures Abs() == After(cfg, old(Abs()), c, n) && Invariant(cfg, Abs())
    {
      ghost var pre := Abs();
      if running { ServiceStep(c, n); } else { OfflineStep(c, n); }
      StepKeeps(cfg, pre, c, n);
    }

    method ServiceStep(c: Command, n: Nature)
      requires running
      modifies this, backend
      ensures Abs() == Served(cfg, old(Abs()), c, n)
    {
      match c
      case SshExposure(on, now) => var r := SetSshExposure(on, now, n.one, n.two, n.works);
      case ForwardExposure(on, now) => var r := SetForwardExposure(on, now, n.one, n.works);
      case AddPort(proto, range, note, now) => var r := AddPublicPort(proto, range, note, now, n.one, n.works);
      case RemovePort(proto, range, now) => var r := RemovePublicPort(proto, range, now, n.one, n.works);
      case AllowEntry(e) => StoreAllow(e, n.works);
      case PutElement(e, now) => KernelAdd(e, now, n.accepts, n.takes);
      case RevokeEntry(t) => var found := StoreRevoke(t, n.works);
      case TakeElement(t, now) => var taken := KernelRemove(t, now, n.accepts);
      case PruneEntries(now) => Prune(now, n.works);
      case Fallback(now) => var r := FallbackRebuild(now, n.one);
      case KillService => Crash();
      case _ =>
    }

    method OfflineStep(c: Command, n: Nature)
      requires !running
      modifies this, backend
      ensures Abs() == DoneOffline(cfg, old(Abs()), c, n)
    {
      match c
      case StartService(now) => var ok := Start(now, n.one, n.works);
      case CliSsh(on, now) => var ok := SshExposeCli(on, now, n.one, n.two, n.works);
      case CliForward(on, now) => var ok := ForwardExposeCli(on, now, n.one, n.works);
      case _ =>
    }

    /** Every run of commands keeps the invariant, at its end and between any two commands. The ghost trace
        lists the states it goes through. */
    method Run(commands: seq<Command>, natures: seq<Nature>) returns (ghost trace: seq<State>)
      requires Invariant(cfg, Abs()) && |natures| == |commands|
      modifies this, backend
      ensures IsRun(cfg, trace, commands, natures) && trace[0] == old(Abs()) && trace[|commands|] == Abs()
      ensures Invariant(cfg, Abs())
    {
      trace := [Abs()];
      for i := 0 to |commands|
        invariant Invariant(cfg, Abs())
        invariant IsRun(cfg, trace, commands[..i], natures[..i]) && trace[0] == old(Abs()) && trace[i] == Abs()
      {
        Step(commands[i], natures[i]);
        RunGoesOn(cfg, trace, commands, natures, i, Abs());
        trace := trace + [Abs()];
      }
      assert commands[..|commands|] == commands && natures[..|commands|] == natures;
    }
  }

  /** The handlers of the list come apart into their steps, because they leave the store's lock in
      between; the repairs of the reconcile loop are such steps as well. */
  datatype Command =
    | SshExposure(on: bool, now: Time)
    | ForwardExposure(on: bool, now: Time)
    | AddPort(proto: ForwardProto, range: PortRange, note: string, now: Time)
    | RemovePort(proto: ForwardProto, range: PortRange, now: Time)
    | AllowEntry(e: Entry)
    | PutElement(e: Entry, now: Time)
    | RevokeEntry(t: Net)
    | TakeElement(t: Net, now: Time)
    | PruneEntries(now: Time)
    | Fallback(now: Time)
    | StartService(now: Time)
    | KillService
    | CliSsh(on: bool, now: Time)
    | CliForward(on: bool, now: Time)

  /** How the world answers during one command: nft to the first and the second table and to a single
      element, which it may accept without taking it, and the disk. */
  datatype Nature = Nature(one: Answers, two: Answers, accepts: bool, takes: bool, works: bool)

  /** What nft grants of the settings wanted. */
  function Answer(cfg: AgentConfig, want: Flags, answers: Answers): (r: Outcome)
    ensures Possible(Wanted(RulesetWith(cfg, want)), r)
  {
    LadderIsPossible(Wanted(RulesetWith(cfg, want)), answers);
    Ladder(Wanted(RulesetWith(cfg, want)), answers)
  }

  /** What a command makes of a host. */
  ghost function After(cfg: AgentConfig, s: State, c: Command, n: Nature): State {
    if s.running then Served(cfg, s, c, n) else DoneOffline(cfg, s, c, n)
  }

  ghost function Served(cfg: AgentConfig, s: State, c: Command, n: Nature): State {
    match c
    case SshExposure(on, now) =>
      SshToggle(s, cfg, on, now, Answer(cfg, s.flags.(sshAllowlistOnly := on), n.one), Answer(cfg, s.flags, n.two), n.works).0
    case ForwardExposure(on, now) =>
      ForwardToggle(s, cfg, on, now, Answer(cfg, s.flags.(forwardAllowlistOnly := on), n.one), n.works).0
    case AddPort(proto, range, note, now) =>
      var want := s.flags.(publicPorts := s.flags.publicPorts + [PublicPort(proto, range, note)]);
      PortAdded(s, cfg, proto, range, note, now, Answer(cfg, want, n.one), n.works).0
    case RemovePort(proto, range, now) =>
      var want := s.flags.(publicPorts := Without(s.flags.publicPorts, proto, range));
      PortRemoved(s, cfg, proto, range, now, Answer(cfg, want, n.one), n.works).0
    case AllowEntry(e) => AllowStored(s, e, n.works)
    case PutElement(e, now) => ElementAdded(s, e, now, n.accepts && n.takes && s.installed.Some?)
    case RevokeEntry(target) => if exists e | e in s.entries :: e.target == target then RevokeStored(s, target, n.works) else s
    case TakeElement(target, now) => ElementRemoved(s, target, now, n.accepts && s.installed.Some?)
    case PruneEntries(now) => Pruned(s, now, n.works && Unexpired(s.entries, now) != s.entries)
    case Fallback(now) =>
      var r := Answer(cfg, s.flags, n.one);
      if r.Ok? then Committed(s, cfg, s.flags, r.value, now) else s
    case KillService => s.(running := false)
    case _ => s
  }

  ghost function DoneOffline(cfg: AgentConfig, s: State, c: Command, n: Nature): State {
    match c
    case StartService(now) => ServiceStarted(s, cfg, now, Answer(cfg, s.disk.flags, n.one), n.works).0
    case CliSsh(on, now) =>
      CliSshToggle(
        s, cfg, on, now, Answer(cfg, s.disk.flags.(sshAllowlistOnly := on), n.one), Answer(cfg, s.disk.flags, n.two), n.works).0
    case CliForward(on, now) =>
      CliForwardToggle(s, cfg, on, now, Answer(cfg, s.disk.flags.(forwardAllowlistOnly := on), n.one), n.works).0
    case _ => s
  }

  ghost predicate IsRun(cfg: AgentConfig, trace: seq<State>, commands: seq<Command>, natures: seq<Nature>) {
    && |trace| == |commands| + 1 && |natures| == |commands|
    && forall i | 0 <= i < |commands| :: trace[i + 1] == After(cfg, trace[i], commands[i], natures[i])
  }

  lemma RunGoesOn(cfg: AgentConfig, trace: seq<State>, commands: seq<Command>, natures: seq<Nature>, i: nat, t: State)
    requires i < |commands| == |natures| && IsRun(cfg, trace, commands[..i], natures[..i])
    requires t == After(cfg, trace[i], commands[i], natures[i])
    ensures IsRun(cfg, trace + [t], commands[..i + 1], natures[..i + 1])
  {
    var more := trace + [t];
    forall j | 0 <= j < i + 1 ensures more[j + 1] == After(cfg, more[j], commands[..i + 1][j], natures[..i + 1][j]) {
      if j < i { assert commands[..i][j] == commands[j] && natures[..i][j] == natures[j]; }
    }
  }

  // ---- What every command keeps ----

  lemma {:induction false} StepKeeps(cfg: AgentConfig, s: State, c: Command, n: Nature)
    requires Invariant(cfg, s)
    ensures Invariant(cfg, After(cfg, s, c, n))
  {
    if s.running { ServedKeeps(cfg, s, c, n); } else { OfflineKeeps(cfg, s, c, n); }
  }

  lemma {:induction false} ServedKeeps(cfg: AgentConfig, s: State, c: Command, n: Nature)
    requires Invariant(cfg, s) && s.running
    ensures Invariant(cfg, Served(cfg, s, c, n))
  {
    match c
    case SshExposure(on, now) =>
      SshToggleKeeps(cfg, s, on, now, Answer(cfg, s.flags.(sshAllowlistOnly := on), n.one), Answer(cfg, s.flags, n.two), n.works);
    case ForwardExposure(on, now) =>
      ForwardToggleKeeps(cfg, s, on, now, Answer(cfg, s.flags.(forwardAllowlistOnly := on), n.one), n.works);
    case AddPort(proto, range, note, now) =>
      var want := s.flags.(publicPorts := s.flags.publicPorts + [PublicPort(proto, range, note)]);
      PortAddedKeeps(cfg, s, proto, range, note, now, Answer(cfg, want, n.one), n.works);
    case RemovePort(proto, range, now) =>
      var want := s.flags.(publicPorts := Without(s.flags.publicPorts, proto, range));
      PortRemovedKeeps(cfg, s, proto, range, now, Answer(cfg, want, n.one), n.works);
    case _ => ListKeeps(cfg, s, c, n);
  }

  lemma {:induction false} ListKeeps(cfg: AgentConfig, s: State, c: Command, n: Nature)
    requires Invariant(cfg, s) && s.running
    requires !c.SshExposure? && !c.ForwardExposure? && !c.AddPort? && !c.RemovePort?
    ensures Invariant(cfg, Served(cfg, s, c, n))
  {
    match c
    case AllowEntry(e) => AllowStoredKeeps(cfg, s, e, n.works);
    case PutElement(e, now) => ElementAddedKeeps(cfg, s, e, now, n.accepts && n.takes && s.installed.Some?);
    case RevokeEntry(target) => RevokeStoredKeeps(cfg, s, target, n.works);
    case TakeElement(target, now) => ElementRemovedKeeps(cfg, s, target, now, n.accepts && s.installed.Some?);
    case PruneEntries(now) => PrunedKeeps(cfg, s, now, n.works && Unexpired(s.entries, now) != s.entries);
    case Fallback(now) => if Answer(cfg, s.flags, n.one).Ok? { FallbackKeeps(cfg, s, Answer(cfg, s.flags, n.one), now); }
    case _ =>
  }

  lemma {:induction false} OfflineKeeps(cfg: AgentConfig, s: State, c: Command, n: Nature)
    requires Invariant(cfg, s) && !s.running
    ensures Invariant(cfg, DoneOffline(cfg, s, c, n))
  {
    match c
    case StartService(now) => StartKeeps(cfg, s, now, Answer(cfg, s.disk.flags, n.one), n.works);
    case CliSsh(on, now) =>
      CliSshKeeps(
        cfg, s, on, now, Answer(cfg, s.disk.flags.(sshAllowlistOnly := on), n.one), Answer(cfg, s.disk.flags, n.two), n.works);
    case _ =>
  }

  /** No entry on the target, neither in memory nor in the state file. */
  ghost predicate Gone(s: State, target: Net) {
    forall e | e in s.entries || e in s.disk.entries :: e.target != target
  }

  /** Where the entries in memory come from after a command; the file's are those or the old ones. */
  ghost predicate EntriesFrom(s: State, c: Command, t: State) {
    && (t.disk.entries == s.disk.entries || t.disk.entries == t.entries)
    && match c
       case AllowEntry(e) => t.entries == s.entries || t.entries == WithoutTarget(s.entries, e.target) + [e]
       case RevokeEntry(target) => t.entries == s.entries || t.entries == WithoutTarget(s.entries, target)
       case PruneEntries(now) => t.entries == s.entries || t.entries == Unexpired(s.entries, now)
       case StartService(now) => t.entries == s.entries || t.entries == Unexpired(s.disk.entries, now)
       case _ => t.entries == s.entries || t.entries == s.disk.entries
  }

  lemma StepEntries(cfg: AgentConfig, s: State, c: Command, n: Nature)
    ensures EntriesFrom(s, c, After(cfg, s, c, n))
  {
    if s.running {
      if c.SshExposure? || c.ForwardExposure? || c.AddPort? || c.RemovePort? {
        ToggledEntries(cfg, s, c, n);
      } else {
        ListedEntries(cfg, s, c, n);
      }
    } else {
      OfflineEntries(cfg, s, c, n);
    }
  }

  lemma ToggledEntries(cfg: AgentConfig, s: State, c: Command, n: Nature)
    requires c.SshExposure? || c.ForwardExposure? || c.AddPort? || c.RemovePort?
    ensures EntriesFrom(s, c, Served(cfg, s, c, n))
  {
    if c.SshExposure? {
      SshEntries(s, cfg, c.on, c.now, Answer(cfg, s.flags.(sshAllowlistOnly := c.on), n.one), Answer(cfg, s.flags, n.two), n.works);
    } else if c.AddPort? {
      var want := s.flags.(publicPorts := s.flags.publicPorts + [PublicPort(c.proto, c.range, c.note)]);
      AddEntries(s, cfg, c.proto, c.range, c.note, c.now, Answer(cfg, want, n.one), n.works);
    }
  }

  lemma SshEntries(s: State, cfg: AgentConfig, on: bool, now: Time, first: Outcome, second: Outcome, saved: bool)
    ensures
      var t := SshToggle(s, cfg, on, now, first, second, saved).0;
      t.entries == s.entries && (t.disk.entries == s.disk.entries || t.disk.entries == s.entries)
  {
  }

  lemma AddEntries(
    s: State, cfg: AgentConfig, proto: ForwardProto, range: PortRange, note: string, now: Time, first: Outcome, saved: bool)
    ensures
      var t := PortAdded(s, cfg, proto, range, note, now, first, saved).0;
      t.entries == s.entries && (t.disk.entries == s.disk.entries || t.disk.entries == s.entries)
  {
  }

  lemma ListedEntries(cfg: AgentConfig, s: State, c: Command, n: Nature)
    requires !c.SshExposure? && !c.ForwardExposure? && !c.AddPort? && !c.RemovePort?
    ensures EntriesFrom(s, c, Served(cfg, s, c, n))
  {
  }

  lemma OfflineEntries(cfg: AgentConfig, s: State, c: Command, n: Nature)
    ensures EntriesFrom(s, c, DoneOffline(cfg, s, c, n))
  {
    match c
    case CliSsh(on, now) =>
      CliSshEntries(
        s, cfg, on, now, Answer(cfg, s.disk.flags.(sshAllowlistOnly := on), n.one), Answer(cfg, s.disk.flags, n.two), n.works);
    case CliForward(on, now) =>
      CliForwardEntries(s, cfg, on, now, Answer(cfg, s.disk.flags.(forwardAllowlistOnly := on), n.one), n.works);
    case _ =>
  }

  lemma CliSshEntries(s: State, cfg: AgentConfig, on: bool, now: Time, first: Outcome, second: Outcome, saved: bool)
    ensures
      var t := CliSshToggle(s, cfg, on, now, first, second, saved).0;
      t.entries == s.disk.entries == t.disk.entries
  {
  }

  lemma CliForwardEntries(s: State, cfg: AgentConfig, on: bool, now: Time, first: Outcome, saved: bool)
    ensures
      var t := CliForwardToggle(s, cfg, on, now, first, saved).0;
      t.entries == s.disk.entries == t.disk.entries
  {
  }

  lemma StepKeepsGone(cfg: AgentConfig, s: State, c: Command, n: Nature, target: Net)
    requires Gone(s, target) && !(c.AllowEntry? && c.e.target == target)
    ensures Gone(After(cfg, s, c, n), target)
  {
    StepEntries(cfg, s, c, n);
    FromGone(s, c, After(cfg, s, c, n), target);
  }

  lemma FromGone(s: State, c: Command, t: State, target: Net)
    requires EntriesFrom(s, c, t) && Gone(s, target) && !(c.AllowEntry? && c.e.target == target)
    ensures Gone(t, target)
  {
  }

  /** What a revoke that reached the disk has removed stays away through any commands, kills and starts of
      the service among them, until it is allowed again. */
  lemma RevokedStaysGone(cfg: AgentConfig, trace: seq<State>, commands: seq<Command>, natures: seq<Nature>, target: Net)
    requires IsRun(cfg, trace, commands, natures) && Gone(trace[0], target)
    requires forall c | c in commands :: !(c.AllowEntry? && c.e.target == target)
    ensures forall s | s in trace :: Gone(s, target)
  {
    forall i: nat | i < |trace| ensures Gone(trace[i], target) { GoneAt(cfg, trace, commands, natures, target, i); }
  }

  lemma {:induction false} GoneAt(cfg: AgentConfig, trace: seq<State>, commands: seq<Command>, natures: seq<Nature>, target: Net, i: nat)
    requires IsRun(cfg, trace, commands, natures) && Gone(trace[0], target) && i < |trace|
    requires forall c | c in commands :: !(c.AllowEntry? && c.e.target == target)
    ensures Gone(trace[i], target)
  {
    if i > 0 {
      GoneAt(cfg, trace, commands, natures, target, i - 1);
      StepKeepsGone(cfg, trace[i - 1], commands[i - 1], natures[i - 1], target);
    }
  }

  /** The entry is in memory and in the state file. */
  predicate Kept(s: State, e: Entry) {
    e in s.entries && e in s.disk.entries
  }

  /** The commands that may end an entry: a revoke of its target, an `allow` that replaces it, and pruning
      it or starting after it has expired. */
  predicate Ends(c: Command, e: Entry) {
    match c
    case AllowEntry(f) => f.target == e.target && f != e
    case RevokeEntry(t) => t == e.target
    case PruneEntries(now) => e.IsExpired(now)
    case StartService(now) => e.IsExpired(now)
    case _ => false
  }

  lemma StepKeepsEntry(cfg: AgentConfig, s: State, c: Command, n: Nature, e: Entry)
    requires Kept(s, e) && !Ends(c, e)
    ensures Kept(After(cfg, s, c, n), e)
  {
    StepEntries(cfg, s, c, n);
    FromKept(s, c, After(cfg, s, c, n), e);
  }

  lemma FromKept(s: State, c: Command, t: State, e: Entry)
    requires EntriesFrom(s, c, t) && Kept(s, e) && !Ends(c, e)
    ensures Kept(t, e)
  {
  }

  /** And an entry whose `allow` reached the disk stays until one of these. */
  lemma AllowedStaysKept(cfg: AgentConfig, trace: seq<State>, commands: seq<Command>, natures: seq<Nature>, e: Entry)
    requires IsRun(cfg, trace, commands, natures) && Kept(trace[0], e)
    requires forall c | c in commands :: !Ends(c, e)
    ensures forall s | s in trace :: Kept(s, e)
  {
    forall i: nat | i < |trace| ensures Kept(trace[i], e) { KeptAt(cfg, trace, commands, natures, e, i); }
  }

  lemma {:induction false} KeptAt(cfg: AgentConfig, trace: seq<State>, commands: seq<Command>, natures: seq<Nature>, e: Entry, i: nat)
    requires IsRun(cfg, trace, commands, natures) && Kept(trace[0], e) && i < |trace|
    requires forall c | c in commands :: !Ends(c, e)
    ensures Kept(trace[i], e)
  {
    if i > 0 {
      KeptAt(cfg, trace, commands, natures, e, i - 1);
      StepKeepsEntry(cfg, trace[i - 1], commands[i - 1], natures[i - 1], e);
    }
  }

  function IndexOf(ports: seq<PublicPort>, proto: ForwardProto, range: PortRange): (r: Option<nat>)
    ensures r.Some? ==> r.value < |ports| && ports[r.value].proto == proto && ports[r.value].ports == range
    ensures r.Some? ==> forall j | 0 <= j < r.value :: !(ports[j].proto == proto && ports[j].ports == range)
    ensures r.None? ==> forall j | 0 <= j < |ports| :: !(ports[j].proto == proto && ports[j].ports == range)
  {
    if ports == [] then None
    else if ports[0].proto == proto && ports[0].ports == range then Some(0)
    else match IndexOf(ports[1..], proto, range)
      case None => None
      case Some(i) => Some(i + 1)
  }

  function Without(ports: seq<PublicPort>, proto: ForwardProto, range: PortRange): (r: seq<PublicPort>)
    ensures forall p :: p in r <==> p in ports && !(p.proto == proto && p.ports == range)
  {
    Filter(ports, (p: PublicPort) => !(p.proto == proto && p.ports == range))
  }

  lemma WithoutDrops(ports: seq<PublicPort>, proto: ForwardProto, range: PortRange)
    ensures |Without(ports, proto, range)| == |ports| <==> IndexOf(ports, proto, range).None?
  {
    FilterKeepsAll(ports, (p: PublicPort) => !(p.proto == proto && p.ports == range));
  }

  lemma WithoutSafe(cfg: AgentConfig, flags: Flags, proto: ForwardProto, range: PortRange)
    requires FlagsSafe(cfg, flags)
    ensures FlagsSafe(cfg, flags.(publicPorts := Without(flags.publicPorts, proto, range)))
    ensures ClientPortCoversSsh(cfg, flags.(publicPorts := Without(flags.publicPorts, proto, range))) ==> ClientPortCoversSsh(cfg, flags)
  {
    var kept := Without(flags.publicPorts, proto, range);
    forall i | 0 <= i < |kept|
      ensures kept[i].ports.IsValid() && (CoversSsh(cfg, kept[i].proto, kept[i].ports) ==> ClientPortCoversSsh(cfg, flags))
    {
      assert kept[i] in flags.publicPorts;
    }
  }

  lemma {:induction false} SameRanges(a: seq<PublicPort>, b: seq<PublicPort>, other: ForwardProto)
    requires |a| == |b| && forall i | 0 <= i < |a| :: a[i].proto == b[i].proto && a[i].ports == b[i].ports
    ensures RangesFor(a, other) == RangesFor(b, other)
  {
    if a != [] {
      SameRanges(a[..|a| - 1], b[..|b| - 1], other);
    }
  }

  // ---- What nft can answer ----

  /** A feature is granted or rejected only if it was wanted, and one of the two if it was. */
  ghost predicate LabelsFit(want: Features, a: Applied) {
    && a.Granted().SubsetOf(want)
    && (a.gate.Rejected? <==> want.gate && !a.Granted().gate)
    && (a.knock.Rejected? <==> want.knock && !a.Granted().knock)
  }

  lemma PossibleLabels(want: Features, r: Outcome)
    requires Possible(want, r) && r.Ok?
    ensures LabelsFit(want, r.value)
  {
  }

  // ---- A committed table ----

  /** A rebuild makes the sets agree with the store, prefix by prefix. */
  lemma CommittedSetsAgree(cfg: AgentConfig, s: State, want: Flags, a: Applied, now: Time)
    ensures SetsAgree(Committed(s, cfg, want, a, now))
  {
    var t := Committed(s, cfg, want, a, now);
    var i := t.installed.value;
    assert i.Elements() == Initial(s.entries, now);
    InitialMembers(s.entries, now);
    forall e | e in t.entries ensures Backed(i, e) {
      if !e.IsExpired(now) {
        ElementTracksEntry(e, now);
        assert ElementOf(e, now) in i.Elements();
      }
    }
    forall x | x in i.Elements() ensures Owned(t, x) {
      var e :| e in s.entries && !e.IsExpired(now) && x == ElementOf(e, now);
      ElementTracksEntry(e, now);
      assert e in t.entries + t.lapsed;
    }
  }

  lemma SetsIgnoreFlags(s: State, t: State)
    requires SetsAgree(s)
    requires t.entries == s.entries && t.installed == s.installed && t.unsettled == s.unsettled && t.lapsed == s.lapsed
    ensures SetsAgree(t)
  {
    forall x | x in t.installed.value.Elements() && Mask(x.target) !in t.unsettled ensures Owned(t, x) {
      assert Owned(s, x);
    }
  }

  /** The committed table against settings that differ from the wanted ones in what they may. */
  lemma CommittedKernelAgrees(cfg: AgentConfig, s: State, want: Flags, a: Applied, now: Time, t: State)
    requires a.Granted().SubsetOf(Wanted(RulesetWith(cfg, want)))
    requires t.installed == Committed(s, cfg, want, a, now).installed && t.live == a.Granted()
    requires t.flags.publicPorts == want.publicPorts
    requires want.sshAllowlistOnly == (t.flags.sshAllowlistOnly || t.stuck) && (t.stuck ==> !t.flags.sshAllowlistOnly)
    requires a.Granted().gate ==> t.flags.forwardAllowlistOnly
    requires want.sshAllowlistOnly ==> !ClientPortCoversSsh(cfg, want)
    ensures KernelAgrees(cfg, t)
  {
    assert ClientPortCoversSsh(cfg, t.flags) == ClientPortCoversSsh(cfg, want);
  }

  /** After a committed rebuild for safe settings that are the store's from then on, kernel, store and
      report agree. */
  lemma CommittedKeeps(cfg: AgentConfig, s: State, want: Flags, a: Applied, now: Time, t: State)
    requires FlagsSafe(cfg, want) && FlagsSafe(cfg, t.disk.flags)
    requires a.Granted().SubsetOf(Wanted(RulesetWith(cfg, want)))
    requires t == Committed(s, cfg, want, a, now).(flags := want, disk := t.disk, running := t.running, stuck := false)
    ensures Invariant(cfg, t)
  {
    CommittedSetsAgree(cfg, s, want, a, now);
    SetsIgnoreFlags(Committed(s, cfg, want, a, now), t);
    CommittedKernelAgrees(cfg, s, want, a, now, t);
  }

  // ---- The settings handlers ----

  lemma SshToggleKeeps(cfg: AgentConfig, s: State, on: bool, now: Time, first: Outcome, second: Outcome, saved: bool)
    requires Invariant(cfg, s) && s.running
    requires Possible(Wanted(RulesetWith(cfg, s.flags.(sshAllowlistOnly := on))), first)
    requires Possible(Wanted(RulesetWith(cfg, s.flags)), second)
    ensures Invariant(cfg, SshToggle(s, cfg, on, now, first, second, saved).0)
  {
    var want := s.flags.(sshAllowlistOnly := on);
    if !SshRefused(s, cfg, on, now) && first.Ok? {
      var a := first.value;
      var c, t := Committed(s, cfg, want, a, now), SshToggle(s, cfg, on, now, first, second, saved).0;
      PossibleLabels(Wanted(RulesetWith(cfg, want)), first);
      SameClientPorts(cfg, s.flags, want);
      if !a.knock.Rejected? {
        CommittedKeeps(cfg, s, want, a, now, t);
      } else if second.Ok? {
        PossibleLabels(Wanted(RulesetWith(cfg, s.flags)), second);
        CommittedKeeps(cfg, c, s.flags, second.value, now, t);
      } else {
        CommittedSetsAgree(cfg, s, want, a, now);
        CommittedKernelAgrees(cfg, s, want, a, now, t);
      }
    }
  }

  lemma SameClientPorts(cfg: AgentConfig, f: Flags, g: Flags)
    requires f.publicPorts == g.publicPorts
    ensures ClientPortCoversSsh(cfg, f) == ClientPortCoversSsh(cfg, g)
  {
  }

  lemma ForwardToggleKeeps(cfg: AgentConfig, s: State, on: bool, now: Time, first: Outcome, saved: bool)
    requires Invariant(cfg, s) && s.running
    requires Possible(Wanted(RulesetWith(cfg, s.flags.(forwardAllowlistOnly := on))), first)
    ensures Invariant(cfg, ForwardToggle(s, cfg, on, now, first, saved).0)
  {
    var want := s.flags.(forwardAllowlistOnly := on);
    if first.Ok? {
      var a, t := first.value, ForwardToggle(s, cfg, on, now, first, saved).0;
      PossibleLabels(Wanted(RulesetWith(cfg, want)), first);
      SameClientPorts(cfg, s.flags, want);
      if a.gate.Rejected? {
        CommittedSetsAgree(cfg, s, want, a, now);
        CommittedKernelAgrees(cfg, s, want, a, now, t);
      } else {
        CommittedKeeps(cfg, s, want, a, now, t);
      }
    }
  }

  lemma AddedIsSafe(cfg: AgentConfig, flags: Flags, p: PublicPort)
    requires FlagsSafe(cfg, flags) && p.ports.IsValid() && !(flags.sshAllowlistOnly && CoversSsh(cfg, p.proto, p.ports))
    ensures FlagsSafe(cfg, flags.(publicPorts := flags.publicPorts + [p]))
  {
    var qs := flags.publicPorts + [p];
    forall j | 0 <= j < |qs| ensures qs[j].ports.IsValid() && (flags.sshAllowlistOnly ==> !CoversSsh(cfg, qs[j].proto, qs[j].ports)) {
      if j < |flags.publicPorts| { assert qs[j] == flags.publicPorts[j]; }
    }
  }

  /** Another note changes nothing but the note. */
  lemma NoteKeeps(cfg: AgentConfig, s: State, t: State, i: nat, note: string)
    requires Invariant(cfg, s) && s.running && i < |s.flags.publicPorts|
    requires t.flags == s.flags.(publicPorts := s.flags.publicPorts[i := s.flags.publicPorts[i].(note := note)])
    requires t == s.(flags := t.flags, disk := t.disk, stuck := s.stuck && !t.flags.sshAllowlistOnly)
    requires t.disk == s.disk || t.disk.flags == t.flags
    ensures Invariant(cfg, t)
  {
    var ps, qs := s.flags.publicPorts, t.flags.publicPorts;
    SameRanges(ps, qs, OnlyUdp);
    SameRanges(ps, qs, OnlyTcp);
    SetsIgnoreFlags(s, t);
    assert forall j | 0 <= j < |ps| :: qs[j].proto == ps[j].proto && qs[j].ports == ps[j].ports;
    assert ClientPortCoversSsh(cfg, t.flags) == ClientPortCoversSsh(cfg, s.flags);
  }

  lemma {:induction false} PortAddedKeeps(
    cfg: AgentConfig, s: State, proto: ForwardProto, range: PortRange, note: string, now: Time, first: Outcome, saved: bool)
    requires Invariant(cfg, s) && s.running
    requires Possible(Wanted(RulesetWith(cfg, s.flags.(publicPorts := s.flags.publicPorts + [PublicPort(proto, range, note)]))), first)
    ensures Invariant(cfg, PortAdded(s, cfg, proto, range, note, now, first, saved).0)
  {
    var ps, p := s.flags.publicPorts, PublicPort(proto, range, note);
    var t := PortAdded(s, cfg, proto, range, note, now, first, saved).0;
    if range.start != 0 && range.IsValid() {
      if IndexOf(ps, proto, range).Some? {
        NoteKeeps(cfg, s, t, IndexOf(ps, proto, range).value, note);
      } else if !(s.flags.sshAllowlistOnly && CoversSsh(cfg, proto, range)) && first.Ok? {
        var want := s.flags.(publicPorts := ps + [p]);
        PossibleLabels(Wanted(RulesetWith(cfg, want)), first);
        AddedIsSafe(cfg, s.flags, p);
        CommittedKeeps(cfg, s, want, first.value, now, t);
      }
    }
  }

  lemma {:induction false} PortRemovedKeeps(
    cfg: AgentConfig, s: State, proto: ForwardProto, range: PortRange, now: Time, first: Outcome, saved: bool)
    requires Invariant(cfg, s) && s.running
    requires Possible(Wanted(RulesetWith(cfg, s.flags.(publicPorts := Without(s.flags.publicPorts, proto, range)))), first)
    ensures Invariant(cfg, PortRemoved(s, cfg, proto, range, now, first, saved).0)
  {
    var want := s.flags.(publicPorts := Without(s.flags.publicPorts, proto, range));
    if IndexOf(s.flags.publicPorts, proto, range).Some? && first.Ok? {
      PossibleLabels(Wanted(RulesetWith(cfg, want)), first);
      WithoutSafe(cfg, s.flags, proto, range);
      CommittedKeeps(cfg, s, want, first.value, now, PortRemoved(s, cfg, proto, range, now, first, saved).0);
    }
  }

  lemma FallbackKeeps(cfg: AgentConfig, s: State, first: Outcome, now: Time)
    requires Invariant(cfg, s) && s.running && first.Ok?
    requires Possible(Wanted(RulesetWith(cfg, s.flags)), first)
    ensures Invariant(cfg, Committed(s, cfg, s.flags, first.value, now))
  {
    PossibleLabels(Wanted(RulesetWith(cfg, s.flags)), first);
    CommittedKeeps(cfg, s, s.flags, first.value, now, Committed(s, cfg, s.flags, first.value, now));
  }

  lemma {:induction false} StartKeeps(cfg: AgentConfig, s: State, now: Time, first: Outcome, saved: bool)
    requires Invariant(cfg, s) && !s.running
    requires Possible(Wanted(RulesetWith(cfg, s.disk.flags)), first)
    ensures Invariant(cfg, ServiceStarted(s, cfg, now, first, saved).0)
  {
    var t := ServiceStarted(s, cfg, now, first, saved);
    if t.1 {
      PossibleLabels(Wanted(RulesetWith(cfg, s.disk.flags)), first);
      var entries := Unexpired(s.disk.entries, now);
      var m := s.(entries := entries, flags := s.disk.flags, live := PLAIN, running := false, disk := t.0.disk);
      CommittedKeeps(cfg, m, s.disk.flags, first.value, now, t.0);
    }
  }

  lemma CliSshKeeps(cfg: AgentConfig, s: State, on: bool, now: Time, first: Outcome, second: Outcome, saved: bool)
    requires Invariant(cfg, s) && !s.running
    ensures Invariant(cfg, CliSshToggle(s, cfg, on, now, first, second, saved).0)
  {
    SameClientPorts(cfg, s.disk.flags, s.disk.flags.(sshAllowlistOnly := on));
  }

  // ---- The list, step by step ----

  /** A step on one prefix, which it leaves unsettled, says nothing about the others. */
  lemma AllowStoredKeeps(cfg: AgentConfig, s: State, e: Entry, saved: bool)
    requires Invariant(cfg, s) && s.running
    ensures Invariant(cfg, AllowStored(s, e, saved))
  {
    var t := AllowStored(s, e, saved);
    forall x | x in t.installed.value.Elements() && Mask(x.target) !in t.unsettled ensures Owned(t, x) {
      assert Owned(s, x);
      var o :| o in s.entries + s.lapsed && Mask(o.target) == Mask(x.target) && EndsWith(x, o);
      assert o in t.entries + t.lapsed;
    }
  }

  lemma RevokeStoredKeeps(cfg: AgentConfig, s: State, target: Net, saved: bool)
    requires Invariant(cfg, s) && s.running
    ensures Invariant(cfg, RevokeStored(s, target, saved))
  {
    var t := RevokeStored(s, target, saved);
    forall x | x in t.installed.value.Elements() && Mask(x.target) !in t.unsettled ensures Owned(t, x) {
      assert Owned(s, x);
      var o :| o in s.entries + s.lapsed && Mask(o.target) == Mask(x.target) && EndsWith(x, o);
      assert o in t.entries + t.lapsed;
    }
  }

  lemma PrunedKeeps(cfg: AgentConfig, s: State, now: Time, saved: bool)
    requires Invariant(cfg, s) && s.running
    ensures Invariant(cfg, Pruned(s, now, saved))
  {
    var t := Pruned(s, now, saved);
    forall x | x in t.installed.value.Elements() && Mask(x.target) !in t.unsettled ensures Owned(t, x) {
      assert Owned(s, x);
      var o :| o in s.entries + s.lapsed && Mask(o.target) == Mask(x.target) && EndsWith(x, o);
      assert o in t.entries + t.lapsed;
    }
  }

  /** Another prefix than the edited one keeps its backing. */
  lemma BackedElsewhere(i: Installed, ed: Edit, e: Entry)
    requires Backed(i, e) && Mask(ed.target) != Mask(e.target)
    ensures Backed(WithEdit(i, ed), e)
  {
    EditedElements(i, ed);
    if !e.IsExpired(i.builtAt) {
      var x :| x in i.Elements() && Mask(x.target) == Mask(e.target) && Outlasts(x, e);
      assert x in WithEdit(i, ed).Elements();
    }
  }

  lemma ElementAddedKeeps(cfg: AgentConfig, s: State, e: Entry, now: Time, put: bool)
    requires Invariant(cfg, s) && s.running
    ensures Invariant(cfg, ElementAdded(s, e, now, put))
  {
    if put {
      var t, i, ed := ElementAdded(s, e, now, put), s.installed.value, PutEdit(e, now);
      EditedElements(i, ed);
      ElementTracksEntry(e, now);
      assert ElementOf(e, now) in t.installed.value.Elements();
      forall o | o in t.entries && Mask(o.target) !in t.unsettled ensures Backed(t.installed.value, o) {
        if Mask(o.target) != Mask(e.target) { BackedElsewhere(i, ed, o); }
      }
      forall x | x in t.installed.value.Elements() && Mask(x.target) !in t.unsettled ensures Owned(t, x) {
        if Mask(x.target) == Mask(e.target) {
          assert x == ElementOf(e, now);
          assert e in t.entries + t.lapsed;
        } else {
          assert Owned(s, x);
        }
      }
    }
  }

  lemma ElementRemovedKeeps(cfg: AgentConfig, s: State, target: Net, now: Time, taken: bool)
    requires Invariant(cfg, s) && s.running
    ensures Invariant(cfg, ElementRemoved(s, target, now, taken))
  {
    if taken {
      var t, i, ed := ElementRemoved(s, target, now, taken), s.installed.value, Take(target, now);
      EditedElements(i, ed);
      forall o | o in t.entries && Mask(o.target) !in t.unsettled ensures Backed(t.installed.value, o) {
        assert Mask(o.target) != Mask(target);
        BackedElsewhere(i, ed, o);
      }
      forall x | x in t.installed.value.Elements() && Mask(x.target) !in t.unsettled ensures Owned(t, x) {
        assert Owned(s, x);
      }
    }
  }

  // ---- What an answer tells ----

  /** The forward gate: a refusal by nft keeps every setting and leaves the gate off where it was wanted;
      otherwise the setting is what was asked for, and so is the gate in the kernel. */
  lemma GateToggleTells(cfg: AgentConfig, s: State, on: bool, now: Time, first: Outcome, saved: bool)
    requires Possible(Wanted(RulesetWith(cfg, s.flags.(forwardAllowlistOnly := on))), first)
    ensures
      var (t, r) := ForwardToggle(s, cfg, on, now, first, saved);
      && (r.Ok? || r == Err(Internal) || r.error.NftFailure?)
      && (r.Err? && r.error.NftFailure? ==>
            && t.flags == s.flags && t.disk == s.disk && t.entries == s.entries
            && (t == s || (on && t.installed.Some? && !t.installed.value.cfg.forwardAllowlistOnly && !t.live.gate)))
      && (r.Ok? ==> t.disk == Saved(s.entries, s.flags.(forwardAllowlistOnly := on)))
      && (r == Err(Internal) ==> t.disk == s.disk)
      && (r.Ok? || r == Err(Internal) ==>
            && t.flags == s.flags.(forwardAllowlistOnly := on)
            && t.installed.Some? && t.installed.value.cfg.forwardAllowlistOnly == on && t.live.gate == on)
  {
    if first.Ok? { PossibleLabels(Wanted(RulesetWith(cfg, s.flags.(forwardAllowlistOnly := on))), first); }
  }

  /** A port public in the kernel for a protocol, by the config, or by a client range. */
  predicate PublicInKernel(i: Installed, tcp: bool, p: Port) {
    Covers(if tcp then i.cfg.publicTcp else i.cfg.publicUdp, p)
  }

  predicate PublicByConfig(cfg: AgentConfig, tcp: bool, p: Port) {
    Covers(if tcp then cfg.publicTcp else cfg.publicUdp, p)
  }

  predicate Opens(c: PublicPort, tcp: bool, p: Port) {
    c.proto != (if tcp then OnlyUdp else OnlyTcp) && c.ports.Contains(p)
  }

  /** Which ports a committed table leaves public. */
  lemma CommittedPublic(s: State, cfg: AgentConfig, want: Flags, a: Applied, now: Time, tcp: bool, p: Port)
    ensures PublicInKernel(Committed(s, cfg, want, a, now).installed.value, tcp, p) <==>
      PublicByConfig(cfg, tcp, p) || exists i | 0 <= i < |want.publicPorts| :: Opens(want.publicPorts[i], tcp, p)
  {
    var other := if tcp then OnlyUdp else OnlyTcp;
    CoversConcat(if tcp then cfg.publicTcp else cfg.publicUdp, RangesFor(want.publicPorts, other), p);
    RangesForCovers(want.publicPorts, other, p);
  }

  /** A range is refused exactly if it is none, or a new one that would open a restricted SSH port. */
  lemma PortRefusedIff(
    cfg: AgentConfig, s: State, proto: ForwardProto, range: PortRange, note: string, now: Time, first: Outcome, saved: bool)
    ensures PortAdded(s, cfg, proto, range, note, now, first, saved).1 == Err(BadRequest) <==>
      || range.start == 0 || range.start > range.end
      || (s.flags.sshAllowlistOnly && proto != OnlyUdp && range.start <= cfg.sshPort <= range.end
          && AllPass(s.flags.publicPorts, But(proto, range)))
  {
    NoneToRemove(s.flags.publicPorts, proto, range);
  }

  /** Adding a range: a refusal of its own or of nft changes nothing at all; otherwise the range is among
      the settings, with the note, beside all that were, and a table that was installed for it opens exactly
      its ports on top of what the settings opened. */
  lemma {:induction false} PortAddedTells(
    cfg: AgentConfig, s: State, proto: ForwardProto, range: PortRange, note: string, now: Time, first: Outcome, saved: bool)
    ensures
      var (t, r) := PortAdded(s, cfg, proto, range, note, now, first, saved);
      && (r == Err(BadRequest) || (r.Err? && r.error.NftFailure?) ==> t == s)
      && (r.Ok? ==> t.disk == Saved(s.entries, t.flags))
      && (r == Err(Internal) ==> t.disk == s.disk)
      && (r.Ok? || r == Err(Internal) ==>
            && t.entries == s.entries && PublicPort(proto, range, note) in t.flags.publicPorts
            && t.flags == s.flags.(publicPorts := t.flags.publicPorts)
            && if IndexOf(s.flags.publicPorts, proto, range).Some? then t.installed == s.installed
               else
                 && t.flags.publicPorts == s.flags.publicPorts + [PublicPort(proto, range, note)]
                 && t.installed.Some?
                 && forall tcp, p :: PublicInKernel(t.installed.value, tcp, p) <==>
                      || PublicByConfig(cfg, tcp, p) || Opens(PublicPort(proto, range, note), tcp, p)
                      || exists i | 0 <= i < |s.flags.publicPorts| :: Opens(s.flags.publicPorts[i], tcp, p))
  {
    var (t, r) := PortAdded(s, cfg, proto, range, note, now, first, saved);
    if r.Ok? || r == Err(Internal) {
      var ps := s.flags.publicPorts;
      if IndexOf(ps, proto, range).Some? {
        assert t.flags.publicPorts[IndexOf(ps, proto, range).value] == PublicPort(proto, range, note);
      } else {
        var qs := ps + [PublicPort(proto, range, note)];
        assert qs[|ps|] == PublicPort(proto, range, note);
        forall tcp, p ensures PublicInKernel(t.installed.value, tcp, p) <==>
          || PublicByConfig(cfg, tcp, p) || Opens(PublicPort(proto, range, note), tcp, p)
          || exists i | 0 <= i < |ps| :: Opens(ps[i], tcp, p)
        {
          CommittedPublic(s, cfg, s.flags.(publicPorts := qs), first.value, now, tcp, p);
          assert forall i | 0 <= i < |ps| :: qs[i] == ps[i];
        }
      }
    }
  }

  /** Removing a range: likewise, or there was none; otherwise the settings are the old ones without it,
      in their old order, and the installed table opens exactly what the config and the old ranges other
      than that one open. */
  lemma {:induction false} PortRemovedTells(cfg: AgentConfig, s: State, proto: ForwardProto, range: PortRange, now: Time, first: Outcome, saved: bool)
    ensures
      var (t, r) := PortRemoved(s, cfg, proto, range, now, first, saved);
      var ps := s.flags.publicPorts;
      && (r == Err(NotFound) <==> AllPass(ps, But(proto, range)))
      && (r == Err(NotFound) || (r.Err? && r.error.NftFailure?) ==> t == s)
      && (r.Ok? ==> t.disk == Saved(s.entries, t.flags))
      && (r == Err(Internal) ==> t.disk == s.disk)
      && (r.Ok? || r == Err(Internal) ==>
            && t.entries == s.entries && t.flags == s.flags.(publicPorts := t.flags.publicPorts)
            && Passes(t.flags.publicPorts, ps, But(proto, range))
            && t.installed.Some? && OpensExactly(t.installed.value, cfg, ps, But(proto, range)))
  {
    WithoutPasses(s.flags.publicPorts, proto, range);
    NoneToRemove(s.flags.publicPorts, proto, range);
    if IndexOf(s.flags.publicPorts, proto, range).Some? && first.Ok? { RemovedPublic(s, cfg, proto, range, first.value, now); }
  }

  lemma WithoutPasses(ps: seq<PublicPort>, proto: ForwardProto, range: PortRange)
    ensures Passes(Without(ps, proto, range), ps, But(proto, range))
  {
    FilterPasses(ps, (p: PublicPort) => !(p.proto == proto && p.ports == range), But(proto, range));
  }

  lemma NoneToRemove(ps: seq<PublicPort>, proto: ForwardProto, range: PortRange)
    ensures IndexOf(ps, proto, range).None? <==> AllPass(ps, But(proto, range))
  {
    if IndexOf(ps, proto, range).Some? { assert ps[IndexOf(ps, proto, range).value] in ps; }
  }

  predicate AllPass(ps: seq<PublicPort>, keep: PublicPort -> bool) {
    forall p | p in ps :: keep(p)
  }

  /** The table's public ports are those of the config and of the ranges that pass. */
  ghost predicate OpensExactly(i: Installed, cfg: AgentConfig, ps: seq<PublicPort>, keep: PublicPort -> bool) {
    forall tcp, p :: PublicInKernel(i, tcp, p) <==>
      PublicByConfig(cfg, tcp, p) || exists i | 0 <= i < |ps| :: keep(ps[i]) && Opens(ps[i], tcp, p)
  }

  lemma RemovedPublic(s: State, cfg: AgentConfig, proto: ForwardProto, range: PortRange, a: Applied, now: Time)
    ensures
      var want := s.flags.(publicPorts := Without(s.flags.publicPorts, proto, range));
      OpensExactly(Committed(s, cfg, want, a, now).installed.value, cfg, s.flags.publicPorts, But(proto, range))
  {
    var want := s.flags.(publicPorts := Without(s.flags.publicPorts, proto, range));
    var ps := s.flags.publicPorts;
    forall tcp, p ensures PublicInKernel(Committed(s, cfg, want, a, now).installed.value, tcp, p) <==>
      PublicByConfig(cfg, tcp, p) || exists i | 0 <= i < |ps| :: But(proto, range)(ps[i]) && Opens(ps[i], tcp, p)
    {
      CommittedPublic(s, cfg, want, a, now, tcp, p);
      OpensStill(ps, proto, range, tcp, p);
    }
  }

  /** Every range but the given one. */
  function But(proto: ForwardProto, range: PortRange): PublicPort -> bool {
    (p: PublicPort) => p.proto != proto || p.ports != range
  }

  /** Every entry that lasts beyond `now`. */
  function Lasting(now: Time): Entry -> bool {
    (e: Entry) => e.expiresAt.Some? ==> now < e.expiresAt.value
  }

  lemma OpensStill(ps: seq<PublicPort>, proto: ForwardProto, range: PortRange, tcp: bool, p: Port)
    ensures
      var qs := Without(ps, proto, range);
      (exists i | 0 <= i < |qs| :: Opens(qs[i], tcp, p)) <==>
        exists i | 0 <= i < |ps| :: But(proto, range)(ps[i]) && Opens(ps[i], tcp, p)
  {
    var qs := Without(ps, proto, range);
    if i :| 0 <= i < |qs| && Opens(qs[i], tcp, p) {
      assert qs[i] in ps;
    }
    if i :| 0 <= i < |ps| && But(proto, range)(ps[i]) && Opens(ps[i], tcp, p) {
      assert ps[i] in qs;
    }
  }

  /** The rescue command for SSH: only success writes the file, and then the kernel does what it says; its
      own refusal, and a first refusal by nft, leave the kernel alone; where the knock was refused the old
      table is put back, or the new one stays because that was refused too. */
  lemma CliSshTells(cfg: AgentConfig, s: State, on: bool, now: Time, first: Outcome, second: Outcome, saved: bool)
    requires Possible(Wanted(RulesetWith(cfg, s.disk.flags.(sshAllowlistOnly := on))), first)
    requires Possible(Wanted(RulesetWith(cfg, s.disk.flags)), second)
    ensures
      var (t, ok) := CliSshToggle(s, cfg, on, now, first, second, saved);
      && t.disk == (if ok then Saved(s.disk.entries, s.disk.flags.(sshAllowlistOnly := on)) else s.disk)
      && (ok || t.installed != s.installed ==> t.installed.Some?)
      && (ok ==> t.installed.value.cfg.sshAllowlistOnly == on && t.live.knock == (on && cfg.sshKnock.Some?) && t.flags == t.disk.flags)
      && ((on && AnyPortCoversSsh(cfg, s.disk.flags)) || first.Err? ==> !ok && t.installed == s.installed)
      && (!ok && t.installed != s.installed && !t.live.knock && on && cfg.sshKnock.Some? ==>
            t.installed.value.cfg.sshAllowlistOnly == (second.Err? || s.disk.flags.sshAllowlistOnly))
  {
    if first.Ok? { PossibleLabels(Wanted(RulesetWith(cfg, s.disk.flags.(sshAllowlistOnly := on))), first); }
    if second.Ok? { PossibleLabels(Wanted(RulesetWith(cfg, s.disk.flags)), second); }
  }

  /** And for the gate. */
  lemma CliGateTells(cfg: AgentConfig, s: State, on: bool, now: Time, first: Outcome, saved: bool)
    requires Possible(Wanted(RulesetWith(cfg, s.disk.flags.(forwardAllowlistOnly := on))), first)
    ensures
      var (t, ok) := CliForwardToggle(s, cfg, on, now, first, saved);
      && t.disk == (if ok then Saved(s.disk.entries, s.disk.flags.(forwardAllowlistOnly := on)) else s.disk)
      && (ok || t.installed != s.installed ==> t.installed.Some?)
      && (ok ==> t.installed.value.cfg.forwardAllowlistOnly == on && t.live.gate == on && t.flags == t.disk.flags)
      && (first.Err? ==> !ok && t.installed == s.installed)
      && (first.Ok? && !saved && !first.value.gate.Rejected? ==> !ok && t.installed.value.cfg.forwardAllowlistOnly == on)
      && (first.Ok? && first.value.gate.Rejected? ==> !ok && on && !t.installed.value.cfg.forwardAllowlistOnly)
  {
    if first.Ok? { PossibleLabels(Wanted(RulesetWith(cfg, s.disk.flags.(forwardAllowlistOnly := on))), first); }
  }

  /** Pruning at `now` leaves the entries without an expiry or with one after it, in their old order, and
      remembers the others; kernel and settings are not touched. */
  lemma PruneTells(s: State, now: Time, saved: bool)
    ensures
      var t := Pruned(s, now, saved);
      && Passes(t.entries, s.entries, Lasting(now))
      && t.disk == (if saved then Saved(t.entries, s.flags) else s.disk)
      && (forall e :: e in t.lapsed <==> e in s.lapsed || (e in s.entries && e.expiresAt.Some? && e.expiresAt.value <= now))
      && t == s.(entries := t.entries, disk := t.disk, lapsed := t.lapsed)
  {
    UnexpiredPasses(s.entries, now);
  }

  lemma UnexpiredPasses(entries: seq<Entry>, now: Time)
    ensures Passes(Unexpired(entries, now), entries, Lasting(now))
  {
    FilterPasses(entries, (e: Entry) => !e.IsExpired(now), Lasting(now));
  }

  /** A start at `now`: memory holds the file's settings and those of its entries that have not expired, in
      their order; it serves only if they are what the kernel was built from, at that instant, and what the
      file now holds; if it does not, the kernel is as it was. */
  lemma StartTells(cfg: AgentConfig, s: State, now: Time, first: Outcome, saved: bool)
    ensures
      var (t, ok) := ServiceStarted(s, cfg, now, first, saved);
      && Passes(t.entries, s.disk.entries, Lasting(now))
      && t.flags == s.disk.flags == t.disk.flags && t.running == ok
      && (t.disk == s.disk || t.disk.entries == t.entries)
      && (ok ==>
            && t.disk.entries == t.entries && t.unsettled == {} && t.lapsed == [] && t.installed.Some?
            && t.installed.value.entries == t.entries && t.installed.value.builtAt == now && t.installed.value.edits == [])
      && (!ok ==> t.installed == s.installed && t.unsettled == s.unsettled)
  {
    UnexpiredPasses(s.disk.entries, now);
  }

  // ---- Allowing a target again with another expiry ----

  /** What the kernel holds for the entry's prefix lasts as long as the entry, up to a second. */
  ghost predicate Honours(i: Installed, e: Entry) {
    && (exists x | x in i.Elements() :: Mask(x.target) == Mask(e.target) && Outlasts(x, e))
    && (forall x | x in i.Elements() && Mask(x.target) == Mask(e.target) :: EndsWith(x, e))
  }

  /** An `allow` takes effect exactly if the element is put and the entry has not expired; if nft accepts it
      without effect, exactly if what the kernel held before happens to last as long. The prefix counts as
      settled exactly if besides no other entry shares it. */
  lemma AllowTakesEffectIff(s: State, e: Entry, now: Time, saved: bool, put: bool)
    requires s.installed.Some?
    ensures
      var t := ElementAdded(AllowStored(s, e, saved), e, now, put);
      && t.installed.Some?
      && (Honours(t.installed.value, e) <==> if put then !e.IsExpired(now) else Honours(s.installed.value, e))
      && (Mask(e.target) !in t.unsettled <==>
            put && !e.IsExpired(now) && forall x | x in s.entries && Mask(x.target) == Mask(e.target) :: x.target == e.target)
  {
    var stored := AllowStored(s, e, saved);
    assert e in stored.entries;
    forall x | x in s.entries && x.target != e.target ensures x in stored.entries {}
    if put {
      EditedElements(s.installed.value, PutEdit(e, now));
      ElementTracksEntry(e, now);
      assert ElementOf(e, now) in WithEdit(s.installed.value, PutEdit(e, now)).Elements();
    }
  }

  /** So a target that is allowed again for longer, without effect, drops out of the kernel while its new
      entry still lives. */
  lemma LongerWithoutEffect(s: State, was: Entry, e: Entry, now: Time, saved: bool)
    requires s.installed.Some? && Honours(s.installed.value, was) && was.target == e.target && was.expiresAt.Some?
    requires !e.IsExpired(was.expiresAt.value + SECOND)
    ensures
      var t, end := ElementAdded(AllowStored(s, e, saved), e, now, false), was.expiresAt.value + SECOND;
      && e in t.entries && !e.IsExpired(end)
      && forall x | x in t.installed.value.Elements() && Mask(x.target) == Mask(e.target) :: !x.Alive(end)
  {
  }

  /** And one allowed again for a shorter time stays in the kernel after its new entry has expired. */
  lemma ShorterWithoutEffect(s: State, was: Entry, e: Entry, now: Time, saved: bool)
    requires s.installed.Some? && Honours(s.installed.value, was) && was.target == e.target && e.expiresAt.Some?
    requires !was.IsExpired(e.expiresAt.value + 2 * SECOND)
    ensures
      var t, end := ElementAdded(AllowStored(s, e, saved), e, now, false), e.expiresAt.value + SECOND;
      && (forall x | x in t.entries && x.target == e.target :: x.IsExpired(end))
      && exists x | x in t.installed.value.Elements() :: Mask(x.target) == Mask(e.target) && x.Alive(end)
  {
    var x :| x in s.installed.value.Elements() && Mask(x.target) == Mask(was.target) && Outlasts(x, was);
  }
}
