/** First-match evaluation of a rendered table over runs of packets, clock ticks and rebuilds, and
    the access policy that it implements. */
module Packets {
  import opened Wrappers
  import opened Entries
  import opened Ports
  import opened Ruleset
  import opened Elements

  datatype L4 =
    | Tcp(dport: Port)
    | Udp(dport: Port, payload: seq<Byte>)
    | Icmp(kind: nat)
    | Icmpv6(kind: nat)
    | OtherL4

  datatype Packet = Packet(
    ct: CtState,
    dnat: bool,
    onLoopback: bool,
    src: Addr,
    l4: L4,
    originalDport: Port)

  /** The table in the kernel with its clock: the elements of the two allowlist sets, and the knock
      sets, which remember when each source was last written. */
  datatype Kernel = Kernel(
    table: Table,
    builtAt: Time,
    now: Time,
    allow: seq<Timed>,
    knock4: map<Addr, Time>,
    knock6: map<Addr, Time>)

  predicate InTimedSet(m: map<Addr, Time>, now: Time, a: Addr) {
    a in m && now < m[a] + KNOCK_TTL_SECS * SECOND
  }

  // A saddr match against a set of the other family never succeeds.
  predicate AddrInSet(k: Kernel, name: SetName, a: Addr) {
    match name
    case Allow4 => a.family == Ip4 && Lists(k.allow, k.now, a)
    case Allow6 => a.family == Ip6 && Lists(k.allow, k.now, a)
    case Knock4 => a.family == Ip4 && InTimedSet(k.knock4, k.now, a)
    case Knock6 => a.family == Ip6 && InTimedSet(k.knock6, k.now, a)
    case _ => false
  }

  predicate PortInSet(k: Kernel, name: SetName, p: Port) {
    match name
    case PublicTcp => Covers(k.table.publicTcp, p)
    case PublicUdp => Covers(k.table.publicUdp, p)
    case _ => false
  }

  predicate IsProto(proto: L4Proto, l4: L4) {
    if proto == TCP then l4.Tcp? else l4.Udp?
  }

  predicate Matches(k: Kernel, m: Match, p: Packet) {
    match m
    case CtStateIn(states) => p.ct in states
    case CtStatusDnat => p.dnat
    case IifLo => p.onLoopback
    case Ip6NexthdrIcmpv6(kinds) => p.src.family == Ip6 && p.l4.Icmpv6? && p.l4.kind in kinds
    case IpProtocolIcmp(kinds) => p.src.family == Ip4 && p.l4.Icmp? && p.l4.kind in kinds
    case NfProto(f) => p.src.family == f
    case Dport(proto, port) => IsProto(proto, p.l4) && p.l4.dport == port
    case DportIn(proto, name) => IsProto(proto, p.l4) && PortInSet(k, name, p.l4.dport)
    case PayloadStarts(token) => p.l4.Udp? && token <= p.l4.payload
    case SaddrIn(name) => AddrInSet(k, name, p.src)
    case OriginalDportIn(proto, name) => IsProto(proto, p.l4) && PortInSet(k, name, p.originalDport)
  }

  predicate RuleMatches(k: Kernel, r: Rule, p: Packet) {
    forall m | m in r.when :: Matches(k, m, p)
  }

  /** The action of the first matching rule; `None` leaves the packet to the chain policy. */
  function FirstMatch(k: Kernel, rules: seq<Rule>, p: Packet): Option<Action> {
    if rules == [] then None
    else if RuleMatches(k, rules[0], p) then Some(rules[0].action)
    else FirstMatch(k, rules[1..], p)
  }

  // The input chain has policy drop.
  predicate Accepts(k: Kernel, p: Packet) {
    FirstMatch(k, k.table.input, p) == Some(Accept)
  }

  /** A packet crosses the input chain; only an update statement changes the kernel. */
  function Receive(k: Kernel, p: Packet): Kernel {
    match FirstMatch(k, k.table.input, p)
    case Some(UpdateSaddrThenDrop(Knock4)) => k.(knock4 := k.knock4[p.src := k.now])
    case Some(UpdateSaddrThenDrop(Knock6)) => k.(knock6 := k.knock6[p.src := k.now])
    case _ => k
  }

  // ---- The policy, stated without rules or sets ----

  predicate InfraIcmp(p: Packet) {
    // neighbour and router discovery, unreachable, too big, time exceeded, parameter problem
    || (p.src.family == Ip6 && p.l4.Icmpv6? && (1 <= p.l4.kind <= 4 || 133 <= p.l4.kind <= 136))
    || (p.src.family == Ip4 && p.l4.Icmp? && p.l4.kind in {3, 11, 12})
  }

  /** Accepted before any service rule is looked at. */
  predicate AlwaysAccepted(p: Packet) {
    p.ct in {Established, Related} || (p.ct != Invalid && (p.onLoopback || InfraIcmp(p)))
  }

  predicate IsKnock(cfg: RulesetConfig, p: Packet) {
    && cfg.Knock().Some?
    && p.l4.Udp?
    && p.l4.dport == cfg.Knock().value.port
    && cfg.Knock().value.token <= p.l4.payload
  }

  /** A correct-token knock that gets as far as the knock rules. */
  predicate IsReachingKnock(cfg: RulesetConfig, p: Packet) {
    !AlwaysAccepted(p) && p.ct != Invalid && IsKnock(cfg, p)
  }

  /** `listed` and `knocked` say whether the source is on the list and has recently knocked. */
  predicate Policy(cfg: RulesetConfig, listed: bool, knocked: bool, p: Packet) {
    || AlwaysAccepted(p)
    || (&& p.ct != Invalid
        && !IsKnock(cfg, p)
        && (|| listed
            || (p.l4.Tcp? && p.l4.dport == cfg.sshPort && (!cfg.sshAllowlistOnly || (cfg.sshKnock.Some? && knocked)))
            || (p.l4.Tcp? && Covers(cfg.publicTcp, p.l4.dport))
            || (p.l4.Udp? && Covers(cfg.publicUdp, p.l4.dport))))
  }

  // ---- One packet against one table ----

  lemma {:induction false} FirstMatchAppend(k: Kernel, a: seq<Rule>, b: seq<Rule>, p: Packet)
    ensures FirstMatch(k, a + b, p) == if FirstMatch(k, a, p).Some? then FirstMatch(k, a, p) else FirstMatch(k, b, p)
  {
    if a == [] {
      assert a + b == b;
    } else {
      assert (a + b)[0] == a[0] && (a + b)[1..] == a[1..] + b;
      FirstMatchAppend(k, a[1..], b, p);
    }
  }

  lemma FirstMatchCons(k: Kernel, r: Rule, rest: seq<Rule>, p: Packet)
    ensures FirstMatch(k, [r] + rest, p) == if RuleMatches(k, r, p) then Some(r.action) else FirstMatch(k, rest, p)
  {
    assert ([r] + rest)[1..] == rest;
  }

  lemma BaseVerdict(k: Kernel, p: Packet)
    ensures FirstMatch(k, BaseRules(), p) ==
      if AlwaysAccepted(p) then Some(Accept) else if p.ct == Invalid then Some(Drop) else None
  {
    var rs := BaseRules();
    assert rs == [rs[0]] + ([rs[1]] + ([rs[2]] + ([rs[3]] + ([rs[4]] + []))));
    FirstMatchCons(k, rs[4], [], p);
    FirstMatchCons(k, rs[3], [rs[4]] + [], p);
    FirstMatchCons(k, rs[2], [rs[3]] + ([rs[4]] + []), p);
    FirstMatchCons(k, rs[1], [rs[2]] + ([rs[3]] + ([rs[4]] + [])), p);
    FirstMatchCons(k, rs[0], [rs[1]] + ([rs[2]] + ([rs[3]] + ([rs[4]] + []))), p);
    SingleMatches(k, CtStateIn({Established, Related}), Accept, p);
    SingleMatches(k, CtStateIn({Invalid}), Drop, p);
    SingleMatches(k, IifLo, Accept, p);
    SingleMatches(k, Ip6NexthdrIcmpv6(ICMPV6_INFRA), Accept, p);
    SingleMatches(k, IpProtocolIcmp(ICMP_INFRA), Accept, p);
  }

  lemma SingleMatches(k: Kernel, m: Match, action: Action, p: Packet)
    ensures RuleMatches(k, Rule([m], action), p) <==> Matches(k, m, p)
  {
    assert m in [m];
  }

  lemma PairMatches(k: Kernel, m: Match, n: Match, action: Action, p: Packet)
    ensures RuleMatches(k, Rule([m, n], action), p) <==> Matches(k, m, p) && Matches(k, n, p)
  {
    assert m in [m, n] && n in [m, n];
  }

  lemma TripleMatches(k: Kernel, m: Match, n: Match, o: Match, action: Action, p: Packet)
    ensures RuleMatches(k, Rule([m, n, o], action), p) <==> Matches(k, m, p) && Matches(k, n, p) && Matches(k, o, p)
  {
    assert m in [m, n, o] && n in [m, n, o] && o in [m, n, o];
  }

  lemma KnockVerdict(k: Kernel, cfg: RulesetConfig, p: Packet)
    ensures FirstMatch(k, KnockRules(cfg.Knock()), p) ==
      if !IsKnock(cfg, p) then None
      else Some(UpdateSaddrThenDrop(if p.src.family == Ip4 then Knock4 else Knock6))
  {
    if cfg.Knock().Some? {
      var knock := cfg.Knock().value;
      var rs := KnockRules(cfg.Knock());
      assert rs == [rs[0]] + ([rs[1]] + []);
      FirstMatchCons(k, rs[1], [], p);
      FirstMatchCons(k, rs[0], [rs[1]] + [], p);
      TripleMatches(k, NfProto(Ip4), Dport(UDP, knock.port), PayloadStarts(knock.token), UpdateSaddrThenDrop(Knock4), p);
      TripleMatches(k, NfProto(Ip6), Dport(UDP, knock.port), PayloadStarts(knock.token), UpdateSaddrThenDrop(Knock6), p);
    }
  }

  lemma SshVerdict(k: Kernel, cfg: RulesetConfig, p: Packet)
    ensures FirstMatch(k, SshRules(cfg), p) ==
      if p.l4.Tcp? && p.l4.dport == cfg.sshPort
        && (!cfg.sshAllowlistOnly || (cfg.sshKnock.Some? && (AddrInSet(k, Knock4, p.src) || AddrInSet(k, Knock6, p.src))))
      then Some(Accept) else None
  {
    var rs := SshRules(cfg);
    if !cfg.sshAllowlistOnly {
      assert rs == [rs[0]] + [];
      FirstMatchCons(k, rs[0], [], p);
      SingleMatches(k, Dport(TCP, cfg.sshPort), Accept, p);
    } else if cfg.sshKnock.Some? {
      assert rs == [rs[0]] + ([rs[1]] + []);
      FirstMatchCons(k, rs[1], [], p);
      FirstMatchCons(k, rs[0], [rs[1]] + [], p);
      PairMatches(k, Dport(TCP, cfg.sshPort), SaddrIn(Knock4), Accept, p);
      PairMatches(k, Dport(TCP, cfg.sshPort), SaddrIn(Knock6), Accept, p);
    }
  }

  lemma TailVerdict(k: Kernel, p: Packet)
    ensures FirstMatch(k, TailRules(), p) ==
      if || (p.l4.Tcp? && Covers(k.table.publicTcp, p.l4.dport))
         || (p.l4.Udp? && Covers(k.table.publicUdp, p.l4.dport))
         || AddrInSet(k, Allow4, p.src)
         || AddrInSet(k, Allow6, p.src)
      then Some(Accept) else None
  {
    var rs := TailRules();
    assert rs == [rs[0]] + ([rs[1]] + ([rs[2]] + ([rs[3]] + [])));
    FirstMatchCons(k, rs[3], [], p);
    FirstMatchCons(k, rs[2], [rs[3]] + [], p);
    FirstMatchCons(k, rs[1], [rs[2]] + ([rs[3]] + []), p);
    FirstMatchCons(k, rs[0], [rs[1]] + ([rs[2]] + ([rs[3]] + [])), p);
    SingleMatches(k, DportIn(TCP, PublicTcp), Accept, p);
    SingleMatches(k, DportIn(UDP, PublicUdp), Accept, p);
    SingleMatches(k, SaddrIn(Allow4), Accept, p);
    SingleMatches(k, SaddrIn(Allow6), Accept, p);
  }

  /** Evaluation of the rendered chain decides exactly as the policy does, and writes a knock set
      exactly for a knock that reaches it. */
  lemma ChainImplementsPolicy(k: Kernel, cfg: RulesetConfig, entries: seq<Entry>, p: Packet)
    requires Rendered(cfg, entries, k.builtAt, k.table)
    ensures Accepts(k, p) <==>
      Policy(cfg, Lists(k.allow, k.now, p.src), AddrInSet(k, Knock4, p.src) || AddrInSet(k, Knock6, p.src), p)
    ensures Receive(k, p) ==
      if !IsReachingKnock(cfg, p) then k
      else if p.src.family == Ip4 then k.(knock4 := k.knock4[p.src := k.now])
      else k.(knock6 := k.knock6[p.src := k.now])
  {
    var c2 := SshRules(cfg) + TailRules();
    var c1 := KnockRules(cfg.Knock()) + c2;
    FirstMatchAppend(k, BaseRules(), c1, p);
    FirstMatchAppend(k, KnockRules(cfg.Knock()), c2, p);
    FirstMatchAppend(k, SshRules(cfg), TailRules(), p);
    BaseVerdict(k, p);
    KnockVerdict(k, cfg, p);
    SshVerdict(k, cfg, p);
    TailVerdict(k, p);
  }

  // ---- Runs ----

  datatype Event =
    | Rebuild(cfg: RulesetConfig, entries: seq<Entry>, table: Table)
    | Arrive(packet: Packet)
    | Tick(span: nat)
    // single-element edits; `ok` says that nft carried it out, and not that it kept an older element
    | AddElement(target: Net, timeoutSecs: Option<nat>, ok: bool)
    | RemoveElement(target: Net, ok: bool)

  function Clock(run: seq<Event>): (t: nat) {
    if run == [] then 0
    else Clock(run[..|run| - 1]) + if run[|run| - 1].Tick? then run[|run| - 1].span else 0
  }

  /** A run starts by building a table, and every table is a rendering made at its instant. */
  ghost predicate WellFormed(run: seq<Event>) {
    && run != [] && run[0].Rebuild?
    && forall i | 0 <= i < |run| && run[i].Rebuild? :: Rendered(run[i].cfg, run[i].entries, Clock(run[..i]), run[i].table)
  }

  function Build(table: Table, now: Time): Kernel {
    Kernel(table, now, now, StartedAll(table.allow4 + table.allow6, now), map[], map[])
  }

  /** A rebuild starts the allowlist sets afresh and empties the knock sets. */
  function StepKernel(k: Kernel, ev: Event): Kernel {
    match ev
    case Rebuild(_, _, table) => Build(table, k.now)
    case Arrive(p) => Receive(k, p)
    case Tick(span) => k.(now := k.now + span)
    case AddElement(t, secs, ok) => if ok then k.(allow := Edited(k.allow, Put(t, secs, k.now))) else k
    case RemoveElement(t, ok) => if ok then k.(allow := Edited(k.allow, Take(t, k.now))) else k
  }

  /** The kernel after a run. */
  function Exec(run: seq<Event>): Kernel
    requires run != [] && run[0].Rebuild?
  {
    if |run| == 1 then Build(run[0].table, 0) else StepKernel(Exec(run[..|run| - 1]), run[|run| - 1])
  }

  function LastRebuild(run: seq<Event>): (i: nat)
    requires run != [] && run[0].Rebuild?
    ensures i < |run| && run[i].Rebuild?
    ensures forall j | i < j < |run| :: !run[j].Rebuild?
  {
    if run[|run| - 1].Rebuild? then |run| - 1 else LastRebuild(run[..|run| - 1])
  }

  /** Since the last rebuild and within the last 60 seconds, `a` sent a correct-token knock that
      reached the knock rules. */
  ghost predicate Knocked(run: seq<Event>, a: Addr)
    requires run != [] && run[0].Rebuild?
  {
    exists i | LastRebuild(run) < i < |run| ::
      KnockAt(run, i, a) && Clock(run) < Clock(run[..i]) + 60 * SECOND
  }

  predicate KnockAt(run: seq<Event>, i: nat, a: Addr)
    requires i < |run| && run[0].Rebuild?
  {
    run[i].Arrive? && run[i].packet.src == a && IsReachingKnock(run[LastRebuild(run)].cfg, run[i].packet)
  }

  /** Event `i` put `x` into the allowlist sets: a rebuild from a live entry, or a single edit. */
  ghost predicate PlacedBy(run: seq<Event>, i: nat, x: Timed)
    requires i < |run|
  {
    match run[i]
    case Rebuild(_, entries, _) => exists e :: e in entries && !e.IsExpired(Clock(run[..i])) && x == ElementOf(e, Clock(run[..i]))
    case AddElement(t, secs, ok) => ok && x == Started(Element(t, secs), Clock(run[..i]))
    case _ => false
  }

  /** An edit that takes the place, or away the element, of the masked prefix `m`. */
  predicate Displaces(ev: Event, m: Net) {
    (ev.AddElement? || ev.RemoveElement?) && ev.ok && Mask(ev.target) == m
  }

  ghost predicate Untouched(run: seq<Event>, i: nat, m: Net) {
    forall j | i < j < |run| :: !Displaces(run[j], m)
  }

  /** `x` was put in since the last rebuild, and no later edit concerned its prefix. */
  ghost predicate Standing(run: seq<Event>, x: Timed)
    requires run != [] && run[0].Rebuild?
  {
    exists i | LastRebuild(run) <= i < |run| :: PlacedBy(run, i, x) && Untouched(run, i, Mask(x.target))
  }

  /** `a` is on the list: a standing element that is not over contains it. */
  ghost predicate Listed(run: seq<Event>, a: Addr)
    requires run != [] && run[0].Rebuild?
  {
    exists x :: Standing(run, x) && x.target.Contains(a) && x.Alive(Clock(run))
  }

  function KnockSet(k: Kernel, family: Family): map<Addr, Time> {
    if family == Ip4 then k.knock4 else k.knock6
  }

  lemma PrefixOfPrefix(run: seq<Event>, i: nat)
    requires i < |run|
    ensures run[..|run| - 1][..i] == run[..i]
  {
  }

  lemma {:induction false} ClockMonotone(run: seq<Event>, i: nat)
    requires i <= |run|
    ensures Clock(run[..i]) <= Clock(run)
  {
    if i < |run| {
      PrefixOfPrefix(run, i);
      ClockMonotone(run[..|run| - 1], i);
    } else {
      assert run[..i] == run;
    }
  }

  lemma PrefixWellFormed(run: seq<Event>)
    requires WellFormed(run) && |run| > 1
    ensures WellFormed(run[..|run| - 1])
  {
    forall i | 0 <= i < |run| - 1 && run[i].Rebuild?
      ensures Rendered(run[i].cfg, run[i].entries, Clock(run[..|run| - 1][..i]), run[i].table)
    {
      PrefixOfPrefix(run, i);
    }
  }

  /** The kernel's table, build time and clock are those the run prescribes. */
  lemma {:induction false} ExecTracksRun(run: seq<Event>)
    requires WellFormed(run)
    ensures Exec(run).table == run[LastRebuild(run)].table
    ensures Exec(run).builtAt == Clock(run[..LastRebuild(run)])
    ensures Exec(run).now == Clock(run)
  {
    if |run| == 1 {
      assert run[..0] == [];
    } else {
      PrefixWellFormed(run);
      ExecTracksRun(run[..|run| - 1]);
      PrefixOfPrefix(run, LastRebuild(run[..|run| - 1]));
    }
  }

  /** What the knock sets store: the instant of the latest reaching knock of each source. */
  ghost predicate Remembers(run: seq<Event>, m: map<Addr, Time>, family: Family)
    requires run != [] && run[0].Rebuild?
  {
    && (forall a | a in m :: exists i | LastRebuild(run) < i < |run| :: KnockAt(run, i, a) && m[a] == Clock(run[..i]))
    && (forall i | LastRebuild(run) < i < |run| && run[i].Arrive? && run[i].packet.src.family == family
                   && IsReachingKnock(run[LastRebuild(run)].cfg, run[i].packet) ::
          run[i].packet.src in m && Clock(run[..i]) <= m[run[i].packet.src])
  }

  /** What one more event other than a rebuild does to a knock set. */
  ghost predicate KnockStep(run: seq<Event>, m: map<Addr, Time>, m': map<Addr, Time>, family: Family)
    requires |run| > 1 && run[0].Rebuild?
  {
    var last := run[|run| - 1];
    if last.Arrive? && last.packet.src.family == family && IsReachingKnock(run[LastRebuild(run)].cfg, last.packet)
    then m' == m[last.packet.src := Clock(run[..|run| - 1])]
    else m' == m
  }

  lemma {:induction false} OldKnockStays(run: seq<Event>, i: nat, a: Addr)
    requires |run| > 1 && run[0].Rebuild? && !run[|run| - 1].Rebuild? && i < |run| - 1
    ensures LastRebuild(run) == LastRebuild(run[..|run| - 1])
    ensures KnockAt(run, i, a) <==> KnockAt(run[..|run| - 1], i, a)
    ensures Clock(run[..|run| - 1][..i]) == Clock(run[..i]) <= Clock(run[..|run| - 1])
  {
    var pre := run[..|run| - 1];
    PrefixOfPrefix(run, i);
    assert pre[i] == run[i] && pre[LastRebuild(pre)] == run[LastRebuild(pre)];
    ClockMonotone(pre, i);
  }

  lemma {:induction false} RemembersOnlyKnocks(run: seq<Event>, m: map<Addr, Time>, m': map<Addr, Time>, family: Family)
    requires |run| > 1 && run[0].Rebuild? && !run[|run| - 1].Rebuild?
    requires Remembers(run[..|run| - 1], m, family) && KnockStep(run, m, m', family)
    ensures forall a | a in m' ::
      exists i | LastRebuild(run) < i < |run| :: KnockAt(run, i, a) && m'[a] == Clock(run[..i])
  {
    var pre, n := run[..|run| - 1], |run| - 1;
    forall a | a in m'
      ensures exists i | LastRebuild(run) < i < |run| :: KnockAt(run, i, a) && m'[a] == Clock(run[..i])
    {
      if a in m && m'[a] == m[a] {
        var i :| LastRebuild(pre) < i < |pre| && KnockAt(pre, i, a) && m[a] == Clock(pre[..i]);
        OldKnockStays(run, i, a);
        assert KnockAt(run, i, a);
      } else {
        assert KnockAt(run, n, a);
      }
    }
  }

  lemma {:induction false} RemembersStep(run: seq<Event>, m: map<Addr, Time>, m': map<Addr, Time>, family: Family)
    requires |run| > 1 && run[0].Rebuild? && !run[|run| - 1].Rebuild?
    requires Remembers(run[..|run| - 1], m, family) && KnockStep(run, m, m', family)
    ensures Remembers(run, m', family)
  {
    var pre, n := run[..|run| - 1], |run| - 1;
    RemembersOnlyKnocks(run, m, m', family);
    forall i | LastRebuild(run) < i < |run| && run[i].Arrive? && run[i].packet.src.family == family
               && IsReachingKnock(run[LastRebuild(run)].cfg, run[i].packet)
      ensures run[i].packet.src in m' && Clock(run[..i]) <= m'[run[i].packet.src]
    {
      if i < n {
        OldKnockStays(run, i, run[i].packet.src);
        assert pre[i] == run[i];
      }
    }
  }

  lemma StepWritesKnock(k: Kernel, cfg: RulesetConfig, entries: seq<Entry>, ev: Event)
    requires Rendered(cfg, entries, k.builtAt, k.table) && !ev.Rebuild?
    ensures
      var knocks := ev.Arrive? && IsReachingKnock(cfg, ev.packet);
      && StepKernel(k, ev).knock4 ==
           (if knocks && ev.packet.src.family == Ip4 then k.knock4[ev.packet.src := k.now] else k.knock4)
      && StepKernel(k, ev).knock6 ==
           (if knocks && ev.packet.src.family == Ip6 then k.knock6[ev.packet.src := k.now] else k.knock6)
  {
    if ev.Arrive? {
      ChainImplementsPolicy(k, cfg, entries, ev.packet);
    }
  }

  lemma {:induction false} ExecDoesKnockStep(run: seq<Event>)
    requires WellFormed(run) && |run| > 1 && !run[|run| - 1].Rebuild?
    ensures KnockStep(run, Exec(run[..|run| - 1]).knock4, Exec(run).knock4, Ip4)
    ensures KnockStep(run, Exec(run[..|run| - 1]).knock6, Exec(run).knock6, Ip6)
  {
    var b := LastRebuild(run);
    PrefixWellFormed(run);
    ExecTracksRun(run[..|run| - 1]);
    PrefixOfPrefix(run, b);
    StepWritesKnock(Exec(run[..|run| - 1]), run[b].cfg, run[b].entries, run[|run| - 1]);
  }

  lemma {:induction false} KnockSetsRemember(run: seq<Event>)
    requires WellFormed(run)
    ensures Remembers(run, Exec(run).knock4, Ip4)
    ensures Remembers(run, Exec(run).knock6, Ip6)
  {
    if |run| > 1 && !run[|run| - 1].Rebuild? {
      var k := Exec(run[..|run| - 1]);
      PrefixWellFormed(run);
      KnockSetsRemember(run[..|run| - 1]);
      ExecDoesKnockStep(run);
      RemembersStep(run, k.knock4, Exec(run).knock4, Ip4);
      RemembersStep(run, k.knock6, Exec(run).knock6, Ip6);
    }
  }

  /** In every run, a source is in its knock set iff it sent a reaching correct-token knock within
      the last 60 seconds and since the last rebuild. */
  lemma KnockSetsExact(run: seq<Event>, a: Addr)
    requires WellFormed(run)
    ensures InTimedSet(KnockSet(Exec(run), a.family), Exec(run).now, a) <==> Knocked(run, a)
  {
    KnockSetsRemember(run);
    ExecTracksRun(run);
    var m := KnockSet(Exec(run), a.family);
    if a in m {
      var i :| LastRebuild(run) < i < |run| && KnockAt(run, i, a) && m[a] == Clock(run[..i]);
    }
    if Knocked(run, a) {
      var i :| LastRebuild(run) < i < |run| && KnockAt(run, i, a) && Clock(run) < Clock(run[..i]) + KNOCK_TTL_SECS * SECOND;
      assert run[i].Arrive?;
    }
  }

  // ---- The allowlist over runs ----

  lemma PlacedInPrefix(run: seq<Event>, i: nat, x: Timed)
    requires i + 1 < |run|
    ensures PlacedBy(run[..|run| - 1], i, x) <==> PlacedBy(run, i, x)
  {
    PrefixOfPrefix(run, i);
  }

  /** One more event other than a rebuild: what was standing stays unless displaced, and what it puts
      in stands. */
  lemma StandingStep(run: seq<Event>, x: Timed)
    requires |run| > 1 && run[0].Rebuild? && !run[|run| - 1].Rebuild?
    ensures
      var pre, last := run[..|run| - 1], run[|run| - 1];
      Standing(run, x) <==> (Standing(pre, x) && !Displaces(last, Mask(x.target))) || PlacedBy(run, |run| - 1, x)
  {
    var pre, n := run[..|run| - 1], |run| - 1;
    if Standing(run, x) {
      var i :| LastRebuild(run) <= i < |run| && PlacedBy(run, i, x) && Untouched(run, i, Mask(x.target));
      if i < n {
        PlacedInPrefix(run, i, x);
        assert Untouched(pre, i, Mask(x.target));
      }
    }
    if Standing(pre, x) && !Displaces(run[n], Mask(x.target)) {
      var i :| LastRebuild(pre) <= i < |pre| && PlacedBy(pre, i, x) && Untouched(pre, i, Mask(x.target));
      PlacedInPrefix(run, i, x);
      assert forall j | i < j < n :: pre[j] == run[j];
      assert Untouched(run, i, Mask(x.target));
    }
    if PlacedBy(run, n, x) {
      assert Untouched(run, n, Mask(x.target));
    }
  }

  lemma StandingAtRebuild(run: seq<Event>, x: Timed)
    requires run != [] && run[0].Rebuild? && run[|run| - 1].Rebuild?
    ensures Standing(run, x) <==> PlacedBy(run, |run| - 1, x)
  {
    if PlacedBy(run, |run| - 1, x) {
      assert Untouched(run, |run| - 1, Mask(x.target));
    }
  }

  lemma {:induction false} BuiltMembers(run: seq<Event>, x: Timed)
    requires WellFormed(run) && run[|run| - 1].Rebuild?
    ensures x in Exec(run).allow <==> PlacedBy(run, |run| - 1, x)
  {
    BuiltElements(run);
    InitialMembers(run[|run| - 1].entries, Clock(run[..|run| - 1]));
  }

  /** In every run, the sets hold exactly the standing elements. */
  lemma {:induction false} ElementsExact(run: seq<Event>, x: Timed)
    requires WellFormed(run)
    ensures x in Exec(run).allow <==> Standing(run, x)
  {
    if run[|run| - 1].Rebuild? {
      BuiltMembers(run, x);
      StandingAtRebuild(run, x);
    } else {
      PrefixWellFormed(run);
      ExecTracksRun(run[..|run| - 1]);
      ElementsExact(run[..|run| - 1], x);
      StandingStep(run, x);
      StepMembers(Exec(run[..|run| - 1]), run, x);
    }
  }

  /** What the last event of the run does to one element. */
  lemma StepMembers(k: Kernel, run: seq<Event>, x: Timed)
    requires run != [] && !run[|run| - 1].Rebuild? && k.now == Clock(run[..|run| - 1])
    ensures x in StepKernel(k, run[|run| - 1]).allow <==>
      (x in k.allow && !Displaces(run[|run| - 1], Mask(x.target))) || PlacedBy(run, |run| - 1, x)
  {
  }

  /** In every run, a source is in its allowlist set iff it is listed. */
  lemma ListExact(run: seq<Event>, a: Addr)
    requires WellFormed(run)
    ensures Lists(Exec(run).allow, Exec(run).now, a) <==> Listed(run, a)
  {
    ExecTracksRun(run);
    forall x ensures x in Exec(run).allow <==> Standing(run, x) {
      ElementsExact(run, x);
    }
  }

  /** The edits carried out since the last rebuild, with their instants. */
  function EditsOf(run: seq<Event>): seq<Edit> {
    if run == [] || run[|run| - 1].Rebuild? then []
    else
      var pre := run[..|run| - 1];
      EditsOf(pre) + EditOf(run[|run| - 1], Clock(pre))
  }

  lemma OneMoreEdit(els: seq<Timed>, edits: seq<Edit>, ed: Edit)
    ensures AllEdited(els, edits + [ed]) == Edited(AllEdited(els, edits), ed)
  {
    assert (edits + [ed])[..|edits|] == edits;
  }

  function EditOf(ev: Event, at: Time): seq<Edit> {
    match ev
    case AddElement(t, secs, ok) => if ok then [Put(t, secs, at)] else []
    case RemoveElement(t, ok) => if ok then [Take(t, at)] else []
    case _ => []
  }

  lemma StepEdits(k: Kernel, ev: Event, els: seq<Timed>, edits: seq<Edit>)
    requires !ev.Rebuild? && k.allow == AllEdited(els, edits)
    ensures StepKernel(k, ev).allow == AllEdited(els, edits + EditOf(ev, k.now))
  {
    var ed := EditOf(ev, k.now);
    if ed == [] {
      assert edits + ed == edits;
    } else {
      OneMoreEdit(els, edits, ed[0]);
      assert ed == [ed[0]];
    }
  }

  lemma {:induction false} BuiltElements(run: seq<Event>)
    requires WellFormed(run) && run[|run| - 1].Rebuild?
    ensures Exec(run).allow == Initial(run[|run| - 1].entries, Clock(run[..|run| - 1]))
  {
    if |run| > 1 {
      PrefixWellFormed(run);
      ExecTracksRun(run[..|run| - 1]);
    } else {
      assert run[..0] == [];
    }
  }

  /** The same sets, computed from the last rebuild and the edits since. */
  lemma {:induction false} ElementsFromEdits(run: seq<Event>)
    requires WellFormed(run)
    ensures
      var b := LastRebuild(run);
      Exec(run).allow == AllEdited(Initial(run[b].entries, Clock(run[..b])), EditsOf(run))
  {
    if run[|run| - 1].Rebuild? {
      BuiltElements(run);
    } else {
      PrefixWellFormed(run);
      ElementsFromEdits(run[..|run| - 1]);
      ExecTracksRun(run[..|run| - 1]);
      var b := LastRebuild(run);
      PrefixOfPrefix(run, b);
      var els := Initial(run[b].entries, Clock(run[..b]));
      StepEdits(Exec(run[..|run| - 1]), run[|run| - 1], els, EditsOf(run[..|run| - 1]));
    }
  }

  // ---- Verdicts over runs ----

  /** In every run, the verdict on the next packet is the policy over the configuration of the last
      rebuild, the list and the knocks since then. */
  lemma VerdictsExact(run: seq<Event>, p: Packet)
    requires WellFormed(run)
    ensures Accepts(Exec(run), p) <==> Policy(run[LastRebuild(run)].cfg, Listed(run, p.src), Knocked(run, p.src), p)
  {
    var b := LastRebuild(run);
    ExecTracksRun(run);
    KnockSetsExact(run, p.src);
    ListExact(run, p.src);
    ChainImplementsPolicy(Exec(run), run[b].cfg, run[b].entries, p);
  }

  /** So a ping from outside is answered only where the source is on the list. */
  lemma PingNeedsListing(run: seq<Event>, p: Packet)
    requires WellFormed(run) && p.ct == New && !p.onLoopback
    requires (p.src.family == Ip4 && p.l4 == Icmp(8)) || (p.src.family == Ip6 && p.l4 == Icmpv6(128))
    ensures Accepts(Exec(run), p) <==> Listed(run, p.src)
  {
    VerdictsExact(run, p);
  }

  /** An entry that a rebuild placed, as seen later. */
  predicate IsListed(entries: seq<Entry>, builtAt: Time, now: Time, a: Addr) {
    exists e | e in entries :: !e.IsExpired(builtAt) && e.target.Contains(a) && ElementOf(e, builtAt).Alive(now)
  }

  /** Right after a rebuild an address is in its set iff a live entry contains it. */
  lemma ElementsAreLiveEntries(entries: seq<Entry>, builtAt: Time, now: Time, a: Addr)
    ensures Lists(Initial(entries, builtAt), now, a) <==> IsListed(entries, builtAt, now, a)
  {
    InitialMembers(entries, builtAt);
    forall e | e in entries && !e.IsExpired(builtAt) ensures ElementOf(e, builtAt) in Initial(entries, builtAt) {}
  }

  /** A kernel element never misses its entry's expiry by a whole second in either direction. */
  lemma ListedTracksExpiry(entries: seq<Entry>, builtAt: Time, now: Time, a: Addr)
    requires builtAt <= now
    ensures IsListed(entries, builtAt, now, a) ==>
      exists e | e in entries :: e.target.Contains(a) && !e.IsExpired(now - SECOND)
    ensures (exists e | e in entries :: e.target.Contains(a) && !e.IsExpired(now + SECOND)) ==>
      IsListed(entries, builtAt, now, a)
  {
    if IsListed(entries, builtAt, now, a) {
      var e :| e in entries && !e.IsExpired(builtAt) && e.target.Contains(a) && ElementOf(e, builtAt).Alive(now);
      ElementTracksEntry(e, builtAt);
      assert !e.IsExpired(now - SECOND);
    }
    if e :| e in entries && e.target.Contains(a) && !e.IsExpired(now + SECOND) {
      ElementTracksEntry(e, builtAt);
      assert !e.IsExpired(builtAt);
    }
  }
}
