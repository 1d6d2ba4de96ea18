/** `nft/ruleset.rs`: the compiler from settings and allowlist entries to one nft table, at the
    level of a rule syntax tree. */
module Ruleset {
  import opened Wrappers
  import opened Entries
  import opened Ports

  const KNOCK_TTL_SECS: int := 60

  datatype SshKnock = SshKnock(port: Port, token: seq<Byte>)

  datatype RulesetConfig = RulesetConfig(
    sshPort: Port,
    sshAllowlistOnly: bool,
    sshKnock: Option<SshKnock>,
    forwardAllowlistOnly: bool,
    publicTcp: seq<PortRange>,
    publicUdp: seq<PortRange>)
  {
    /** The knock rules are rendered only in allowlist-only mode. */
    function Knock(): Option<SshKnock> {
      if sshAllowlistOnly then sshKnock else None
    }

    ghost predicate Valid() {
      AllValid(publicTcp) && AllValid(publicUdp)
    }
  }

  datatype SetName = Allow4 | Allow6 | PublicTcp | PublicUdp | Knock4 | Knock6

  datatype CtState = New | Established | Related | Invalid | Untracked

  /** One statement of a rule; a rule matches when all of its statements do. */
  datatype Match =
    | CtStateIn(states: set<CtState>)
    | CtStatusDnat
    | IifLo
    | Ip6NexthdrIcmpv6(kinds: set<nat>)
    | IpProtocolIcmp(kinds: set<nat>)
    | NfProto(family: Family)
    | Dport(proto: L4Proto, port: Port)
    | DportIn(proto: L4Proto, name: SetName)
    | PayloadStarts(token: seq<Byte>)
    | SaddrIn(name: SetName)
    | OriginalDportIn(proto: L4Proto, name: SetName)

  datatype Action = Accept | Drop | UpdateSaddrThenDrop(name: SetName)

  datatype Rule = Rule(when: seq<Match>, action: Action)

  datatype Element = Element(target: Net, timeoutSecs: Option<nat>)

  datatype Table = Table(
    allow4: seq<Element>,
    allow6: seq<Element>,
    publicTcp: seq<PortRange>,
    publicUdp: seq<PortRange>,
    knockSets: bool,
    input: seq<Rule>,
    forwardGate: Option<seq<Rule>>)

  // Neighbour discovery, router messages and errors; echo (8, 128) is deliberately absent.
  const ICMPV6_INFRA: set<nat> := {135, 136, 133, 134, 1, 2, 3, 4}
  const ICMP_INFRA: set<nat> := {3, 11, 12}

  /** Seconds an element is given: the remaining whole seconds, but never fewer than one. */
  function TimeoutSecs(expiresAt: Time, now: Time): (s: nat)
    ensures s >= 1
    ensures now + s * SECOND <= expiresAt || s == 1
    ensures expiresAt - SECOND < now + s * SECOND
  {
    var whole := if now < expiresAt then (expiresAt - now) / SECOND else 0;
    if whole < 1 then 1 else whole
  }

  /** `element_token`. An entry that has expired already is given one second. */
  function ElementToken(e: Entry, now: Time): Element {
    Element(e.target, if e.expiresAt.Some? then Some(TimeoutSecs(e.expiresAt.value, now)) else None)
  }

  /** The elements of one family in entry order, expired entries skipped. */
  function LiveElements(entries: seq<Entry>, family: Family, now: Time): seq<Element> {
    if entries == [] then []
    else
      var e := entries[|entries| - 1];
      var rest := LiveElements(entries[..|entries| - 1], family, now);
      if e.IsExpired(now) || e.target.addr.family != family then rest else rest + [ElementToken(e, now)]
  }

  function BaseRules(): seq<Rule> {
    [ Rule([CtStateIn({Established, Related})], Accept),
      Rule([CtStateIn({Invalid})], Drop),
      Rule([IifLo], Accept),
      Rule([Ip6NexthdrIcmpv6(ICMPV6_INFRA)], Accept),
      Rule([IpProtocolIcmp(ICMP_INFRA)], Accept) ]
  }

  function KnockRules(k: Option<SshKnock>): seq<Rule> {
    match k
    case None => []
    case Some(knock) =>
      [ Rule([NfProto(Ip4), Dport(UDP, knock.port), PayloadStarts(knock.token)], UpdateSaddrThenDrop(Knock4)),
        Rule([NfProto(Ip6), Dport(UDP, knock.port), PayloadStarts(knock.token)], UpdateSaddrThenDrop(Knock6)) ]
  }

  function SshRules(cfg: RulesetConfig): seq<Rule> {
    if !cfg.sshAllowlistOnly then
      [ Rule([Dport(TCP, cfg.sshPort)], Accept) ]
    else if cfg.sshKnock.Some? then
      [ Rule([Dport(TCP, cfg.sshPort), SaddrIn(Knock4)], Accept),
        Rule([Dport(TCP, cfg.sshPort), SaddrIn(Knock6)], Accept) ]
    else
      []
  }

  function TailRules(): seq<Rule> {
    [ Rule([DportIn(TCP, PublicTcp)], Accept),
      Rule([DportIn(UDP, PublicUdp)], Accept),
      Rule([SaddrIn(Allow4)], Accept),
      Rule([SaddrIn(Allow6)], Accept) ]
  }

  /** The input chain in the order the source pushes it. */
  function InputChain(cfg: RulesetConfig): seq<Rule> {
    BaseRules() + (KnockRules(cfg.Knock()) + (SshRules(cfg) + TailRules()))
  }

  /** `render_forward_gate`: a constant chain, priority -10, policy accept. */
  function ForwardGate(): seq<Rule> {
    [ Rule([CtStateIn({Established, Related})], Accept),
      Rule([CtStateIn({New}), CtStatusDnat, SaddrIn(Allow4)], Accept),
      Rule([CtStateIn({New}), CtStatusDnat, SaddrIn(Allow6)], Accept),
      Rule([CtStateIn({New}), CtStatusDnat, OriginalDportIn(TCP, PublicTcp)], Accept),
      Rule([CtStateIn({New}), CtStatusDnat, OriginalDportIn(UDP, PublicUdp)], Accept),
      Rule([CtStateIn({New}), CtStatusDnat], Drop) ]
  }

  /** `t` is what the compiler writes for `cfg` and `entries` at `now`. */
  ghost predicate Rendered(cfg: RulesetConfig, entries: seq<Entry>, now: Time, t: Table) {
    && t.allow4 == LiveElements(entries, Ip4, now)
    && t.allow6 == LiveElements(entries, Ip6, now)
    && Canonical(t.publicTcp) && SameCover(t.publicTcp, cfg.publicTcp)
    && Canonical(t.publicUdp) && SameCover(t.publicUdp, cfg.publicUdp)
    && t.knockSets == cfg.Knock().Some?
    && t.input == InputChain(cfg)
    && t.forwardGate == if cfg.forwardAllowlistOnly then Some(ForwardGate()) else None
  }

  /** `render_apply`. */
  method RenderApply(cfg: RulesetConfig, entries: seq<Entry>, now: Time) returns (t: Table)
    requires cfg.Valid()
    ensures Rendered(cfg, entries, now, t)
  {
    var v4, v6 := [], [];
    for i := 0 to |entries|
      invariant v4 == LiveElements(entries[..i], Ip4, now)
      invariant v6 == LiveElements(entries[..i], Ip6, now)
    {
      var e := entries[i];
      assert entries[..i + 1][..i] == entries[..i];
      if !e.IsExpired(now) {
        if e.target.addr.family == Ip4 {
          v4 := v4 + [ElementToken(e, now)];
        } else {
          v6 := v6 + [ElementToken(e, now)];
        }
      }
    }
    assert entries[..|entries|] == entries;
    var tcp := MergePorts(cfg.publicTcp);
    var udp := MergePorts(cfg.publicUdp);

    var rules: seq<Rule> := [];
    rules := rules + [Rule([CtStateIn({Established, Related})], Accept)];
    rules := rules + [Rule([CtStateIn({Invalid})], Drop)];
    rules := rules + [Rule([IifLo], Accept)];
    rules := rules + [Rule([Ip6NexthdrIcmpv6(ICMPV6_INFRA)], Accept)];
    rules := rules + [Rule([IpProtocolIcmp(ICMP_INFRA)], Accept)];
    assert rules == BaseRules();
    var knock := cfg.Knock();
    if knock.Some? {
      var k := knock.value;
      rules := rules + [Rule([NfProto(Ip4), Dport(UDP, k.port), PayloadStarts(k.token)], UpdateSaddrThenDrop(Knock4))];
      rules := rules + [Rule([NfProto(Ip6), Dport(UDP, k.port), PayloadStarts(k.token)], UpdateSaddrThenDrop(Knock6))];
    }
    assert rules == BaseRules() + KnockRules(knock);
    if cfg.sshAllowlistOnly {
      if knock.Some? {
        rules := rules + [Rule([Dport(TCP, cfg.sshPort), SaddrIn(Knock4)], Accept)];
        rules := rules + [Rule([Dport(TCP, cfg.sshPort), SaddrIn(Knock6)], Accept)];
      }
    } else {
      rules := rules + [Rule([Dport(TCP, cfg.sshPort)], Accept)];
    }
    assert rules == BaseRules() + (KnockRules(knock) + SshRules(cfg));
    rules := rules + [Rule([DportIn(TCP, PublicTcp)], Accept)];
    rules := rules + [Rule([DportIn(UDP, PublicUdp)], Accept)];
    rules := rules + [Rule([SaddrIn(Allow4)], Accept)];
    rules := rules + [Rule([SaddrIn(Allow6)], Accept)];
    assert rules == InputChain(cfg);
    t := Table(v4, v6, tcp, udp, knock.Some?, rules, if cfg.forwardAllowlistOnly then Some(ForwardGate()) else None);
  }

  /** The rendering is a function of its inputs: the two merged port lists are unique. */
  lemma RenderedUnique(cfg: RulesetConfig, entries: seq<Entry>, now: Time, t: Table, u: Table)
    requires Rendered(cfg, entries, now, t) && Rendered(cfg, entries, now, u)
    ensures t == u
  {
    CanonicalUnique(t.publicTcp, u.publicTcp);
    CanonicalUnique(t.publicUdp, u.publicUdp);
  }
}
