/** The forward allowlist gate: what it drops, and how it composes with every other base chain on
    the forward hook. */
module ForwardGate {
  import opened Wrappers
  import opened Entries
  import opened Ports
  import opened Ruleset
  import opened Elements
  import opened Packets

  // The gate chain has policy accept.
  predicate GatePasses(k: Kernel, p: Packet) {
    k.table.forwardGate.Some? ==> FirstMatch(k, k.table.forwardGate.value, p) in {None, Some(Accept)}
  }

  /** A base chain of another table: any test of the packet. */
  type OtherChain = Packet -> bool

  /** The forward hook: base chains run in priority order and the first drop is final. */
  predicate HookPasses(chains: seq<OtherChain>, p: Packet) {
    chains == [] || (chains[0](p) && HookPasses(chains[1..], p))
  }

  predicate IsPublicOriginal(cfg: RulesetConfig, p: Packet) {
    || (p.l4.Tcp? && Covers(cfg.publicTcp, p.originalDport))
    || (p.l4.Udp? && Covers(cfg.publicUdp, p.originalDport))
  }

  /** The packets the gate exists to stop. */
  predicate Unwelcome(cfg: RulesetConfig, listed: bool, p: Packet) {
    p.ct == New && p.dnat && !listed && !IsPublicOriginal(cfg, p)
  }

  lemma GateRuleMatches(k: Kernel, m: Match, action: Action, p: Packet)
    ensures RuleMatches(k, Rule([CtStateIn({New}), CtStatusDnat, m], action), p) <==> p.ct == New && p.dnat && Matches(k, m, p)
  {
    TripleMatches(k, CtStateIn({New}), CtStatusDnat, m, action, p);
  }

  /** The two public-port rules and the final drop. */
  function GateTail(): seq<Rule> {
    [ Rule([CtStateIn({New}), CtStatusDnat, OriginalDportIn(TCP, PublicTcp)], Accept),
      Rule([CtStateIn({New}), CtStatusDnat, OriginalDportIn(UDP, PublicUdp)], Accept),
      Rule([CtStateIn({New}), CtStatusDnat], Drop) ]
  }

  lemma GateTailVerdict(k: Kernel, p: Packet)
    ensures FirstMatch(k, GateTail(), p) ==
      if p.ct != New || !p.dnat then None
      else if || (p.l4.Tcp? && Covers(k.table.publicTcp, p.originalDport))
              || (p.l4.Udp? && Covers(k.table.publicUdp, p.originalDport))
      then Some(Accept)
      else Some(Drop)
  {
    var rs := GateTail();
    assert rs == [rs[0]] + ([rs[1]] + ([rs[2]] + []));
    FirstMatchCons(k, rs[2], [], p);
    FirstMatchCons(k, rs[1], [rs[2]] + [], p);
    FirstMatchCons(k, rs[0], [rs[1]] + ([rs[2]] + []), p);
    GateRuleMatches(k, OriginalDportIn(TCP, PublicTcp), Accept, p);
    GateRuleMatches(k, OriginalDportIn(UDP, PublicUdp), Accept, p);
    PairMatches(k, CtStateIn({New}), CtStatusDnat, Drop, p);
  }

  lemma GateFirstMatch(k: Kernel, p: Packet)
    ensures FirstMatch(k, ForwardGate(), p) ==
      if p.ct in {Established, Related} then Some(Accept)
      else if p.ct == New && p.dnat && (AddrInSet(k, Allow4, p.src) || AddrInSet(k, Allow6, p.src)) then Some(Accept)
      else FirstMatch(k, GateTail(), p)
  {
    var r0 := Rule([CtStateIn({Established, Related})], Accept);
    var r1 := Rule([CtStateIn({New}), CtStatusDnat, SaddrIn(Allow4)], Accept);
    var r2 := Rule([CtStateIn({New}), CtStatusDnat, SaddrIn(Allow6)], Accept);
    assert ForwardGate() == [r0] + ([r1] + ([r2] + GateTail()));
    FirstMatchCons(k, r2, GateTail(), p);
    FirstMatchCons(k, r1, [r2] + GateTail(), p);
    FirstMatchCons(k, r0, [r1] + ([r2] + GateTail()), p);
    SingleMatches(k, CtStateIn({Established, Related}), Accept, p);
    GateRuleMatches(k, SaddrIn(Allow4), Accept, p);
    GateRuleMatches(k, SaddrIn(Allow6), Accept, p);
  }

  lemma {:induction false} HookPassesAppend(a: seq<OtherChain>, b: seq<OtherChain>, p: Packet)
    ensures HookPasses(a + b, p) <==> HookPasses(a, p) && HookPasses(b, p)
  {
    if a == [] {
      assert a + b == b;
    } else {
      assert (a + b)[1..] == a[1..] + b;
      HookPassesAppend(a[1..], b, p);
    }
  }

  /** Whatever other chains sit before and after the gate, the packets that get through are those
      that get through without it, minus new DNATed connections from an unlisted source to a port
      that is not public for their protocol. */
  lemma GateComposition(
    k: Kernel, cfg: RulesetConfig, entries: seq<Entry>,
    before: seq<OtherChain>, after: seq<OtherChain>, p: Packet)
    requires Rendered(cfg, entries, k.builtAt, k.table)
    ensures
      var gate: OtherChain := q => GatePasses(k, q);
      HookPasses(before + [gate] + after, p) <==>
        && HookPasses(before + after, p)
        && !(cfg.forwardAllowlistOnly && Unwelcome(cfg, Lists(k.allow, k.now, p.src), p))
  {
    var gate: OtherChain := q => GatePasses(k, q);
    HookPassesAppend(before + [gate], after, p);
    HookPassesAppend(before, [gate], p);
    HookPassesAppend(before, after, p);
    assert [gate][1..] == [];
    assert HookPasses([gate], p) == gate(p);
    GateFirstMatch(k, p);
    GateTailVerdict(k, p);
  }

  /** The same over every run of packets, ticks, rebuilds and edits of single elements. */
  lemma GateOverRuns(run: seq<Event>, before: seq<OtherChain>, after: seq<OtherChain>, p: Packet)
    requires WellFormed(run)
    ensures
      var gate: OtherChain := q => GatePasses(Exec(run), q);
      var cfg := run[LastRebuild(run)].cfg;
      HookPasses(before + [gate] + after, p) <==>
        && HookPasses(before + after, p)
        && !(cfg.forwardAllowlistOnly && Unwelcome(cfg, Listed(run, p.src), p))
  {
    var b := LastRebuild(run);
    ExecTracksRun(run);
    ListExact(run, p.src);
    GateComposition(Exec(run), run[b].cfg, run[b].entries, before, after, p);
  }

  /** Rendering the gate changes nothing about the input chain: same verdict on every packet, same
      writes to the knock sets, at every instant and for every content of the knock sets. */
  lemma GateLeavesInputAlone(
    cfg: RulesetConfig, entries: seq<Entry>, with: Kernel, without: Kernel, p: Packet)
    requires Rendered(cfg.(forwardAllowlistOnly := true), entries, with.builtAt, with.table)
    requires Rendered(cfg.(forwardAllowlistOnly := false), entries, with.builtAt, without.table)
    requires without == with.(table := without.table)
    ensures Accepts(with, p) <==> Accepts(without, p)
    ensures Receive(with, p).(table := without.table) == Receive(without, p)
  {
    ChainImplementsPolicy(with, cfg.(forwardAllowlistOnly := true), entries, p);
    ChainImplementsPolicy(without, cfg.(forwardAllowlistOnly := false), entries, p);
  }
}
