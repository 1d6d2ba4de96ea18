/** End to end: from the stored setting and the stored list, through the fallback ladder, the rendered
    chain and the single-element edits, to the packets that may open an SSH connection. */
module SshRestriction {
  import opened Wrappers
  import opened Entries
  import opened Ports
  import opened Ruleset
  import opened Elements
  import opened Apply
  import opened Settings
  import P = Packets

  /** The packet run whose current table, and edits of it, are those of the agent. */
  ghost predicate RunsOn(run: seq<P.Event>, s: State) {
    && P.WellFormed(run)
    && s.installed.Some?
    && var b := P.LastRebuild(run);
       && run[b].cfg == s.installed.value.cfg && run[b].entries == s.installed.value.entries
       && P.Clock(run[..b]) == s.installed.value.builtAt
       && P.EditsOf(run) == s.installed.value.edits
  }

  /** A packet that opens, or probes, an SSH connection. */
  predicate OpensSsh(cfg: AgentConfig, p: P.Packet) {
    p.l4.Tcp? && p.l4.dport == cfg.sshPort && p.ct in {New, Untracked}
  }

  /** Loopback, or a recent knock where knocking is in force. */
  ghost predicate OtherwiseKnown(run: seq<P.Event>, p: P.Packet)
    requires P.WellFormed(run)
  {
    p.onLoopback || (run[P.LastRebuild(run)].cfg.Knock().Some? && P.Knocked(run, p.src))
  }

  ghost predicate Known(run: seq<P.Event>, p: P.Packet)
    requires P.WellFormed(run)
  {
    OtherwiseKnown(run, p) || P.Listed(run, p.src)
  }

  /** In every reachable state with "SSH allowlist only" stored, and after every run of packets and
      edits, a packet to the SSH port is accepted iff its source is loopback, on the kernel's list or
      has just knocked, or the host's own config file opens the port. */
  lemma RestrictedSshExact(cfg: AgentConfig, s: State, run: seq<P.Event>, p: P.Packet)
    requires Invariant(cfg, s) && s.running && s.flags.sshAllowlistOnly
    requires RunsOn(run, s) && OpensSsh(cfg, p)
    ensures P.Accepts(P.Exec(run), p) <==> Known(run, p) || Covers(cfg.publicTcp, cfg.sshPort)
  {
    P.VerdictsExact(run, p);
    GuardMeansRuleset(cfg, s.flags);
  }

  /** So with config ranges that avoid the port, nobody else gets in. */
  lemma OnlyKnownSourcesReachSsh(cfg: AgentConfig, s: State, run: seq<P.Event>, p: P.Packet)
    requires Invariant(cfg, s) && s.running && s.flags.sshAllowlistOnly
    requires !Covers(cfg.publicTcp, cfg.sshPort)
    requires RunsOn(run, s) && OpensSsh(cfg, p)
    ensures P.Accepts(P.Exec(run), p) ==> Known(run, p)
  {
    RestrictedSshExact(cfg, s, run, p);
  }

  // ---- From the kernel's list to the store's ----

  /** A stored entry with all its kernel edits carried out, not expiring within the next second. */
  predicate Vouched(s: State, now: Time, a: Addr) {
    exists e | e in s.entries :: e.target.Contains(a) && Mask(e.target) !in s.unsettled && !e.IsExpired(now + SECOND)
  }

  /** An entry of the store, or one pruned, that had not expired a second ago; or a prefix whose last
      edit is under way, was refused or had no effect. */
  predicate Accountable(s: State, now: Time, a: Addr) {
    || (exists e | e in s.entries + s.lapsed :: e.target.Contains(a) && !e.IsExpired(now - SECOND))
    || (exists m | m in s.unsettled :: m.Contains(a))
  }

  lemma VouchedIsInSets(s: State, now: Time, a: Addr)
    requires SetsAgree(s) && s.installed.value.builtAt <= now && Vouched(s, now, a)
    ensures Lists(s.installed.value.Elements(), now, a)
  {
    var i := s.installed.value;
    var e :| e in s.entries && e.target.Contains(a) && Mask(e.target) !in s.unsettled && !e.IsExpired(now + SECOND);
    assert Backed(i, e);
    var x :| x in i.Elements() && Mask(x.target) == Mask(e.target) && Outlasts(x, e);
    MaskContains(x.target, a);
    MaskContains(e.target, a);
  }

  lemma InSetsIsAccountable(s: State, now: Time, a: Addr)
    requires SetsAgree(s) && Lists(s.installed.value.Elements(), now, a)
    ensures Accountable(s, now, a)
  {
    var x :| x in s.installed.value.Elements() && x.target.Contains(a) && x.Alive(now);
    MaskContains(x.target, a);
    if Mask(x.target) !in s.unsettled {
      assert Owned(s, x);
      var e :| e in s.entries + s.lapsed && Mask(e.target) == Mask(x.target) && EndsWith(x, e);
      MaskContains(e.target, a);
      assert !e.IsExpired(now - SECOND);
    }
  }

  lemma {:induction false} ListedIsInstalled(s: State, run: seq<P.Event>, a: Addr)
    requires RunsOn(run, s)
    ensures P.Listed(run, a) <==> Lists(s.installed.value.Elements(), P.Clock(run), a)
    ensures s.installed.value.builtAt <= P.Clock(run)
  {
    P.ListExact(run, a);
    P.ElementsFromEdits(run);
    P.ExecTracksRun(run);
    P.ClockMonotone(run, P.LastRebuild(run));
  }

  /** In every reachable state, an address the store vouches for is on the kernel's list, and one on the
      list is accounted for by the store. */
  lemma {:induction false} ListFollowsStore(cfg: AgentConfig, s: State, run: seq<P.Event>, now: Time, a: Addr)
    requires Invariant(cfg, s) && s.running && RunsOn(run, s) && now == P.Clock(run)
    ensures Vouched(s, now, a) ==> P.Listed(run, a)
    ensures P.Listed(run, a) ==> Accountable(s, now, a)
  {
    ListedIsInstalled(s, run, a);
    if Vouched(s, now, a) { VouchedIsInSets(s, now, a); }
    if P.Listed(run, a) { InSetsIsAccountable(s, now, a); }
  }

  /** The stored list decides. With the restriction stored and config ranges that avoid the port, a
      packet that opens SSH is accepted if it comes from loopback, from a source that has just knocked or
      from an address the store vouches for, and only if it comes from one of the first two or from an
      address the store accounts for. The two differ only within a second of an entry's expiry, and on
      prefixes whose last edit is under way, was refused or had no effect. */
  lemma {:induction false} StoredListDecidesSsh(cfg: AgentConfig, s: State, run: seq<P.Event>, now: Time, p: P.Packet)
    requires Invariant(cfg, s) && s.running && s.flags.sshAllowlistOnly
    requires !Covers(cfg.publicTcp, cfg.sshPort)
    requires RunsOn(run, s) && OpensSsh(cfg, p) && now == P.Clock(run)
    ensures OtherwiseKnown(run, p) || Vouched(s, now, p.src) ==> P.Accepts(P.Exec(run), p)
    ensures P.Accepts(P.Exec(run), p) ==> OtherwiseKnown(run, p) || Accountable(s, now, p.src)
  {
    RestrictedSshExact(cfg, s, run, p);
    ListFollowsStore(cfg, s, run, now, p.src);
  }

  /** So when nothing is unsettled, an address that no entry has held within the last second and that
      has not knocked is refused: a revoked entry leaves nothing behind. */
  lemma RevokedIsRefused(cfg: AgentConfig, s: State, run: seq<P.Event>, now: Time, p: P.Packet)
    requires Invariant(cfg, s) && s.running && s.flags.sshAllowlistOnly && s.unsettled == {}
    requires !Covers(cfg.publicTcp, cfg.sshPort)
    requires RunsOn(run, s) && OpensSsh(cfg, p) && now == P.Clock(run) && !OtherwiseKnown(run, p)
    requires forall e | e in s.entries + s.lapsed :: e.target.Contains(p.src) ==> e.IsExpired(now - SECOND)
    ensures !P.Accepts(P.Exec(run), p)
  {
    StoredListDecidesSsh(cfg, s, run, now, p);
  }

  /** The hypotheses are met, for one, by a host that has just started with the restriction stored and
      any one entry on its list. */
  lemma RestrictedHost(e: Entry) returns (cfg: AgentConfig, s: State, run: seq<P.Event>)
    ensures Invariant(cfg, s) && s.running && s.flags.sshAllowlistOnly && !Covers(cfg.publicTcp, cfg.sshPort)
    ensures s.entries == [e] && s.unsettled == {} && RunsOn(run, s)
  {
    cfg := AgentConfig(22, None, [], []);
    var flags := Flags(true, false, []);
    var off := State([e], flags, Saved([e], flags), PLAIN, true, None, {}, [], false);
    var none := Applied(Off, Off);
    s := Committed(off, cfg, flags, none, 0);
    CommittedKeeps(cfg, off, flags, none, 0, s);
    var built := s.installed.value.cfg;
    assert built.publicTcp == [] && built.publicUdp == [];
    var table := Table(LiveElements([e], Ip4, 0), LiveElements([e], Ip6, 0), [], [], false, InputChain(built), None);
    run := [P.Rebuild(built, [e], table)];
    assert run[..0] == [] && P.Clock(run[..0]) == 0;
    assert Rendered(built, [e], 0, table);
    assert P.WellFormed(run) && P.LastRebuild(run) == 0;
  }

  // ---- Open, and stuck ----

  /** With the setting off, everybody gets in unless a rollback has failed, and then exactly the known
      sources do. */
  lemma OpenSshExact(cfg: AgentConfig, s: State, run: seq<P.Event>, p: P.Packet)
    requires Invariant(cfg, s) && s.running && !s.flags.sshAllowlistOnly
    requires RunsOn(run, s) && OpensSsh(cfg, p)
    ensures P.Accepts(P.Exec(run), p) <==> !s.stuck || Known(run, p) || Covers(cfg.publicTcp, cfg.sshPort)
  {
    P.VerdictsExact(run, p);
    GuardMeansRuleset(cfg, s.flags);
  }

  /** Kernel and store disagree about the restriction. */
  predicate Stricter(s: State) {
    s.installed.Some? && s.installed.value.cfg.sshAllowlistOnly && !s.flags.sshAllowlistOnly
  }

  lemma StricterIsStuck(cfg: AgentConfig, s: State)
    requires Invariant(cfg, s) && s.running
    ensures Stricter(s) <==> s.stuck
  {
  }

  /** When a toggle leaves the kernel stricter than the store: from an agreeing state exactly when it
      passes its own checks, the store was open, the table was accepted only without the knock, and the
      rollback was refused. */
  lemma StricterIff(cfg: AgentConfig, s: State, on: bool, now: Time, first: Outcome, second: Outcome, saved: bool)
    requires Invariant(cfg, s) && s.running && !Stricter(s)
    requires Possible(Wanted(RulesetWith(cfg, s.flags.(sshAllowlistOnly := on))), first)
    requires Possible(Wanted(RulesetWith(cfg, s.flags)), second)
    ensures
      Stricter(SshToggle(s, cfg, on, now, first, second, saved).0) <==>
        && on && !SshRefused(s, cfg, on, now) && !s.flags.sshAllowlistOnly
        && first.Ok? && first.value.knock.Rejected?
        && second.Err?
  {
    SshToggleKeeps(cfg, s, on, now, first, second, saved);
    StricterIsStuck(cfg, s);
    StricterIsStuck(cfg, SshToggle(s, cfg, on, now, first, second, saved).0);
    if first.Ok? {
      PossibleLabels(Wanted(RulesetWith(cfg, s.flags.(sshAllowlistOnly := on))), first);
    }
  }

  /** It does happen: from every open state in which the toggle passes its checks and a knock is
      configured, there are answers of nft that end there. */
  lemma FailedRollbackIsStricter(cfg: AgentConfig, s: State, now: Time) returns (one: Answers, two: Answers)
    requires Invariant(cfg, s) && s.running && !s.flags.sshAllowlistOnly
    requires cfg.sshKnock.Some? && !SshRefused(s, cfg, true, now)
    ensures
      var first := Ladder(Wanted(RulesetWith(cfg, s.flags.(sshAllowlistOnly := true))), one);
      var second := Ladder(Wanted(RulesetWith(cfg, s.flags)), two);
      forall saved ::
        var end := SshToggle(s, cfg, true, now, first, second, saved);
        end.1.Err? && end.1.error.NftFailure? && Invariant(cfg, end.0) && Stricter(end.0)
  {
    one, two := (f: Features) => if f.knock then Some("no payload match") else None, (f: Features) => Some("out of memory");
    var first := Ladder(Wanted(RulesetWith(cfg, s.flags.(sshAllowlistOnly := true))), one);
    var second := Ladder(Wanted(RulesetWith(cfg, s.flags)), two);
    forall saved ensures Invariant(cfg, SshToggle(s, cfg, true, now, first, second, saved).0) {
      SshToggleKeeps(cfg, s, true, now, first, second, saved);
    }
  }

  /** The next committed table for the stored settings ends it. */
  lemma RebuildEndsStricter(cfg: AgentConfig, s: State, r: Outcome, now: Time)
    requires Invariant(cfg, s) && s.running && r.Ok? && Possible(Wanted(RulesetWith(cfg, s.flags)), r)
    ensures !Stricter(Committed(s, cfg, s.flags, r.value, now))
  {
  }

  /** What a toggle's answer tells its caller. */
  lemma ToggleTells(cfg: AgentConfig, s: State, on: bool, now: Time, first: Outcome, second: Outcome, saved: bool)
    requires Possible(Wanted(RulesetWith(cfg, s.flags.(sshAllowlistOnly := on))), first)
    ensures
      var (t, r) := SshToggle(s, cfg, on, now, first, second, saved);
      && (r == Err(BadRequest) <==> SshRefused(s, cfg, on, now))
      && (r == Err(BadRequest) ==> t == s)
      && (r.Err? && r.error.NftFailure? ==> t.flags == s.flags && t.disk == s.disk && t.entries == s.entries)
      && (r.Ok? ==> t.disk == Saved(s.entries, s.flags.(sshAllowlistOnly := on)))
      && (r.Ok? || r == Err(Internal) ==>
            && t.flags == s.flags.(sshAllowlistOnly := on)
            && t.installed.Some? && t.installed.value.cfg.sshAllowlistOnly == on
            && t.live.knock == (on && cfg.sshKnock.Some?))
  {
    if first.Ok? {
      PossibleLabels(Wanted(RulesetWith(cfg, s.flags.(sshAllowlistOnly := on))), first);
    }
  }

  /** The toggle's own checks: nobody would be left on the list, or a public range opens the port. */
  lemma RefusedMeans(cfg: AgentConfig, s: State, on: bool, now: Time)
    ensures SshRefused(s, cfg, on, now) <==> on && (LiveTargets(s.entries, now) == {} || AnyPortCoversSsh(cfg, s.flags))
  {
    if !forall e | e in s.entries :: e.IsExpired(now) {
      var e :| e in s.entries && !e.IsExpired(now);
      assert e.target in LiveTargets(s.entries, now);
    }
  }
}
