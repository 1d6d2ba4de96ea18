/** `nft/nat.rs`: the native NAT table as rules, and how a packet is translated by it. */
module Nat {
  import opened Wrappers
  import opened Ports
  import opened Forwards

  function L4Protos(p: ForwardProto): seq<L4Proto> {
    match p
    case OnlyTcp => [TCP]
    case OnlyUdp => [UDP]
    case Both => [TCP, UDP]
  }

  lemma BothCovers(proto: L4Proto)
    ensures proto in L4Protos(Both)
  {
    assert L4Protos(Both)[0] == TCP && L4Protos(Both)[1] == UDP;
  }

  datatype Target = Target(ip: Ip, ports: PortRange)

  datatype PreRule = PreRule(iface: string, proto: L4Proto, listen: PortRange, to: Target)
  datatype PostRule = PostRule(daddr: Ip, proto: L4Proto, dport: PortRange, source: Ip)
  datatype FwdRule = FwdRule(iface: string, daddr: Ip, proto: L4Proto, dport: PortRange)

  /** The three chains of `ip ipgate_nat`. */
  datatype NatTable = NatTable(prerouting: seq<PreRule>, postrouting: seq<PostRule>, forward: seq<FwdRule>)

  function PreRules(fs: seq<ResolvedForward>): seq<PreRule> {
    if fs == [] then []
    else
      var f := fs[|fs| - 1];
      PreRules(fs[..|fs| - 1]) +
      seq(|L4Protos(f.proto)|, i requires 0 <= i < |L4Protos(f.proto)| =>
        PreRule(f.iface, L4Protos(f.proto)[i], f.listen, Target(f.remoteIp, f.destPort)))
  }

  function PostRules(fs: seq<ResolvedForward>): seq<PostRule> {
    if fs == [] then []
    else
      var f := fs[|fs| - 1];
      PostRules(fs[..|fs| - 1]) +
      seq(|L4Protos(f.proto)|, i requires 0 <= i < |L4Protos(f.proto)| =>
        PostRule(f.remoteIp, L4Protos(f.proto)[i], f.destPort, f.sourceIp))
  }

  function FwdRules(fs: seq<ResolvedForward>): seq<FwdRule> {
    if fs == [] then []
    else
      var f := fs[|fs| - 1];
      FwdRules(fs[..|fs| - 1]) +
      seq(|L4Protos(f.proto)|, i requires 0 <= i < |L4Protos(f.proto)| =>
        FwdRule(f.iface, f.remoteIp, L4Protos(f.proto)[i], f.destPort))
  }

  method RenderPrerouting(fs: seq<ResolvedForward>) returns (out: seq<PreRule>)
    ensures out == PreRules(fs)
  {
    out := [];
    for i := 0 to |fs|
      invariant out == PreRules(fs[..i])
    {
      assert fs[..i + 1][..i] == fs[..i];
      var f, before := fs[i], out;
      var ps := L4Protos(f.proto);
      for j := 0 to |ps|
        invariant out == before + seq(j, k requires 0 <= k < j => PreRule(f.iface, ps[k], f.listen, Target(f.remoteIp, f.destPort)))
      {
        out := out + [PreRule(f.iface, ps[j], f.listen, Target(f.remoteIp, f.destPort))];
      }
    }
    assert fs[..|fs|] == fs;
  }

  method RenderPostrouting(fs: seq<ResolvedForward>) returns (out: seq<PostRule>)
    ensures out == PostRules(fs)
  {
    out := [];
    for i := 0 to |fs|
      invariant out == PostRules(fs[..i])
    {
      assert fs[..i + 1][..i] == fs[..i];
      var f, before := fs[i], out;
      var ps := L4Protos(f.proto);
      for j := 0 to |ps|
        invariant out == before + seq(j, k requires 0 <= k < j => PostRule(f.remoteIp, ps[k], f.destPort, f.sourceIp))
      {
        out := out + [PostRule(f.remoteIp, ps[j], f.destPort, f.sourceIp)];
      }
    }
    assert fs[..|fs|] == fs;
  }

  method RenderForward(fs: seq<ResolvedForward>) returns (out: seq<FwdRule>)
    ensures out == FwdRules(fs)
  {
    out := [];
    for i := 0 to |fs|
      invariant out == FwdRules(fs[..i])
    {
      assert fs[..i + 1][..i] == fs[..i];
      var f, before := fs[i], out;
      var ps := L4Protos(f.proto);
      for j := 0 to |ps|
        invariant out == before + seq(j, k requires 0 <= k < j => FwdRule(f.iface, f.remoteIp, ps[k], f.destPort))
      {
        out := out + [FwdRule(f.iface, f.remoteIp, ps[j], f.destPort)];
      }
    }
    assert fs[..|fs|] == fs;
  }

  /** `render_nat_apply`: one pass over the forwards per chain. */
  method RenderNat(fs: seq<ResolvedForward>) returns (t: NatTable)
    ensures t == NatTable(PreRules(fs), PostRules(fs), FwdRules(fs))
  {
    var pre := RenderPrerouting(fs);
    var post := RenderPostrouting(fs);
    var fwd := RenderForward(fs);
    t := NatTable(pre, post, fwd);
  }

  /** The first prerouting rule that matches a packet decides where it goes. */
  function Translate(rules: seq<PreRule>, iface: string, proto: L4Proto, port: Port): Option<Target> {
    if rules == [] then None
    else if rules[0].iface == iface && rules[0].proto == proto && rules[0].listen.Contains(port) then Some(rules[0].to)
    else Translate(rules[1..], iface, proto, port)
  }

  predicate Serves(f: ResolvedForward, iface: string, proto: L4Proto, port: Port) {
    f.iface == iface && proto in L4Protos(f.proto) && f.listen.Contains(port)
  }

  lemma {:induction false} TranslateAppend(a: seq<PreRule>, b: seq<PreRule>, iface: string, proto: L4Proto, port: Port)
    ensures Translate(a + b, iface, proto, port) ==
      if Translate(a, iface, proto, port).Some? then Translate(a, iface, proto, port) else Translate(b, iface, proto, port)
  {
    if a == [] {
      assert a + b == b;
    } else {
      assert (a + b)[0] == a[0] && (a + b)[1..] == a[1..] + b;
      TranslateAppend(a[1..], b, iface, proto, port);
    }
  }

  lemma OneForwardTranslates(f: ResolvedForward, iface: string, proto: L4Proto, port: Port)
    ensures Translate(PreRules([f]), iface, proto, port) ==
      if Serves(f, iface, proto, port) then Some(Target(f.remoteIp, f.destPort)) else None
  {
    var rs := PreRules([f]);
    var to := Target(f.remoteIp, f.destPort);
    assert [f][..0] == [];
    var tcp, udp := PreRule(f.iface, TCP, f.listen, to), PreRule(f.iface, UDP, f.listen, to);
    assert PreRules([f][..0]) == [];
    assert L4Protos(f.proto) == match f.proto case Both => [TCP, UDP] case OnlyTcp => [TCP] case OnlyUdp => [UDP];
    assert rs == match f.proto case Both => [tcp, udp] case OnlyTcp => [tcp] case OnlyUdp => [udp];
    assert Translate([udp][1..], iface, proto, port) == None;
    assert Translate([tcp][1..], iface, proto, port) == None;
    assert [tcp, udp][1..] == [udp];
    assert Translate([udp], iface, proto, port) == if Serves(f.(proto := OnlyUdp), iface, proto, port) then Some(to) else None;
    assert Translate([tcp, udp], iface, proto, port) == if Serves(f.(proto := Both), iface, proto, port) then Some(to) else None;
  }

  lemma PreRulesSnoc(fs: seq<ResolvedForward>, f: ResolvedForward)
    ensures PreRules(fs + [f]) == PreRules(fs) + PreRules([f])
  {
    assert (fs + [f])[..|fs|] == fs;
    assert [f][..0] == [];
    assert PreRules([f][..0]) == [];
  }

  /** A port nobody serves is not translated; a port somebody serves is. */
  lemma {:induction false} TranslatedIffServed(fs: seq<ResolvedForward>, iface: string, proto: L4Proto, port: Port)
    ensures Translate(PreRules(fs), iface, proto, port).Some? <==> exists f :: f in fs && Serves(f, iface, proto, port)
  {
    if fs != [] {
      var init, last := fs[..|fs| - 1], fs[|fs| - 1];
      assert fs == init + [last];
      TranslatedIffServed(init, iface, proto, port);
      PreRulesSnoc(init, last);
      TranslateAppend(PreRules(init), PreRules([last]), iface, proto, port);
      OneForwardTranslates(last, iface, proto, port);
      assert last in fs;
    }
  }

  /** A port that only one forward serves goes to that forward's target. */
  lemma {:induction false} SoleServerDecides(fs: seq<ResolvedForward>, f: ResolvedForward, iface: string, proto: L4Proto, port: Port)
    requires f in fs && Serves(f, iface, proto, port)
    requires forall g | g in fs && Serves(g, iface, proto, port) :: g == f
    ensures Translate(PreRules(fs), iface, proto, port) == Some(Target(f.remoteIp, f.destPort))
  {
    var init, last := fs[..|fs| - 1], fs[|fs| - 1];
    assert fs == init + [last];
    PreRulesSnoc(init, last);
    TranslateAppend(PreRules(init), PreRules([last]), iface, proto, port);
    OneForwardTranslates(last, iface, proto, port);
    TranslatedIffServed(init, iface, proto, port);
    if f in init {
      SoleServerDecides(init, f, iface, proto, port);
    } else {
      assert f == last;
      assert Translate(PreRules(init), iface, proto, port).None?;
    }
  }

  /** Whatever prerouting translates can come back and get through: a source rewrite and a forward
      accept exist for the translated destination. */
  lemma {:induction false} TranslatedCanReturn(fs: seq<ResolvedForward>, r: PreRule)
    requires r in PreRules(fs)
    ensures exists q :: q in PostRules(fs) && q.daddr == r.to.ip && q.proto == r.proto && q.dport == r.to.ports
    ensures FwdRule(r.iface, r.to.ip, r.proto, r.to.ports) in FwdRules(fs)
  {
    var init, f := fs[..|fs| - 1], fs[|fs| - 1];
    if r in PreRules(init) {
      TranslatedCanReturn(init, r);
      var q :| q in PostRules(init) && q.daddr == r.to.ip && q.proto == r.proto && q.dport == r.to.ports;
      assert q in PostRules(fs);
    } else {
      var ps := L4Protos(f.proto);
      var i :| 0 <= i < |ps| && r == PreRule(f.iface, ps[i], f.listen, Target(f.remoteIp, f.destPort));
      assert PostRules(fs)[|PostRules(init)| + i] == PostRule(f.remoteIp, ps[i], f.destPort, f.sourceIp);
      assert FwdRules(fs)[|FwdRules(init)| + i] == FwdRule(f.iface, f.remoteIp, ps[i], f.destPort);
    }
  }

  // ---- The way back ----

  /** The first postrouting rule for a destination decides the source of a packet on its way there. */
  function Rewrite(rules: seq<PostRule>, daddr: Ip, proto: L4Proto, dport: Port): Option<Ip> {
    if rules == [] then None
    else if rules[0].daddr == daddr && rules[0].proto == proto && rules[0].dport.Contains(dport) then Some(rules[0].source)
    else Rewrite(rules[1..], daddr, proto, dport)
  }

  predicate GoesTo(f: ResolvedForward, daddr: Ip, proto: L4Proto, dport: Port) {
    f.remoteIp == daddr && proto in L4Protos(f.proto) && f.destPort.Contains(dport)
  }

  /** The first forward to a destination. */
  function FirstTo(fs: seq<ResolvedForward>, daddr: Ip, proto: L4Proto, dport: Port): (r: Option<ResolvedForward>)
    ensures r.Some? ==> r.value in fs && GoesTo(r.value, daddr, proto, dport)
    ensures r.None? ==> forall f | f in fs :: !GoesTo(f, daddr, proto, dport)
  {
    if fs == [] then None
    else
      var init, last := fs[..|fs| - 1], fs[|fs| - 1];
      assert fs == init + [last];
      var first := FirstTo(init, daddr, proto, dport);
      if first.Some? then first else if GoesTo(last, daddr, proto, dport) then Some(last) else None
  }

  lemma {:induction false} RewriteAppend(a: seq<PostRule>, b: seq<PostRule>, daddr: Ip, proto: L4Proto, dport: Port)
    ensures Rewrite(a + b, daddr, proto, dport) ==
      if Rewrite(a, daddr, proto, dport).Some? then Rewrite(a, daddr, proto, dport) else Rewrite(b, daddr, proto, dport)
  {
    if a == [] {
      assert a + b == b;
    } else {
      assert (a + b)[0] == a[0] && (a + b)[1..] == a[1..] + b;
      RewriteAppend(a[1..], b, daddr, proto, dport);
    }
  }

  function OnePostRules(f: ResolvedForward): seq<PostRule> {
    seq(|L4Protos(f.proto)|, i requires 0 <= i < |L4Protos(f.proto)| =>
      PostRule(f.remoteIp, L4Protos(f.proto)[i], f.destPort, f.sourceIp))
  }

  lemma OneForwardRewrites(f: ResolvedForward, daddr: Ip, proto: L4Proto, dport: Port)
    ensures Rewrite(OnePostRules(f), daddr, proto, dport) == if GoesTo(f, daddr, proto, dport) then Some(f.sourceIp) else None
  {
    var rs := OnePostRules(f);
    var tcp, udp := PostRule(f.remoteIp, TCP, f.destPort, f.sourceIp), PostRule(f.remoteIp, UDP, f.destPort, f.sourceIp);
    assert L4Protos(f.proto) == match f.proto case Both => [TCP, UDP] case OnlyTcp => [TCP] case OnlyUdp => [UDP];
    assert rs == match f.proto case Both => [tcp, udp] case OnlyTcp => [tcp] case OnlyUdp => [udp];
    assert Rewrite([udp][1..], daddr, proto, dport) == None && Rewrite([tcp][1..], daddr, proto, dport) == None;
    assert [tcp, udp][1..] == [udp];
  }

  /** A packet on its way to a destination gets the source address of the first forward that goes
      there. A forward's own address is used for all its traffic iff no earlier forward to the same
      address, protocol and port has another. */
  lemma {:induction false} RewriteIsFirst(fs: seq<ResolvedForward>, daddr: Ip, proto: L4Proto, dport: Port)
    ensures Rewrite(PostRules(fs), daddr, proto, dport) ==
      match FirstTo(fs, daddr, proto, dport)
      case None => None
      case Some(f) => Some(f.sourceIp)
  {
    if fs != [] {
      var init, last := fs[..|fs| - 1], fs[|fs| - 1];
      RewriteIsFirst(init, daddr, proto, dport);
      assert PostRules(fs) == PostRules(init) + OnePostRules(last);
      RewriteAppend(PostRules(init), OnePostRules(last), daddr, proto, dport);
      OneForwardRewrites(last, daddr, proto, dport);
    }
  }

  lemma {:induction false} PreRuleOrigin(fs: seq<ResolvedForward>, r: PreRule)
    requires r in PreRules(fs)
    ensures exists f :: f in fs && f.remoteIp == r.to.ip && f.destPort == r.to.ports && r.proto in L4Protos(f.proto)
  {
    var init, f := fs[..|fs| - 1], fs[|fs| - 1];
    assert fs == init + [f];
    if r in PreRules(init) {
      PreRuleOrigin(init, r);
    } else {
      assert f in fs;
    }
  }

  /** Whatever prerouting translates is given a source address on its way: that of the first forward to
      the same destination. */
  lemma TranslatedIsRewritten(fs: seq<ResolvedForward>, r: PreRule, dport: Port)
    requires r in PreRules(fs) && r.to.ports.Contains(dport)
    ensures FirstTo(fs, r.to.ip, r.proto, dport).Some?
    ensures Rewrite(PostRules(fs), r.to.ip, r.proto, dport) == Some(FirstTo(fs, r.to.ip, r.proto, dport).value.sourceIp)
  {
    PreRuleOrigin(fs, r);
    RewriteIsFirst(fs, r.to.ip, r.proto, dport);
  }

  // ---- From the store to the translation ----

  predicate Clashes(f: ForwardRule, iface: Option<string>, listen: PortRange, defaultIface: Option<string>) {
    EffectiveIface(f.req, defaultIface) == iface && f.req.listen.Overlaps(listen)
  }

  lemma {:induction false} FwdsMembers(t: seq<Live>)
    ensures forall g :: g in Fwds(t) <==> exists l :: l in t && l.fwd == g
  {
    if t != [] {
      FwdsMembers(t[..|t| - 1]);
      assert t == t[..|t| - 1] + [t[|t| - 1]];
      assert t[|t| - 1] in t;
    }
  }

  lemma SameId(rules: seq<ForwardRule>, f: ForwardRule, g: ForwardRule)
    requires UniqueIds(rules) && f in rules && g in rules && f.id == g.id
    ensures f == g
  {
  }

  /** Nothing else in the resolved table serves a port of a forward that clashes with no other. */
  lemma OnlyServer(s: State, env: Env, id: nat, req: Request, iface: string, proto: L4Proto, port: Port, l: Live)
    requires Invariant(s) && ForwardRule(id, req) in s.forwards
    requires forall f | f in s.forwards && f.id != id :: !Clashes(f, Some(iface), req.listen, env.defaultIface)
    requires l in ResolveList(s.forwards, s.cache, env) && Serves(l.fwd, iface, proto, port)
    requires req.listen.Contains(port)
    ensures Some(l.fwd) == ResolveOne(req, Lookup(s.cache, id), env)
  {
    ResolveListMembers(s.forwards, s.cache, env);
    var f :| f in s.forwards && l.id == f.id && ResolveOne(f.req, Lookup(s.cache, f.id), env) == Some(l.fwd);
    if f.id == id {
      SameId(s.forwards, f, ForwardRule(id, req));
    }
  }

  lemma ResolvedIsListed(rules: seq<ForwardRule>, cache: map<nat, Ip>, env: Env, f: ForwardRule, fwd: ResolvedForward)
    requires f in rules && ResolveOne(f.req, Lookup(cache, f.id), env) == Some(fwd)
    ensures Live(f.id, fwd) in ResolveList(rules, cache, env)
  {
    ResolveListMembers(rules, cache, env);
  }

  lemma SoleLiveDecides(table: seq<Live>, l: Live, iface: string, proto: L4Proto, port: Port)
    requires l in table && Serves(l.fwd, iface, proto, port)
    requires forall k | k in table && Serves(k.fwd, iface, proto, port) :: k.fwd == l.fwd
    ensures Translate(PreRules(Fwds(table)), iface, proto, port) == Some(Target(l.fwd.remoteIp, l.fwd.destPort))
  {
    FwdsMembers(table);
    SoleServerDecides(Fwds(table), l.fwd, iface, proto, port);
  }

  /** A stored forward that resolves and clashes with no other gets all its ports translated to its
      own target by the table that is committed. */
  lemma CommittedForwardDecides(s: State, env: Env, id: nat, req: Request, fwd: ResolvedForward, proto: L4Proto, port: Port)
    requires Invariant(s) && ForwardRule(id, req) in s.forwards
    requires ResolveOne(req, Lookup(s.cache, id), env) == Some(fwd)
    requires forall f | f in s.forwards && f.id != id :: !Clashes(f, Some(fwd.iface), req.listen, env.defaultIface)
    requires req.listen.Contains(port) && proto in L4Protos(req.proto)
    ensures
      Translate(PreRules(Fwds(ResolveList(s.forwards, s.cache, env))), fwd.iface, proto, port)
        == Some(Target(fwd.remoteIp, req.destPort))
  {
    var table := ResolveList(s.forwards, s.cache, env);
    ResolvedIsListed(s.forwards, s.cache, env, ForwardRule(id, req), fwd);
    forall l | l in table && Serves(l.fwd, fwd.iface, proto, port) ensures l.fwd == fwd {
      OnlyServer(s, env, id, req, fwd.iface, proto, port, l);
    }
    SoleLiveDecides(table, Live(id, fwd), fwd.iface, proto, port);
  }

  /** The last forward of a table decides a port exactly when no earlier one serves it. */
  lemma LastForwardDecides(fs: seq<ResolvedForward>, f: ResolvedForward, iface: string, proto: L4Proto, port: Port)
    requires Serves(f, iface, proto, port)
    ensures Translate(PreRules(fs + [f]), iface, proto, port) ==
      if exists g :: g in fs && Serves(g, iface, proto, port) then Translate(PreRules(fs), iface, proto, port)
      else Some(Target(f.remoteIp, f.destPort))
  {
    PreRulesSnoc(fs, f);
    TranslateAppend(PreRules(fs), PreRules([f]), iface, proto, port);
    OneForwardTranslates(f, iface, proto, port);
    TranslatedIffServed(fs, iface, proto, port);
  }
}
