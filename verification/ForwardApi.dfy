/** The forward handlers (`api/handlers.rs`): the checks before a native forward is added or edited,
    and what they buy once the table is committed. */
module ForwardApi {
  import opened Wrappers
  import opened Ports
  import opened Text
  import opened Forwards
  import opened Nat
  import opened DnatConf

  datatype Error = BadRequest | Conflict | NotFound | Internal | NftFailure

  /** What the handlers look at besides the store: the dnat tool's rules, if it is in use, the reading
      of address literals, and the resolution environment. */
  datatype Context = Context(dnatRules: Option<seq<DnatRule>>, literal: string -> Option<Ip>, env: Env)

  /** `check_forward_request`. */
  function CheckRequest(req: Request, c: Context): (r: Option<Error>)
    ensures r.Some? ==> r.value in {BadRequest, Conflict}
    ensures r.None? && c.dnatRules.Some? && EffectiveIface(req, c.env.defaultIface).Some? ==>
      forall d | d in c.dnatRules.value ::
        !(d.iface == EffectiveIface(req, c.env.defaultIface).value && req.listen.Overlaps(d.listen))
  {
    if !ValidPorts(req.listen, req.destPort) then Some(BadRequest)
    else if Trim(req.destHost) == "" then Some(BadRequest)
    else if req.iface.Some? && !ValidIfaceName(req.iface.value) then Some(BadRequest)
    else if c.literal(Trim(req.destHost)).Some? && Forbidden(c.literal(Trim(req.destHost)).value) then Some(BadRequest)
    else
      var eff := EffectiveIface(req, c.env.defaultIface);
      if c.dnatRules.Some? && eff.Some? && exists d | d in c.dnatRules.value :: d.iface == eff.value && req.listen.Overlaps(d.listen)
      then Some(Conflict) else None
  }

  /** A request is malformed exactly if a range is reversed, the two differ in length and the target is
      no single port, the host is blank, the interface name is unusable, or the host is a literal address
      nothing may be forwarded to. */
  lemma MalformedIff(req: Request, c: Context)
    ensures CheckRequest(req, c) == Some(BadRequest) <==>
      || req.listen.start > req.listen.end || req.destPort.start > req.destPort.end
      || (req.destPort.start != req.destPort.end && req.listen.end - req.listen.start != req.destPort.end - req.destPort.start)
      || (forall ch | ch in req.destHost :: IsSpace(ch))
      || (req.iface.Some? && !ValidIfaceName(req.iface.value))
      || (c.literal(Trim(req.destHost)).Some? && Forbidden(c.literal(Trim(req.destHost)).value))
  {
    TrimsToNothing(req.destHost);
  }

  /** And one that is not is in conflict exactly if it shares a port with a rule of the dnat tool. */
  lemma ConflictIff(req: Request, c: Context)
    requires c.dnatRules.Some? ==> forall d | d in c.dnatRules.value :: d.listen.IsValid()
    ensures CheckRequest(req, c) == Some(Conflict) <==>
      && CheckRequest(req, c) != Some(BadRequest) && c.dnatRules.Some?
      && exists d, p: Port | d in c.dnatRules.value ::
           Some(d.iface) == EffectiveIface(req, c.env.defaultIface) && req.listen.Contains(p) && d.listen.Contains(p)
  {
    if c.dnatRules.Some? && CheckRequest(req, c) != Some(BadRequest) {
      forall d | d in c.dnatRules.value ensures req.listen.Overlaps(d.listen) <==> exists p: Port :: req.listen.Contains(p) && d.listen.Contains(p) {
        OverlapsIffSharedPort(req.listen, d.listen);
      }
    }
  }

  /** Another native forward already has some of the ports. */
  predicate HasClash(forwards: seq<ForwardRule>, id: nat, req: Request, defaultIface: Option<string>) {
    exists f | f in forwards :: f.id != id && Clashes(f, EffectiveIface(req, defaultIface), req.listen, defaultIface)
  }

  class Api {
    const forwarder: Forwarder

    constructor (forwarder: Forwarder)
      ensures this.forwarder == forwarder
    {
      this.forwarder := forwarder;
    }

    /** `update_forward`. The commit may meet another environment than the checks; `works` and `accepts` are
        the answers of the disk and of nft. */
    method UpdateForward(id: nat, req: Request, c: Context, env: Env, works: bool, accepts: bool) returns (r: Result<(), Error>)
      requires Invariant(forwarder.Abs())
      modifies forwarder
      ensures Invariant(forwarder.Abs())
      ensures r.Err? && r.error in {BadRequest, Conflict, NotFound} ==> forwarder.Abs() == old(forwarder.Abs())
      ensures r == Err(BadRequest) <==> CheckRequest(req, c) == Some(BadRequest)
      ensures r == Err(Conflict) <==>
        CheckRequest(req, c) == Some(Conflict)
        || (CheckRequest(req, c).None? && HasClash(old(forwarder.forwards), id, req, c.env.defaultIface))
      ensures r == Err(NotFound) <==>
        && CheckRequest(req, c).None? && !HasClash(old(forwarder.forwards), id, req, c.env.defaultIface)
        && forall f | f in old(forwarder.forwards) :: f.id != id
      ensures r == Err(Internal) ==> !works
      ensures r == Err(NftFailure) ==> works && !accepts
      ensures r.Ok? ==> works && accepts
      ensures r == Err(Internal) || r == Err(NftFailure) ==> forwarder.Abs() == Next(old(forwarder.Abs()), Update(id, req))
      ensures r.Ok? ==> forwarder.Abs() == Next(Next(old(forwarder.Abs()), Update(id, req)), Commit(env, true))
      // it comes alive exactly when it resolves
      ensures r.Ok? ==>
        (id in forwarder.cache <==> ResolveOne(req, Lookup(Next(old(forwarder.Abs()), Update(id, req)).cache, id), env).Some?)
      ensures r.Ok? && env.defaultIface == c.env.defaultIface ==> TakesEffect(forwarder.Abs(), id, req, c)
    {
      var bad := CheckRequest(req, c);
      if bad.Some? { return Err(bad.value); }
      if HasClash(forwarder.forwards, id, req, c.env.defaultIface) { return Err(Conflict); }
      ghost var before := forwarder.Abs();
      var found := forwarder.UpdateForward(id, req);
      if !found { return Err(NotFound); }
      NextKeepsInvariant(before, Update(id, req));
      Updated(before, id, req, c.env.defaultIface);
      if !works { return Err(Internal); }
      ghost var edited := forwarder.Abs();
      forwarder.ApplyNow(env, accepts);
      NextKeepsInvariant(edited, Commit(env, accepts));
      if !accepts { return Err(NftFailure); }
      LiveIffResolved(edited, id, req, env);
      if env.defaultIface == c.env.defaultIface { CommittedTakesEffect(edited, id, req, c, env, Next(edited, Commit(env, true))); }
      return Ok(());
    }

    /** `add_forward`. The check does not look at other native forwards. */
    method AddForward(req: Request, c: Context, env: Env, works: bool, accepts: bool) returns (r: Result<nat, Error>)
      requires Invariant(forwarder.Abs())
      modifies forwarder
      ensures Invariant(forwarder.Abs())
      ensures r.Err? && r.error in {BadRequest, Conflict} <==> CheckRequest(req, c).Some?
      ensures CheckRequest(req, c).Some? ==> r == Err(CheckRequest(req, c).value)
      ensures CheckRequest(req, c).None? ==>
        if !works then r == Err(Internal) else if !accepts then r == Err(NftFailure) else r.Ok?
      ensures r.Err? && r.error in {BadRequest, Conflict} ==> forwarder.Abs() == old(forwarder.Abs())
      ensures r.Err? && r.error !in {BadRequest, Conflict} ==> forwarder.Abs() == Next(old(forwarder.Abs()), Add(req))
      ensures r.Ok? ==>
        && r.value == old(forwarder.nextId)
        && forwarder.Abs() == Next(Next(old(forwarder.Abs()), Add(req)), Commit(env, true))
        && GetsWhatIsLeft(old(forwarder.Abs()), forwarder.table, req, env)
    {
      var bad := CheckRequest(req, c);
      if bad.Some? { return Err(bad.value); }
      ghost var before := forwarder.Abs();
      var id := forwarder.AddForward(req);
      NextKeepsInvariant(before, Add(req));
      if !works { return Err(Internal); }
      ghost var added := forwarder.Abs();
      forwarder.ApplyNow(env, accepts);
      NextKeepsInvariant(added, Commit(env, accepts));
      if !accepts { return Err(NftFailure); }
      AddedGetsWhatIsLeft(before, req, env, forwarder.table);
      return Ok(id);
    }
  }

  /** The forwards an added one leaves in place, as resolved with it. */
  function Earlier(s: State, req: Request, env: Env): seq<ResolvedForward> {
    Fwds(ResolveList(WithoutListen(s.forwards, req.iface, req.listen), s.cache, env))
  }

  /** The port goes to the first of the earlier forwards that serves it, else to `fwd`. */
  ghost predicate GoesToFirst(table: seq<ResolvedForward>, earlier: seq<ResolvedForward>, fwd: ResolvedForward, proto: L4Proto, port: Port) {
    Translate(PreRules(table), fwd.iface, proto, port) ==
      if exists g :: g in earlier && Serves(g, fwd.iface, proto, port)
      then Translate(PreRules(earlier), fwd.iface, proto, port)
      else Some(Target(fwd.remoteIp, fwd.destPort))
  }

  /** If the added forward resolves, it gets the ports that no earlier forward serves, and only those. */
  ghost predicate GetsWhatIsLeft(s: State, table: seq<Live>, req: Request, env: Env) {
    forall fwd, proto, port: Port | ResolveOne(req, None, env) == Some(fwd) && Serves(fwd, fwd.iface, proto, port) ::
      GoesToFirst(Fwds(table), Earlier(s, req, env), fwd, proto, port)
  }

  lemma AddedGetsWhatIsLeft(s: State, req: Request, env: Env, table: seq<Live>)
    requires s.nextId !in s.cache
    requires table == ResolveList(Next(s, Add(req)).forwards, Next(s, Add(req)).cache, env)
    ensures GetsWhatIsLeft(s, table, req, env)
  {
    forall fwd, proto, port: Port | ResolveOne(req, None, env) == Some(fwd) && Serves(fwd, fwd.iface, proto, port)
      ensures GoesToFirst(Fwds(table), Earlier(s, req, env), fwd, proto, port)
    {
      FreshLookup(s.cache, s.nextId);
      AddedDecidesIff(s, req, env, fwd, proto, port, Next(s, Add(req)));
    }
  }

  lemma FreshLookup(cache: map<nat, Ip>, id: nat)
    requires id !in cache
    ensures Lookup(cache, id) == None
  {
  }

  lemma LiveIffResolved(s: State, id: nat, req: Request, env: Env)
    requires Invariant(s) && ForwardRule(id, req) in s.forwards
    ensures id in Next(s, Commit(env, true)).cache <==> ResolveOne(req, Lookup(s.cache, id), env).Some?
  {
    if id in Next(s, Commit(env, true)).cache {
      var fwd := CachedForward(s, id, req, env);
    }
    if ResolveOne(req, Lookup(s.cache, id), env).Some? {
      CommitServes(s, env, ForwardRule(id, req));
    }
  }

  /** Where the forward is live, all its ports go to its own target, and no rule of the dnat tool,
      which would come first, claims any of them. */
  ghost predicate TakesEffect(s: State, id: nat, req: Request, c: Context) {
    id in s.cache && EffectiveIface(req, c.env.defaultIface).Some? ==>
      var iface := EffectiveIface(req, c.env.defaultIface).value;
      forall port: Port, proto | req.listen.Contains(port) && proto in L4Protos(req.proto) ::
        && Translate(PreRules(Fwds(s.table)), iface, proto, port) == Some(Target(s.cache[id], req.destPort))
        && (c.dnatRules.Some? ==> Unclaimed(c.dnatRules.value, iface, port))
  }

  lemma Updated(s: State, id: nat, req: Request, defaultIface: Option<string>)
    requires exists f :: f in s.forwards && f.id == id
    requires !HasClash(s.forwards, id, req, defaultIface)
    ensures
      var t := Next(s, Update(id, req));
      ForwardRule(id, req) in t.forwards && !HasClash(t.forwards, id, req, defaultIface)
  {
    var i := IndexOfId(s.forwards, id).value;
    var t := Next(s, Update(id, req));
    assert t.forwards[i] == ForwardRule(id, req);
    forall f | f in t.forwards ensures f in s.forwards || f == ForwardRule(id, req) {}
  }

  lemma CommittedTakesEffect(s: State, id: nat, req: Request, c: Context, env: Env, t: State)
    requires Invariant(s) && ForwardRule(id, req) in s.forwards && env.defaultIface == c.env.defaultIface
    requires CheckRequest(req, c).None? && !HasClash(s.forwards, id, req, c.env.defaultIface)
    requires t.table == ResolveList(s.forwards, s.cache, env) && t.cache == CacheOf(t.table)
    ensures TakesEffect(t, id, req, c)
  {
    if id in t.cache {
      var fwd := CachedForward(s, id, req, env);
      var table := ResolveList(s.forwards, s.cache, env);
      assert t.table == table && t.cache[id] == fwd.remoteIp;
      ClashFree(s, id, req, fwd.iface, env.defaultIface);
      forall port: Port, proto | req.listen.Contains(port) && proto in L4Protos(req.proto)
        ensures Translate(PreRules(Fwds(table)), fwd.iface, proto, port) == Some(Target(fwd.remoteIp, req.destPort))
      {
        CommittedForwardDecides(s, env, id, req, fwd, proto, port);
      }
      forall port: Port | req.listen.Contains(port) && c.dnatRules.Some? ensures Unclaimed(c.dnatRules.value, fwd.iface, port) {
        CheckedIsUnclaimed(req, c, port);
      }
    }
  }

  lemma ClashFree(s: State, id: nat, req: Request, iface: string, defaultIface: Option<string>)
    requires !HasClash(s.forwards, id, req, defaultIface) && EffectiveIface(req, defaultIface) == Some(iface)
    ensures forall f | f in s.forwards && f.id != id :: !Clashes(f, Some(iface), req.listen, defaultIface)
  {
  }

  ghost predicate Unclaimed(rules: seq<DnatRule>, iface: string, port: Port) {
    forall d | d in rules :: !(d.iface == iface && d.listen.Contains(port))
  }

  lemma CheckedIsUnclaimed(req: Request, c: Context, port: Port)
    requires CheckRequest(req, c).None? && c.dnatRules.Some? && req.listen.Contains(port)
    requires EffectiveIface(req, c.env.defaultIface).Some?
    ensures Unclaimed(c.dnatRules.value, EffectiveIface(req, c.env.defaultIface).value, port)
  {
  }

  lemma CachedForward(s: State, id: nat, req: Request, env: Env) returns (fwd: ResolvedForward)
    requires Invariant(s) && ForwardRule(id, req) in s.forwards && id in Next(s, Commit(env, true)).cache
    ensures ResolveOne(req, Lookup(s.cache, id), env) == Some(fwd)
    ensures fwd.remoteIp == Next(s, Commit(env, true)).cache[id]
    ensures EffectiveIface(req, env.defaultIface) == Some(fwd.iface)
  {
    var table := ResolveList(s.forwards, s.cache, env);
    CacheOfTable(table, id);
    var l :| l in table && l.id == id && l.fwd.remoteIp == CacheOf(table)[id];
    ResolveListMembers(s.forwards, s.cache, env);
    var f :| f in s.forwards && l.id == f.id && ResolveOne(f.req, Lookup(s.cache, f.id), env) == Some(l.fwd);
    SameId(s.forwards, f, ForwardRule(id, req));
    fwd := l.fwd;
  }

  /** An added forward gets a port exactly when no forward already stored, other than one it replaces,
      serves that port: adding checks for the same ports of the same interface, not for an overlap. */
  lemma AddedDecidesIff(s: State, req: Request, env: Env, fwd: ResolvedForward, proto: L4Proto, port: Port, added: State)
    requires ResolveOne(req, Lookup(s.cache, s.nextId), env) == Some(fwd) && Serves(fwd, fwd.iface, proto, port)
    requires added.forwards == WithoutListen(s.forwards, req.iface, req.listen) + [ForwardRule(s.nextId, req)] && added.cache == s.cache
    ensures GoesToFirst(Fwds(ResolveList(added.forwards, added.cache, env)), Earlier(s, req, env), fwd, proto, port)
  {
    var rules := WithoutListen(s.forwards, req.iface, req.listen);
    var all := rules + [ForwardRule(s.nextId, req)];
    assert all[..|all| - 1] == rules;
    var before := ResolveList(rules, s.cache, env);
    var after := before + [Live(s.nextId, fwd)];
    assert ResolveList(all, s.cache, env) == after;
    assert after[..|after| - 1] == before;
    LastForwardDecides(Fwds(before), fwd, fwd.iface, proto, port);
  }
}
