/** The migration of one dnat rule to a native forward (`migrate_dnat_forward`, `dnat/mod.rs`): the
    native rule is built at priority -90 before the dnat rule at -100 is withdrawn. */
module Migration {
  import opened Wrappers
  import opened Ports
  import opened Forwards
  import opened Nat
  import opened Text
  import opened DnatConf

  /** A rule of the dnat tool's own table; it always covers TCP and UDP. */
  datatype DnatLive = DnatLive(rule: DnatRule, ip: Ip)

  /** The table the tool builds from its conf: the rules whose host it can resolve, in order. */
  function DnatApplied(rules: seq<DnatRule>, resolve: string -> Option<Ip>): (t: seq<DnatLive>)
    ensures forall l | l in t :: l.rule in rules
  {
    if rules == [] then []
    else
      var rest := DnatApplied(rules[1..], resolve);
      assert rules == [rules[0]] + rules[1..];
      match resolve(rules[0].remoteHost)
      case Some(ip) => [DnatLive(rules[0], ip)] + rest
      case None => rest
  }

  /** Rule by rule and in order: each that resolves with its address, the others not at all. */
  lemma {:induction false} AppliedInOrder(a: seq<DnatRule>, b: seq<DnatRule>, resolve: string -> Option<Ip>)
    ensures DnatApplied(a + b, resolve) == DnatApplied(a, resolve) + DnatApplied(b, resolve)
    ensures |a| == 1 ==>
      DnatApplied(a, resolve) == if resolve(a[0].remoteHost).Some? then [DnatLive(a[0], resolve(a[0].remoteHost).value)] else []
  {
    if a == [] {
      assert a + b == b;
    } else {
      assert (a + b)[0] == a[0] && (a + b)[1..] == a[1..] + b;
      AppliedInOrder(a[1..], b, resolve);
      if |a| == 1 { assert a[1..] == []; }
    }
  }

  function DnatTranslate(t: seq<DnatLive>, iface: string, port: Port): Option<Target> {
    if t == [] then None
    else if t[0].rule.iface == iface && t[0].rule.listen.Contains(port) then Some(Target(t[0].ip, t[0].rule.destPort))
    else DnatTranslate(t[1..], iface, port)
  }

  lemma {:induction false} DnatTranslateNone(t: seq<DnatLive>, iface: string, port: Port)
    requires forall l | l in t :: !(l.rule.iface == iface && l.rule.listen.Contains(port))
    ensures DnatTranslate(t, iface, port) == None
  {
    if t != [] {
      assert forall l | l in t[1..] :: l in t;
      DnatTranslateNone(t[1..], iface, port);
    }
  }

  /** Everything the migration touches. */
  datatype Snapshot = Snapshot(native: State, conf: string, dnat: seq<DnatLive>)

  function NativeTarget(s: Snapshot, iface: string, proto: L4Proto, port: Port): Option<Target> {
    Translate(PreRules(Fwds(s.native.table)), iface, proto, port)
  }

  /** Prerouting: the dnat table comes first, the native one sees what it left alone. */
  function TargetOf(s: Snapshot, iface: string, proto: L4Proto, port: Port): Option<Target> {
    var d := DnatTranslate(s.dnat, iface, port);
    if d.Some? then d else NativeTarget(s, iface, proto, port)
  }

  /** Whatever of the rule's traffic was translated at `before` is translated at `s`. */
  ghost predicate NoGap(rule: DnatRule, before: Snapshot, s: Snapshot) {
    forall port: Port, proto | rule.listen.Contains(port) && DnatTranslate(before.dnat, rule.iface, port).Some? ::
      TargetOf(s, rule.iface, proto, port).Some?
  }

  ghost predicate AllTranslated(rule: DnatRule, before: Snapshot, trace: seq<Snapshot>) {
    forall s | s in trace :: NoGap(rule, before, s)
  }

  function FindRule(rules: seq<DnatRule>, key: string): (r: Option<DnatRule>)
    ensures r.Some? ==> r.value in rules && PrefixKey(r.value) == key
    ensures r.None? ==> !HasKey(rules, key)
  {
    if rules == [] then None
    else
      assert rules == [rules[0]] + rules[1..];
      if PrefixKey(rules[0]) == key then Some(rules[0]) else FindRule(rules[1..], key)
  }

  /** `find_rule_by_prefix`. */
  function RuleFor(conf: string, key: string): (r: Option<DnatRule>)
    ensures r.Some? <==> HasKey(ParseConf(conf), key)
    ensures r.Some? ==> r.value in ParseConf(conf) && PrefixKey(r.value) == key
  {
    FindRule(ParseConf(conf), key)
  }

  /** `dnat_rule_to_add_request`. */
  function ToRequest(r: DnatRule): Request {
    Request(Both, Some(r.iface), r.listen, r.remoteHost, r.destPort, r.source)
  }

  predicate Clobbers(f: ForwardRule, rule: DnatRule, defaultIface: Option<string>) {
    Clashes(f, Some(rule.iface), rule.listen, defaultIface)
  }

  datatype Error = NotFound | BadPorts | BadTarget | Conflict | SaveFailed | NftRefused | NotLive | StillInDnat

  /** Why a rule cannot be migrated: ports a native rule cannot express, an unusable interface name
      or literal target, or a native forward already on those ports of that interface. */
  function Refusal(rule: DnatRule, forwards: seq<ForwardRule>, literal: string -> Option<Ip>, defaultIface: Option<string>): (r: Option<Error>)
    ensures r.Some? ==> r.value in {BadPorts, BadTarget, Conflict}
    ensures r.None? ==> ValidIfaceName(rule.iface) && NoneClobbers(forwards, rule, defaultIface)
  {
    if !ValidPorts(rule.listen, rule.destPort) then Some(BadPorts)
    else if !ValidIfaceName(rule.iface) then Some(BadTarget)
    else if literal(rule.remoteHost).Some? && Forbidden(literal(rule.remoteHost).value) then Some(BadTarget)
    else if exists f | f in forwards :: Clobbers(f, rule, defaultIface) then Some(Conflict)
    else None
  }

  /** Which refusal: the ranges first, then name and literal, then a native forward with a port of the rule
      on its interface. */
  lemma RefusalIff(rule: DnatRule, forwards: seq<ForwardRule>, literal: string -> Option<Ip>, defaultIface: Option<string>)
    requires forall f | f in forwards :: f.req.listen.IsValid()
    ensures
      var r := Refusal(rule, forwards, literal, defaultIface);
      var bad := rule.listen.start > rule.listen.end || rule.destPort.start > rule.destPort.end
        || (rule.destPort.start != rule.destPort.end && rule.listen.end - rule.listen.start != rule.destPort.end - rule.destPort.start);
      var unusable := !ValidIfaceName(rule.iface) || (literal(rule.remoteHost).Some? && Forbidden(literal(rule.remoteHost).value));
      && (r == Some(BadPorts) <==> bad)
      && (r == Some(BadTarget) <==> !bad && unusable)
      && (r == Some(Conflict) <==> !bad && !unusable && exists f, p: Port | f in forwards ::
            EffectiveIface(f.req, defaultIface) == Some(rule.iface) && f.req.listen.Contains(p) && rule.listen.Contains(p))
  {
    forall f | f in forwards && rule.listen.IsValid()
      ensures f.req.listen.Overlaps(rule.listen) <==> exists p: Port :: f.req.listen.Contains(p) && rule.listen.Contains(p)
    {
      OverlapsIffSharedPort(f.req.listen, rule.listen);
    }
  }

  class Host {
    const forwarder: Forwarder
    var conf: string
    var dnat: seq<DnatLive>

    constructor (forwarder: Forwarder, conf: string, dnat: seq<DnatLive>)
      ensures this.forwarder == forwarder && this.conf == conf && this.dnat == dnat
    {
      this.forwarder, this.conf, this.dnat := forwarder, conf, dnat;
    }

    function Abs(): Snapshot
      reads this, forwarder
    {
      Snapshot(forwarder.Abs(), conf, dnat)
    }

    /** What the resolver loop and other handlers do to the forwards meanwhile: every event is carried
        out. */
    method Others(evs: seq<Event>) returns (ghost steps: seq<Snapshot>)
      requires Invariant(forwarder.Abs())
      modifies forwarder
      ensures Invariant(forwarder.Abs())
      ensures forwarder.Abs() == Exec(old(forwarder.Abs()), evs)
      ensures AreSteps(steps, old(forwarder.Abs()), evs, conf, dnat) && SameTable(steps, dnat)
    {
      steps := [];
      ghost var start := forwarder.Abs();
      for i := 0 to |evs|
        invariant Invariant(forwarder.Abs())
        invariant forwarder.Abs() == Exec(start, evs[..i])
        invariant AreSteps(steps, start, evs[..i], conf, dnat)
      {
        NextKeepsInvariant(forwarder.Abs(), evs[i]);
        forwarder.Do(evs[i]);
        ExecStep(start, evs, i);
        OneMoreStep(steps, start, evs, i, conf, dnat);
        steps := steps + [Abs()];
      }
      assert evs[..|evs|] == evs;
    }

    /** The locked half of `remove_prefix`. */
    method RewriteConf(key: string, luck: Luck) returns (r: Result<bool, ()>)
      modifies this`conf
      ensures r == if luck.locks && !HasKey(ParseConf(old(conf)), key) then Ok(false) else if luck.locks && luck.rewrites then Ok(true) else Err(())
      ensures !(r.Ok? && r.value) ==> conf == old(conf)
      ensures r.Ok? && r.value ==> ParseConf(conf) == Drop(ParseConf(old(conf)), key)
    {
      if !luck.locks { return Err(()); }
      var text, removed := RemoveRuleLines(conf, key);
      if !removed { return Ok(false); }
      if !luck.rewrites { return Err(()); }
      conf := text;
      r := Ok(true);
    }

    /** `remove_prefix`: rewrite the conf under its lock, then trigger an apply, whose failure only
        means that the tool catches up later. `during` happens in between. */
    method RemovePrefix(key: string, resolve: string -> Option<Ip>, during: seq<Event>, luck: Luck)
      returns (r: Result<bool, ()>, ghost steps: seq<Snapshot>)
      requires Invariant(forwarder.Abs())
      modifies this, forwarder
      ensures Invariant(forwarder.Abs())
      ensures r == if luck.locks && !HasKey(ParseConf(old(conf)), key) then Ok(false) else if luck.locks && luck.rewrites then Ok(true) else Err(())
      ensures r.Err? ==> Abs() == old(Abs())
      ensures r.Ok? && !r.value ==> Abs() == old(Abs())
      ensures r.Ok? && r.value ==>
        && ParseConf(conf) == Drop(ParseConf(old(conf)), key)
        && dnat == (if luck.applies then DnatApplied(ParseConf(conf), resolve) else old(dnat))
        && forwarder.Abs() == Exec(old(forwarder.Abs()), during)
        && Visits(steps, old(forwarder.Abs()), during)
      ensures TraceOf(steps, Abs(), old(dnat))
    {
      r := RewriteConf(key, luck);
      steps := [Abs()];
      if r.Err? || !r.value { return; }
      ghost var start, table := forwarder.Abs(), dnat;
      ghost var meanwhile := Others(during);
      VisitsSteps(steps, start, meanwhile, during, conf, dnat);
      steps := steps + meanwhile;
      if luck.applies { dnat := DnatApplied(ParseConf(conf), resolve); }
      TraceJoins(steps, [Abs()], Abs(), table);
      steps := steps + [Abs()];
    }

    /** Add and save the forward. */
    method Introduce(rule: DnatRule, others: Interleaving, saves: bool) returns (id: nat, ghost steps: seq<Snapshot>)
      requires Invariant(forwarder.Abs())
      modifies forwarder
      ensures Invariant(forwarder.Abs())
      ensures id == NewId(old(forwarder.Abs()), others)
      ensures forwarder.Abs() == Exec(old(forwarder.Abs()),
        others.beforeAdd + [Add(ToRequest(rule))] + if saves then others.beforeCommit else [])
      ensures NativeOnly(steps, Abs())
      ensures saves ==> Visits(steps, old(forwarder.Abs()), others.beforeAdd + [Add(ToRequest(rule))] + others.beforeCommit)
    {
      ghost var start := forwarder.Abs();
      AddedThere(start, rule, others);
      steps := Others(others.beforeAdd);
      ghost var before := Abs();
      id := forwarder.AddForward(ToRequest(rule));
      NextKeepsInvariant(before.native, Add(ToRequest(rule)));
      StepsAreNative(steps, start, others.beforeAdd, Abs());
      VisitsOne(steps, start, others.beforeAdd, Add(ToRequest(rule)), Abs());
      steps := steps + [Abs()];
      assert others.beforeAdd + [Add(ToRequest(rule))] + [] == others.beforeAdd + [Add(ToRequest(rule))];
      ExecSnoc(start, others.beforeAdd, Add(ToRequest(rule)));
      if saves {
        ghost var more, added := [], Abs();
        more := Others(others.beforeCommit);
        StepsAreNative(more, added.native, others.beforeCommit, Abs());
        NativeJoins(steps, added, more + [Abs()], Abs());
        VisitsMore(steps, start, others.beforeAdd + [Add(ToRequest(rule))], more, others.beforeCommit, Abs());
        steps := steps + (more + [Abs()]);
      }
    }

    /** Commit the forward and check that it came alive, or take it back. */
    method CommitAndCheck(id: nat, env: Env, others: Interleaving, luck: Luck) returns (r: Result<nat, Error>, ghost steps: seq<Snapshot>)
      requires Invariant(forwarder.Abs())
      modifies forwarder
      ensures Invariant(forwarder.Abs())
      ensures NativeOnly(steps, Abs())
      ensures (r, forwarder.Abs()) == CommitEnd(old(forwarder.Abs()), id, env, others, luck)
      ensures r.Ok? ==>
        Visits(steps, old(forwarder.Abs()), [Commit(env, true)] + others.beforeCheck)
    {
      ghost var added := forwarder.Abs();
      ExecSnoc(added, [], Commit(env, true));
      assert [] + [Commit(env, true)] == [Commit(env, true)];
      forwarder.ApplyNow(env, luck.accepts);
      NextKeepsInvariant(added, Commit(env, luck.accepts));
      steps := [Abs()];
      if !luck.accepts { return Err(NftRefused), steps; }
      VisitsOne([], added, [], Commit(env, true), Abs());
      ghost var first := steps;
      ghost var meanwhile := Others(others.beforeCheck);
      VisitsMore(first, added, [Commit(env, true)], meanwhile, others.beforeCheck, Abs());
      steps := first + (meanwhile + [Abs()]);
      if id in forwarder.cache { return Ok(id), steps; }
      ghost var checked := Abs();
      ghost var undone := TakeBack(id, env, luck.acceptsAgain);
      NativeJoins(steps, checked, undone, Abs());
      return Err(NotLive), steps + undone;
    }

    /** The native half: add the forward, commit, and take it back if it did not come alive. */
    method BuildNative(rule: DnatRule, env: Env, others: Interleaving, luck: Luck) returns (r: Result<nat, Error>, ghost trace: seq<Snapshot>)
      requires Invariant(forwarder.Abs())
      modifies forwarder
      ensures Invariant(forwarder.Abs())
      ensures NativeOnly(trace, Abs())
      ensures (r, forwarder.Abs()) == BuildEnd(old(forwarder.Abs()), rule, env, others, luck)
      ensures r.Ok? ==>
        Visits(trace, old(forwarder.Abs()), UpToCheck(rule, env, others))
    {
      ghost var start := forwarder.Abs();
      BuildEnds(start, rule, env, others, luck);
      var id;
      id, trace := Introduce(rule, others, luck.saves);
      if !luck.saves { return Err(SaveFailed), trace; }
      ghost var steps, added := [], Abs();
      r, steps := CommitAndCheck(id, env, others, luck);
      NativeJoins(trace, added, steps, Abs());
      if r.Ok? { VisitsToCheck(trace, start, rule, env, others, steps); }
      trace := trace + steps;
    }

    /** The rollback of a forward that did not come alive. */
    method TakeBack(id: nat, env: Env, accepts: bool) returns (ghost steps: seq<Snapshot>)
      requires Invariant(forwarder.Abs())
      modifies forwarder
      ensures Invariant(forwarder.Abs())
      ensures NativeOnly(steps, Abs())
      ensures forwarder.Abs() == Exec(old(forwarder.Abs()), [Remove(id), Commit(env, accepts)])
      ensures forall f | f in forwarder.forwards :: f.id != id
    {
      ghost var committed := forwarder.Abs();
      TwoEvents(committed, Remove(id), Commit(env, accepts));
      var gone := forwarder.RemoveForward(id);
      NextKeepsInvariant(committed, Remove(id));
      ghost var rolled := forwarder.Abs();
      steps := [Abs()];
      forwarder.ApplyNow(env, accepts);
      NextKeepsInvariant(rolled, Commit(env, accepts));
      steps := steps + [Abs()];
    }

    /** Take the rule out of the dnat side. */
    method Withdraw(key: string, id: nat, resolve: string -> Option<Ip>, others: Interleaving, luck: Luck)
      returns (r: Result<nat, Error>, ghost steps: seq<Snapshot>)
      requires Invariant(forwarder.Abs()) && HasKey(ParseConf(conf), key)
      modifies this, forwarder
      ensures Invariant(forwarder.Abs())
      ensures r == if luck.locks && luck.rewrites then Ok(id) else Err(StillInDnat)
      ensures r.Err? ==> conf == old(conf) && dnat == old(dnat) && forwarder.Abs() == Exec(old(forwarder.Abs()), others.beforeRemoval)
      ensures r.Ok? ==>
        && ParseConf(conf) == Drop(ParseConf(old(conf)), key)
        && dnat == (if luck.applies then DnatApplied(ParseConf(conf), resolve) else old(dnat))
        && forwarder.Abs() == Exec(old(forwarder.Abs()), others.beforeRemoval + others.beforeApply)
        && Visits(steps, old(forwarder.Abs()), others.beforeRemoval + others.beforeApply)
      ensures TraceOf(steps, Abs(), old(dnat))
    {
      ghost var start := forwarder.Abs();
      ExecAppend(forwarder.Abs(), others.beforeRemoval, others.beforeApply);
      ghost var meanwhile := Others(others.beforeRemoval);
      ghost var table := dnat;
      var taken, removal := RemovePrefix(key, resolve, others.beforeApply, luck);
      TraceJoins(meanwhile, removal, Abs(), table);
      VisitsSteps([], start, meanwhile, others.beforeRemoval, old(conf), table);
      assert [] + meanwhile == meanwhile;
      if taken.Ok? { VisitsJoin(meanwhile, start, others.beforeRemoval, removal, others.beforeApply); }
      steps := meanwhile + removal;
      r := if taken.Ok? then Ok(id) else Err(StillInDnat);
    }

    /** Build the native side, then withdraw the dnat side. */
    method TakeOver(rule: DnatRule, key: string, env: Env, resolve: string -> Option<Ip>, others: Interleaving, luck: Luck)
      returns (r: Result<nat, Error>, ghost steps: seq<Snapshot>)
      requires Invariant(forwarder.Abs()) && HasKey(ParseConf(conf), key)
      modifies this, forwarder
      ensures Invariant(forwarder.Abs())
      ensures (r, forwarder.Abs()) == MigrationEnd(old(forwarder.Abs()), rule, env, others, luck)
      ensures r.Err? ==> conf == old(conf)
      ensures dnat == if r.Ok? && luck.applies then DnatApplied(ParseConf(conf), resolve) else old(dnat)
      ensures r.Ok? ==> Migrated(old(Abs()), Abs(), rule, key, env, resolve, others, r.value)
      ensures r.Ok? ==> Visits(steps, old(forwarder.Abs()), AllEvents(rule, env, others))
      ensures TraceOf(steps, Abs(), old(dnat))
    {
      ghost var start, table := forwarder.Abs(), dnat;
      var built;
      built, steps := BuildNative(rule, env, others, luck);
      NativeIsSameTable(steps, Abs());
      if built.Err? { return built, steps; }
      ghost var removal;
      ExecAppend(start, UpToCheck(rule, env, others), others.beforeRemoval + others.beforeApply);
      r, removal := Withdraw(key, built.value, resolve, others, luck);
      TraceJoins(steps, removal, Abs(), table);
      if r.Ok? { VisitsJoin(steps, start, UpToCheck(rule, env, others), removal, others.beforeRemoval + others.beforeApply); }
      steps := steps + removal;
    }

    /** The request for a rule that was looked up. */
    method MigrateFound(
      found: Option<DnatRule>, key: string, literal: string -> Option<Ip>, route: Option<string>,
      env: Env, resolve: string -> Option<Ip>, others: Interleaving, luck: Luck)
      returns (r: Result<nat, Error>, ghost trace: seq<Snapshot>)
      requires Invariant(forwarder.Abs()) && (found.Some? ==> HasKey(ParseConf(conf), key))
      modifies this, forwarder
      ensures Invariant(forwarder.Abs())
      ensures trace != [] && trace[0] == old(Abs()) && TraceOf(trace, Abs(), old(dnat))
      ensures r == Err(NotFound) <==> found.None?
      ensures found.Some? ==>
        var refusal := Refusal(found.value, old(forwarder.forwards), literal, route);
        if refusal.Some? then r == Err(refusal.value) && Abs() == old(Abs())
        else (r, forwarder.Abs()) == MigrationEnd(old(forwarder.Abs()), found.value, env, others, luck)
      ensures r.Err? ==> conf == old(conf)
      ensures dnat == if r.Ok? && luck.applies then DnatApplied(ParseConf(conf), resolve) else old(dnat)
      ensures r.Ok? ==> Migrated(old(Abs()), Abs(), found.value, key, env, resolve, others, r.value)
      ensures r.Ok? ==> Visits(trace, old(forwarder.Abs()), AllEvents(found.value, env, others))
    {
      trace := [Abs()];
      if found.None? { return Err(NotFound), trace; }
      var refusal := Refusal(found.value, forwarder.forwards, literal, route);
      if refusal.Some? { return Err(refusal.value), trace; }
      ghost var steps, table, before := [], dnat, forwarder.Abs();
      r, steps := TakeOver(found.value, key, env, resolve, others, luck);
      TraceJoins(trace, steps, Abs(), table);
      if r.Ok? { VisitsBehind(trace, steps, before, AllEvents(found.value, env, others)); }
      trace := trace + steps;
    }

    /** `migrate_dnat_forward`. `route` is the default route's interface at the check, `env` what the
        commit meets, `luck` which steps work. The ghost trace lists the state after every step, the other threads' included. */
    method Migrate(
      key: string, present: bool, literal: string -> Option<Ip>, route: Option<string>,
      env: Env, resolve: string -> Option<Ip>, others: Interleaving, luck: Luck)
      returns (r: Result<nat, Error>, ghost trace: seq<Snapshot>)
      requires Invariant(forwarder.Abs())
      modifies this, forwarder
      ensures Invariant(forwarder.Abs())
      ensures trace != [] && trace[0] == old(Abs()) && trace[|trace| - 1] == Abs()
      ensures r == Err(NotFound) <==> !present || RuleFor(old(conf), key).None?
      // which refusal, exactly; and after that which end
      ensures present && RuleFor(old(conf), key).Some? ==>
        var refusal := Refusal(RuleFor(old(conf), key).value, old(forwarder.forwards), literal, route);
        if refusal.Some? then r == Err(refusal.value) && Abs() == old(Abs())
        else (r, forwarder.Abs()) == MigrationEnd(old(forwarder.Abs()), RuleFor(old(conf), key).value, env, others, luck)
      // an error leaves the dnat side as it was
      ensures r.Err? ==> conf == old(conf)
      ensures dnat == if r.Ok? && luck.applies then DnatApplied(ParseConf(conf), resolve) else old(dnat)
      // success: the conf without the key, and the native state that all the events lead to
      ensures r.Ok? ==> RuleFor(old(conf), key).Some?
      ensures r.Ok? ==> Migrated(old(Abs()), Abs(), RuleFor(old(conf), key).value, key, env, resolve, others, r.value)
      // the trace leaves out no state in between
      ensures r.Ok? ==> Visits(trace, old(forwarder.Abs()), AllEvents(RuleFor(old(conf), key).value, env, others))
      // no step before the last, and no error exit, leaves traffic of the rule untranslated, whatever
      // the others do; nor does the last if the tool has not applied
      ensures RuleFor(old(conf), key).Some? ==> AllTranslated(RuleFor(old(conf), key).value, old(Abs()), trace[..|trace| - 1])
      ensures RuleFor(old(conf), key).Some? && (r.Err? || dnat == old(dnat)) ==>
        AllTranslated(RuleFor(old(conf), key).value, old(Abs()), trace)
      // if the others are quiet for the new forward, no step does, and the rule is covered natively
      ensures r.Ok? && OthersQuiet(old(forwarder.Abs()), RuleFor(old(conf), key).value, env, others) ==>
        && Covered(forwarder.Abs(), r.value, RuleFor(old(conf), key).value)
        && Handed(forwarder.Abs(), r.value, RuleFor(old(conf), key).value, AllEvents(RuleFor(old(conf), key).value, env, others))
        && AllTranslated(RuleFor(old(conf), key).value, old(Abs()), trace)
      // and if nothing else happened meanwhile, all its ports go to the address found here
      ensures r.Ok? && others.Nothing() && route == env.defaultIface ==> Replaces(Abs(), RuleFor(old(conf), key).value, env)
    {
      var found := if present then RuleFor(conf, key) else None;
      ghost var wanted := RuleFor(conf, key);
      ghost var before := Abs();
      r, trace := MigrateFound(found, key, literal, route, env, resolve, others, luck);
      if wanted.Some? { UntouchedTranslates(wanted.value, before, trace, Abs()); }
      if r.Ok? { SuccessMeans(before, Abs(), wanted.value, key, env, resolve, others, r.value, trace, route); }
    }
  }

  /** The snapshots after each of the events. */
  ghost predicate AreSteps(steps: seq<Snapshot>, start: State, evs: seq<Event>, conf: string, dnat: seq<DnatLive>) {
    |steps| == |evs| && forall i | 0 <= i < |evs| :: steps[i] == Snapshot(Exec(start, evs[..i + 1]), conf, dnat)
  }

  lemma OneMoreStep(steps: seq<Snapshot>, start: State, evs: seq<Event>, i: nat, conf: string, dnat: seq<DnatLive>)
    requires i < |evs| && AreSteps(steps, start, evs[..i], conf, dnat)
    ensures AreSteps(steps + [Snapshot(Exec(start, evs[..i + 1]), conf, dnat)], start, evs[..i + 1], conf, dnat)
  {
    var a, b := evs[..i], evs[..i + 1];
    var more := steps + [Snapshot(Exec(start, b), conf, dnat)];
    forall j | 0 <= j < i ensures more[j] == Snapshot(Exec(start, b[..j + 1]), conf, dnat) {
      assert more[j] == steps[j] && a[..j + 1] == b[..j + 1];
    }
    assert b[..i + 1] == b;
  }

  /** What other threads do between the steps: before the forward is added, before its commit, before
      the liveness check, before the withdrawal, and between the new conf and the tool's apply. */
  datatype Interleaving = Interleaving(
    beforeAdd: seq<Event>, beforeCommit: seq<Event>, beforeCheck: seq<Event>, beforeRemoval: seq<Event>, beforeApply: seq<Event>)
  {
    predicate Nothing() {
      beforeAdd == [] && beforeCommit == [] && beforeCheck == [] && beforeRemoval == [] && beforeApply == []
    }
  }

  /** All that happens to the forwards up to the liveness check, and up to the end. */
  function UpToCheck(rule: DnatRule, env: Env, others: Interleaving): seq<Event> {
    others.beforeAdd + [Add(ToRequest(rule))] + others.beforeCommit + [Commit(env, true)] + others.beforeCheck
  }

  function AllEvents(rule: DnatRule, env: Env, others: Interleaving): seq<Event> {
    UpToCheck(rule, env, others) + (others.beforeRemoval + others.beforeApply)
  }

  /** Which of the migration's own steps work: saving the store, the commit, the one of a rollback, the lock
      of the tool's file, its rewriting, and the tool's apply, which nobody waits for. */
  datatype Luck = Luck(saves: bool, accepts: bool, acceptsAgain: bool, locks: bool, rewrites: bool, applies: bool)

  /** How the native half ends, and what is then in store and kernel. A forward that did not come alive is
      removed again. */
  function BuildEnd(start: State, rule: DnatRule, env: Env, others: Interleaving, luck: Luck): (Result<nat, Error>, State) {
    var id, checked := NewId(start, others), Exec(start, UpToCheck(rule, env, others));
    if !luck.saves then (Err(SaveFailed), Exec(start, others.beforeAdd + [Add(ToRequest(rule))]))
    else if !luck.accepts then (Err(NftRefused), Exec(start, others.beforeAdd + [Add(ToRequest(rule))] + others.beforeCommit))
    else if id in checked.cache then (Ok(id), checked)
    else (Err(NotLive), Exec(start, UpToCheck(rule, env, others) + [Remove(id), Commit(env, luck.acceptsAgain)]))
  }

  /** The second part of that, from the added forward on. */
  function CommitEnd(added: State, id: nat, env: Env, others: Interleaving, luck: Luck): (Result<nat, Error>, State) {
    var checked := Exec(Next(added, Commit(env, true)), others.beforeCheck);
    if !luck.accepts then (Err(NftRefused), added)
    else if id in checked.cache then (Ok(id), checked)
    else (Err(NotLive), Exec(checked, [Remove(id), Commit(env, luck.acceptsAgain)]))
  }

  lemma BuildEnds(start: State, rule: DnatRule, env: Env, others: Interleaving, luck: Luck)
    ensures
      var added := Exec(start, others.beforeAdd + [Add(ToRequest(rule))] + if luck.saves then others.beforeCommit else []);
      BuildEnd(start, rule, env, others, luck) ==
        if luck.saves then CommitEnd(added, NewId(start, others), env, others, luck) else (Err(SaveFailed), added)
  {
    if luck.saves {
      CheckFollowsCommit(start, rule, env, others);
      ExecAppend(start, UpToCheck(rule, env, others), [Remove(NewId(start, others)), Commit(env, luck.acceptsAgain)]);
    } else {
      var upTo := others.beforeAdd + [Add(ToRequest(rule))];
      assert upTo + [] == upTo;
    }
  }

  function MigrationEnd(start: State, rule: DnatRule, env: Env, others: Interleaving, luck: Luck): (Result<nat, Error>, State) {
    var (built, s) := BuildEnd(start, rule, env, others, luck);
    if built.Err? then (built, s)
    else if luck.locks && luck.rewrites then (built, Exec(start, AllEvents(rule, env, others)))
    else (Err(StillInDnat), Exec(s, others.beforeRemoval))
  }

  lemma TwoEvents(s: State, a: Event, b: Event)
    ensures Exec(s, [a, b]) == Next(Next(s, a), b)
  {
    assert [a, b][..1] == [a] && [a][..0] == [];
    assert Exec(s, [a]) == Next(s, a);
  }

  /** So a migration whose forward did not come alive, and one whose store could not be saved or whose
      table was refused, can be told apart by the forward: only the first takes it back. */
  lemma TakenBackIff(start: State, rule: DnatRule, env: Env, others: Interleaving, luck: Luck)
    requires Invariant(start) && others.beforeCommit == []
    ensures
      var (r, s) := BuildEnd(start, rule, env, others, luck);
      r.Err? ==> ((forall f | f in s.forwards :: f.id != NewId(start, others)) <==> r == Err(NotLive))
  {
    var (r, s) := BuildEnd(start, rule, env, others, luck);
    var add, id := Add(ToRequest(rule)), NewId(start, others);
    ExecSnoc(start, others.beforeAdd, add);
    assert others.beforeAdd + [add] + [] == others.beforeAdd + [add];
    var added := Exec(start, others.beforeAdd + [add]);
    assert added.forwards[|added.forwards| - 1] == ForwardRule(id, ToRequest(rule));
    if r == Err(NotLive) {
      ExecAppend(start, UpToCheck(rule, env, others), [Remove(id), Commit(env, luck.acceptsAgain)]);
      TwoEvents(Exec(start, UpToCheck(rule, env, others)), Remove(id), Commit(env, luck.acceptsAgain));
    }
  }

  lemma AddedThere(start: State, rule: DnatRule, others: Interleaving)
    ensures Exec(start, others.beforeAdd + [Add(ToRequest(rule))] + others.beforeCommit) ==
      Exec(Next(Exec(start, others.beforeAdd), Add(ToRequest(rule))), others.beforeCommit)
  {
    ExecSnoc(start, others.beforeAdd, Add(ToRequest(rule)));
    ExecAppend(start, others.beforeAdd + [Add(ToRequest(rule))], others.beforeCommit);
  }

  lemma {:induction false} CheckFollowsCommit(start: State, rule: DnatRule, env: Env, others: Interleaving)
    ensures Exec(start, UpToCheck(rule, env, others)) ==
      Exec(Next(Exec(start, others.beforeAdd + [Add(ToRequest(rule))] + others.beforeCommit), Commit(env, true)), others.beforeCheck)
  {
    var soFar := others.beforeAdd + [Add(ToRequest(rule))] + others.beforeCommit;
    ExecSnoc(start, soFar, Commit(env, true));
    ExecAppend(start, soFar + [Commit(env, true)], others.beforeCheck);
  }

  function NewId(start: State, others: Interleaving): nat {
    Exec(start, others.beforeAdd).nextId
  }

  /** Every event of another thread after the add is quiet for the new forward, at the state it meets. */
  ghost predicate OthersQuiet(start: State, rule: DnatRule, env: Env, others: Interleaving) {
    QuietBut(start, AllEvents(rule, env, others), |others.beforeAdd| + 1, |others.beforeAdd| + 1 + |others.beforeCommit|, NewId(start, others))
  }

  /** The events from `first` on are quiet, the own commit at `own` apart. */
  ghost predicate QuietBut(start: State, evs: seq<Event>, first: nat, own: nat, id: nat) {
    forall i | first <= i < |evs| && i != own :: Quiet(Exec(start, evs[..i]), evs[i], id)
  }

  /** The trace ends in `end`, and the dnat table changes at most in its last step. */
  ghost predicate TraceOf(trace: seq<Snapshot>, end: Snapshot, dnat: seq<DnatLive>) {
    && trace != [] && trace[|trace| - 1] == end
    && forall i | 0 <= i < |trace| - 1 :: trace[i].dnat == dnat
  }

  /** Steps that leave the dnat side as it is at the end. */
  ghost predicate NativeOnly(steps: seq<Snapshot>, end: Snapshot) {
    steps != [] && steps[|steps| - 1] == end && forall s | s in steps :: s.conf == end.conf && s.dnat == end.dnat
  }

  lemma NativeJoins(a: seq<Snapshot>, mid: Snapshot, b: seq<Snapshot>, end: Snapshot)
    requires NativeOnly(a, mid) && NativeOnly(b, end) && mid.conf == end.conf && mid.dnat == end.dnat
    ensures NativeOnly(a + b, end)
  {
  }

  /** The states after each of the events are among the steps. */
  ghost predicate Visits(steps: seq<Snapshot>, start: State, evs: seq<Event>) {
    forall k | 0 < k <= |evs| :: Visited(steps, Exec(start, evs[..k]))
  }

  ghost predicate Visited(steps: seq<Snapshot>, s: State) {
    exists x | x in steps :: x.native == s
  }

  lemma {:induction false} VisitsJoin(a: seq<Snapshot>, start: State, evs: seq<Event>, b: seq<Snapshot>, more: seq<Event>)
    requires Visits(a, start, evs) && Visits(b, Exec(start, evs), more)
    ensures Visits(a + b, start, evs + more)
  {
    var all := evs + more;
    forall k | 0 < k <= |all| ensures Visited(a + b, Exec(start, all[..k])) {
      if k <= |evs| {
        assert all[..k] == evs[..k];
        assert Visited(a, Exec(start, evs[..k]));
        var x :| x in a && x.native == Exec(start, evs[..k]);
        assert x in a + b;
      } else {
        assert all[..k] == evs + more[..k - |evs|];
        ExecAppend(start, evs, more[..k - |evs|]);
        assert Visited(b, Exec(Exec(start, evs), more[..k - |evs|]));
        var x :| x in b && x.native == Exec(Exec(start, evs), more[..k - |evs|]);
        assert x in a + b;
      }
    }
  }

  lemma StepsVisit(steps: seq<Snapshot>, start: State, evs: seq<Event>, conf: string, dnat: seq<DnatLive>)
    requires AreSteps(steps, start, evs, conf, dnat)
    ensures Visits(steps, start, evs)
  {
    forall k | 0 < k <= |evs| ensures Visited(steps, Exec(start, evs[..k])) {
      assert steps[k - 1] in steps && evs[..k - 1 + 1] == evs[..k];
    }
  }

  lemma VisitsBehind(before: seq<Snapshot>, steps: seq<Snapshot>, start: State, evs: seq<Event>)
    requires Visits(steps, start, evs)
    ensures Visits(before + steps, start, evs)
  {
    forall k | 0 < k <= |evs| ensures Visited(before + steps, Exec(start, evs[..k])) {
      assert Visited(steps, Exec(start, evs[..k]));
      var x :| x in steps && x.native == Exec(start, evs[..k]);
      assert x in before + steps;
    }
  }

  lemma VisitsSteps(before: seq<Snapshot>, start: State, steps: seq<Snapshot>, evs: seq<Event>, conf: string, dnat: seq<DnatLive>)
    requires AreSteps(steps, start, evs, conf, dnat)
    ensures Visits(before + steps, start, evs)
  {
    StepsVisit(steps, start, evs, conf, dnat);
    VisitsBehind(before, steps, start, evs);
  }

  lemma {:induction false} VisitsOne(steps: seq<Snapshot>, start: State, evs: seq<Event>, ev: Event, now: Snapshot)
    requires AreSteps(steps, start, evs, now.conf, now.dnat) && now.native == Next(Exec(start, evs), ev)
    ensures Visits(steps + [now], start, evs + [ev])
  {
    StepsVisit(steps, start, evs, now.conf, now.dnat);
    ExecSnoc(Exec(start, evs), [], ev);
    assert [] + [ev] == [ev] && now in [now];
    assert forall k | 0 < k <= 1 :: [ev][..k] == [ev];
    VisitsJoin(steps, start, evs, [now], [ev]);
  }

  lemma {:induction false} VisitsMore(steps: seq<Snapshot>, start: State, evs: seq<Event>, more: seq<Snapshot>, later: seq<Event>, end: Snapshot)
    requires Visits(steps, start, evs) && AreSteps(more, Exec(start, evs), later, end.conf, end.dnat)
    ensures Visits(steps + (more + [end]), start, evs + later)
  {
    StepsVisit(more, Exec(start, evs), later, end.conf, end.dnat);
    VisitsJoin(steps, start, evs, more, later);
    forall k | 0 < k <= |evs + later| ensures Visited(steps + (more + [end]), Exec(start, (evs + later)[..k])) {
      assert Visited(steps + more, Exec(start, (evs + later)[..k]));
      var x :| x in steps + more && x.native == Exec(start, (evs + later)[..k]);
      assert x in steps + (more + [end]);
    }
  }

  lemma {:induction false} VisitsToCheck(
    trace: seq<Snapshot>, start: State, rule: DnatRule, env: Env, others: Interleaving, steps: seq<Snapshot>)
    requires Visits(trace, start, others.beforeAdd + [Add(ToRequest(rule))] + others.beforeCommit)
    requires
      Visits(
        steps, Exec(start, others.beforeAdd + [Add(ToRequest(rule))] + others.beforeCommit), [Commit(env, true)] + others.beforeCheck)
    ensures Visits(trace + steps, start, UpToCheck(rule, env, others))
  {
    var soFar := others.beforeAdd + [Add(ToRequest(rule))] + others.beforeCommit;
    VisitsJoin(trace, start, soFar, steps, [Commit(env, true)] + others.beforeCheck);
    assert soFar + ([Commit(env, true)] + others.beforeCheck) == UpToCheck(rule, env, others);
  }

  lemma StepsAreNative(steps: seq<Snapshot>, start: State, evs: seq<Event>, end: Snapshot)
    requires AreSteps(steps, start, evs, end.conf, end.dnat)
    ensures NativeOnly(steps + [end], end)
  {
  }

  lemma NativeIsSameTable(steps: seq<Snapshot>, end: Snapshot)
    requires NativeOnly(steps, end)
    ensures SameTable(steps, end.dnat) && TraceOf(steps, end, end.dnat)
  {
  }

  ghost predicate SameTable(steps: seq<Snapshot>, dnat: seq<DnatLive>) {
    forall i | 0 <= i < |steps| :: steps[i].dnat == dnat
  }

  lemma TraceJoins(a: seq<Snapshot>, b: seq<Snapshot>, end: Snapshot, dnat: seq<DnatLive>)
    requires SameTable(a, dnat) && TraceOf(b, end, dnat)
    ensures TraceOf(a + b, end, dnat)
  {
  }

  /** What success means. */
  ghost predicate Migrated(
    before: Snapshot, after: Snapshot, rule: DnatRule, key: string, env: Env, resolve: string -> Option<Ip>, others: Interleaving, id: nat)
  {
    && ParseConf(after.conf) == Drop(ParseConf(before.conf), key)
    && (after.dnat == before.dnat || after.dnat == DnatApplied(ParseConf(after.conf), resolve))
    && after.native == Exec(before.native, AllEvents(rule, env, others))
    && id == NewId(before.native, others)
    && id in Exec(before.native, UpToCheck(rule, env, others)).cache
  }

  /** The stored forward is the rule: both protocols, and its own interface, ports, host and source. */
  predicate StoredAs(f: ForwardRule, id: nat, rule: DnatRule) {
    && f.id == id && f.req.proto == Both && f.req.iface == Some(rule.iface) && f.req.listen == rule.listen
    && f.req.destHost == rule.remoteHost && f.req.destPort == rule.destPort && f.req.source == rule.source
  }

  /** The committed forward is the rule; its source address is the fixed one if the interface held that at
      the commit, else the interface's first. */
  predicate CommittedAs(fwd: ResolvedForward, rule: DnatRule, env: Env) {
    && fwd.proto == Both && fwd.iface == rule.iface && fwd.listen == rule.listen && fwd.destPort == rule.destPort
    && env.addrs(rule.iface) != []
    && fwd.sourceIp == if rule.source.Fixed? && rule.source.ip in env.addrs(rule.iface) then rule.source.ip else env.addrs(rule.iface)[0]
  }

  /** The rule is stored under the id as itself, and what was last committed for the id is the rule. */
  ghost predicate Handed(s: State, id: nat, rule: DnatRule, evs: seq<Event>) {
    && (exists f | f in s.forwards :: StoredAs(f, id, rule))
    && (exists l | l in s.table :: l.id == id)
    && (forall i: nat, l | IsLastCommit(evs, i) && l in s.table && l.id == id :: CommittedAs(l.fwd, rule, evs[i].env))
  }

  /** The native state when nothing else happens. */
  function Built(s: State, rule: DnatRule, env: Env): State {
    Next(Next(s, Add(ToRequest(rule))), Commit(env, true))
  }

  predicate NoneClobbers(forwards: seq<ForwardRule>, rule: DnatRule, defaultIface: Option<string>) {
    forall f | f in forwards :: !Clobbers(f, rule, defaultIface)
  }

  /** Gentle on the forward, and no edit of it. */
  predicate Quiet(s: State, ev: Event, id: nat) {
    Gentle(s, ev, id) && (ev.Update? ==> ev.id != id)
  }

  /** The rule is stored as a forward, can fall back on its address, and is in the committed table. */
  ghost predicate Covered(s: State, id: nat, rule: DnatRule) {
    && ForwardRule(id, ToRequest(rule)) in s.forwards && ValidIfaceName(rule.iface)
    && Backed(s, id, rule.remoteHost)
    && exists l :: l in s.table && Carries(l, id, rule)
  }

  predicate Carries(l: Live, id: nat, rule: DnatRule) {
    l.id == id && l.fwd.iface == rule.iface && l.fwd.listen == rule.listen && l.fwd.proto == Both
  }

  /** As soon as it is cached, it is covered. */
  ghost predicate Ready(s: State, id: nat, rule: DnatRule) {
    && ForwardRule(id, ToRequest(rule)) in s.forwards && ValidIfaceName(rule.iface)
    && (id in s.cache ==> Covered(s, id, rule))
  }

  lemma RuleStays(s: State, ev: Event, id: nat, rule: DnatRule)
    requires Invariant(s) && ForwardRule(id, ToRequest(rule)) in s.forwards && Quiet(s, ev, id)
    ensures ForwardRule(id, ToRequest(rule)) in Next(s, ev).forwards
    ensures !ev.Commit? ==> (id in Next(s, ev).cache <==> id in s.cache)
  {
    var f := ForwardRule(id, ToRequest(rule));
    if ev.Update? && IndexOfId(s.forwards, ev.id).Some? {
      var k :| 0 <= k < |s.forwards| && s.forwards[k] == f;
      assert Next(s, ev).forwards[k] == f;
    }
  }

  /** A commit that resolves the rule covers it. */
  lemma CommitCovers(s: State, env: Env, id: nat, rule: DnatRule)
    requires Invariant(s) && ForwardRule(id, ToRequest(rule)) in s.forwards && ValidIfaceName(rule.iface)
    requires id in Next(s, Commit(env, true)).cache
    ensures Covered(Next(s, Commit(env, true)), id, rule)
  {
    var t := Next(s, Commit(env, true));
    CacheOfTable(t.table, id);
    var l :| l in t.table && l.id == id;
    ResolveListMembers(s.forwards, s.cache, env);
    var f :| f in s.forwards && l.id == f.id && ResolveOne(f.req, Lookup(s.cache, f.id), env) == Some(l.fwd);
    SameId(s.forwards, f, ForwardRule(id, ToRequest(rule)));
    CommitServes(s, env, f);
    assert Carries(l, id, rule);
  }

  lemma CommitKeepsReady(s: State, env: Env, id: nat, rule: DnatRule)
    requires Invariant(s) && ForwardRule(id, ToRequest(rule)) in s.forwards && ValidIfaceName(rule.iface)
    ensures Ready(Next(s, Commit(env, true)), id, rule)
  {
    if id in Next(s, Commit(env, true)).cache { CommitCovers(s, env, id, rule); }
  }

  lemma AddedIsReady(s: State, rule: DnatRule)
    requires Invariant(s) && ValidIfaceName(rule.iface)
    ensures Ready(Next(s, Add(ToRequest(rule))), s.nextId, rule)
  {
    var t := Next(s, Add(ToRequest(rule)));
    assert t.forwards[|t.forwards| - 1] == ForwardRule(s.nextId, ToRequest(rule));
  }

  lemma QuietKeepsCovered(s: State, ev: Event, id: nat, rule: DnatRule)
    requires Invariant(s) && Covered(s, id, rule) && Quiet(s, ev, id)
    ensures Covered(Next(s, ev), id, rule)
  {
    RuleStays(s, ev, id, rule);
    GentleStepServes(s, ev, id, rule.remoteHost);
    if IsCommitted(ev) { CommitCovers(s, ev.env, id, rule); }
  }

  lemma QuietKeepsReady(s: State, ev: Event, id: nat, rule: DnatRule)
    requires Invariant(s) && Ready(s, id, rule) && Quiet(s, ev, id)
    ensures Ready(Next(s, ev), id, rule)
  {
    RuleStays(s, ev, id, rule);
    if IsCommitted(ev) {
      CommitKeepsReady(s, ev.env, id, rule);
    } else if id in Next(s, ev).cache {
      QuietKeepsCovered(s, ev, id, rule);
    }
  }

  /** The states a run goes through. */
  ghost predicate IsTrace(states: seq<State>, evs: seq<Event>) {
    |states| == |evs| + 1 && forall j | 0 <= j < |evs| :: states[j + 1] == Next(states[j], evs[j]) && Invariant(states[j])
  }

  ghost predicate TraceIs(states: seq<State>, start: State, evs: seq<Event>) {
    |states| == |evs| + 1 && forall j | 0 <= j < |states| :: states[j] == Exec(start, evs[..j])
  }

  lemma {:induction false} TraceFrom(start: State, evs: seq<Event>) returns (states: seq<State>)
    requires Invariant(start)
    ensures TraceIs(states, start, evs) && IsTrace(states, evs)
  {
    states := seq(|evs| + 1, j requires 0 <= j < |evs| + 1 => Exec(start, evs[..j]));
    forall j | 0 <= j < |evs| ensures states[j + 1] == Next(states[j], evs[j]) && Invariant(states[j]) {
      ExecStep(start, evs, j);
      RunsKeepInvariant(start, evs[..j]);
    }
  }

  /** Quiet events, and the migration's own commit, keep the new forward ready. */
  lemma {:induction false} ReadyUpTo(start: State, evs: seq<Event>, first: nat, own: nat, id: nat, rule: DnatRule, i: nat)
    requires Invariant(start) && first <= i <= |evs| && (own < |evs| ==> evs[own].Commit?)
    requires Ready(Exec(start, evs[..first]), id, rule) && QuietBut(start, evs, first, own, id)
    ensures Ready(Exec(start, evs[..i]), id, rule)
  {
    var states := TraceFrom(start, evs);
    QuietTrace(states, start, evs, first, own, id);
    ReadyOn(states, evs, first, id, rule, i);
  }

  ghost predicate QuietOrCommit(states: seq<State>, evs: seq<Event>, first: nat, id: nat)
    requires |states| == |evs| + 1
  {
    forall j | first <= j < |evs| :: Quiet(states[j], evs[j], id) || evs[j].Commit?
  }

  lemma QuietTrace(states: seq<State>, start: State, evs: seq<Event>, first: nat, own: nat, id: nat)
    requires TraceIs(states, start, evs) && (own < |evs| ==> evs[own].Commit?) && QuietBut(start, evs, first, own, id)
    ensures QuietOrCommit(states, evs, first, id)
  {
  }

  lemma {:induction false} ReadyOn(states: seq<State>, evs: seq<Event>, first: nat, id: nat, rule: DnatRule, i: nat)
    requires IsTrace(states, evs) && first <= i <= |evs| && Ready(states[first], id, rule) && QuietOrCommit(states, evs, first, id)
    ensures Ready(states[i], id, rule)
  {
    if i > first {
      ReadyOn(states, evs, first, id, rule, i - 1);
      ReadyStep(states[i - 1], evs[i - 1], id, rule);
    }
  }

  lemma ReadyStep(s: State, ev: Event, id: nat, rule: DnatRule)
    requires Invariant(s) && Ready(s, id, rule) && (Quiet(s, ev, id) || ev.Commit?)
    ensures Ready(Next(s, ev), id, rule)
  {
    if !ev.Commit? {
      QuietKeepsReady(s, ev, id, rule);
    } else if ev.ok {
      CommitKeepsReady(s, ev.env, id, rule);
    }
  }

  /** Once covered, it stays covered through quiet events. */
  lemma {:induction false} CoveredFrom(start: State, evs: seq<Event>, k: nat, id: nat, rule: DnatRule, i: nat)
    requires Invariant(start) && k <= i <= |evs| && Covered(Exec(start, evs[..k]), id, rule)
    requires forall j | k <= j < |evs| :: Quiet(Exec(start, evs[..j]), evs[j], id)
    ensures Covered(Exec(start, evs[..i]), id, rule)
    decreases i
  {
    if i > k {
      CoveredFrom(start, evs, k, id, rule, i - 1);
      RunsKeepInvariant(start, evs[..i - 1]);
      ExecStep(start, evs, i - 1);
      QuietKeepsCovered(Exec(start, evs[..i - 1]), evs[i - 1], id, rule);
    }
  }

  /** If the others are quiet and the liveness check passes, the rule is covered to the end. */
  lemma {:induction false} QuietMigrationCovers(start: State, rule: DnatRule, env: Env, others: Interleaving)
    requires Invariant(start) && ValidIfaceName(rule.iface) && OthersQuiet(start, rule, env, others)
    requires NewId(start, others) in Exec(start, UpToCheck(rule, env, others)).cache
    ensures Covered(Exec(start, AllEvents(rule, env, others)), NewId(start, others), rule)
  {
    EventPositions(rule, env, others);
    QuietRunCovers(
      start, AllEvents(rule, env, others), |others.beforeAdd|, |others.beforeAdd| + 1 + |others.beforeCommit|,
      |UpToCheck(rule, env, others)|, NewId(start, others), rule);
  }

  /** And it is handed over as it is, its source included. */
  lemma {:induction false} QuietMigrationHands(start: State, rule: DnatRule, env: Env, others: Interleaving)
    requires Invariant(start) && ValidIfaceName(rule.iface) && OthersQuiet(start, rule, env, others)
    requires NewId(start, others) in Exec(start, UpToCheck(rule, env, others)).cache
    ensures Handed(Exec(start, AllEvents(rule, env, others)), NewId(start, others), rule, AllEvents(rule, env, others))
  {
    var evs, id := AllEvents(rule, env, others), NewId(start, others);
    QuietMigrationCovers(start, rule, env, others);
    CoveredIsStored(Exec(start, evs), id, rule);
    forall i: nat, l | IsLastCommit(evs, i) && l in Exec(start, evs).table && l.id == id ensures CommittedAs(l.fwd, rule, evs[i].env) {
      CommittedThere(start, rule, env, others, i, l);
    }
  }

  lemma CoveredIsStored(s: State, id: nat, rule: DnatRule)
    requires Covered(s, id, rule)
    ensures (exists f | f in s.forwards :: StoredAs(f, id, rule)) && exists l | l in s.table :: l.id == id
  {
    assert StoredAs(ForwardRule(id, ToRequest(rule)), id, rule);
  }

  lemma {:induction false} CommittedThere(start: State, rule: DnatRule, env: Env, others: Interleaving, i: nat, l: Live)
    requires Invariant(start) && ValidIfaceName(rule.iface) && OthersQuiet(start, rule, env, others)
    requires IsLastCommit(AllEvents(rule, env, others), i)
    requires l in Exec(start, AllEvents(rule, env, others)).table && l.id == NewId(start, others)
    ensures CommittedAs(l.fwd, rule, AllEvents(rule, env, others)[i].env)
  {
    var evs := AllEvents(rule, env, others);
    ReadyAtCommit(start, rule, env, others, i);
    RunsKeepInvariant(start, evs[..i]);
    TableOfLastCommit(start, evs, i);
    CommittedRule(Exec(start, evs[..i]), evs[i].env, NewId(start, others), rule, l);
  }

  /** At the last commit the new forward is stored. */
  lemma ReadyAtCommit(start: State, rule: DnatRule, env: Env, others: Interleaving, i: nat)
    requires Invariant(start) && ValidIfaceName(rule.iface) && OthersQuiet(start, rule, env, others)
    requires IsLastCommit(AllEvents(rule, env, others), i)
    ensures ForwardRule(NewId(start, others), ToRequest(rule)) in Exec(start, AllEvents(rule, env, others)[..i]).forwards
  {
    var evs, add, own := AllEvents(rule, env, others), |others.beforeAdd|, |others.beforeAdd| + 1 + |others.beforeCommit|;
    EventPositions(rule, env, others);
    assert own <= i;
    ExecStep(start, evs, add);
    RunsKeepInvariant(start, evs[..add]);
    AddedIsReady(Exec(start, evs[..add]), rule);
    ReadyUpTo(start, evs, add + 1, own, NewId(start, others), rule, i);
  }

  lemma CommittedRule(c: State, env: Env, id: nat, rule: DnatRule, l: Live)
    requires Invariant(c) && ForwardRule(id, ToRequest(rule)) in c.forwards
    requires l in ResolveList(c.forwards, c.cache, env) && l.id == id
    ensures CommittedAs(l.fwd, rule, env)
  {
    ResolveListMembers(c.forwards, c.cache, env);
    var f :| f in c.forwards && l.id == f.id && ResolveOne(f.req, Lookup(c.cache, f.id), env) == Some(l.fwd);
    SameId(c.forwards, f, ForwardRule(id, ToRequest(rule)));
    ResolvedMeans(f.req, Lookup(c.cache, f.id), env);
  }

  /** The same for any events with an add at `add`, a commit at `own` and the check before `k`. */
  lemma {:induction false} QuietRunCovers(start: State, evs: seq<Event>, add: nat, own: nat, k: nat, id: nat, rule: DnatRule)
    requires Invariant(start) && ValidIfaceName(rule.iface)
    requires add < own < k <= |evs| && evs[add] == Add(ToRequest(rule)) && evs[own].Commit?
    requires id == Exec(start, evs[..add]).nextId && QuietBut(start, evs, add + 1, own, id)
    requires id in Exec(start, evs[..k]).cache
    ensures Covered(Exec(start, evs[..|evs|]), id, rule)
  {
    ExecStep(start, evs, add);
    RunsKeepInvariant(start, evs[..add]);
    AddedIsReady(Exec(start, evs[..add]), rule);
    ReadyUpTo(start, evs, add + 1, own, id, rule, k);
    CoveredFrom(start, evs, k, id, rule, |evs|);
  }

  /** Where the migration's own events stand among all of them. */
  lemma EventPositions(rule: DnatRule, env: Env, others: Interleaving)
    ensures
      var evs, check := AllEvents(rule, env, others), UpToCheck(rule, env, others);
      var add, own := |others.beforeAdd|, |others.beforeAdd| + 1 + |others.beforeCommit|;
      && add < own < |check| <= |evs|
      && evs[..add] == others.beforeAdd && evs[add] == Add(ToRequest(rule)) && evs[own] == Commit(env, true)
      && evs[add].req == Request(Both, Some(rule.iface), rule.listen, rule.remoteHost, rule.destPort, rule.source)
      && evs[..|check|] == check && evs[..|evs|] == evs
  {
  }

  lemma {:induction false} SuccessMeans(
    before: Snapshot, after: Snapshot, rule: DnatRule, key: string, env: Env, resolve: string -> Option<Ip>,
    others: Interleaving, id: nat, trace: seq<Snapshot>, route: Option<string>)
    requires Invariant(before.native) && ValidIfaceName(rule.iface) && NoneClobbers(before.native.forwards, rule, route)
    requires Migrated(before, after, rule, key, env, resolve, others, id) && TraceOf(trace, after, before.dnat)
    ensures OthersQuiet(before.native, rule, env, others) ==> Covered(after.native, id, rule) && AllTranslated(rule, before, trace)
    ensures OthersQuiet(before.native, rule, env, others) ==> Handed(after.native, id, rule, AllEvents(rule, env, others))
    ensures others.Nothing() && route == env.defaultIface ==> Replaces(after, rule, env)
  {
    if OthersQuiet(before.native, rule, env, others) {
      QuietMigrationCovers(before.native, rule, env, others);
      QuietMigrationHands(before.native, rule, env, others);
      CoveredTranslates(rule, before, after, id);
      UntouchedTranslates(rule, before, trace, after);
    }
    if others.Nothing() && route == env.defaultIface {
      AloneIsBuilt(before.native, rule, env, others);
      AddedReplaces(before.native, env, rule, after);
    }
  }

  lemma {:induction false} AloneIsBuilt(start: State, rule: DnatRule, env: Env, others: Interleaving)
    requires others.Nothing()
    ensures Exec(start, AllEvents(rule, env, others)) == Exec(start, UpToCheck(rule, env, others)) == Built(start, rule, env)
    ensures NewId(start, others) == start.nextId
  {
    var add, commit := Add(ToRequest(rule)), Commit(env, true);
    assert UpToCheck(rule, env, others) == [] + [add] + [commit];
    assert AllEvents(rule, env, others) == UpToCheck(rule, env, others);
    ExecSnoc(start, [], add);
    ExecSnoc(start, [] + [add], commit);
  }

  /** While the rule is covered, no state of the dnat table leaves a port of it untranslated. */
  lemma CoveredTranslates(rule: DnatRule, start: Snapshot, s: Snapshot, id: nat)
    requires Covered(s.native, id, rule)
    ensures NoGap(rule, start, s)
  {
    var l :| l in s.native.table && Carries(l, id, rule);
    FwdsMembers(s.native.table);
    forall port: Port, proto | rule.listen.Contains(port) ensures NativeTarget(s, rule.iface, proto, port).Some? {
      BothCovers(proto);
      assert l.fwd in Fwds(s.native.table) && Serves(l.fwd, rule.iface, proto, port);
      TranslatedIffServed(Fwds(s.native.table), rule.iface, proto, port);
    }
  }

  lemma UntouchedTranslates(rule: DnatRule, start: Snapshot, trace: seq<Snapshot>, end: Snapshot)
    requires TraceOf(trace, end, start.dnat)
    ensures AllTranslated(rule, start, trace[..|trace| - 1])
    ensures NoGap(rule, start, end) ==> AllTranslated(rule, start, trace)
    ensures end.dnat == start.dnat ==> AllTranslated(rule, start, trace)
  {
    forall s | s in trace[..|trace| - 1] ensures NoGap(rule, start, s) {
      var i :| 0 <= i < |trace| - 1 && trace[i] == s;
      Untouched(rule, start, s);
    }
    if end.dnat == start.dnat { Untouched(rule, start, end); }
    assert trace == trace[..|trace| - 1] + [end];
  }

  lemma Untouched(rule: DnatRule, start: Snapshot, s: Snapshot)
    requires s.dnat == start.dnat
    ensures NoGap(rule, start, s)
  {
  }

  /** The native table sends every port of the rule to the rule's host and ports. */
  ghost predicate Replaces(s: Snapshot, rule: DnatRule, env: Env) {
    && env.dns(rule.remoteHost).Some?
    && forall port: Port, proto | rule.listen.Contains(port) ::
         NativeTarget(s, rule.iface, proto, port) == Some(Target(env.dns(rule.remoteHost).value, rule.destPort))
  }

  lemma AddedReplaces(before: State, env: Env, rule: DnatRule, s: Snapshot)
    requires Invariant(before) && NoneClobbers(before.forwards, rule, env.defaultIface)
    requires
      var added := Next(before, Add(ToRequest(rule)));
      s.native == Next(added, Commit(env, true)) && before.nextId in s.native.cache
    ensures Replaces(s, rule, env)
  {
    var added := Next(before, Add(ToRequest(rule)));
    NextKeepsInvariant(before, Add(ToRequest(rule)));
    AddedRule(before, ToRequest(rule));
    LiveReplaces(added, env, rule, before.nextId, s);
  }

  lemma AddedRule(s: State, req: Request)
    requires Invariant(s)
    ensures
      var t := Next(s, Add(req));
      && ForwardRule(s.nextId, req) in t.forwards && s.nextId !in t.cache
      && forall f | f in t.forwards && f.id != s.nextId :: f in s.forwards
  {
    var t := Next(s, Add(req));
    assert t.forwards[|t.forwards| - 1] == ForwardRule(s.nextId, req);
  }

  lemma LiveReplaces(added: State, env: Env, rule: DnatRule, id: nat, s: Snapshot)
    requires Invariant(added) && ForwardRule(id, ToRequest(rule)) in added.forwards && id !in added.cache
    requires forall f | f in added.forwards && f.id != id :: !Clobbers(f, rule, env.defaultIface)
    requires s.native == Next(added, Commit(env, true)) && id in s.native.cache
    ensures Replaces(s, rule, env)
  {
    var fwd := CachedMeansResolved(added, env, id, ToRequest(rule));
    var table := ResolveList(added.forwards, added.cache, env);
    assert s.native.table == table;
    forall port: Port, proto | rule.listen.Contains(port)
      ensures Translate(PreRules(Fwds(table)), rule.iface, proto, port) == Some(Target(fwd.remoteIp, rule.destPort))
    {
      BothCovers(proto);
      CommittedForwardDecides(added, env, id, ToRequest(rule), fwd, proto, port);
    }
  }

  /** A fresh forward that is cached after the commit has been resolved by DNS in that commit. */
  lemma CachedMeansResolved(s: State, env: Env, id: nat, req: Request) returns (fwd: ResolvedForward)
    requires Invariant(s) && ForwardRule(id, req) in s.forwards && id !in s.cache && req.iface.Some?
    requires id in Next(s, Commit(env, true)).cache
    ensures ResolveOne(req, Lookup(s.cache, id), env) == Some(fwd) && fwd.iface == req.iface.value
    ensures env.dns(req.destHost) == Some(fwd.remoteIp)
  {
    var table := ResolveList(s.forwards, s.cache, env);
    CacheOfTable(table, id);
    var l :| l in table && l.id == id;
    ResolveListMembers(s.forwards, s.cache, env);
    var f :| f in s.forwards && l.id == f.id && ResolveOne(f.req, Lookup(s.cache, f.id), env) == Some(l.fwd);
    SameId(s.forwards, f, ForwardRule(id, req));
    fwd := l.fwd;
  }

  /** What a packet sees once the tool has applied the shortened conf: unless another of its rules
      claims the port, the native target. */
  lemma DrainedGoesNative(s: Snapshot, rules: seq<DnatRule>, resolve: string -> Option<Ip>, iface: string, proto: L4Proto, port: Port)
    requires s.dnat == DnatApplied(rules, resolve)
    requires forall r | r in rules :: !(r.iface == iface && r.listen.Contains(port))
    ensures TargetOf(s, iface, proto, port) == NativeTarget(s, iface, proto, port)
  {
    DnatTranslateNone(s.dnat, iface, port);
  }

  /** So after a successful migration, however late the tool applies, the rule's traffic goes to the
      same host and ports as before unless another of the tool's rules claims the port. */
  lemma DrainedKeepsTarget(
    s: Snapshot, rule: DnatRule, env: Env, rules: seq<DnatRule>, resolve: string -> Option<Ip>, proto: L4Proto, port: Port)
    requires Replaces(s, rule, env) && rule.listen.Contains(port)
    requires s.dnat == DnatApplied(rules, resolve)
    requires forall r | r in rules :: !(r.iface == rule.iface && r.listen.Contains(port))
    ensures env.dns(rule.remoteHost).Some?
    ensures TargetOf(s, rule.iface, proto, port) == Some(Target(env.dns(rule.remoteHost).value, rule.destPort))
  {
    DrainedGoesNative(s, rules, resolve, rule.iface, proto, port);
  }

  // ---- When a withdrawal does leave a gap ----

  predicate IsLastCommit(evs: seq<Event>, i: nat) {
    i < |evs| && IsCommitted(evs[i]) && forall j | i < j < |evs| :: !IsCommitted(evs[j])
  }

  /** There always is one: at the latest the migration's own. */
  lemma HasLastCommit(rule: DnatRule, env: Env, others: Interleaving) returns (i: nat)
    ensures IsLastCommit(AllEvents(rule, env, others), i)
  {
    EventPositions(rule, env, others);
    i := LastCommitFrom(AllEvents(rule, env, others), |others.beforeAdd| + 1 + |others.beforeCommit|);
  }

  lemma {:induction false} LastCommitFrom(evs: seq<Event>, k: nat) returns (i: nat)
    requires k < |evs| && IsCommitted(evs[k])
    ensures IsLastCommit(evs, i)
    decreases |evs| - k
  {
    if j :| k < j < |evs| && IsCommitted(evs[j]) {
      i := LastCommitFrom(evs, j);
    } else {
      i := k;
    }
  }

  /** The table is that of the last successful commit. */
  lemma {:induction false} TableOfLastCommit(s: State, evs: seq<Event>, i: nat)
    requires IsLastCommit(evs, i)
    ensures
      var c := Exec(s, evs[..i]);
      Exec(s, evs).table == ResolveList(c.forwards, c.cache, evs[i].env)
  {
    var upTo, after := evs[..i + 1], evs[i + 1..];
    assert evs == upTo + after;
    ExecAppend(s, upTo, after);
    TableStays(Exec(s, upTo), after);
    ExecStep(s, evs, i);
    OnlyCommitsChangeTable(Exec(s, evs[..i]), evs[i]);
  }

  lemma {:induction false} TableStays(s: State, evs: seq<Event>)
    requires forall ev | ev in evs :: !IsCommitted(ev)
    ensures Exec(s, evs).table == s.table
  {
    if evs != [] {
      var init, last := evs[..|evs| - 1], evs[|evs| - 1];
      assert evs == init + [last];
      TableStays(s, init);
      OnlyCommitsChangeTable(Exec(s, init), last);
    }
  }

  lemma OnlyCommitsChangeTable(s: State, ev: Event)
    ensures Next(s, ev).table == if IsCommitted(ev) then ResolveList(s.forwards, s.cache, ev.env) else s.table
  {
  }

  predicate ServesPort(f: ForwardRule, iface: string, proto: L4Proto, port: Port, defaultIface: Option<string>) {
    EffectiveIface(f.req, defaultIface) == Some(iface) && proto in L4Protos(f.req.proto) && f.req.listen.Contains(port)
  }

  /** At the commit, some stored forward for that port resolves. */
  ghost predicate SomeServer(c: State, env: Env, iface: string, proto: L4Proto, port: Port) {
    exists f | f in c.forwards :: ServesPort(f, iface, proto, port, env.defaultIface) && ResolveOne(f.req, Lookup(c.cache, f.id), env).Some?
  }

  /** A table resolved at `c` translates exactly the ports that some stored forward is for and resolves. */
  lemma ResolvedServesIff(c: State, env: Env, iface: string, proto: L4Proto, port: Port)
    ensures Translate(PreRules(Fwds(ResolveList(c.forwards, c.cache, env))), iface, proto, port).Some? <==> SomeServer(c, env, iface, proto, port)
  {
    var table := ResolveList(c.forwards, c.cache, env);
    TranslatedIffServed(Fwds(table), iface, proto, port);
    FwdsMembers(table);
    if f :| f in c.forwards && ServesPort(f, iface, proto, port, env.defaultIface) && ResolveOne(f.req, Lookup(c.cache, f.id), env).Some? {
      var fwd := ResolveOne(f.req, Lookup(c.cache, f.id), env).value;
      ResolvedIsListed(c.forwards, c.cache, env, f, fwd);
      assert fwd in Fwds(table) && Serves(fwd, iface, proto, port);
    }
    if g :| g in Fwds(table) && Serves(g, iface, proto, port) {
      var f := ServerIsStored(c, env, g);
      assert ServesPort(f, iface, proto, port, env.defaultIface);
    }
  }

  /** No forward but the rule's own is for the port, and that one is as it was added. */
  ghost predicate OnlyTheRule(c: State, env: Env, id: nat, rule: DnatRule, proto: L4Proto, port: Port) {
    forall f | f in c.forwards :: if f.id == id then f.req == ToRequest(rule) else !ServesPort(f, rule.iface, proto, port, env.defaultIface)
  }

  lemma OnlyServer(c: State, env: Env, id: nat, rule: DnatRule, proto: L4Proto, port: Port)
    requires rule.listen.Contains(port) && OnlyTheRule(c, env, id, rule, proto, port)
    ensures SomeServer(c, env, rule.iface, proto, port) <==>
      ForwardRule(id, ToRequest(rule)) in c.forwards && ResolveOne(ToRequest(rule), Lookup(c.cache, id), env).Some?
  {
    BothCovers(proto);
    var own := ForwardRule(id, ToRequest(rule));
    assert ServesPort(own, rule.iface, proto, port, env.defaultIface);
  }

  lemma ServerIsStored(c: State, env: Env, g: ResolvedForward) returns (f: ForwardRule)
    requires g in Fwds(ResolveList(c.forwards, c.cache, env))
    ensures f in c.forwards && ResolveOne(f.req, Lookup(c.cache, f.id), env) == Some(g)
    ensures EffectiveIface(f.req, env.defaultIface) == Some(g.iface) && f.req.proto == g.proto && f.req.listen == g.listen
  {
    var table := ResolveList(c.forwards, c.cache, env);
    FwdsMembers(table);
    var l :| l in table && l.fwd == g;
    ResolveListMembers(c.forwards, c.cache, env);
    f :| f in c.forwards && l.id == f.id && ResolveOne(f.req, Lookup(c.cache, f.id), env) == Some(l.fwd);
  }

  /** After the withdrawal and the tool's apply, whatever the others did: a port of the rule that no other
      dnat rule claims is translated exactly when, at the last commit, some stored forward was for it and
      resolved. If no other forward is, and the rule's own was not edited, that is the rule's own: it may
      have been removed or replaced, or not have resolved. `i` is that commit among all the events. */
  lemma WithdrawnTranslatedIff(
    before: Snapshot, s: Snapshot, rule: DnatRule, env: Env, others: Interleaving, i: nat,
    rules: seq<DnatRule>, resolve: string -> Option<Ip>, proto: L4Proto, port: Port)
    requires s.native == Exec(before.native, AllEvents(rule, env, others))
    requires s.dnat == DnatApplied(rules, resolve)
    requires forall r | r in rules :: !(r.iface == rule.iface && r.listen.Contains(port))
    requires rule.listen.Contains(port)
    requires IsLastCommit(AllEvents(rule, env, others), i)
    ensures
      var evs, id := AllEvents(rule, env, others), NewId(before.native, others);
      var c, at := Exec(before.native, evs[..i]), evs[i].env;
      && (TargetOf(s, rule.iface, proto, port).Some? <==> SomeServer(c, at, rule.iface, proto, port))
      && (OnlyTheRule(c, at, id, rule, proto, port) ==>
            (TargetOf(s, rule.iface, proto, port).Some? <==>
               ForwardRule(id, ToRequest(rule)) in c.forwards && ResolveOne(ToRequest(rule), Lookup(c.cache, id), at).Some?))
  {
    var evs, id := AllEvents(rule, env, others), NewId(before.native, others);
    var c, at := Exec(before.native, evs[..i]), evs[i].env;
    TableOfLastCommit(before.native, evs, i);
    ResolvedServesIff(c, at, rule.iface, proto, port);
    if OnlyTheRule(c, at, id, rule, proto, port) { OnlyServer(c, at, id, rule, proto, port); }
    DrainedGoesNative(s, rules, resolve, rule.iface, proto, port);
  }

  // ---- Runs that do ----

  const NO_FORWARDS: State := State([], map[], [], 0)

  /** A host with one dnat rule, and what the migration makes of it. */
  function OneRule(rule: DnatRule, ip: Ip): Snapshot {
    Snapshot(NO_FORWARDS, Unlines([ShowRule(rule)]), [DnatLive(rule, ip)])
  }

  function Drained(rule: DnatRule, env: Env, others: Interleaving): Snapshot {
    Snapshot(Exec(NO_FORWARDS, AllEvents(rule, env, others)), "", [])
  }

  /** Events of the others between the liveness check and the withdrawal. */
  function BeforeRemoval(evs: seq<Event>): Interleaving { Interleaving([], [], [], evs, []) }

  lemma {:induction false} OneRuleConf(rule: DnatRule)
    requires WellFormed(rule) && '\n' !in ShowRule(rule)
    ensures ParseConf(Unlines([ShowRule(rule)])) == [rule]
    ensures ParseConf("") == Drop([rule], PrefixKey(rule))
  {
    var line := ShowRule(rule);
    LinesOfUnlines([line]);
    RulesInStripped([line]);
    RuleParsesBack(rule);
    assert [line][1..] == [] && RulesIn([line][1..]) == [];
    assert [rule][1..] == [] && Drop([rule][1..], PrefixKey(rule)) == [];
  }

  /** The state the migration's own steps lead to, one forward alone. */
  lemma BuiltAlone(rule: DnatRule, env: Env, fwd: ResolvedForward)
    requires ResolveOne(ToRequest(rule), None, env) == Some(fwd)
    ensures Built(NO_FORWARDS, rule, env) ==
      State([ForwardRule(0, ToRequest(rule))], map[0 := fwd.remoteIp], [Live(0, fwd)], 1)
  {
    OneRuleResolves(ForwardRule(0, ToRequest(rule)), env);
    assert Next(NO_FORWARDS, Add(ToRequest(rule))).forwards == [ForwardRule(0, ToRequest(rule))];
  }

  lemma EventsOf(rule: DnatRule, env: Env, evs: seq<Event>)
    ensures Exec(NO_FORWARDS, UpToCheck(rule, env, BeforeRemoval(evs))) == Built(NO_FORWARDS, rule, env)
    ensures Exec(NO_FORWARDS, AllEvents(rule, env, BeforeRemoval(evs))) == Exec(Built(NO_FORWARDS, rule, env), evs)
    ensures NewId(NO_FORWARDS, BeforeRemoval(evs)) == 0
  {
    var add, commit := Add(ToRequest(rule)), Commit(env, true);
    var check := UpToCheck(rule, env, BeforeRemoval(evs));
    assert check == [] + [add] + [commit];
    ExecSnoc(NO_FORWARDS, [], add);
    ExecSnoc(NO_FORWARDS, [] + [add], commit);
    assert AllEvents(rule, env, BeforeRemoval(evs)) == check + evs;
    ExecAppend(NO_FORWARDS, check, evs);
  }

  const ALL_WORKS := Luck(true, true, true, true, true, true)

  /** The migration succeeds, and once the tool has applied a port it translated before is not translated. */
  ghost predicate SucceedsWithGap(rule: DnatRule, ip: Ip, env: Env, resolve: string -> Option<Ip>, evs: seq<Event>, proto: L4Proto, port: Port) {
    && MigrationEnd(NO_FORWARDS, rule, env, BeforeRemoval(evs), ALL_WORKS) == (Ok(0), Drained(rule, env, BeforeRemoval(evs)).native)
    && Migrated(OneRule(rule, ip), Drained(rule, env, BeforeRemoval(evs)), rule, PrefixKey(rule), env, resolve, BeforeRemoval(evs), 0)
    && TargetOf(OneRule(rule, ip), rule.iface, proto, port) == Some(Target(ip, rule.destPort))
    && TargetOf(Drained(rule, env, BeforeRemoval(evs)), rule.iface, proto, port) == None
  }

  lemma {:induction false} EmptyTableGaps(
    rule: DnatRule, ip: Ip, env: Env, fwd: ResolvedForward, resolve: string -> Option<Ip>, evs: seq<Event>, proto: L4Proto, port: Port)
    requires WellFormed(rule) && '\n' !in ShowRule(rule) && rule.listen.Contains(port)
    requires ResolveOne(ToRequest(rule), None, env) == Some(fwd)
    requires Exec(Built(NO_FORWARDS, rule, env), evs).table == []
    ensures SucceedsWithGap(rule, ip, env, resolve, evs, proto, port)
  {
    AloneMigrates(rule, ip, env, fwd, resolve, evs);
    EventsOf(rule, env, evs);
    assert Translate(PreRules(Fwds([])), rule.iface, proto, port) == None;
  }

  lemma {:induction false} AloneMigrates(rule: DnatRule, ip: Ip, env: Env, fwd: ResolvedForward, resolve: string -> Option<Ip>, evs: seq<Event>)
    requires WellFormed(rule) && '\n' !in ShowRule(rule)
    requires ResolveOne(ToRequest(rule), None, env) == Some(fwd)
    ensures Migrated(OneRule(rule, ip), Drained(rule, env, BeforeRemoval(evs)), rule, PrefixKey(rule), env, resolve, BeforeRemoval(evs), 0)
    ensures MigrationEnd(NO_FORWARDS, rule, env, BeforeRemoval(evs), ALL_WORKS) == (Ok(0), Drained(rule, env, BeforeRemoval(evs)).native)
  {
    OneRuleConf(rule);
    BuiltAlone(rule, env, fwd);
    EventsOf(rule, env, evs);
    assert DnatApplied(ParseConf(""), resolve) == [];
  }

  /** A tick of the resolver in between at which the forward does not resolve, because the answer has
      become forbidden or the interface has lost its address, commits a table without it. */
  lemma {:induction false} UnresolvedTickGaps(
    rule: DnatRule, ip: Ip, env: Env, bad: Env, resolve: string -> Option<Ip>, proto: L4Proto, port: Port)
    requires WellFormed(rule) && '\n' !in ShowRule(rule) && rule.listen.Contains(port)
    requires ResolveOne(ToRequest(rule), None, env).Some?
    requires (bad.dns(rule.remoteHost).Some? && Forbidden(bad.dns(rule.remoteHost).value)) || bad.addrs(rule.iface) == []
    ensures SucceedsWithGap(rule, ip, env, resolve, [Commit(bad, true)], proto, port)
    ensures !OthersQuiet(NO_FORWARDS, rule, env, BeforeRemoval([Commit(bad, true)]))
  {
    var fwd := ResolveOne(ToRequest(rule), None, env).value;
    var f, s, ev := ForwardRule(0, ToRequest(rule)), Built(NO_FORWARDS, rule, env), Commit(bad, true);
    BuiltAlone(rule, env, fwd);
    Unresolvable(f.req, Lookup(s.cache, 0), bad);
    NothingResolves(f, s.cache, bad);
    ExecSnoc(s, [], ev);
    assert [] + [ev] == [ev];
    NotGentle(s, f, bad);
    EmptyTableGaps(rule, ip, env, fwd, resolve, [ev], proto, port);
    NotQuietAt(rule, env, [ev], 0);
  }

  lemma Unresolvable(req: Request, prev: Option<Ip>, bad: Env)
    requires req.iface.Some?
    requires (bad.dns(req.destHost).Some? && Forbidden(bad.dns(req.destHost).value)) || bad.addrs(req.iface.value) == []
    ensures ResolveOne(req, prev, bad) == None
  {
  }

  lemma NothingResolves(f: ForwardRule, cache: map<nat, Ip>, env: Env)
    requires ResolveOne(f.req, Lookup(cache, f.id), env) == None
    ensures ResolveList([f], cache, env) == []
  {
    assert [f][..0] == [] && ResolveList([f][..0], cache, env) == [];
  }

  lemma NotGentle(s: State, f: ForwardRule, bad: Env)
    requires s.forwards == [f] && !EnvServes(f.req, bad)
    ensures !Quiet(s, Commit(bad, true), f.id)
  {
    assert f in s.forwards;
  }

  /** So does the removal of the new forward by another handler, and its commit. */
  lemma {:induction false} RemovalGaps(rule: DnatRule, ip: Ip, env: Env, later: Env, resolve: string -> Option<Ip>, proto: L4Proto, port: Port)
    requires WellFormed(rule) && '\n' !in ShowRule(rule) && rule.listen.Contains(port)
    requires ResolveOne(ToRequest(rule), None, env).Some?
    ensures SucceedsWithGap(rule, ip, env, resolve, [Remove(0), Commit(later, true)], proto, port)
    ensures !OthersQuiet(NO_FORWARDS, rule, env, BeforeRemoval([Remove(0), Commit(later, true)]))
  {
    var fwd := ResolveOne(ToRequest(rule), None, env).value;
    var s, evs := Built(NO_FORWARDS, rule, env), [Remove(0), Commit(later, true)];
    BuiltAlone(rule, env, fwd);
    var t := Next(s, Remove(0));
    assert WithoutId([ForwardRule(0, ToRequest(rule))][1..], 0) == [];
    assert t.forwards == [];
    ExecSnoc(s, [], Remove(0));
    ExecSnoc(s, [Remove(0)], Commit(later, true));
    assert [] + [Remove(0)] == [Remove(0)] && [Remove(0)] + [Commit(later, true)] == evs;
    EmptyTableGaps(rule, ip, env, fwd, resolve, evs, proto, port);
    NotQuietAt(rule, env, evs, 0);
  }

  /** The event at `k` behind the check shows that the others are not quiet. */
  lemma NotQuietAt(rule: DnatRule, env: Env, evs: seq<Event>, k: nat)
    requires k < |evs| && !Quiet(Exec(Built(NO_FORWARDS, rule, env), evs[..k]), evs[k], 0)
    ensures !OthersQuiet(NO_FORWARDS, rule, env, BeforeRemoval(evs))
  {
    var all, check := AllEvents(rule, env, BeforeRemoval(evs)), UpToCheck(rule, env, BeforeRemoval(evs));
    EventsOf(rule, env, evs);
    assert |check| == 2 && all == check + evs;
    assert all[..2 + k] == check + evs[..k] && all[2 + k] == evs[k];
    ExecAppend(NO_FORWARDS, check, evs[..k]);
  }

  /** An environment in which every name has one address, and every interface. */
  function Uniform(answer: Ip, addr: Ip): Env {
    Env(_ => Some(answer), None, _ => [addr])
  }

  const EXAMPLE: DnatRule := DnatRule(PortRange(8080, 8080), "eth0", "db", PortRange(5432, 5432), Auto)

  lemma ExampleIsWellFormed()
    ensures WellFormed(EXAMPLE) && '\n' !in EXAMPLE.iface && '\n' !in EXAMPLE.remoteHost
    ensures ValidIfaceName(EXAMPLE.iface)
  {
  }

  /** For instance: port 8080 of eth0 goes to db:5432, and the name begins to resolve to 127.0.0.1. */
  lemma {:induction false} RebindingGap(resolve: string -> Option<Ip>)
    ensures SucceedsWithGap(
      EXAMPLE, Ip(192, 0, 2, 7), Uniform(Ip(192, 0, 2, 7), Ip(198, 51, 100, 1)), resolve,
      [Commit(Uniform(Ip(127, 0, 0, 1), Ip(198, 51, 100, 1)), true)], TCP, 8080)
  {
    ExampleIsWellFormed();
    NoLfInRule(EXAMPLE);
    UnresolvedTickGaps(
      EXAMPLE, Ip(192, 0, 2, 7), Uniform(Ip(192, 0, 2, 7), Ip(198, 51, 100, 1)),
      Uniform(Ip(127, 0, 0, 1), Ip(198, 51, 100, 1)), resolve, TCP, 8080);
  }

  lemma NoLfInRule(rule: DnatRule)
    requires '\n' !in rule.iface && '\n' !in rule.remoteHost && rule.source == Auto
    ensures '\n' !in ShowRule(rule)
  {
    NoLfInPorts(rule.listen);
    NoLfInPorts(rule.destPort);
    JoinLacks(RuleParts(rule), '>', '\n');
  }

  lemma NoLfInPorts(r: PortRange)
    ensures '\n' !in PortSpec(r)
  {
    NoLfShown(r.start);
    NoLfShown(r.end);
  }

  lemma NoLfShown(n: nat)
    ensures '\n' !in Show(n)
  {
    ShowFacts(n);
    assert !IsDigit('\n');
  }
}
