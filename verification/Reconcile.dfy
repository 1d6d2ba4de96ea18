/** The reconcile protocol (`main.rs`, `reconcile.rs`): one round is snapshot, list, repair; RPCs and
    kernel timeouts happen between its steps. */
module Reconcile {
  import opened Wrappers
  import opened Entries

  function Targets(entries: seq<Entry>): set<Net> {
    set e | e in entries :: e.target
  }

  predicate NoneHasHostBits(entries: seq<Entry>) {
    forall e | e in entries :: NoHostBits(e.target)
  }

  datatype Diff = Diff(missing: set<Net>, stale: set<Net>, expired: seq<Net>)

  /** `reconcile::diff`: targets are compared verbatim. */
  function DiffOf(desired: seq<Entry>, kernel: set<Net>, now: Time): Diff {
    Diff(LiveTargets(desired, now) - kernel, kernel - LiveTargets(desired, now), ExpiredTargets(desired, now))
  }

  function ExpiredTargets(entries: seq<Entry>, now: Time): seq<Net> {
    if entries == [] then []
    else (if entries[0].IsExpired(now) then [entries[0].target] else []) + ExpiredTargets(entries[1..], now)
  }

  /** Where the round stands. Additions are done before removals. */
  datatype Phase =
    | Waiting
    | Snapped(entries: seq<Entry>, now: Time)
    | Repairing(toAdd: set<Net>, toRemove: set<Net>)

  datatype World = World(store: seq<Entry>, kernel: set<Net>, phase: Phase)

  datatype Event =
    // the round
    | Snapshot(now: Time)
    | List
    | ListFails(now: Time, ok: bool)
    | RepairAdd(t: Net, ok: bool)
    | RepairRemove(t: Net, ok: bool)
    | Finish
    // RPCs: store first, kernel later; kernel timeouts
    | AllowStore(e: Entry)
    | AllowKernel(t: Net, ok: bool)
    | RevokeStore(t: Net)
    | RevokeKernel(t: Net, ok: bool)
    | KernelTimeout(t: Net)
    // a settings handler replaces the whole table from the store
    | Rebuild(now: Time, ok: bool)

  function Built(store: seq<Entry>, now: Time): set<Net> {
    Masks(LiveTargets(store, now))
  }

  predicate Enabled(w: World, ev: Event) {
    match ev
    case Snapshot(_) => w.phase.Waiting?
    case List => w.phase.Snapped?
    case ListFails(_, _) => w.phase.Snapped?
    case RepairAdd(t, _) => w.phase.Repairing? && t in w.phase.toAdd
    case RepairRemove(t, _) => w.phase.Repairing? && w.phase.toAdd == {} && t in w.phase.toRemove
    case Finish => w.phase == Repairing({}, {})
    case _ => true
  }

  function KernelAdd(kernel: set<Net>, t: Net, ok: bool): set<Net> {
    if ok then kernel + {Mask(t)} else kernel
  }

  function KernelRemove(kernel: set<Net>, t: Net, ok: bool): set<Net> {
    if ok then kernel - {Mask(t)} else kernel
  }

  function Next(w: World, ev: Event): World
    requires Enabled(w, ev)
  {
    match ev
    case Snapshot(now) =>
      var pruned := Unexpired(w.store, now);
      w.(store := pruned, phase := Snapped(pruned, now))
    case List =>
      var d := DiffOf(w.phase.entries, w.kernel, w.phase.now);
      w.(phase := Repairing(d.missing, d.stale))
    case ListFails(now, ok) =>
      // the whole table is rebuilt from the store under its lock
      w.(kernel := if ok then Built(w.store, now) else w.kernel, phase := Waiting)
    case RepairAdd(t, ok) => w.(kernel := KernelAdd(w.kernel, t, ok), phase := w.phase.(toAdd := w.phase.toAdd - {t}))
    case RepairRemove(t, ok) => w.(kernel := KernelRemove(w.kernel, t, ok), phase := w.phase.(toRemove := w.phase.toRemove - {t}))
    case Finish => w.(phase := Waiting)
    case AllowStore(e) => w.(store := WithoutTarget(w.store, e.target) + [e])
    case AllowKernel(t, ok) => w.(kernel := KernelAdd(w.kernel, t, ok))
    case RevokeStore(t) => w.(store := WithoutTarget(w.store, t))
    case RevokeKernel(t, ok) => w.(kernel := KernelRemove(w.kernel, t, ok))
    case KernelTimeout(t) => w.(kernel := w.kernel - {t})
    case Rebuild(now, ok) => w.(kernel := if ok then Built(w.store, now) else w.kernel)
  }

  /** `ws` is the run that `evs` takes. */
  ghost predicate IsRun(ws: seq<World>, evs: seq<Event>) {
    && |ws| == |evs| + 1
    && forall i | 0 <= i < |evs| :: Enabled(ws[i], evs[i]) && ws[i + 1] == Next(ws[i], evs[i])
  }

  /** No RPC and no kernel timeout concerns `t`, the entries involved carry no host bits, and what
      the round itself does for `t` works. */
  predicate LeavesAlone(ev: Event, t: Net) {
    match ev
    case AllowStore(e) => e.target != t && NoHostBits(e.target)
    case AllowKernel(u, _) => u != t && NoHostBits(u)
    case RevokeStore(u) => u != t && NoHostBits(u)
    case RevokeKernel(u, _) => u != t && NoHostBits(u)
    case KernelTimeout(u) => u != t
    case RepairAdd(u, ok) => u == t ==> ok
    case RepairRemove(u, ok) => u == t ==> ok
    case ListFails(_, ok) => ok
    case _ => true
  }

  predicate ExpiresBy(entries: seq<Entry>, t: Net, horizon: Time) {
    exists e | e in entries && e.target == t :: e.IsExpired(horizon)
  }

  predicate Before(ev: Event, horizon: Time) {
    match ev
    case Snapshot(now) => now <= horizon
    case ListFails(now, _) => now <= horizon
    case Rebuild(now, _) => now <= horizon
    case _ => true
  }

  /** What the round knows about an undisturbed target. */
  ghost predicate OnTrack(w: World, t: Net) {
    var want := t in Targets(w.store);
    && NoneHasHostBits(w.store)
    && (forall u | u in w.kernel :: NoHostBits(u))
    && match w.phase
       case Waiting => true
       case Snapped(entries, now) =>
         && NoneHasHostBits(entries)
         && (want <==> t in Targets(entries))
         && (forall e | e in entries :: !e.IsExpired(now))
       case Repairing(toAdd, toRemove) =>
         && toAdd !! toRemove
         && (forall u | u in toAdd + toRemove :: NoHostBits(u))
         && (if t in toAdd then want else if t in toRemove then !want else (want <==> t in w.kernel))
  }

  predicate RoundOver(evs: seq<Event>) {
    exists i | 0 <= i < |evs| :: evs[i].Finish? || evs[i].ListFails?
  }

  /** A rebuild holds an unexpired target iff the store does. */
  lemma BuiltHolds(store: seq<Entry>, now: Time, t: Net)
    requires NoneHasHostBits(store) && !ExpiresBy(store, t, now)
    ensures t in Built(store, now) <==> t in Targets(store)
    ensures forall u | u in Built(store, now) :: NoHostBits(u)
  {
    if t in Targets(store) {
      var e :| e in store && e.target == t;
      assert t in LiveTargets(store, now) && Mask(t) == t;
    }
  }

  lemma NextOnTrack(w: World, ev: Event, t: Net, horizon: Time)
    requires Enabled(w, ev) && OnTrack(w, t) && LeavesAlone(ev, t) && Before(ev, horizon)
    requires !ExpiresBy(w.store, t, horizon) && NoHostBits(t)
    ensures
      var w' := Next(w, ev);
      && OnTrack(w', t)
      && (t in Targets(w'.store) <==> t in Targets(w.store))
      && !ExpiresBy(w'.store, t, horizon)
      && (ev.Finish? || ev.ListFails? ==> (t in w'.kernel <==> t in Targets(w'.store)))
      && (w.phase.Waiting? && w'.phase.Waiting? ==>
            (t in w'.kernel <==> t in w.kernel) || (t in w'.kernel <==> t in Targets(w'.store)))
  {
    var w' := Next(w, ev);
    assert forall e | e in w.store && e.target == t :: !e.IsExpired(horizon);
    match ev
    case Snapshot(now) =>
      forall e | e in w.store && e.target == t ensures e in w'.store {}
      assert t in Targets(w.store) ==> exists e :: e in w.store && e.target == t;
    case List =>
      assert LiveTargets(w.phase.entries, w.phase.now) == Targets(w.phase.entries);
      forall u | u in w'.phase.toAdd + w'.phase.toRemove ensures NoHostBits(u) {}
    case ListFails(now, ok) => BuiltHolds(w.store, now, t);
    case Rebuild(now, ok) => BuiltHolds(w.store, now, t);
    case AllowStore(e) =>
      forall x | x in w.store && x.target == t ensures x in w'.store {}
      forall x | x in w'.store && x.target == t ensures x in w.store {}
      assert t in Targets(w'.store) <==> t in Targets(w.store);
    case RevokeStore(u) =>
      forall x | x in w.store && x.target == t ensures x in w'.store {}
      assert t in Targets(w'.store) <==> t in Targets(w.store);
    case RepairAdd(u, ok) =>
      assert Mask(u) == u by { assert u in w.phase.toAdd + w.phase.toRemove; }
      assert t in w'.kernel <==> t in w.kernel || (u == t && ok);
    case RepairRemove(u, ok) =>
      assert Mask(u) == u by { assert u in w.phase.toAdd + w.phase.toRemove; }
      assert t in w'.kernel <==> t in w.kernel && !(u == t && ok);
    case _ =>
  }

  /** However RPCs on other targets and kernel timeouts of other elements interleave with a round, an
      undisturbed target ends in the kernel iff the store holds it. */
  lemma {:induction false} RoundConverges(ws: seq<World>, evs: seq<Event>, t: Net, horizon: Time)
    requires IsRun(ws, evs) && |evs| > 0
    requires ws[0].phase.Waiting? && OnTrack(ws[0], t) && NoHostBits(t)
    requires forall i | 0 <= i < |evs| :: LeavesAlone(evs[i], t) && Before(evs[i], horizon)
    requires !ExpiresBy(ws[0].store, t, horizon)
    ensures OnTrack(ws[|evs|], t) && !ExpiresBy(ws[|evs|].store, t, horizon)
    ensures t in Targets(ws[|evs|].store) <==> t in Targets(ws[0].store)
    ensures RoundOver(evs) && ws[|evs|].phase.Waiting? ==> (t in ws[|evs|].kernel <==> t in Targets(ws[0].store))
  {
    var n := |evs| - 1;
    if n > 0 {
      assert IsRun(ws[..n + 1], evs[..n]);
      RoundConverges(ws[..n + 1], evs[..n], t, horizon);
    }
    NextOnTrack(ws[n], evs[n], t, horizon);
    if RoundOver(evs) && !(evs[n].Finish? || evs[n].ListFails?) {
      var i :| 0 <= i < |evs| && (evs[i].Finish? || evs[i].ListFails?);
      assert evs[..n][i] == evs[i];
    }
  }

  /** For instance, a round that puts a stored target into the kernel, after a rebuild that nft refuses. */
  lemma RoundFor(e: Entry, now: Time) returns (ws: seq<World>, evs: seq<Event>)
    requires NoHostBits(e.target) && !e.IsExpired(now)
    ensures IsRun(ws, evs) && ws[0] == World([e], {}, Waiting) && RoundOver(evs) && ws[|evs|] == World([e], {e.target}, Waiting)
    ensures OnTrack(ws[0], e.target) && !ExpiresBy(ws[0].store, e.target, now)
    ensures forall i | 0 <= i < |evs| :: LeavesAlone(evs[i], e.target) && Before(evs[i], now)
  {
    var t := e.target;
    evs := [Rebuild(now, false), Snapshot(now), List, RepairAdd(t, true), Finish];
    var start, snapped, repaired := World([e], {}, Waiting), World([e], {}, Snapped([e], now)), World([e], {t}, Repairing({}, {}));
    ws := [start, start, snapped, World([e], {}, Repairing({t}, {})), repaired, World([e], {t}, Waiting)];
    assert LiveTargets([e], now) == {t} && Unexpired([e], now) == [e];
    assert {} + {Mask(t)} == {t} && {t} - {t} == {};
    assert Next(snapped, List).phase == Repairing({t}, {});
    assert Next(ws[3], evs[3]) == repaired;
    assert evs[4].Finish?;
  }

  /** The hypothesis that no RPC touches the target is needed: an RPC that allows it between snapshot
      and list has its element removed by the repair although the store holds it. */
  lemma RaceRemovesAllowed(e: Entry, now: Time) returns (ws: seq<World>, evs: seq<Event>)
    requires NoHostBits(e.target) && !e.IsExpired(now)
    ensures IsRun(ws, evs) && ws[0] == World([], {}, Waiting)
    ensures evs == [Snapshot(now), AllowStore(e), AllowKernel(e.target, true), List, RepairRemove(e.target, true), Finish]
    ensures ws[|evs|] == World([e], {}, Waiting)
    ensures Race(ws, evs, e.target, now, true, Order(0, 3, 1, 2)) && Lost(evs, e.target, true, Order(0, 3, 1, 2))
  {
    var t := e.target;
    var w0 := World([], {}, Waiting);
    evs := [Snapshot(now), AllowStore(e), AllowKernel(t, true), List, RepairRemove(t, true), Finish];
    var w1 := Next(w0, evs[0]);
    var w2 := Next(w1, evs[1]);
    assert w2.store == [e];
    var w3 := Next(w2, evs[2]);
    assert w3.kernel == {t};
    var w4 := Next(w3, evs[3]);
    assert LiveTargets([], now) == {};
    assert w4.phase == Repairing({}, {t});
    var w5 := Next(w4, evs[4]);
    assert w5.kernel == {} && w5.phase == Repairing({}, {});
    var w6 := Next(w5, evs[5]);
    ws := [w0, w1, w2, w3, w4, w5, w6];
  }

  /** The mirror image: a target revoked between snapshot and list is put back, and a revoked address is
      let in again until the next round. */
  lemma RaceRestoresRevoked(e: Entry, now: Time) returns (ws: seq<World>, evs: seq<Event>)
    requires NoHostBits(e.target) && !e.IsExpired(now)
    ensures IsRun(ws, evs) && ws[0] == World([e], {e.target}, Waiting)
    ensures evs == [Snapshot(now), RevokeStore(e.target), RevokeKernel(e.target, true), List, RepairAdd(e.target, true), Finish]
    ensures ws[|evs|] == World([], {e.target}, Waiting)
  {
    var t := e.target;
    var w0 := World([e], {t}, Waiting);
    evs := [Snapshot(now), RevokeStore(t), RevokeKernel(t, true), List, RepairAdd(t, true), Finish];
    assert [e][1..] == [];
    var w1 := Next(w0, evs[0]);
    assert Unexpired([e][1..], now) == [] && w1.store == [e];
    var w2 := Next(w1, evs[1]);
    assert WithoutTarget([e][1..], t) == [] && w2.store == [];
    var w3 := Next(w2, evs[2]);
    assert w3.kernel == {};
    assert LiveTargets([e], now) == {t};
    var w4 := Next(w3, evs[3]);
    assert w4.phase == Repairing({t}, {});
    var w5 := Next(w4, evs[4]);
    assert w5.kernel == {t} && w5.phase == Repairing({}, {});
    var w6 := Next(w5, evs[5]);
    ws := [w0, w1, w2, w3, w4, w5, w6];
  }

  // ---- One round and one RPC on its target: exactly when the race is lost ----

  /** The two steps of `allow` (`on`) or `revoke` of `t`. */
  predicate StoreStep(ev: Event, t: Net, on: bool) {
    if on then ev.AllowStore? && ev.e.target == t else ev == RevokeStore(t)
  }

  predicate KernelStep(ev: Event, t: Net, on: bool) {
    if on then ev == AllowKernel(t, true) else ev == RevokeKernel(t, true)
  }

  predicate IsRebuild(ev: Event) {
    (ev.Rebuild? || ev.ListFails?) && ev.ok
  }

  /** Once the store step is done, these bring the kernel to what the RPC wants. */
  predicate Writes(ev: Event, t: Net, on: bool) {
    KernelStep(ev, t, on) || IsRebuild(ev)
  }

  predicate Repairs(ev: Event, t: Net) {
    ev == RepairAdd(t, true) || ev == RepairRemove(t, true)
  }

  /** Any other step, rebuilds by settings handlers included: it does not concern `t` unless it is a
      rebuild or a repair of it, and the repair works. */
  predicate Bystander(ev: Event, t: Net) {
    LeavesAlone(ev, t) && !ev.Snapshot? && !ev.List? && !ev.ListFails?
  }

  /** The positions of the snapshot, the list and the two steps of the RPC. */
  datatype Order = Order(snap: nat, list: nat, store: nat, kernel: nat)

  /** The list may also fail, and the whole table be rebuilt, or not even that. */
  ghost predicate OneRoundOneRpc(evs: seq<Event>, t: Net, on: bool, o: Order) {
    && o.snap < o.list < |evs| && o.store < o.kernel < |evs|
    && evs[o.snap].Snapshot? && (evs[o.list].List? || evs[o.list].ListFails?)
    && StoreStep(evs[o.store], t, on) && KernelStep(evs[o.kernel], t, on)
    && forall i | 0 <= i < |evs| && i !in {o.snap, o.list, o.store, o.kernel} :: Bystander(evs[i], t)
  }

  /** Between events `a` and `i`, the kernel is brought to what the RPC wants. */
  ghost predicate Written(evs: seq<Event>, t: Net, on: bool, a: nat, i: nat) {
    exists j :: a < j < i && j < |evs| && Writes(evs[j], t, on)
  }

  /** The round has repaired the target, and nothing has written it again by event `i`. */
  ghost predicate UndoneBy(evs: seq<Event>, t: Net, on: bool, o: Order, i: nat) {
    exists p :: o.list < p < i && p < |evs| && Repairs(evs[p], t) && forall j | p < j < i && j < |evs| :: !Writes(evs[j], t, on)
  }

  /** The RPC's store step came too late for the snapshot, the list found the kernel as the RPC wants it,
      and the repair of that was not followed by the RPC's kernel step or a rebuild. */
  ghost predicate Lost(evs: seq<Event>, t: Net, on: bool, o: Order)
    requires o.list < |evs|
  {
    o.snap < o.store && evs[o.list].List? && Written(evs, t, on, o.store, o.list) && UndoneBy(evs, t, on, o, |evs|)
  }

  lemma WrittenStep(evs: seq<Event>, t: Net, on: bool, a: nat, i: nat)
    requires i < |evs|
    ensures Written(evs, t, on, a, i + 1) <==> Written(evs, t, on, a, i) || (a < i && Writes(evs[i], t, on))
  {
  }

  lemma UndoneStep(evs: seq<Event>, t: Net, on: bool, o: Order, i: nat)
    requires i < |evs|
    ensures UndoneBy(evs, t, on, o, i + 1) <==> (o.list < i && Repairs(evs[i], t)) || (UndoneBy(evs, t, on, o, i) && !Writes(evs[i], t, on))
  {
    if UndoneBy(evs, t, on, o, i) && !Writes(evs[i], t, on) {
      var p :| o.list < p < i && Repairs(evs[p], t) && forall j | p < j < i && j < |evs| :: !Writes(evs[j], t, on);
      assert forall j | p < j < i + 1 && j < |evs| :: !Writes(evs[j], t, on);
    }
    if UndoneBy(evs, t, on, o, i + 1) && !(o.list < i && Repairs(evs[i], t)) {
      var p :| o.list < p < i + 1 && Repairs(evs[p], t) && forall j | p < j < i + 1 && j < |evs| :: !Writes(evs[j], t, on);
      assert p != i;
    }
  }

  /** What the round's snapshot sees of `t`. */
  function SnapSees(o: Order, on: bool): bool { if o.store < o.snap then on else !on }

  predicate Pending(p: Phase, t: Net, add: bool) {
    p.Repairing? && t in if add then p.toAdd else p.toRemove
  }

  ghost predicate Sound(w: World, t: Net, horizon: Time) {
    && NoneHasHostBits(w.store) && !ExpiresBy(w.store, t, horizon)
    && (forall u | u in w.kernel :: NoHostBits(u))
    && match w.phase
       case Waiting => true
       case Snapped(entries, now) => NoneHasHostBits(entries) && forall e | e in entries :: !e.IsExpired(now)
       case Repairing(toAdd, toRemove) => toAdd !! toRemove && forall u | u in toAdd + toRemove :: NoHostBits(u)
  }

  /** What of the run so far matters: whether the list worked and saw the RPC's wish fulfilled, whether
      the kernel has been written, also since the list, and whether that was undone. */
  datatype Past = Past(lists: bool, listSaw: bool, written: bool, since: bool, undone: bool)

  ghost function PastAt(evs: seq<Event>, t: Net, on: bool, o: Order, i: nat): Past
    requires o.list < |evs|
  {
    Past(
      evs[o.list].List?, Written(evs, t, on, o.store, o.list),
      Written(evs, t, on, o.store, i), Written(evs, t, on, o.list, i), UndoneBy(evs, t, on, o, i))
  }

  function After(p: Past, ev: Event, t: Net, on: bool, o: Order, i: nat): Past {
    p.(written := p.written || (o.store < i && Writes(ev, t, on)),
       since := p.since || (o.list < i && Writes(ev, t, on)),
       undone := (o.list < i && Repairs(ev, t)) || (p.undone && !Writes(ev, t, on)))
  }

  /** How store, kernel and round stand before event `i`. */
  ghost predicate StandsAt(w: World, t: Net, on: bool, o: Order, i: nat, p: Past) {
    && (t in Targets(w.store)) == (if o.store < i then on else !on)
    && (p.written ==> o.store < i) && (i <= o.list ==> !p.undone && !p.since)
    && (i <= o.list ==> (t in w.kernel) == (p.written == on))
    && (i <= o.snap ==> w.phase.Waiting?)
    && (o.snap < i <= o.list ==> w.phase.Snapped? && (t in Targets(w.phase.entries)) == SnapSees(o, on))
    && (o.list < i && !p.lists ==> w.phase.Waiting? && (t in w.kernel) == (p.written == on))
    && (o.list < i && p.lists ==> !w.phase.Snapped? && !Pending(w.phase, t, !SnapSees(o, on)) && AfterList(w, t, on, o, p))
  }

  ghost predicate AfterList(w: World, t: Net, on: bool, o: Order, p: Past) {
    if SnapSees(o, on) == (p.listSaw == on) then
      !Pending(w.phase, t, SnapSees(o, on)) && (t in w.kernel) == (p.written == on)
    else if SnapSees(o, on) == on then
      (Pending(w.phase, t, on) || (t in w.kernel) == on) && (p.written ==> (t in w.kernel) == on)
    else
      && (t in w.kernel) == (p.undone != on) && o.store < o.list
      && (Pending(w.phase, t, !on) || p.undone || p.since)
  }

  /** The target's membership after an event of the others. */
  lemma BystanderKeeps(w: World, ev: Event, t: Net, horizon: Time)
    requires Enabled(w, ev) && Sound(w, t, horizon) && NoHostBits(t) && Bystander(ev, t) && Before(ev, horizon)
    ensures
      var w' := Next(w, ev);
      && Sound(w', t, horizon)
      && (t in Targets(w'.store) <==> t in Targets(w.store))
      && (w'.phase == w.phase || (w.phase.Repairing? && !w'.phase.Snapped?))
      && (!Repairs(ev, t) ==> forall add :: Pending(w'.phase, t, add) == Pending(w.phase, t, add))
      && (t in w'.kernel <==> (if IsRebuild(ev) then t in Targets(w.store) else if Repairs(ev, t) then ev.RepairAdd? else t in w.kernel))
      && (Repairs(ev, t) ==> Pending(w.phase, t, ev.RepairAdd?))
      && forall add :: Pending(w'.phase, t, add) ==> Pending(w.phase, t, add)
  {
    var w' := Next(w, ev);
    assert forall e | e in w.store && e.target == t :: !e.IsExpired(horizon);
    match ev
    case AllowStore(e) =>
      forall x | x in w.store && x.target == t ensures x in w'.store {}
      forall x | x in w'.store && x.target == t ensures x in w.store {}
      assert t in Targets(w'.store) <==> t in Targets(w.store);
    case RevokeStore(u) =>
      forall x | x in w.store && x.target == t ensures x in w'.store {}
      assert t in Targets(w'.store) <==> t in Targets(w.store);
    case RepairAdd(u, ok) =>
      assert Mask(u) == u by { assert u in w.phase.toAdd + w.phase.toRemove; }
      assert t in w'.kernel <==> t in w.kernel || (u == t && ok);
    case RepairRemove(u, ok) =>
      assert Mask(u) == u by { assert u in w.phase.toAdd + w.phase.toRemove; }
      assert t in w'.kernel <==> t in w.kernel && !(u == t && ok);
    case Rebuild(now, ok) => BuiltHolds(w.store, now, t);
    case _ =>
  }

  lemma BystanderStands(w: World, ev: Event, t: Net, horizon: Time, on: bool, o: Order, i: nat, p: Past)
    requires Enabled(w, ev) && Sound(w, t, horizon) && NoHostBits(t) && Bystander(ev, t) && Before(ev, horizon)
    requires StandsAt(w, t, on, o, i, p) && o.snap < o.list && o.store < o.kernel
    requires i !in {o.snap, o.list, o.store, o.kernel} && o.snap != o.store
    ensures Sound(Next(w, ev), t, horizon) && StandsAt(Next(w, ev), t, on, o, i + 1, After(p, ev, t, on, o, i))
  {
    BystanderKeeps(w, ev, t, horizon);
  }

  lemma RoundStepStands(w: World, ev: Event, t: Net, horizon: Time, on: bool, o: Order, i: nat, p: Past)
    requires Enabled(w, ev) && Sound(w, t, horizon) && NoHostBits(t) && Before(ev, horizon)
    requires StandsAt(w, t, on, o, i, p) && o.snap < o.list && o.store < o.kernel
    requires i !in {o.store, o.kernel} && o.snap != o.store
    requires if i == o.snap then ev.Snapshot? else i == o.list && (if p.lists then ev.List? else ev.ListFails?) && p.listSaw == p.written
    ensures Sound(Next(w, ev), t, horizon) && StandsAt(Next(w, ev), t, on, o, i + 1, After(p, ev, t, on, o, i))
  {
    var w' := Next(w, ev);
    if ev.Snapshot? {
      assert forall e | e in w.store && e.target == t :: !e.IsExpired(horizon);
      forall e | e in w.store && e.target == t ensures e in w'.store {}
      assert t in Targets(w'.store) <==> t in Targets(w.store);
    } else if ev.List? {
      assert LiveTargets(w.phase.entries, w.phase.now) == Targets(w.phase.entries);
    } else {
      assert forall e | e in w.store && e.target == t :: !e.IsExpired(horizon);
      BuiltHolds(w.store, ev.now, t);
    }
  }

  lemma RpcStepStands(w: World, ev: Event, t: Net, horizon: Time, on: bool, o: Order, i: nat, p: Past)
    requires Enabled(w, ev) && Sound(w, t, horizon) && NoHostBits(t)
    requires StandsAt(w, t, on, o, i, p) && o.snap < o.list && o.store < o.kernel && i !in {o.snap, o.list}
    requires if i == o.store then StoreStep(ev, t, on) else i == o.kernel && KernelStep(ev, t, on)
    requires ev.AllowStore? ==> !ev.e.IsExpired(horizon)
    ensures Sound(Next(w, ev), t, horizon) && StandsAt(Next(w, ev), t, on, o, i + 1, After(p, ev, t, on, o, i))
  {
    var w' := Next(w, ev);
    if ev.AllowStore? {
      assert ev.e in w'.store;
    }
  }

  /** What kind of event stands at `i`. */
  predicate Stands(ev: Event, t: Net, horizon: Time, on: bool, o: Order, i: nat, lists: bool) {
    if i == o.snap then ev.Snapshot?
    else if i == o.list then if lists then ev.List? else ev.ListFails?
    else if i == o.store then StoreStep(ev, t, on) && (ev.AllowStore? ==> !ev.e.IsExpired(horizon))
    else if i == o.kernel then KernelStep(ev, t, on)
    else Bystander(ev, t)
  }

  predicate Distinct(o: Order) {
    o.snap < o.list && o.store < o.kernel && o.snap !in {o.store, o.kernel} && o.list !in {o.store, o.kernel}
  }

  lemma {:induction false} OneStepStands(w: World, ev: Event, t: Net, horizon: Time, on: bool, o: Order, i: nat, p: Past)
    requires Enabled(w, ev) && Sound(w, t, horizon) && NoHostBits(t) && Before(ev, horizon)
    requires Distinct(o) && Stands(ev, t, horizon, on, o, i, p.lists) && StandsAt(w, t, on, o, i, p)
    requires i == o.list ==> p.listSaw == p.written
    ensures Sound(Next(w, ev), t, horizon) && StandsAt(Next(w, ev), t, on, o, i + 1, After(p, ev, t, on, o, i))
  {
    if i == o.snap || i == o.list {
      RoundStepStands(w, ev, t, horizon, on, o, i, p);
    } else if i == o.store || i == o.kernel {
      RpcStepStands(w, ev, t, horizon, on, o, i, p);
    } else {
      BystanderStands(w, ev, t, horizon, on, o, i, p);
    }
  }

  lemma PastStep(evs: seq<Event>, t: Net, on: bool, o: Order, i: nat)
    requires o.list < |evs| && i < |evs|
    ensures PastAt(evs, t, on, o, i + 1) == After(PastAt(evs, t, on, o, i), evs[i], t, on, o, i)
  {
    WrittenStep(evs, t, on, o.store, i);
    WrittenStep(evs, t, on, o.list, i);
    UndoneStep(evs, t, on, o, i);
  }

  lemma StandsThere(evs: seq<Event>, t: Net, horizon: Time, on: bool, o: Order, i: nat)
    requires OneRoundOneRpc(evs, t, on, o) && i < |evs|
    requires evs[o.store].AllowStore? ==> !evs[o.store].e.IsExpired(horizon)
    ensures Distinct(o) && Stands(evs[i], t, horizon, on, o, i, evs[o.list].List?)
  {
  }

  /** A round with an `allow` (`on`) of an absent target or a `revoke` of a present one, among any rebuilds
      and anything that leaves the target alone, none of them after `horizon`, when its entries still live. */
  ghost predicate Race(ws: seq<World>, evs: seq<Event>, t: Net, horizon: Time, on: bool, o: Order) {
    && IsRun(ws, evs) && OneRoundOneRpc(evs, t, on, o) && NoHostBits(t)
    && (forall j | 0 <= j < |evs| :: Before(evs[j], horizon))
    && (evs[o.store].AllowStore? ==> !evs[o.store].e.IsExpired(horizon))
    && Sound(ws[0], t, horizon) && ws[0].phase.Waiting?
    && (t in Targets(ws[0].store)) == !on && (t in ws[0].kernel) == !on
  }

  ghost predicate RaceAt(ws: seq<World>, evs: seq<Event>, t: Net, horizon: Time, on: bool, o: Order, i: nat)
    requires o.list < |evs| && i < |ws|
  {
    Sound(ws[i], t, horizon) && StandsAt(ws[i], t, on, o, i, PastAt(evs, t, on, o, i))
  }

  lemma {:induction false} RaceStep(ws: seq<World>, evs: seq<Event>, t: Net, horizon: Time, on: bool, o: Order, i: nat)
    requires Race(ws, evs, t, horizon, on, o) && i < |evs| && RaceAt(ws, evs, t, horizon, on, o, i)
    ensures RaceAt(ws, evs, t, horizon, on, o, i + 1)
  {
    PastStep(evs, t, on, o, i);
    StandsThere(evs, t, horizon, on, o, i);
    OneStepStands(ws[i], evs[i], t, horizon, on, o, i, PastAt(evs, t, on, o, i));
  }

  lemma RaceStarts(ws: seq<World>, evs: seq<Event>, t: Net, horizon: Time, on: bool, o: Order)
    requires Race(ws, evs, t, horizon, on, o)
    ensures RaceAt(ws, evs, t, horizon, on, o, 0)
  {
  }

  lemma RaceStands(ws: seq<World>, evs: seq<Event>, t: Net, horizon: Time, on: bool, o: Order)
    requires Race(ws, evs, t, horizon, on, o)
    ensures RaceAt(ws, evs, t, horizon, on, o, |evs|)
  {
    var holds := (i: nat) => i <= |evs| && RaceAt(ws, evs, t, horizon, on, o, i);
    RaceStarts(ws, evs, t, horizon, on, o);
    forall i: nat | i < |evs| && holds(i) ensures holds(i + 1) {
      RaceStep(ws, evs, t, horizon, on, o, i);
    }
    StepByStep(holds, 0, |evs|);
  }

  /** For every such interleaving: once the round is over, kernel and store agree on the target exactly
      when the race is not lost. */
  lemma RaceLostIff(ws: seq<World>, evs: seq<Event>, t: Net, horizon: Time, on: bool, o: Order)
    requires Race(ws, evs, t, horizon, on, o) && ws[|evs|].phase.Waiting?
    ensures (t in ws[|evs|].kernel <==> t in Targets(ws[|evs|].store)) <==> !Lost(evs, t, on, o)
  {
    RaceStands(ws, evs, t, horizon, on, o);
    assert Writes(evs[o.kernel], t, on);
  }

  /** What the list found changed too early is undone, if nothing is written since. */
  lemma UndoneUnlessRewritten(ws: seq<World>, evs: seq<Event>, t: Net, horizon: Time, on: bool, o: Order)
    requires Race(ws, evs, t, horizon, on, o) && ws[|evs|].phase.Waiting?
    requires evs[o.list].List? && o.snap < o.store && Written(evs, t, on, o.store, o.list) && !Written(evs, t, on, o.list, |evs|)
    ensures UndoneBy(evs, t, on, o, |evs|)
  {
    RaceStands(ws, evs, t, horizon, on, o);
  }

  /** Without rebuilds that is a matter of the order of four steps: the store step comes after the snapshot,
      the kernel step before the list. */
  lemma LostWithoutRebuilds(ws: seq<World>, evs: seq<Event>, t: Net, horizon: Time, on: bool, o: Order)
    requires Race(ws, evs, t, horizon, on, o) && ws[|evs|].phase.Waiting?
    requires forall j | 0 <= j < |evs| :: !IsRebuild(evs[j])
    ensures Lost(evs, t, on, o) <==> evs[o.list].List? && o.snap < o.store && o.kernel < o.list
  {
    OnlyKernelStepWrites(evs, t, on, o);
    if evs[o.list].List? && o.snap < o.store && o.kernel < o.list {
      assert Writes(evs[o.kernel], t, on);
      UndoneUnlessRewritten(ws, evs, t, horizon, on, o);
    }
  }

  lemma OnlyKernelStepWrites(evs: seq<Event>, t: Net, on: bool, o: Order)
    requires OneRoundOneRpc(evs, t, on, o) && forall j | 0 <= j < |evs| :: !IsRebuild(evs[j])
    ensures forall j | 0 <= j < |evs| && Writes(evs[j], t, on) :: j == o.kernel
  {
  }

  /** That run is such a race. */
  lemma RestoredIsLost(e: Entry, now: Time) returns (ws: seq<World>, evs: seq<Event>)
    requires NoHostBits(e.target) && !e.IsExpired(now)
    ensures Race(ws, evs, e.target, now, false, Order(0, 3, 1, 2)) && Lost(evs, e.target, false, Order(0, 3, 1, 2))
  {
    ws, evs := RaceRestoresRevoked(e, now);
    assert Writes(evs[2], e.target, false) && Repairs(evs[4], e.target);
  }

  /** With one, the race is also lost by an `allow` whose kernel step comes behind the list: a rebuild has
      put the element in before, and the repair takes it out after. */
  lemma RebuildLosesRace(e: Entry, now: Time) returns (ws: seq<World>, evs: seq<Event>)
    requires NoHostBits(e.target) && !e.IsExpired(now)
    ensures IsRun(ws, evs) && ws[0] == World([], {}, Waiting)
    ensures evs == [Snapshot(now), AllowStore(e), Rebuild(now, true), List, AllowKernel(e.target, true), RepairRemove(e.target, true), Finish]
    ensures ws[|evs|] == World([e], {}, Waiting)
    ensures Race(ws, evs, e.target, now, true, Order(0, 3, 1, 4)) && Lost(evs, e.target, true, Order(0, 3, 1, 4))
  {
    var t := e.target;
    evs := [Snapshot(now), AllowStore(e), Rebuild(now, true), List, AllowKernel(t, true), RepairRemove(t, true), Finish];
    var stored, listed := World([e], {}, Snapped([], now)), World([e], {t}, Repairing({}, {t}));
    ws := [
      World([], {}, Waiting), World([], {}, Snapped([], now)), stored, Next(stored, evs[2]),
      listed, listed, World([e], {}, Repairing({}, {})), World([e], {}, Waiting)];
    assert Repairs(evs[5], t);
    ListedTooMuch(e, now);
    TakenOut(e);
    assert WithoutTarget([], t) + [e] == [e];
  }

  lemma ListedTooMuch(e: Entry, now: Time)
    requires NoHostBits(e.target) && !e.IsExpired(now)
    ensures
      var built := Next(World([e], {}, Snapped([], now)), Rebuild(now, true));
      built.phase == Snapped([], now) && Next(built, List) == World([e], {e.target}, Repairing({}, {e.target}))
  {
    var built := Next(World([e], {}, Snapped([], now)), Rebuild(now, true));
    assert LiveTargets([e], now) == {e.target} && LiveTargets([], now) == {};
    assert built.kernel == {e.target};
    assert Next(built, List).phase == Repairing({}, {e.target});
  }

  lemma TakenOut(e: Entry)
    requires NoHostBits(e.target)
    ensures
      var listed := World([e], {e.target}, Repairing({}, {e.target}));
      && Next(listed, AllowKernel(e.target, true)) == listed
      && Next(listed, RepairRemove(e.target, true)) == World([e], {}, Repairing({}, {}))
  {
    var listed := World([e], {e.target}, Repairing({}, {e.target}));
    assert {e.target} + {Mask(e.target)} == {e.target} && {e.target} - {Mask(e.target)} == {};
    assert Next(listed, RepairRemove(e.target, true)).phase == Repairing({}, {});
  }

  // ---- One undisturbed round, step by step as the loop runs it ----

  function SymDiff(a: set<Net>, b: set<Net>): set<Net> {
    (a - b) + (b - a)
  }

  lemma SymDiffSize(a: set<Net>, b: set<Net>)
    ensures |SymDiff(a, b)| == |a - b| + |b - a|
  {
    assert (a - b) !! (b - a);
  }

  lemma AddStep(kernel: set<Net>, want: set<Net>, todo: set<Net>, failed: set<Net>, t: Net)
    requires todo !! failed && want - kernel == todo + failed && t in todo && NoHostBits(t)
    ensures want - (kernel + {Mask(t)}) == (todo - {t}) + failed
    ensures (kernel + {Mask(t)}) - want == kernel - want
    ensures want - kernel == (todo - {t}) + (failed + {t}) && (todo - {t}) !! (failed + {t})
    ensures |todo - {t}| == |todo| - 1 && |failed + {t}| == |failed| + 1
  {
    assert t in want - kernel;
  }

  /** Those of the targets for which the repair does not work. */
  function Failing(ts: set<Net>, works: Net -> bool): set<Net> {
    set t | t in ts && !works(t)
  }

  lemma FailingStep(all: set<Net>, todo: set<Net>, t: Net, works: Net -> bool)
    requires t in todo && todo <= all
    ensures Failing(all - (todo - {t}), works) == Failing(all - todo, works) + if works(t) then {} else {t}
  {
    assert all - (todo - {t}) == (all - todo) + {t};
  }

  lemma RemoveStep(kernel: set<Net>, want: set<Net>, todo: set<Net>, failed: set<Net>, t: Net)
    requires todo !! failed && kernel - want == todo + failed && t in todo && NoHostBits(t)
    ensures (kernel - {Mask(t)}) - want == (todo - {t}) + failed
    ensures want - (kernel - {Mask(t)}) == want - kernel
    ensures kernel - want == (todo - {t}) + (failed + {t}) && (todo - {t}) !! (failed + {t})
    ensures |todo - {t}| == |todo| - 1 && |failed + {t}| == |failed| + 1
  {
    assert t in kernel - want;
  }

  /** The additions so far: `todo` is still to do, `failed` is what did not work. */
  ghost predicate Adding(
    want: set<Net>, missing: set<Net>, before: set<Net>, kernel: set<Net>, todo: set<Net>, failed: set<Net>, adds: Net -> bool)
  {
    && todo !! failed && want - kernel == todo + failed && kernel - want == before - want
    && (forall u | u in todo :: NoHostBits(u)) && todo <= missing && failed == Failing(missing - todo, adds)
  }

  lemma AddingEnds(want: set<Net>, missing: set<Net>, before: set<Net>, kernel: set<Net>, failed: set<Net>, adds: Net -> bool)
    requires Adding(want, missing, before, kernel, {}, failed, adds)
    ensures want - kernel == failed == Failing(missing, adds) && kernel - want == before - want
  {
    assert missing - {} == missing;
  }

  lemma AddingStarts(want: set<Net>, missing: set<Net>, kernel: set<Net>, adds: Net -> bool)
    requires missing == want - kernel && forall u | u in want :: NoHostBits(u)
    ensures Adding(want, missing, kernel, kernel, missing, {}, adds)
  {
  }

  lemma AddingStep(
    want: set<Net>, missing: set<Net>, before: set<Net>, kernel: set<Net>, todo: set<Net>, failed: set<Net>, adds: Net -> bool, t: Net)
    requires Adding(want, missing, before, kernel, todo, failed, adds) && t in todo
    ensures adds(t) ==> Adding(want, missing, before, kernel + {Mask(t)}, todo - {t}, failed, adds)
    ensures !adds(t) ==> Adding(want, missing, before, kernel, todo - {t}, failed + {t}, adds)
    ensures |todo - {t}| == |todo| - 1 && |failed + {t}| == |failed| + 1
  {
    AddStep(kernel, want, todo, failed, t);
    FailingStep(missing, todo, t, adds);
  }

  ghost predicate Removing(
    want: set<Net>, stale: set<Net>, before: set<Net>, kernel: set<Net>, todo: set<Net>, failed: set<Net>, removes: Net -> bool)
  {
    && todo !! failed && kernel - want == todo + failed && want - kernel == want - before
    && (forall u | u in todo :: NoHostBits(u)) && todo <= stale && failed == Failing(stale - todo, removes)
  }

  lemma RemovingEnds(want: set<Net>, stale: set<Net>, before: set<Net>, kernel: set<Net>, failed: set<Net>, removes: Net -> bool)
    requires Removing(want, stale, before, kernel, {}, failed, removes)
    ensures kernel - want == failed == Failing(stale, removes) && want - kernel == want - before
  {
    assert stale - {} == stale;
  }

  lemma RemovingStarts(want: set<Net>, stale: set<Net>, kernel: set<Net>, removes: Net -> bool)
    requires stale == kernel - want && forall u | u in kernel :: NoHostBits(u)
    ensures Removing(want, stale, kernel, kernel, stale, {}, removes)
  {
  }

  lemma RemovingStep(
    want: set<Net>, stale: set<Net>, before: set<Net>, kernel: set<Net>, todo: set<Net>, failed: set<Net>, removes: Net -> bool, t: Net)
    requires Removing(want, stale, before, kernel, todo, failed, removes) && t in todo
    ensures removes(t) ==> Removing(want, stale, before, kernel - {Mask(t)}, todo - {t}, failed, removes)
    ensures !removes(t) ==> Removing(want, stale, before, kernel, todo - {t}, failed + {t}, removes)
    ensures |todo - {t}| == |todo| - 1 && |failed + {t}| == |failed| + 1
  {
    RemoveStep(kernel, want, todo, failed, t);
    FailingStep(stale, todo, t, removes);
  }

  lemma NothingLeft(a: set<Net>, b: set<Net>)
    ensures |SymDiff(a, b)| == 0 ==> a == b
  {
    if |SymDiff(a, b)| == 0 {
      assert forall x | x in a - b :: x in SymDiff(a, b);
      assert forall x | x in b - a :: x in SymDiff(a, b);
    }
  }

  lemma UnexpiredIsLive(store: seq<Entry>, now: Time)
    requires NoneHasHostBits(store)
    ensures LiveTargets(Unexpired(store, now), now) == Targets(Unexpired(store, now))
    ensures forall u | u in Targets(Unexpired(store, now)) :: NoHostBits(u)
  {
  }

  lemma StaysMasked(want: set<Net>, before: set<Net>, after: set<Net>)
    requires after - want == before - want
    requires forall u | u in want + before :: NoHostBits(u)
    ensures forall u | u in after :: NoHostBits(u)
  {
    forall u | u in after ensures NoHostBits(u) {
      assert u in want || u in after - want;
    }
  }

  /** Some run of these events leads from one world to the other. */
  ghost predicate Reaches(w: World, evs: seq<Event>, end: World) {
    exists ws :: IsRun(ws, evs) && ws[0] == w && ws[|evs|] == end
  }

  lemma ReachesItself(w: World)
    ensures Reaches(w, [], w)
  {
    assert IsRun([w], []);
  }

  lemma ReachesStep(w: World, evs: seq<Event>, mid: World, ev: Event)
    requires Reaches(w, evs, mid) && Enabled(mid, ev)
    ensures Reaches(w, evs + [ev], Next(mid, ev))
  {
    var ws :| IsRun(ws, evs) && ws[0] == w && ws[|evs|] == mid;
    var all := ws + [Next(mid, ev)];
    assert IsRun(all, evs + [ev]);
  }

  lemma {:induction false} ReachesOn(w: World, evs: seq<Event>, mid: World, more: seq<Event>, end: World)
    requires Reaches(w, evs, mid) && Reaches(mid, more, end)
    ensures Reaches(w, evs + more, end)
    decreases |more|
  {
    var ws :| IsRun(ws, more) && ws[0] == mid && ws[|more|] == end;
    if more == [] {
      assert evs + more == evs;
    } else {
      var n := |more| - 1;
      assert IsRun(ws[..n + 1], more[..n]);
      ReachesOn(w, evs, mid, more[..n], ws[n]);
      ReachesStep(w, evs + more[..n], ws[n], more[n]);
      assert evs + more[..n] + [more[n]] == evs + more;
    }
  }

  class Reconciler {
    var store: seq<Entry>
    var kernel: set<Net>

    constructor (store: seq<Entry>, kernel: set<Net>)
      ensures this.store == store && this.kernel == kernel
    {
      this.store, this.kernel := store, kernel;
    }

    method Add(t: Net, ok: bool)
      modifies this`kernel
      ensures kernel == KernelAdd(old(kernel), t, ok)
    {
      if ok { kernel := kernel + {Mask(t)}; }
    }

    method Remove(t: Net, ok: bool)
      modifies this`kernel
      ensures kernel == KernelRemove(old(kernel), t, ok)
    {
      if ok { kernel := kernel - {Mask(t)}; }
    }

    /** The first repair loop; `adds` says which additions work. */
    method AddMissing(ghost want: set<Net>, missing: set<Net>, ghost stale: set<Net>, adds: Net -> bool)
      returns (successes: nat, failures: nat, ghost evs: seq<Event>)
      requires missing == want - kernel && forall u | u in want :: NoHostBits(u)
      modifies this`kernel
      ensures kernel - want == old(kernel) - want
      ensures |want - kernel| == failures && |want - old(kernel)| == successes + failures
      ensures want - kernel == Failing(missing, adds)
      ensures Reaches(World(store, old(kernel), Repairing(missing, stale)), evs, World(store, kernel, Repairing({}, stale)))
    {
      successes, failures, evs := 0, 0, [];
      ghost var start := World(store, kernel, Repairing(missing, stale));
      ReachesItself(start);
      ghost var failed: set<Net> := {};
      var todo := missing;
      AddingStarts(want, missing, kernel, adds);
      while todo != {}
        invariant Adding(want, missing, old(kernel), kernel, todo, failed, adds)
        invariant |failed| == failures && |todo| + failures + successes == |missing|
        invariant Reaches(start, evs, World(store, kernel, Repairing(todo, stale)))
      {
        var t :| t in todo;
        AddingStep(want, missing, old(kernel), kernel, todo, failed, adds, t);
        ghost var here := World(store, kernel, Repairing(todo, stale));
        var ok := adds(t);
        Add(t, ok);
        ReachesStep(start, evs, here, RepairAdd(t, ok));
        evs := evs + [RepairAdd(t, ok)];
        todo := todo - {t};
        if ok {
          successes := successes + 1;
        } else {
          failed := failed + {t};
          failures := failures + 1;
        }
      }
      AddingEnds(want, missing, old(kernel), kernel, failed, adds);
    }

    /** The second repair loop; `removes` says which removals work. */
    method RemoveStale(ghost want: set<Net>, stale: set<Net>, removes: Net -> bool) returns (successes: nat, failures: nat, ghost evs: seq<Event>)
      requires stale == kernel - want && forall u | u in kernel :: NoHostBits(u)
      modifies this`kernel
      ensures want - kernel == want - old(kernel)
      ensures |kernel - want| == failures && |old(kernel) - want| == successes + failures
      ensures kernel - want == Failing(stale, removes)
      ensures Reaches(World(store, old(kernel), Repairing({}, stale)), evs, World(store, kernel, Repairing({}, {})))
    {
      successes, failures, evs := 0, 0, [];
      ghost var start := World(store, kernel, Repairing({}, stale));
      ReachesItself(start);
      ghost var failed: set<Net> := {};
      var todo := stale;
      RemovingStarts(want, stale, kernel, removes);
      while todo != {}
        invariant Removing(want, stale, old(kernel), kernel, todo, failed, removes)
        invariant |failed| == failures && |todo| + failures + successes == |stale|
        invariant Reaches(start, evs, World(store, kernel, Repairing({}, todo)))
      {
        var t :| t in todo;
        RemovingStep(want, stale, old(kernel), kernel, todo, failed, removes, t);
        ghost var here := World(store, kernel, Repairing({}, todo));
        var ok := removes(t);
        Remove(t, ok);
        ReachesStep(start, evs, here, RepairRemove(t, ok));
        evs := evs + [RepairRemove(t, ok)];
        todo := todo - {t};
        if ok {
          successes := successes + 1;
        } else {
          failed := failed + {t};
          failures := failures + 1;
        }
      }
      RemovingEnds(want, stale, old(kernel), kernel, failed, removes);
    }

    /** One round of `reconcile_loop` whose list succeeds, over entries without host bits, with any
        number of repairs failing: the difference from the store shrinks by one per success, and is
        gone when nothing failed. The round is a run of the steps above. */
    method Round(now: Time, adds: Net -> bool, removes: Net -> bool) returns (successes: nat, failures: nat, ghost evs: seq<Event>)
      requires NoneHasHostBits(store) && forall u | u in kernel :: NoHostBits(u)
      modifies this
      ensures store == Unexpired(old(store), now)
      ensures |SymDiff(Targets(store), kernel)| + successes == |SymDiff(Targets(store), old(kernel))|
      ensures |SymDiff(Targets(store), kernel)| == failures
      // what is still wrong is exactly what did not work
      ensures Targets(store) - kernel == Failing(Targets(store) - old(kernel), adds)
      ensures kernel - Targets(store) == Failing(old(kernel) - Targets(store), removes)
      ensures failures == 0 ==> kernel == Targets(store) == QuietRound(old(store), old(kernel), now)
      ensures Reaches(World(old(store), old(kernel), Waiting), evs, World(store, kernel, Waiting))
    {
      ghost var start := World(store, kernel, Waiting);
      store := Unexpired(store, now);
      ghost var want := Targets(store);
      UnexpiredIsLive(old(store), now);
      var d := DiffOf(store, kernel, now);
      var added, notAdded, adds := AddMissing(want, d.missing, d.stale, adds);
      StaysMasked(want, old(kernel), kernel);
      ghost var between := kernel;
      var removed, notRemoved, removes := RemoveStale(want, d.stale, removes);
      successes, failures := added + removed, notAdded + notRemoved;
      evs := RoundCloses(start, now, adds, between, removes, kernel);
      SymDiffSize(want, old(kernel));
      SymDiffSize(want, kernel);
      NothingLeft(want, kernel);
      QuietRoundConverges(old(store), old(kernel), now);
    }
  }

  lemma RoundOpens(w: World, now: Time)
    requires w.phase.Waiting?
    ensures
      var pruned := Unexpired(w.store, now);
      var d := DiffOf(pruned, w.kernel, now);
      Reaches(w, [Snapshot(now), List], World(pruned, w.kernel, Repairing(d.missing, d.stale)))
  {
    ReachesItself(w);
    var w1 := Next(w, Snapshot(now));
    ReachesStep(w, [], w, Snapshot(now));
    assert [] + [Snapshot(now)] == [Snapshot(now)];
    ReachesStep(w, [Snapshot(now)], w1, List);
    assert [Snapshot(now)] + [List] == [Snapshot(now), List];
  }

  lemma RoundCloses(start: World, now: Time, adds: seq<Event>, between: set<Net>, removes: seq<Event>, kernel: set<Net>)
    returns (evs: seq<Event>)
    requires start.phase.Waiting?
    requires
      var pruned := Unexpired(start.store, now);
      var d := DiffOf(pruned, start.kernel, now);
      && Reaches(World(pruned, start.kernel, Repairing(d.missing, d.stale)), adds, World(pruned, between, Repairing({}, d.stale)))
      && Reaches(World(pruned, between, Repairing({}, d.stale)), removes, World(pruned, kernel, Repairing({}, {})))
    ensures Reaches(start, evs, World(Unexpired(start.store, now), kernel, Waiting))
  {
    var pruned := Unexpired(start.store, now);
    var d := DiffOf(pruned, start.kernel, now);
    var repaired := World(pruned, kernel, Repairing({}, {}));
    RoundOpens(start, now);
    ReachesOn(start, [Snapshot(now), List], World(pruned, start.kernel, Repairing(d.missing, d.stale)), adds, World(pruned, between, Repairing({}, d.stale)));
    ReachesOn(start, [Snapshot(now), List] + adds, World(pruned, between, Repairing({}, d.stale)), removes, repaired);
    ReachesStep(start, [Snapshot(now), List] + adds + removes, repaired, Finish);
    evs := [Snapshot(now), List] + adds + removes + [Finish];
  }

  lemma QuietRoundConverges(store: seq<Entry>, kernel: set<Net>, now: Time)
    requires NoneHasHostBits(store) && forall u | u in kernel :: NoHostBits(u)
    ensures QuietRound(store, kernel, now) == Targets(Unexpired(store, now))
  {
    UnexpiredIsLive(store, now);
    var d := DiffOf(Unexpired(store, now), kernel, now);
    assert Masks(d.missing) == d.missing;
    assert Masks(d.stale) == d.stale;
  }

  /** The whole effect of an undisturbed round in which every repair works. */
  function QuietRound(store: seq<Entry>, kernel: set<Net>, now: Time): set<Net> {
    var d := DiffOf(Unexpired(store, now), kernel, now);
    (kernel + Masks(d.missing)) - Masks(d.stale)
  }

  function Masks(ts: set<Net>): set<Net> {
    set t | t in ts :: Mask(t)
  }

  lemma {:induction false} RepairsDrain(w: World)
    requires w.phase.Repairing?
    ensures exists evs :: Reaches(w, evs, World(w.store, (w.kernel + Masks(w.phase.toAdd)) - Masks(w.phase.toRemove), Waiting))
    decreases |w.phase.toAdd|, |w.phase.toRemove|
  {
    var toAdd, toRemove := w.phase.toAdd, w.phase.toRemove;
    var end := World(w.store, (w.kernel + Masks(toAdd)) - Masks(toRemove), Waiting);
    if toAdd != {} {
      var t :| t in toAdd;
      var next := Next(w, RepairAdd(t, true));
      RepairsDrain(next);
      assert w.kernel + Masks(toAdd) == next.kernel + Masks(next.phase.toAdd);
      ReachesFirst(w, RepairAdd(t, true), end);
    } else if toRemove != {} {
      var t :| t in toRemove;
      var next := Next(w, RepairRemove(t, true));
      RepairsDrain(next);
      assert (w.kernel + Masks(toAdd)) - Masks(toRemove) == (next.kernel + Masks(toAdd)) - Masks(next.phase.toRemove);
      ReachesFirst(w, RepairRemove(t, true), end);
    } else {
      ReachesItself(end);
      assert Next(w, Finish) == end;
      ReachesFirst(w, Finish, end);
    }
  }

  lemma ReachesFirst(w: World, ev: Event, end: World)
    requires Enabled(w, ev) && exists evs :: Reaches(Next(w, ev), evs, end)
    ensures exists evs :: Reaches(w, evs, end)
  {
    var evs :| Reaches(Next(w, ev), evs, end);
    ReachesItself(w);
    ReachesStep(w, [], w, ev);
    ReachesOn(w, [] + [ev], Next(w, ev), evs, end);
  }

  /** A quiet round is a run of the steps above, also over entries with host bits. */
  lemma QuietRoundIsRun(store: seq<Entry>, kernel: set<Net>, now: Time)
    ensures exists evs :: Reaches(
      World(store, kernel, Waiting), evs, World(Unexpired(store, now), QuietRound(store, kernel, now), Waiting))
  {
    var w := World(store, kernel, Waiting);
    var pruned := Unexpired(store, now);
    var d := DiffOf(pruned, kernel, now);
    var mid := World(pruned, kernel, Repairing(d.missing, d.stale));
    RoundOpens(w, now);
    RepairsDrain(mid);
    var end := World(pruned, QuietRound(store, kernel, now), Waiting);
    var evs :| Reaches(mid, evs, end);
    ReachesOn(w, [Snapshot(now), List], mid, evs, end);
  }

  /** A quiet round reaches exact agreement from every kernel set precisely when no stored target
      has host bits: verbatim comparison never recognises the masked form. */
  lemma QuietRoundConvergesIff(store: seq<Entry>, now: Time)
    requires forall e | e in store :: !e.IsExpired(now)
    ensures (forall kernel | (forall u | u in kernel :: NoHostBits(u)) :: QuietRound(store, kernel, now) == Targets(store))
      <==> NoneHasHostBits(store)
  {
    var want := Targets(store);
    assert LiveTargets(Unexpired(store, now), now) == want;
    if NoneHasHostBits(store) {
      forall kernel: set<Net> | forall u | u in kernel :: NoHostBits(u)
        ensures QuietRound(store, kernel, now) == want
      {
        QuietRoundConverges(store, kernel, now);
      }
    } else {
      var e :| e in store && !NoHostBits(e.target);
      var none: set<Net> := {};
      assert e.target in want;
      forall u | u in QuietRound(store, none, now) ensures u != e.target {
        var t :| t in DiffOf(Unexpired(store, now), none, now).missing && u == Mask(t);
        MaskIdempotent(t);
      }
      assert QuietRound(store, none, now) != want;
    }
  }

  /** Worse, such an entry flaps: a round that starts without its element adds it, the next one
      removes it again. */
  lemma HostBitsFlap(e: Entry, now: Time, later: Time)
    requires !NoHostBits(e.target) && !e.IsExpired(now) && !e.IsExpired(later)
    ensures QuietRound([e], {}, now) == {Mask(e.target)}
    ensures QuietRound([e], {Mask(e.target)}, later) == {}
  {
    MaskIdempotent(e.target);
    assert [e][1..] == [];
    assert Unexpired([e], now) == [e];
    assert Unexpired([e], later) == [e];
    assert LiveTargets([e], now) == {e.target} && LiveTargets([e], later) == {e.target};
    assert DiffOf([e], {}, now).missing == {e.target};
    var d := DiffOf([e], {Mask(e.target)}, later);
    assert d.missing == {e.target} && d.stale == {Mask(e.target)};
    assert Masks({e.target}) == {Mask(e.target)};
    assert Masks({Mask(e.target)}) == {Mask(e.target)};
  }
}
