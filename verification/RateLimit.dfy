/** The fixed-window rate limiter (`api/limit.rs`). Instants are integers; the counters are `u32` and
    wrap. */
module RateLimit {
  import opened Wrappers

  /** The peer's address, as text. */
  type Source = string

  const PRUNE_ABOVE: nat := 10_000
  const WRAP: nat := 0x1_0000_0000

  /** When the window of an address began, and the calls counted since. */
  datatype Slot = Slot(start: int, count: nat)

  datatype Call = Call(ip: Source, now: int)

  /** `pruneAbove` is `None` for a limiter that never forgets a window. */
  datatype Limits = Limits(max: nat, window: nat, pruneAbove: Option<nat>)

  /** `duration_since`, which saturates. */
  function Since(now: int, start: int): nat {
    if now < start then 0 else now - start
  }

  function Prune(m: map<Source, Slot>, now: int, window: nat): map<Source, Slot> {
    map ip | ip in m && Since(now, m[ip].start) < window :: m[ip]
  }

  function Kept(l: Limits, m: map<Source, Slot>, now: int): map<Source, Slot> {
    if l.pruneAbove.Some? && |m| > l.pruneAbove.value then Prune(m, now, l.window) else m
  }

  function Bumped(l: Limits, m: map<Source, Slot>, c: Call): Slot {
    var e := if c.ip in m then m[c.ip] else Slot(c.now, 0);
    var f := if Since(c.now, e.start) >= l.window then Slot(c.now, 0) else e;
    Slot(f.start, (f.count + 1) % WRAP)
  }

  function Next(l: Limits, m: map<Source, Slot>, c: Call): map<Source, Slot> {
    if l.max == 0 then m else var kept := Kept(l, m, c.now); kept[c.ip := Bumped(l, kept, c)]
  }

  predicate Grants(l: Limits, m: map<Source, Slot>, c: Call) {
    l.max == 0 || Bumped(l, Kept(l, m, c.now), c).count <= l.max
  }

  /** A maximum of 0 means no limit: every call of every run is granted, and none is remembered. */
  lemma {:induction false} ZeroIsUnlimited(l: Limits, calls: seq<Call>, c: Call)
    requires l.max == 0
    ensures Grants(l, After(l, calls), c) && After(l, calls) == map[]
  {
    if calls != [] { ZeroIsUnlimited(l, calls[..|calls| - 1], c); }
  }

  class RateLimiter {
    const max: nat
    const window: nat
    var inner: map<Source, Slot>

    constructor (max: nat, window: nat)
      ensures this.max == max && this.window == window && inner == map[]
    {
      this.max, this.window, inner := max, window, map[];
    }

    function Rules(): Limits { Limits(max, window, Some(PRUNE_ABOVE)) }

    /** `allow`. */
    method Allow(ip: Source, now: int) returns (ok: bool)
      modifies this`inner
      ensures ok == Grants(Rules(), old(inner), Call(ip, now))
      ensures inner == Next(Rules(), old(inner), Call(ip, now))
    {
      if max == 0 { return true; }
      if |inner| > PRUNE_ABOVE {
        inner := map k | k in inner && Since(now, inner[k].start) < window :: inner[k];
      }
      if ip !in inner { inner := inner[ip := Slot(now, 0)]; }
      if Since(now, inner[ip].start) >= window { inner := inner[ip := Slot(now, 0)]; }
      var e := inner[ip];
      inner := inner[ip := Slot(e.start, (e.count + 1) % WRAP)];
      ok := inner[ip].count <= max;
    }
  }

  // ---- Runs ----

  function After(l: Limits, calls: seq<Call>): map<Source, Slot> {
    if calls == [] then map[] else Next(l, After(l, calls[..|calls| - 1]), calls[|calls| - 1])
  }

  /** The answer to call `i` of the run. */
  predicate Granted(l: Limits, calls: seq<Call>, i: nat)
    requires i < |calls|
  {
    Grants(l, After(l, calls[..i]), calls[i])
  }

  ghost predicate Ordered(calls: seq<Call>) {
    forall i, j | 0 <= i <= j < |calls| :: calls[i].now <= calls[j].now
  }

  /** Calls of `ip` granted from index `from` on at an instant in `[lo, hi)`. */
  function Tally(l: Limits, calls: seq<Call>, ip: Source, from: nat, lo: int, hi: int): nat
    decreases calls
  {
    if |calls| <= from then 0
    else
      var n := |calls| - 1;
      Tally(l, calls[..n], ip, from, lo, hi)
        + if calls[n].ip == ip && lo <= calls[n].now < hi && Granted(l, calls, n) then 1 else 0
  }

  // ---- Pruning changes no answer ----

  function Unpruned(l: Limits): Limits { l.(pruneAbove := None) }

  /** The pruned map lacks only windows that are over. */
  ghost predicate Agree(l: Limits, pruned: map<Source, Slot>, full: map<Source, Slot>, now: int) {
    && (forall ip | ip in pruned :: ip in full && full[ip] == pruned[ip])
    && (forall ip | ip in full && ip !in pruned :: Since(now, full[ip].start) >= l.window)
  }

  lemma AgreeStep(l: Limits, pruned: map<Source, Slot>, full: map<Source, Slot>, now: int, c: Call)
    requires l.max > 0 && now <= c.now && Agree(l, pruned, full, now)
    ensures Grants(l, pruned, c) == Grants(Unpruned(l), full, c)
    ensures Agree(l, Next(l, pruned, c), Next(Unpruned(l), full, c), c.now)
  {
    var kept := Kept(l, pruned, c.now);
    assert Agree(l, kept, full, c.now);
    assert Bumped(l, kept, c) == Bumped(Unpruned(l), full, c);
  }

  lemma {:induction false} RunsAgree(l: Limits, calls: seq<Call>, now: int)
    requires l.max > 0 && Ordered(calls) && forall i | 0 <= i < |calls| :: calls[i].now <= now
    ensures Agree(l, After(l, calls), After(Unpruned(l), calls), now)
  {
    if calls != [] {
      var n := |calls| - 1;
      RunsAgree(l, calls[..n], calls[n].now);
      AgreeStep(l, After(l, calls[..n]), After(Unpruned(l), calls[..n]), calls[n].now, calls[n]);
    }
  }

  /** Pruning is invisible: when time does not run backwards, every call of every run gets the answer
      that a limiter which never prunes would give. */
  lemma PruningIsInvisible(l: Limits, calls: seq<Call>, i: nat)
    requires Ordered(calls) && i < |calls|
    ensures Granted(l, calls, i) == Granted(Unpruned(l), calls, i)
  {
    if l.max > 0 {
      RunsAgree(l, calls[..i], calls[i].now);
      AgreeStep(l, After(l, calls[..i]), After(Unpruned(l), calls[..i]), calls[i].now, calls[i]);
    }
  }

  lemma {:induction false} TallySame(l: Limits, calls: seq<Call>, ip: Source, from: nat, lo: int, hi: int)
    requires Ordered(calls)
    ensures Tally(l, calls, ip, from, lo, hi) == Tally(Unpruned(l), calls, ip, from, lo, hi)
    decreases calls
  {
    if |calls| > from {
      var n := |calls| - 1;
      TallySame(l, calls[..n], ip, from, lo, hi);
      PruningIsInvisible(l, calls, n);
    }
  }

  // ---- What the counter counts ----

  /** Call `k` opened a window. */
  predicate Opens(l: Limits, calls: seq<Call>, k: nat)
    requires k < |calls|
  {
    var m := After(l, calls[..k]);
    calls[k].ip !in m || Since(calls[k].now, m[calls[k].ip].start) >= l.window
  }

  /** The calls of an address since its window opened, without wrapping. */
  function WindowCalls(l: Limits, calls: seq<Call>, ip: Source): nat
    decreases |calls|
  {
    if calls == [] then 0
    else
      var n := |calls| - 1;
      if calls[n].ip != ip then WindowCalls(l, calls[..n], ip)
      else if Opens(l, calls, n) then 1
      else WindowCalls(l, calls[..n], ip) + 1
  }

  lemma {:induction false} CounterWraps(l: Limits, calls: seq<Call>, ip: Source)
    requires l.max > 0 && l.pruneAbove.None?
    ensures ip in After(l, calls) ==> After(l, calls)[ip].count == WindowCalls(l, calls, ip) % WRAP
    ensures ip !in After(l, calls) ==> WindowCalls(l, calls, ip) == 0
    decreases |calls|
  {
    if calls != [] {
      var n := |calls| - 1;
      CounterWraps(l, calls[..n], ip);
      if calls[n].ip == ip {
        CounterStep(l, After(l, calls[..n]), calls[n], WindowCalls(l, calls[..n], ip));
      }
    }
  }

  lemma CounterStep(l: Limits, m: map<Source, Slot>, c: Call, k: nat)
    requires l.max > 0 && l.pruneAbove.None?
    requires c.ip in m ==> m[c.ip].count == k % WRAP
    ensures c.ip in Next(l, m, c)
    ensures
      var opens := c.ip !in m || Since(c.now, m[c.ip].start) >= l.window;
      Next(l, m, c)[c.ip].count == (if opens then 1 else k + 1) % WRAP
  {
    assert (k % WRAP + 1) % WRAP == (k + 1) % WRAP;
  }

  /** Over every run, a call is granted exactly when the number of calls of its address in its window, it
      included, is within the maximum modulo 2^32. */
  lemma GrantedIff(l: Limits, calls: seq<Call>, i: nat)
    requires Ordered(calls) && i < |calls|
    ensures Granted(l, calls, i) <==>
      l.max == 0 || WindowCalls(Unpruned(l), calls[..i + 1], calls[i].ip) % 0x1_0000_0000 <= l.max
  {
    if l.max == 0 { return; }
    var u := Unpruned(l);
    PruningIsInvisible(l, calls, i);
    assert calls[..i + 1][..i] == calls[..i];
    CounterWraps(u, calls[..i + 1], calls[i].ip);
    GrantedMeans(u, After(u, calls[..i]), calls[i]);
  }

  lemma GrantedMeans(l: Limits, m: map<Source, Slot>, c: Call)
    requires l.max > 0
    ensures c.ip in Next(l, m, c) && (Grants(l, m, c) <==> Next(l, m, c)[c.ip].count <= l.max)
  {
  }

  /** No window of the address sees 2^32 calls. */
  ghost predicate NoOverflow(l: Limits, calls: seq<Call>, ip: Source) {
    forall n | 0 <= n <= |calls| :: WindowCalls(Unpruned(l), calls[..n], ip) < WRAP
  }

  lemma NoOverflowPrefix(l: Limits, calls: seq<Call>, ip: Source)
    requires calls != [] && NoOverflow(l, calls, ip)
    ensures NoOverflow(l, calls[..|calls| - 1], ip)
  {
    var pre := calls[..|calls| - 1];
    forall n | 0 <= n <= |pre| ensures WindowCalls(Unpruned(l), pre[..n], ip) < WRAP {
      assert pre[..n] == calls[..n];
    }
  }

  /** So the counter does not wrap on the last call. */
  lemma LastFits(l: Limits, calls: seq<Call>, ip: Source)
    requires l.max > 0 && l.pruneAbove.None? && calls != [] && NoOverflow(l, calls, ip)
    ensures RoomFor(l, After(l, calls[..|calls| - 1]), calls[|calls| - 1], ip)
  {
    var n := |calls| - 1;
    assert l == Unpruned(l) && calls[..|calls|] == calls;
    CounterWraps(l, calls[..n], ip);
  }

  /** Unless it opens a window, a call of the address finds room in the counter. */
  predicate RoomFor(l: Limits, m: map<Source, Slot>, c: Call, ip: Source) {
    c.ip == ip && c.ip in m && Since(c.now, m[c.ip].start) < l.window ==> m[c.ip].count + 1 < WRAP
  }

  // ---- How much is let through ----

  function Min(a: nat, b: nat): nat { if a < b then a else b }

  /** What may have been granted in `[a, a + window)`, given the window the address is in. */
  function Budget(l: Limits, m: map<Source, Slot>, ip: Source, a: int): nat {
    if ip !in m then 0
    else if m[ip].start < a then Min(m[ip].count, l.max)
    else if m[ip].start < a + l.window then l.max + Min(m[ip].count, l.max)
    else 2 * l.max
  }

  /** The last call was at `last`. */
  ghost predicate Plausible(m: map<Source, Slot>, ip: Source, last: int) {
    ip in m ==> m[ip].start <= last
  }

  function Hit(l: Limits, m: map<Source, Slot>, c: Call, ip: Source, lo: int, hi: int): nat {
    if c.ip == ip && lo <= c.now < hi && Grants(l, m, c) then 1 else 0
  }

  lemma BumpFacts(l: Limits, m: map<Source, Slot>, c: Call)
    requires l.max > 0 && l.pruneAbove.None? && RoomFor(l, m, c, c.ip)
    ensures
      var f := Bumped(l, m, c);
      && Next(l, m, c) == m[c.ip := f]
      && (Grants(l, m, c) <==> f.count <= l.max)
      && if c.ip in m && Since(c.now, m[c.ip].start) < l.window then f == Slot(m[c.ip].start, m[c.ip].count + 1)
         else f == Slot(c.now, 1)
  {
  }

  lemma BudgetStep(l: Limits, m: map<Source, Slot>, c: Call, ip: Source, a: int, t: nat, last: int)
    requires l.max > 0 && l.pruneAbove.None? && last <= c.now && RoomFor(l, m, c, ip) && Plausible(m, ip, last)
    requires t <= Budget(l, m, ip, a) && (last < a ==> t == 0)
    ensures t + Hit(l, m, c, ip, a, a + l.window) <= Budget(l, Next(l, m, c), ip, a)
    ensures c.now < a ==> t + Hit(l, m, c, ip, a, a + l.window) == 0
    ensures Plausible(Next(l, m, c), ip, c.now)
  {
    if c.ip == ip {
      BumpFacts(l, m, c);
    }
  }

  lemma {:induction false} WithinBudget(l: Limits, calls: seq<Call>, ip: Source, a: int, last: int)
    requires l.max > 0 && l.pruneAbove.None? && Ordered(calls) && NoOverflow(l, calls, ip)
    requires calls != [] ==> last == calls[|calls| - 1].now
    ensures Tally(l, calls, ip, 0, a, a + l.window) <= Budget(l, After(l, calls), ip, a)
    ensures last < a ==> Tally(l, calls, ip, 0, a, a + l.window) == 0
    ensures Plausible(After(l, calls), ip, last)
    decreases |calls|
  {
    if calls != [] {
      var n := |calls| - 1;
      var before := if n > 0 then calls[n - 1].now else last;
      NoOverflowPrefix(l, calls, ip);
      LastFits(l, calls, ip);
      WithinBudget(l, calls[..n], ip, a, before);
      BudgetStep(l, After(l, calls[..n]), calls[n], ip, a, Tally(l, calls[..n], ip, 0, a, a + l.window), before);
    }
  }

  /** In any half-open interval of one window length an address is granted at most twice the maximum. */
  lemma AtMostTwicePerInterval(l: Limits, calls: seq<Call>, ip: Source, a: int)
    requires l.max > 0 && Ordered(calls) && NoOverflow(l, calls, ip)
    ensures Tally(l, calls, ip, 0, a, a + l.window) <= 2 * l.max
  {
    TallySame(l, calls, ip, 0, a, a + l.window);
    WithinBudget(Unpruned(l), calls, ip, a, if calls == [] then 0 else calls[|calls| - 1].now);
  }

  /** `t` calls were granted in the window that opened at `s`; the last call was at `last`. */
  ghost predicate WithinWindow(l: Limits, m: map<Source, Slot>, ip: Source, s: int, t: nat, last: int) {
    && ip in m && s <= m[ip].start <= last && t <= l.max
    && if m[ip].start == s then t <= m[ip].count else m[ip].start >= s + l.window
  }

  lemma WindowOpens(l: Limits, m: map<Source, Slot>, c: Call)
    requires l.max > 0 && l.pruneAbove.None?
    requires c.ip !in m || Since(c.now, m[c.ip].start) >= l.window
    ensures WithinWindow(l, Next(l, m, c), c.ip, c.now, Hit(l, m, c, c.ip, c.now, c.now + l.window), c.now)
  {
  }

  lemma WindowStep(l: Limits, m: map<Source, Slot>, c: Call, ip: Source, s: int, t: nat, last: int)
    requires l.max > 0 && l.pruneAbove.None? && l.window > 0 && last <= c.now && RoomFor(l, m, c, ip)
    requires WithinWindow(l, m, ip, s, t, last)
    ensures WithinWindow(l, Next(l, m, c), ip, s, t + Hit(l, m, c, ip, s, s + l.window), c.now)
  {
    if c.ip == ip {
      BumpFacts(l, m, c);
    }
  }

  lemma {:induction false} WindowBudget(l: Limits, calls: seq<Call>, k: nat, ip: Source, s: int, hi: int, t: nat)
    requires l.max > 0 && l.window > 0 && l.pruneAbove.None? && Ordered(calls) && NoOverflow(l, calls, ip)
    requires k < |calls| && calls[k] == Call(ip, s) && Opens(l, calls, k)
    requires hi == s + l.window && t == Tally(l, calls, ip, k, s, hi)
    ensures WithinWindow(l, After(l, calls), ip, s, t, calls[|calls| - 1].now)
    decreases |calls|
  {
    var n := |calls| - 1;
    var before := Tally(l, calls[..n], ip, k, s, hi);
    var m := After(l, calls[..n]);
    assert t == before + Hit(l, m, calls[n], ip, s, hi);
    if k == n {
      WindowOpens(l, m, calls[n]);
      assert before == 0;
    } else {
      assert calls[..n][..k] == calls[..k];
      NoOverflowPrefix(l, calls, ip);
      LastFits(l, calls, ip);
      WindowBudget(l, calls[..n], k, ip, s, hi, before);
      WindowStep(l, m, calls[n], ip, s, before, calls[n - 1].now);
    }
  }

  /** From the call that opens a window until the window is over, at most the maximum is granted. */
  lemma AtMostMaxPerWindow(l: Limits, calls: seq<Call>, k: nat, ip: Source, s: int, end: int)
    requires l.max > 0 && l.window > 0 && Ordered(calls) && NoOverflow(l, calls, ip)
    requires k < |calls| && calls[k] == Call(ip, s) && Opens(Unpruned(l), calls, k)
    requires end == s + l.window
    ensures Tally(l, calls, ip, k, s, end) <= l.max
  {
    TallySame(l, calls, ip, k, s, end);
    WindowBudget(Unpruned(l), calls, k, ip, s, end, Tally(Unpruned(l), calls, ip, k, s, end));
  }

  // ---- The counter wraps ----

  function Repeated(c: Call, n: nat): seq<Call> {
    seq(n, i requires 0 <= i < n => c)
  }

  lemma {:induction false} RepeatedCounts(l: Limits, c: Call, n: nat)
    requires l.max > 0 && l.window > 0
    ensures After(l, Repeated(c, n)) == Bursting(c, n)
  {
    if n > 0 {
      var calls := Repeated(c, n);
      assert calls[..n - 1] == Repeated(c, n - 1);
      RepeatedCounts(l, c, n - 1);
      BurstStep(l, c, n - 1);
    }
  }

  function Bursting(c: Call, n: nat): map<Source, Slot> {
    if n == 0 then map[] else map[c.ip := Slot(c.now, n % WRAP)]
  }

  lemma BurstStep(l: Limits, c: Call, n: nat)
    requires l.max > 0 && l.window > 0
    ensures Next(l, Bursting(c, n), c) == Bursting(c, n + 1)
    ensures Grants(l, Bursting(c, n), c) <==> (n + 1) % WRAP <= l.max
  {
    var m := Bursting(c, n);
    assert Kept(l, m, c.now) == m;
    assert (n % WRAP + 1) % WRAP == (n + 1) % WRAP;
  }

  /** Why the bounds need windows of fewer than 2^32 calls: call number n + 1 of a burst at one instant is granted
      exactly when n + 1 modulo 2^32 is within the maximum, so the burst is let through again. */
  lemma BurstGrantedIff(l: Limits, c: Call, n: nat)
    requires l.max > 0 && l.window > 0
    ensures Granted(l, Repeated(c, n + 1), n) <==> (n + 1) % 0x1_0000_0000 <= l.max
  {
    assert Repeated(c, n + 1)[..n] == Repeated(c, n);
    RepeatedCounts(l, c, n);
    BurstStep(l, c, n);
  }
}
