/** Port ranges and the interval merge that `render_ports` performs before a list of ranges is
    written into an nft interval set. */
module Ports {

  const MAX_PORT: int := 65535

  type Port = p: int | 0 <= p <= MAX_PORT

  // The width in which the source compares `end + 1`: the verifier checks that nothing overflows it.
  newtype U32 = x: int | 0 <= x < 0x1_0000_0000

  /** A port or a closed range of ports. */
  datatype PortRange = PortRange(start: Port, end: Port) {
    predicate Contains(p: Port) { start <= p <= end }

    predicate IsValid() { start <= end }

    predicate Overlaps(other: PortRange) { start <= other.end && other.start <= end }
  }

  datatype L4Proto = TCP | UDP

  /** The protocols a forward or a public port applies to. */
  datatype ForwardProto = OnlyTcp | OnlyUdp | Both

  lemma OverlapsIffSharedPort(a: PortRange, b: PortRange)
    requires a.IsValid() && b.IsValid()
    ensures a.Overlaps(b) <==> exists p: Port :: a.Contains(p) && b.Contains(p)
  {
    var later := if a.start <= b.start then b.start else a.start;
    if a.Overlaps(b) {
      assert a.Contains(later) && b.Contains(later);
    }
  }

  ghost predicate AllValid(rs: seq<PortRange>) {
    forall i | 0 <= i < |rs| :: rs[i].IsValid()
  }

  predicate Covers(rs: seq<PortRange>, p: Port) {
    exists i | 0 <= i < |rs| :: rs[i].Contains(p)
  }

  lemma CoversAt(rs: seq<PortRange>, i: nat, p: Port)
    requires i < |rs| && rs[i].Contains(p)
    ensures Covers(rs, p)
  {
  }

  lemma CoverIgnoresOrder(a: seq<PortRange>, b: seq<PortRange>)
    requires multiset(a) == multiset(b)
    ensures SameCover(a, b)
  {
    forall p: Port, i | 0 <= i < |a| && a[i].Contains(p) ensures Covers(b, p) {
      assert a[i] in multiset(b);
      var j :| 0 <= j < |b| && b[j] == a[i];
      CoversAt(b, j, p);
    }
    forall p: Port, i | 0 <= i < |b| && b[i].Contains(p) ensures Covers(a, p) {
      assert b[i] in multiset(a);
      var j :| 0 <= j < |a| && a[j] == b[i];
      CoversAt(a, j, p);
    }
  }

  ghost predicate SameCover(a: seq<PortRange>, b: seq<PortRange>) {
    forall p: Port :: Covers(a, p) <==> Covers(b, p)
  }

  /** Valid ranges in ascending order with at least one uncovered port between any two of them:
      what nft accepts inside one interval set. */
  ghost predicate Canonical(rs: seq<PortRange>) {
    && AllValid(rs)
    && (forall i, j | 0 <= i < j < |rs| :: rs[i].end + 1 < rs[j].start)
  }

  ghost predicate SortedByStart(rs: seq<PortRange>) {
    forall i, j | 0 <= i < j < |rs| :: rs[i].start <= rs[j].start
  }

  lemma InsertedKeepsOrder(s: seq<PortRange>, j: nat, r: PortRange)
    requires SortedByStart(s) && j <= |s|
    requires forall k | 0 <= k < j :: s[k].start <= r.start
    requires forall k | j <= k < |s| :: r.start < s[k].start
    ensures SortedByStart(s[..j] + [r] + s[j..])
    ensures multiset(s[..j] + [r] + s[j..]) == multiset(s) + multiset{r}
  {
    assert s == s[..j] + s[j..];
  }

  /** Stable insertion of one range. */
  method InsertByStart(s: seq<PortRange>, r: PortRange) returns (out: seq<PortRange>)
    requires SortedByStart(s)
    ensures SortedByStart(out)
    ensures multiset(out) == multiset(s) + multiset{r}
  {
    var j := |s|;
    while j > 0 && s[j - 1].start > r.start
      invariant 0 <= j <= |s|
      invariant forall k | j <= k < |s| :: s[k].start > r.start
    {
      j := j - 1;
    }
    out := s[..j] + [r] + s[j..];
    InsertedKeepsOrder(s, j, r);
  }

  /** Stable sort by `start`. */
  method SortByStart(rs: seq<PortRange>) returns (sorted: seq<PortRange>)
    ensures SortedByStart(sorted)
    ensures multiset(sorted) == multiset(rs)
  {
    sorted := [];
    for i := 0 to |rs|
      invariant SortedByStart(sorted)
      invariant multiset(sorted) == multiset(rs[..i])
    {
      sorted := InsertByStart(sorted, rs[i]);
      assert rs[..i + 1] == rs[..i] + [rs[i]];
    }
    assert rs[..|rs|] == rs;
  }

  lemma CoversAppend(a: seq<PortRange>, r: PortRange, p: Port)
    ensures Covers(a + [r], p) <==> Covers(a, p) || r.Contains(p)
  {
    if Covers(a, p) {
      var i :| 0 <= i < |a| && a[i].Contains(p);
      CoversAt(a + [r], i, p);
    }
    if r.Contains(p) {
      CoversAt(a + [r], |a|, p);
    }
  }

  lemma CoversLast(a: seq<PortRange>, p: Port)
    requires a != []
    ensures Covers(a, p) <==> Covers(a[..|a| - 1], p) || a[|a| - 1].Contains(p)
  {
    assert a == a[..|a| - 1] + [a[|a| - 1]];
    CoversAppend(a[..|a| - 1], a[|a| - 1], p);
  }

  /** `render_ports`: sort, then fold each range into the last merged one when it overlaps or
      touches it. */
  method MergePorts(ports: seq<PortRange>) returns (merged: seq<PortRange>)
    requires AllValid(ports)
    ensures Canonical(merged)
    ensures SameCover(merged, ports)
  {
    var sorted := SortByStart(ports);
    CoverIgnoresOrder(sorted, ports);
    assert AllValid(sorted) by {
      forall i | 0 <= i < |sorted| ensures sorted[i].IsValid() { assert sorted[i] in multiset(ports); }
    }
    merged := [];
    for i := 0 to |sorted|
      invariant Canonical(merged)
      invariant SameCover(merged, sorted[..i])
      invariant merged != [] && i < |sorted| ==> merged[|merged| - 1].start <= sorted[i].start
      invariant merged == [] ==> i == 0
    {
      var p := sorted[i];
      ghost var before := merged;
      assert sorted[..i + 1] == sorted[..i] + [p];
      if merged != [] && p.start as U32 <= merged[|merged| - 1].end as U32 + 1 {
        var last := merged[|merged| - 1];
        merged := merged[|merged| - 1 := last.(end := if p.end > last.end then p.end else last.end)];
        forall q: Port ensures Covers(merged, q) <==> Covers(sorted[..i + 1], q) {
          CoversLast(before, q);
          CoversLast(merged, q);
          assert merged[..|merged| - 1] == before[..|before| - 1];
          CoversAppend(sorted[..i], p, q);
        }
      } else {
        merged := merged + [p];
        forall q: Port ensures Covers(merged, q) <==> Covers(sorted[..i + 1], q) {
          CoversAppend(before, p, q);
          CoversAppend(sorted[..i], p, q);
        }
      }
    }
    assert sorted[..|sorted|] == sorted;
  }

  lemma CoversHeadTail(a: seq<PortRange>, p: Port)
    requires a != []
    ensures Covers(a, p) <==> a[0].Contains(p) || Covers(a[1..], p)
  {
    if Covers(a, p) {
      var i :| 0 <= i < |a| && a[i].Contains(p);
      if i > 0 { CoversAt(a[1..], i - 1, p); }
    }
    if a[0].Contains(p) {
      CoversAt(a, 0, p);
    }
    if Covers(a[1..], p) {
      var i :| 0 <= i < |a[1..]| && a[1..][i].Contains(p);
      CoversAt(a, i + 1, p);
    }
  }

  lemma TailAboveHead(a: seq<PortRange>, p: Port)
    requires Canonical(a) && a != []
    ensures p <= a[0].end + 1 ==> !Covers(a[1..], p)
  {
    if Covers(a[1..], p) {
      var i :| 0 <= i < |a[1..]| && a[1..][i].Contains(p);
      assert a[0].end + 1 < a[i + 1].start;
    }
  }

  lemma HeadNotAfter(a: seq<PortRange>, b: seq<PortRange>)
    requires Canonical(a) && Canonical(b) && SameCover(a, b) && a != []
    ensures b != [] && b[0].start <= a[0].start
    ensures b[0].start == a[0].start ==> a[0].end <= b[0].end
  {
    CoversAt(a, 0, a[0].start);
    assert Covers(b, a[0].start);
    CoversHeadTail(b, a[0].start);
    TailAboveHead(b, a[0].start);
    if b[0].start == a[0].start && b[0].end < a[0].end {
      var hole := b[0].end + 1;
      CoversAt(a, 0, hole);
      CoversHeadTail(b, hole);
      TailAboveHead(b, hole);
    }
  }

  /** The merged form depends on nothing but the set of covered ports. */
  lemma {:induction false} CanonicalUnique(a: seq<PortRange>, b: seq<PortRange>)
    requires Canonical(a) && Canonical(b) && SameCover(a, b)
    ensures a == b
  {
    if a == [] {
      if b != [] { CoversAt(b, 0, b[0].start); }
    } else {
      HeadNotAfter(a, b);
      HeadNotAfter(b, a);
      assert a[0] == b[0];
      forall p: Port ensures Covers(a[1..], p) <==> Covers(b[1..], p) {
        CoversHeadTail(a, p);
        CoversHeadTail(b, p);
        TailAboveHead(a, p);
        TailAboveHead(b, p);
      }
      CanonicalUnique(a[1..], b[1..]);
      assert a == [a[0]] + a[1..] && b == [b[0]] + b[1..];
    }
  }

  lemma HoleAfter(a: seq<PortRange>, i: nat, hole: Port)
    requires Canonical(a) && i + 1 < |a| && hole == a[i].end + 1
    ensures !Covers(a, hole)
  {
    forall j | 0 <= j < |a| ensures !a[j].Contains(hole) {
      assert j < i ==> a[j].end + 1 < a[i].start;
      assert j > i ==> a[i].end + 1 < a[j].start;
    }
  }

  /** No list of ranges with the same cover is shorter than the merged one. */
  lemma CanonicalFewest(a: seq<PortRange>, b: seq<PortRange>)
    requires Canonical(a) && SameCover(a, b)
    ensures |a| <= |b|
  {
    forall i | 0 <= i < |a| ensures Covers(b, a[i].start) {
      CoversAt(a, i, a[i].start);
    }
    forall j, i, k | 0 <= j < |b| && 0 <= i < k < |a| ensures !(b[j].Contains(a[i].start) && b[j].Contains(a[k].start)) {
      if b[j].Contains(a[i].start) && b[j].Contains(a[k].start) {
        assert a[i].end + 1 < a[k].start;
        CoversAt(b, j, a[i].end + 1);
        HoleAfter(a, i, a[i].end + 1);
      }
    }
    OneStartPerRange(a, b);
  }

  lemma {:induction false} OneStartPerRange(a: seq<PortRange>, b: seq<PortRange>)
    requires forall i | 0 <= i < |a| :: Covers(b, a[i].start)
    requires forall j, i, k | 0 <= j < |b| && 0 <= i < k < |a| :: !(b[j].Contains(a[i].start) && b[j].Contains(a[k].start))
    ensures |a| <= |b|
  {
    if a != [] {
      var j :| 0 <= j < |b| && b[j].Contains(a[0].start);
      var rest := b[..j] + b[j + 1..];
      forall i | 0 <= i < |a[1..]| ensures Covers(rest, a[1..][i].start) {
        var k :| 0 <= k < |b| && b[k].Contains(a[i + 1].start);
        CoversAt(rest, if k < j then k else k - 1, a[i + 1].start);
      }
      OneStartPerRange(a[1..], rest);
    }
  }
}
