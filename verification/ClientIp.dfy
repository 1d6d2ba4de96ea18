/** Which entry of X-Forwarded-For names the caller (`ipecho/main.go`). */
module ClientIp {
  import opened Wrappers
  import opened Text

  /** The trimmed parts that are not blank, in order. */
  function NonBlank(parts: seq<string>): (r: seq<string>)
    ensures forall p | p in r :: p != ""
  {
    if parts == [] then []
    else
      var rest, last := NonBlank(parts[..|parts| - 1]), Trim(parts[|parts| - 1]);
      if last == "" then rest else rest + [last]
  }

  function Parts(s: string): seq<string> {
    NonBlank(Split(s, ','))
  }

  /** Drop the blank ones of the parts in `a`, writing behind the reading position. */
  method Compact(a: array<string>) returns (n: nat)
    modifies a
    ensures n <= a.Length && a[..n] == NonBlank(old(a[..]))
  {
    n := 0;
    ghost var was := a[..];
    for i := 0 to a.Length
      invariant n <= i
      invariant forall k | i <= k < a.Length :: a[k] == was[k]
      invariant a[..n] == NonBlank(was[..i])
    {
      var p := Trim(a[i]);
      NonBlankSnoc(was, i);
      if p != "" {
        a[n] := p;
        assert a[..n + 1] == a[..n] + [p];
        n := n + 1;
      }
    }
    assert was[..a.Length] == was;
  }

  lemma NonBlankSnoc(parts: seq<string>, i: nat)
    requires i < |parts|
    ensures NonBlank(parts[..i + 1]) == NonBlank(parts[..i]) + if Trim(parts[i]) == "" then [] else [Trim(parts[i])]
  {
    assert parts[..i + 1][..i] == parts[..i];
  }

  /** `splitTrim`: the result is a prefix of the array that holds the split parts. */
  method SplitTrim(s: string) returns (raw: array<string>, n: nat)
    ensures fresh(raw) && n <= raw.Length && raw[..n] == Parts(s)
  {
    var parts := Split(s, ',');
    raw := new string[|parts|](i requires 0 <= i < |parts| => parts[i]);
    assert raw[..] == parts;
    n := Compact(raw);
  }

  /** `normalizeIP` and `net.SplitHostPort`. */
  datatype Net = Net(normalize: string -> string, hostOf: string -> Option<string>)

  /** The address of the TCP connection. */
  function PeerIp(net: Net, remoteAddr: string): string {
    var host := if net.hostOf(remoteAddr).Some? then net.hostOf(remoteAddr).value else remoteAddr;
    if net.normalize(host) != "" then net.normalize(host) else host
  }

  /** The address a proxy entry stands for, or the peer's if it is no address. */
  function EntryIp(net: Net, part: string, remoteAddr: string): string {
    if net.normalize(part) != "" then net.normalize(part) else PeerIp(net, remoteAddr)
  }

  /** The entry counted from the right; too few entries fall back to the peer. */
  function Selected(net: Net, xff: string, remoteAddr: string, trusted: int): string {
    if 0 < trusted <= |Parts(xff)| then EntryIp(net, Parts(xff)[|Parts(xff)| - trusted], remoteAddr)
    else PeerIp(net, remoteAddr)
  }

  /** With no proxy trusted, or more than there are entries, the answer is the connection's: its host
      without the port where that can be split off, in normal form where it is an address. */
  lemma PeerDecides(net: Net, xff: string, remoteAddr: string, trusted: int, host: string)
    requires trusted <= 0 || trusted > |Parts(xff)|
    requires net.hostOf(remoteAddr) == Some(host) || (net.hostOf(remoteAddr).None? && host == remoteAddr)
    ensures net.normalize(host) != "" ==> Selected(net, xff, remoteAddr, trusted) == net.normalize(host)
    ensures net.normalize(host) == "" ==> Selected(net, xff, remoteAddr, trusted) == host
  {
  }

  /** `clientIP`; an absent header is the empty text. */
  method ClientIp(net: Net, xff: string, remoteAddr: string, trusted: int) returns (ip: string)
    ensures ip == Selected(net, xff, remoteAddr, trusted)
  {
    if trusted > 0 {
      if xff != "" {
        var raw, n := SplitTrim(xff);
        var idx := n - trusted;
        assert raw[..n] == Parts(xff);
        if 0 <= idx < n {
          assert raw[idx] == raw[..n][idx];
          var found := net.normalize(raw[idx]);
          if found != "" { return found; }
        }
      } else {
        NothingInside();
      }
    }
    var host := net.hostOf(remoteAddr);
    var h := if host.Some? then host.value else remoteAddr;
    var found := net.normalize(h);
    if found != "" { return found; }
    return h;
  }

  lemma NothingInside()
    ensures Parts("") == []
  {
    SplitNone("", ',');
    assert [""][..0] == [];
    TightIsTrimmed("");
  }

  // ---- What the client can influence ----

  lemma {:induction false} NonBlankAppend(a: seq<string>, b: seq<string>)
    ensures NonBlank(a + b) == NonBlank(a) + NonBlank(b)
  {
    if b == [] {
      assert a + b == a;
    } else {
      assert (a + b)[..|a + b| - 1] == a + b[..|b| - 1];
      NonBlankAppend(a, b[..|b| - 1]);
    }
  }

  lemma {:induction false} SplitAppend(a: string, c: char, b: string)
    ensures Split(a + [c] + b, c) == Split(a, c) + Split(b, c)
    decreases |a|
  {
    match FirstIndex(a, c)
    case None => SplitHead(a, c, b);
    case Some(i) =>
      var head, tail := a[..i], a[i + 1..];
      assert a == head + [c] + tail;
      var more := tail + [c] + b;
      assert a + [c] + b == head + [c] + more;
      SplitHead(head, c, more);
      SplitHead(head, c, tail);
      SplitAppend(tail, c, b);
      Regroup([head], Split(tail, c), Split(b, c));
  }

  /** What is before and behind a comma contributes separately. */
  lemma PartsAppend(a: string, b: string)
    ensures Parts(a + [','] + b) == Parts(a) + Parts(b)
  {
    SplitAppend(a, ',', b);
    NonBlankAppend(Split(a, ','), Split(b, ','));
  }

  predicate ProxyEntry(e: string) {
    ',' !in e && Trim(e) != ""
  }

  lemma {:induction false} PartsOfEntries(es: seq<string>)
    requires es != [] && forall e | e in es :: ProxyEntry(e)
    ensures |Parts(Join(es, ','))| == |es|
    ensures forall i | 0 <= i < |es| :: Parts(Join(es, ','))[i] == Trim(es[i])
  {
    var last := es[|es| - 1];
    SplitOfJoin(es, ',');
    TrimEach(es);
  }

  lemma {:induction false} TrimEach(es: seq<string>)
    requires forall e | e in es :: Trim(e) != ""
    ensures |NonBlank(es)| == |es| && forall i | 0 <= i < |es| :: NonBlank(es)[i] == Trim(es[i])
  {
    if es != [] {
      var n := |es| - 1;
      TrimEach(es[..n]);
      NonBlankSnoc(es, n);
      assert es[..n + 1] == es && es[n] in es;
    }
  }

  /** Behind any text of the client, the entries of N trusted proxies select the first of them. */
  lemma {:induction false} ProxiesDecide(net: Net, prefix: string, es: seq<string>, remoteAddr: string)
    requires es != [] && forall e | e in es :: ProxyEntry(e)
    ensures Selected(net, prefix + [','] + Join(es, ','), remoteAddr, |es|) == EntryIp(net, Trim(es[0]), remoteAddr)
    ensures Selected(net, Join(es, ','), remoteAddr, |es|) == EntryIp(net, Trim(es[0]), remoteAddr)
  {
    PartsOfEntries(es);
    PartsAppend(prefix, Join(es, ','));
  }

  /** The result when the client's text, a comma and `rest` make up the header. */
  function Behind(net: Net, client: string, rest: string, remoteAddr: string, trusted: int): string {
    Selected(net, client + [','] + rest, remoteAddr, trusted)
  }

  ghost predicate Independent(net: Net, rest: string, remoteAddr: string, trusted: int) {
    forall p, q :: Behind(net, p, rest, remoteAddr, trusted) == Behind(net, q, rest, remoteAddr, trusted)
  }

  lemma EnoughEntries(net: Net, client: string, rest: string, remoteAddr: string, trusted: int)
    requires 0 < trusted <= |Parts(rest)|
    ensures Behind(net, client, rest, remoteAddr, trusted) == EntryIp(net, Parts(rest)[|Parts(rest)| - trusted], remoteAddr)
  {
    PartsAppend(client, rest);
  }

  /** What the proxies append shields the result from the client's text exactly when at least N of its
      entries are not blank. `v` is any address the client could want to be taken for. */
  lemma IndependentIff(net: Net, rest: string, remoteAddr: string, trusted: int, v: string)
    requires trusted > 0 && ProxyEntry(v)
    requires net.normalize(Trim(v)) != "" && net.normalize(Trim(v)) != PeerIp(net, remoteAddr)
    ensures Independent(net, rest, remoteAddr, trusted) <==> |Parts(rest)| >= trusted
  {
    if |Parts(rest)| >= trusted {
      forall p, q ensures Behind(net, p, rest, remoteAddr, trusted) == Behind(net, q, rest, remoteAddr, trusted) {
        EnoughEntries(net, p, rest, remoteAddr, trusted);
        EnoughEntries(net, q, rest, remoteAddr, trusted);
      }
    } else {
      Forged(net, rest, remoteAddr, trusted, v);
    }
  }

  /** With too few entries behind it, the client's text is believed. */
  lemma Forged(net: Net, rest: string, remoteAddr: string, trusted: int, v: string)
    requires trusted > |Parts(rest)| && ProxyEntry(v) && net.normalize(Trim(v)) != ""
    ensures
      var vs := seq(trusted - |Parts(rest)|, i => v);
      Behind(net, Join(vs, ','), rest, remoteAddr, trusted) == net.normalize(Trim(v))
    ensures Behind(net, "", rest, remoteAddr, trusted) == PeerIp(net, remoteAddr)
  {
    var vs := seq(trusted - |Parts(rest)|, i => v);
    assert vs[0] == v;
    PartsOfEntries(vs);
    PartsAppend(Join(vs, ','), rest);
    PartsAppend("", rest);
    NothingInside();
  }
}
