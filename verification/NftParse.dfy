/** Reading a set back from the kernel (`nft/parse.rs`): durations, the element list of a set
    definition, and the agreement with what `nft/ruleset.rs` writes. */
module NftParse {
  import opened Wrappers
  import opened Entries
  import opened Ruleset
  import opened Text
  import Reconcile

  // ---- Durations ----

  /** Two's complement wrap-around of an `i64`. */
  function Wrap64(n: int): (r: int)
    ensures -0x8000_0000_0000_0000 <= r < 0x8000_0000_0000_0000
    ensures -0x8000_0000_0000_0000 <= n < 0x8000_0000_0000_0000 ==> r == n
  {
    (n + 0x8000_0000_0000_0000) % 0x1_0000_0000_0000_0000 - 0x8000_0000_0000_0000
  }

  const MAX_I64: nat := 0x7fff_ffff_ffff_ffff

  function Weight(unit: char): (r: Option<nat>)
    ensures r.Some? <==> unit in {'w', 'd', 'h', 'm', 's'}
  {
    match unit
    case 'w' => Some(7 * 86400)
    case 'd' => Some(86400)
    case 'h' => Some(3600)
    case 'm' => Some(60)
    case 's' => Some(1)
    case _ => None
  }

  /** A run of digits and the character that ends it. */
  datatype Group = Group(digits: string, unit: char)

  predicate WellShaped(groups: seq<Group>, tail: string) {
    && AllDigits(tail)
    && forall g | g in groups :: AllDigits(g.digits) && !IsDigit(g.unit)
  }

  function Spell(groups: seq<Group>): string {
    if groups == [] then "" else Spell(groups[..|groups| - 1]) + groups[|groups| - 1].digits + [groups[|groups| - 1].unit]
  }

  datatype Shape = Shape(groups: seq<Group>, tail: string)

  /** The groups of a text and the digits left over behind the last one. */
  function ShapeOf(s: string): (r: Shape)
    ensures WellShaped(r.groups, r.tail)
  {
    if s == "" then Shape([], "")
    else
      var r, c := ShapeOf(s[..|s| - 1]), s[|s| - 1];
      if IsDigit(c) then Shape(r.groups, r.tail + [c]) else Shape(r.groups + [Group(r.tail, c)], "")
  }

  lemma {:induction false} ShapeSpells(s: string)
    ensures Spell(ShapeOf(s).groups) + ShapeOf(s).tail == s
  {
    if s != "" {
      var init, c := s[..|s| - 1], s[|s| - 1];
      ShapeSpells(init);
      assert s == init + [c];
      if !IsDigit(c) {
        var groups := ShapeOf(s).groups;
        assert groups[..|groups| - 1] == ShapeOf(init).groups;
      }
    }
  }

  /** A text has only one such reading. */
  lemma {:induction false} ShapeOfSpelled(groups: seq<Group>, tail: string)
    requires WellShaped(groups, tail)
    ensures ShapeOf(Spell(groups) + tail) == Shape(groups, tail)
    decreases |groups|, |tail|
  {
    var s := Spell(groups) + tail;
    if tail != "" {
      var init := tail[..|tail| - 1];
      assert tail == init + [tail[|tail| - 1]] && tail[|tail| - 1] in tail;
      assert s[..|s| - 1] == Spell(groups) + init;
      assert forall c | c in init :: c in tail;
      ShapeOfSpelled(groups, init);
    } else if groups != [] {
      var before, g := groups[..|groups| - 1], groups[|groups| - 1];
      assert groups == before + [g] && g in groups;
      assert s[..|s| - 1] == Spell(before) + g.digits && s[|s| - 1] == g.unit;
      ShapeOfSpelled(before, g.digits);
    }
  }

  lemma {:induction false} GroupsGrow(s: string, i: nat)
    requires i <= |s|
    ensures ShapeOf(s[..i]).groups <= ShapeOf(s).groups
  {
    if i < |s| {
      assert s[..|s| - 1][..i] == s[..i];
      GroupsGrow(s[..|s| - 1], i);
    } else {
      assert s[..i] == s;
    }
  }

  predicate Readable(g: Group)
    requires AllDigits(g.digits)
  {
    g.digits != "" && Value(g.digits) <= MAX_I64 && g.unit in {'w', 'd', 'h', 'm', 's'}
  }

  predicate AllReadable(groups: seq<Group>) {
    forall g | g in groups :: AllDigits(g.digits) && Readable(g)
  }

  /** Weeks, days, hours, minutes and seconds. */
  datatype Parts = Parts(w: nat, d: nat, h: nat, m: nat, s: nat) {
    function Plus(n: nat, unit: char): Parts {
      match unit
      case 'w' => this.(w := w + n)
      case 'd' => this.(d := d + n)
      case 'h' => this.(h := h + n)
      case 'm' => this.(m := m + n)
      case _ => this.(s := s + n)
    }

    function Seconds(): nat { (((7 * w + d) * 24 + h) * 60 + m) * 60 + s }
  }

  /** The numbers of each unit together. */
  function Totals(groups: seq<Group>): Parts
    requires AllReadable(groups)
  {
    if groups == [] then Parts(0, 0, 0, 0, 0)
    else
      var last := groups[|groups| - 1];
      Totals(groups[..|groups| - 1]).Plus(Value(last.digits), last.unit)
  }

  function GroupSeconds(g: Group): nat
    requires AllDigits(g.digits) && Readable(g)
  {
    Value(g.digits) * Weight(g.unit).value
  }

  /** The weighted sum, group by group. */
  function Seconds(groups: seq<Group>): nat
    requires AllReadable(groups)
  {
    if groups == [] then 0
    else
      Seconds(groups[..|groups| - 1]) + GroupSeconds(groups[|groups| - 1])
  }

  /** Which is the time in weeks, days, hours, minutes and seconds. */
  lemma {:induction false} SecondsOfTotals(groups: seq<Group>)
    requires AllReadable(groups)
    ensures Seconds(groups) == Totals(groups).Seconds()
  {
    if groups != [] {
      var before, last := groups[..|groups| - 1], groups[|groups| - 1];
      SecondsOfTotals(before);
      PlusWeighs(Totals(before), Value(last.digits), last.unit);
    }
  }

  /** What a duration means: the sum of its groups in 64 bits; digits behind the last unit are ignored. */
  function Duration(s: string): Option<int> {
    var groups := ShapeOf(s).groups;
    if groups != [] && AllReadable(groups) then Some(Wrap64(Seconds(groups))) else None
  }

  lemma WrapAdds(a: int, b: int)
    ensures Wrap64(Wrap64(a) + Wrap64(b)) == Wrap64(a + b)
  {
  }

  /** One more character that is not a digit closes a group. */
  lemma {:induction false} GroupCloses(s: string, i: nat, before: Shape)
    requires i < |s| && !IsDigit(s[i]) && before == ShapeOf(s[..i])
    ensures ShapeOf(s[..i + 1]) == Shape(before.groups + [Group(before.tail, s[i])], "")
    ensures Group(before.tail, s[i]) in ShapeOf(s).groups
  {
    assert s[..i + 1][..i] == s[..i];
    GroupsGrow(s, i + 1);
    assert ShapeOf(s[..i + 1]).groups[|before.groups|] == Group(before.tail, s[i]);
  }

  lemma PlusWeighs(p: Parts, n: nat, unit: char)
    requires Weight(unit).Some?
    ensures p.Plus(n, unit).Seconds() == p.Seconds() + n * Weight(unit).value
  {
  }

  lemma {:induction false} GroupAdds(before: seq<Group>, g: Group)
    requires AllReadable(before) && AllDigits(g.digits) && Readable(g)
    ensures AllReadable(before + [g])
    ensures Wrap64(Seconds(before + [g])) == Wrap64(Wrap64(Seconds(before)) + Wrap64(GroupSeconds(g)))
  {
    var after := before + [g];
    assert after[..|after| - 1] == before;
    WrapAdds(Seconds(before), GroupSeconds(g));
  }

  lemma DigitJoins(s: string, i: nat)
    requires i < |s| && IsDigit(s[i])
    ensures ShapeOf(s[..i + 1]) == Shape(ShapeOf(s[..i]).groups, ShapeOf(s[..i]).tail + [s[i]])
  {
    assert s[..i + 1][..i] == s[..i];
  }

  /** `parse_nft_duration`. */
  method ParseDuration(s: string) returns (r: Option<int>)
    ensures r == Duration(s)
  {
    var total, num, sawUnit := 0, "", false;
    ghost var groups := [];
    for i := 0 to |s|
      invariant ShapeOf(s[..i]) == Shape(groups, num)
      invariant sawUnit <==> groups != []
      invariant AllReadable(groups) && total == Wrap64(Seconds(groups))
    {
      var c := s[i];
      if IsDigit(c) {
        DigitJoins(s, i);
        num := num + [c];
      } else {
        GroupCloses(s, i, Shape(groups, num));
        var g := Group(num, c);
        if num == "" || Value(num) > MAX_I64 || Weight(c).None? { return None; }
        GroupAdds(groups, g);
        total := Wrap64(total + Wrap64(GroupSeconds(g)));
        groups := groups + [g];
        num, sawUnit := "", true;
      }
    }
    assert s[..|s|] == s;
    r := if sawUnit then Some(total) else None;
  }

  /** The result is the true number of seconds exactly when that number is an `i64`. */
  lemma {:induction false} DurationExactIff(groups: seq<Group>, tail: string)
    requires WellShaped(groups, tail)
    ensures Duration(Spell(groups) + tail).Some? <==> groups != [] && AllReadable(groups)
    ensures groups != [] && AllReadable(groups) ==>
      (Duration(Spell(groups) + tail) == Some(Totals(groups).Seconds()) <==> Totals(groups).Seconds() <= MAX_I64)
  {
    ShapeOfSpelled(groups, tail);
    if AllReadable(groups) { SecondsOfTotals(groups); }
  }

  /** A number with its unit, or nothing. */
  function Part(n: Option<nat>, unit: char): string {
    if n.None? then "" else Show(n.value) + [unit]
  }

  function OrZero(n: Option<nat>): nat { if n.None? then 0 else n.value }

  function PartGroups(n: Option<nat>, unit: char): seq<Group> {
    if n.None? then [] else [Group(Show(n.value), unit)]
  }

  /** The text is these groups, and their numbers add up to these. */
  ghost predicate AddsUp(groups: seq<Group>, text: string, p: Parts) {
    AllReadable(groups) && Spell(groups) == text && Totals(groups) == p
  }

  lemma {:induction false} PartAdds(before: seq<Group>, text: string, p: Parts, n: Option<nat>, unit: char)
    requires AddsUp(before, text, p) && unit in {'w', 'd', 'h', 'm', 's'} && OrZero(n) <= MAX_I64
    ensures AddsUp(before + PartGroups(n, unit), text + Part(n, unit), p.Plus(OrZero(n), unit))
  {
    if n.Some? {
      var g := Group(Show(n.value), unit);
      ShowFacts(n.value);
      assert (before + [g])[..|before|] == before;
    } else {
      assert before + [] == before;
    }
  }

  lemma AddsUpReads(groups: seq<Group>, text: string, p: Parts)
    requires AddsUp(groups, text, p) && groups != [] && p.Seconds() <= MAX_I64
    ensures Duration(text) == Some(p.Seconds())
  {
    assert Spell(groups) + "" == text;
    DurationExactIff(groups, "");
  }

  /** A part of a duration, or its absence. */
  datatype Piece = Piece(n: Option<nat>, unit: char)

  function TextOf(ps: seq<Piece>): string {
    if ps == [] then "" else TextOf(ps[..|ps| - 1]) + Part(ps[|ps| - 1].n, ps[|ps| - 1].unit)
  }

  function SumOf(ps: seq<Piece>): Parts {
    if ps == [] then Parts(0, 0, 0, 0, 0) else SumOf(ps[..|ps| - 1]).Plus(OrZero(ps[|ps| - 1].n), ps[|ps| - 1].unit)
  }

  lemma {:induction false} PiecesAddUp(ps: seq<Piece>) returns (groups: seq<Group>)
    requires forall p | p in ps :: p.unit in {'w', 'd', 'h', 'm', 's'} && OrZero(p.n) <= MAX_I64
    ensures AddsUp(groups, TextOf(ps), SumOf(ps))
    ensures groups == [] <==> forall p | p in ps :: p.n.None?
  {
    groups := [];
    if ps != [] {
      var init, last := ps[..|ps| - 1], ps[|ps| - 1];
      assert ps == init + [last];
      var before := PiecesAddUp(init);
      PartAdds(before, TextOf(init), SumOf(init), last.n, last.unit);
      groups := before + PartGroups(last.n, last.unit);
    }
  }

  /** Parts in any order, some of them left out, read as the time they make up. */
  lemma {:induction false} PiecesRead(ps: seq<Piece>, time: nat)
    requires forall p | p in ps :: p.unit in {'w', 'd', 'h', 'm', 's'} && OrZero(p.n) <= MAX_I64
    requires (exists p :: p in ps && p.n.Some?) && time == SumOf(ps).Seconds() <= MAX_I64
    ensures Duration(TextOf(ps)) == Some(time)
  {
    var groups := PiecesAddUp(ps);
    AddsUpReads(groups, TextOf(ps), SumOf(ps));
  }

  lemma FivePieces(a: Piece, b: Piece, c: Piece, d: Piece, e: Piece)
    ensures TextOf([a, b, c, d, e]) == Part(a.n, a.unit) + Part(b.n, b.unit) + Part(c.n, c.unit) + Part(d.n, d.unit) + Part(e.n, e.unit)
    ensures SumOf([a, b, c, d, e]) ==
      Parts(0, 0, 0, 0, 0).Plus(OrZero(a.n), a.unit).Plus(OrZero(b.n), b.unit).Plus(OrZero(c.n), c.unit)
        .Plus(OrZero(d.n), d.unit).Plus(OrZero(e.n), e.unit)
  {
    OnePiece([], a);
    OnePiece([] + [a], b);
    OnePiece([] + [a] + [b], c);
    OnePiece([] + [a] + [b] + [c], d);
    OnePiece([] + [a] + [b] + [c] + [d], e);
    assert [a, b, c, d, e] == [] + [a] + [b] + [c] + [d] + [e];
    assert "" + Part(a.n, a.unit) == Part(a.n, a.unit);
  }

  lemma OnePiece(ps: seq<Piece>, p: Piece)
    ensures TextOf(ps + [p]) == TextOf(ps) + Part(p.n, p.unit) && SumOf(ps + [p]) == SumOf(ps).Plus(OrZero(p.n), p.unit)
  {
    assert (ps + [p])[..|ps|] == ps;
  }

  /** The form in which the kernel lists a duration, whatever of it is left out, reads as that time. */
  lemma CompoundReads(w: Option<nat>, d: Option<nat>, h: Option<nat>, m: Option<nat>, s: Option<nat>, time: nat)
    requires w.Some? || d.Some? || h.Some? || m.Some? || s.Some?
    requires time == (((7 * OrZero(w) + OrZero(d)) * 24 + OrZero(h)) * 60 + OrZero(m)) * 60 + OrZero(s) <= MAX_I64
    ensures Duration(Part(w, 'w') + Part(d, 'd') + Part(h, 'h') + Part(m, 'm') + Part(s, 's')) == Some(time)
  {
    var ps := [Piece(w, 'w'), Piece(d, 'd'), Piece(h, 'h'), Piece(m, 'm'), Piece(s, 's')];
    FivePieces(ps[0], ps[1], ps[2], ps[3], ps[4]);
    assert ps[0] in ps && ps[1] in ps && ps[2] in ps && ps[3] in ps && ps[4] in ps;
    PiecesRead(ps, time);
  }

  /** The form in which `nft/ruleset.rs` writes a timeout reads back as the same number. */
  lemma ShownSecondsRead(n: nat)
    requires n <= MAX_I64
    ensures Duration(Show(n) + "s") == Some(n)
  {
    var ps := [Piece(Some(n), 's')];
    OnePiece([], ps[0]);
    assert [] + [ps[0]] == ps && "" + Part(Some(n), 's') == Show(n) + "s";
    assert ps[0] in ps;
    PiecesRead(ps, n);
  }

  // ---- Elements ----

  /** Printing and reading of prefixes, and reading of bare addresses. */
  datatype Codec = Codec(show: Net -> string, parseNet: string -> Option<Net>, parseHost: string -> Option<Net>)

  predicate AddrChar(c: char) {
    IsDigit(c) || 'a' <= c <= 'f' || c == '.' || c == ':' || c == '/'
  }

  predicate AddrText(s: string) {
    s != "" && forall c | c in s :: AddrChar(c)
  }

  /** Every prefix with a length and bits of its family prints as address text and reads back. */
  ghost predicate Inverse(c: Codec) {
    forall n: Net | n.IsValid() :: AddrText(c.show(n)) && c.parseNet(c.show(n)) == Some(n)
  }

  /** Family, bits and length in decimal are such a text. */
  lemma InverseIsPossible()
    ensures Inverse(Codec(ShowNet, ReadNet, _ => None))
  {
    forall n: Net ensures AddrText(ShowNet(n)) && ReadNet(ShowNet(n)) == Some(n) { NetReadsBack(n); }
  }

  lemma {:induction false} NetReadsBack(n: Net)
    ensures AddrText(ShowNet(n)) && ReadNet(ShowNet(n)) == Some(n)
  {
    ShowFacts(n.addr.bits);
    ShowFacts(n.len);
    JoinIsAddrText(NetParts(n));
    SplitOfJoin(NetParts(n), '/');
  }

  lemma {:induction false} JoinIsAddrText(parts: seq<string>)
    requires parts != [] && forall p | p in parts :: AddrText(p)
    ensures AddrText(Join(parts, '/'))
  {
    if |parts| > 1 {
      JoinIsAddrText(parts[1..]);
      assert AddrText(parts[0]);
    }
  }

  function NetParts(n: Net): seq<string> {
    [if n.addr.family == Ip4 then "4" else "6", Show(n.addr.bits), Show(n.len)]
  }

  function ShowNet(n: Net): string { Join(NetParts(n), '/') }

  function ReadNet(s: string): Option<Net> {
    var parts := Split(s, '/');
    if |parts| == 3 && AllDigits(parts[1]) && AllDigits(parts[2]) then
      Some(Net(Addr(if parts[0] == "4" then Ip4 else Ip6, Value(parts[1])), Value(parts[2])))
    else None
  }

  datatype KernelElement = KernelElement(target: Net, expiresAt: Option<Time>)

  function ParseAddr(c: Codec, word: string): Option<Net> {
    if c.parseNet(word).Some? then c.parseNet(word) else c.parseHost(word)
  }

  /** The word behind each `expires` is read as a duration; the last readable one stands. */
  function Expiry(words: seq<string>, now: Time): Option<Time> {
    if |words| < 2 then None
    else if words[0] != "expires" then Expiry(words[1..], now)
    else
      var later := Expiry(words[2..], now);
      var d := Duration(words[1]);
      if later.Some? || d.None? then later else Some(now + d.value * SECOND)
  }

  function ParsePart(c: Codec, raw: string, now: Time): Option<KernelElement> {
    var words := Words(Trim(raw));
    if words == [] then None
    else match ParseAddr(c, words[0])
      case None => None
      case Some(target) => Some(KernelElement(target, Expiry(words, now)))
  }

  /** The elements of the readable parts, in order. */
  function ParseParts(c: Codec, parts: seq<string>, now: Time): seq<KernelElement> {
    if parts == [] then []
    else
      var rest := ParseParts(c, parts[..|parts| - 1], now);
      match ParsePart(c, parts[|parts| - 1], now)
      case None => rest
      case Some(e) => rest + [e]
  }

  /** Where a word first occurs in a text. */
  function Find(s: string, word: string): (r: Option<nat>)
    ensures r.Some? ==> r.value <= |s| && word <= s[r.value..]
  {
    if word <= s then (assert s[0..] == s; Some(0))
    else if s == "" then None
    else match Find(s[1..], word)
      case None => None
      case Some(i) => Some(i + 1)
  }

  /** The text between the braces of `elements = { … }`. */
  function ElementsBody(text: string): Result<Option<string>, ()> {
    match Find(text, "elements")
    case None => Ok(None)
    case Some(start) => InBraces(text[start..])
  }

  function InBraces(text: string): Result<Option<string>, ()> {
    match FirstIndex(text, '{')
    case None => Ok(None)
    case Some(open) => UpToBrace(text[open + 1..])
  }

  function UpToBrace(text: string): Result<Option<string>, ()> {
    match FirstIndex(text, '}')
    case None => Err(())
    case Some(end) => Ok(Some(text[..end]))
  }

  function ParseSetText(c: Codec, text: string, now: Time): Result<seq<KernelElement>, ()> {
    match ElementsBody(text)
    case Err(e) => Err(e)
    case Ok(None) => Ok([])
    case Ok(Some(body)) => Ok(ParseParts(c, Split(body, ','), now))
  }

  /** The value found so far and the words still to read determine the result. */
  function ExpiryFrom(sofar: Option<Time>, words: seq<string>, now: Time): Option<Time> {
    var later := Expiry(words, now);
    if later.Some? then later else sofar
  }

  lemma SkipsWord(sofar: Option<Time>, words: seq<string>, now: Time)
    requires words != [] && (words[0] != "expires" || |words| == 1)
    ensures ExpiryFrom(sofar, words, now) == ExpiryFrom(sofar, words[1..], now)
  {
  }

  lemma TakesDuration(sofar: Option<Time>, words: seq<string>, now: Time, d: Option<int>)
    requires |words| >= 2 && words[0] == "expires" && d == Duration(words[1])
    ensures ExpiryFrom(sofar, words, now) == ExpiryFrom(if d.Some? then Some(now + d.value * SECOND) else sofar, words[2..], now)
  {
  }

  method ParseExpiry(words: seq<string>, now: Time) returns (r: Option<Time>)
    ensures r == Expiry(words, now)
  {
    r := None;
    var rest := words;
    while rest != []
      invariant ExpiryFrom(r, rest, now) == Expiry(words, now)
      decreases |rest|
    {
      if rest[0] == "expires" && |rest| > 1 {
        var d := ParseDuration(rest[1]);
        TakesDuration(r, rest, now, d);
        if d.Some? { r := Some(now + d.value * SECOND); }
        rest := rest[2..];
      } else {
        SkipsWord(r, rest, now);
        rest := rest[1..];
      }
    }
  }

  lemma PartsSnoc(c: Codec, parts: seq<string>, i: nat, now: Time)
    requires i < |parts|
    ensures
      var p := ParsePart(c, parts[i], now);
      ParseParts(c, parts[..i + 1], now) == ParseParts(c, parts[..i], now) + if p.Some? then [p.value] else []
  {
    assert parts[..i + 1][..i] == parts[..i];
  }

  /** `parse_set_elements_text`. */
  method ParseSetElementsText(c: Codec, text: string, now: Time) returns (r: Result<seq<KernelElement>, ()>)
    ensures r == ParseSetText(c, text, now)
  {
    var body := ElementsBody(text);
    if body.Err? { return Err(()); }
    if body.value.None? { return Ok([]); }
    var parts := Split(body.value.value, ',');
    var out := [];
    for i := 0 to |parts|
      invariant out == ParseParts(c, parts[..i], now)
    {
      PartsSnoc(c, parts, i, now);
      var words := Words(Trim(parts[i]));
      if words != [] {
        var target := ParseAddr(c, words[0]);
        if target.Some? {
          var expiresAt := ParseExpiry(words, now);
          out := out + [KernelElement(target.value, expiresAt)];
        }
      }
    }
    assert parts[..|parts|] == parts;
    r := Ok(out);
  }

  // ---- What the compiler writes ----

  function TokenWords(c: Codec, e: Element): (ws: seq<string>)
    ensures |ws| >= 1
  {
    match e.timeoutSecs
    case None => [c.show(e.target)]
    case Some(n) => [c.show(e.target), "timeout", Show(n) + "s"]
  }

  /** `element_token`. */
  function TokenText(c: Codec, e: Element): string {
    Join(TokenWords(c, e), ' ')
  }

  function JoinTokens(c: Codec, es: seq<Element>): string
    requires es != []
  {
    if |es| == 1 then TokenText(c, es[0]) else TokenText(c, es[0]) + ", " + JoinTokens(c, es[1..])
  }

  function SetName(family: Family): string {
    if family == Ip4 then "allow4" else "allow6"
  }

  function SetType(family: Family): string {
    if family == Ip4 then "ipv4_addr" else "ipv6_addr"
  }

  function SetHead(family: Family): string {
    "    set " + SetName(family) + " { type " + SetType(family) + "; flags interval, timeout; "
  }

  /** `set_def` of one of the two allowlist sets. */
  function SetDef(c: Codec, family: Family, es: seq<Element>): string {
    if es == [] then SetHead(family) + "}\n"
    else SetHead(family) + ("elements = " + ['{'] + (" " + JoinTokens(c, es) + " " + ['}'] + " }\n"))
  }

  function Plain(es: seq<Element>): seq<KernelElement> {
    if es == [] then [] else Plain(es[..|es| - 1]) + [KernelElement(es[|es| - 1].target, None)]
  }

  lemma TokenWordsFacts(c: Codec, e: Element)
    requires Inverse(c) && e.target.IsValid()
    ensures forall w | w in TokenWords(c, e) :: CleanWord(w)
  {
    assert AddrText(c.show(e.target));
    AddrIsClean(c.show(e.target));
    if e.timeoutSecs.Some? {
      ShowFacts(e.timeoutSecs.value);
      SecondsAreClean(Show(e.timeoutSecs.value));
      TimeoutIsClean();
    }
  }

  /** A word that ends neither an element nor the list, and is not the keyword looked for. */
  predicate CleanWord(w: string) {
    IsWord(w) && ',' !in w && '}' !in w && w != "expires"
  }

  lemma AddrIsClean(w: string)
    requires AddrText(w)
    ensures CleanWord(w)
  {
    if |w| > 1 { assert w[1] in w; }
    assert "expires"[1] == 'x';
  }

  lemma SecondsAreClean(digits: string)
    requires AllDigits(digits) && digits != ""
    ensures CleanWord(digits + "s")
  {
    assert digits[0] in digits;
    assert "expires"[0] == 'e' && (digits + "s")[0] == digits[0];
  }

  lemma TimeoutIsClean()
    ensures CleanWord("timeout")
  {
    assert "expires"[0] == 'e' && "timeout"[0] == 't';
  }

  lemma NoExpiry(words: seq<string>, now: Time)
    requires forall w | w in words :: w != "expires"
    ensures Expiry(words, now) == None
  {
    if |words| >= 2 {
      assert words[0] in words;
      assert forall w | w in words[1..] :: w in words;
      NoExpiry(words[1..], now);
    }
  }

  lemma WordsAreTight(ws: seq<string>)
    requires ws != [] && forall w | w in ws :: IsWord(w)
    ensures Tight(Join(ws, ' '))
  {
    var a, b := ws[0], ws[|ws| - 1];
    assert a in ws && b in ws;
    JoinEnds(ws, ' ');
    assert a[0] in a && b[|b| - 1] in b;
  }

  /** A written element, blanks around it or not, reads back as its target. */
  lemma TokenReads(c: Codec, e: Element, raw: string, now: Time)
    requires Inverse(c) && e.target.IsValid() && Trim(raw) == TokenText(c, e)
    ensures ParsePart(c, raw, now) == Some(KernelElement(e.target, None))
  {
    var ws := TokenWords(c, e);
    TokenWordsFacts(c, e);
    WordsOfJoin(ws);
    NoExpiry(ws, now);
    assert c.parseNet(c.show(e.target)) == Some(e.target);
  }

  /** No occurrence of a word that begins with "el" starts here. */
  predicate LacksEl(s: string) {
    forall i | 0 <= i < |s| && s[i] == 'e' :: i + 1 < |s| && s[i + 1] != 'l'
  }

  lemma NotHere(s: string, rest: string, word: string)
    requires s != "" && LacksEl(s) && |word| >= 2 && word[0] == 'e' && word[1] == 'l'
    ensures !(word <= s + rest) && LacksEl(s[1..])
  {
    var t := s + rest;
    assert t[0] == s[0] && (|s| > 1 ==> t[1] == s[1]);
  }

  lemma FindMoves(t: string, word: string)
    requires t != "" && !(word <= t)
    ensures Find(t, word) == if Find(t[1..], word).Some? then Some(Find(t[1..], word).value + 1) else None
  {
  }

  lemma {:induction false} FindSkips(s: string, rest: string, word: string)
    requires LacksEl(s) && |word| >= 2 && word[0] == 'e' && word[1] == 'l'
    requires word <= rest || Find(rest, word) == None
    ensures Find(s + rest, word) == if word <= rest then Some(|s|) else None
  {
    if s == "" {
      assert s + rest == rest;
    } else {
      NotHere(s, rest, word);
      FindMoves(s + rest, word);
      assert (s + rest)[1..] == s[1..] + rest;
      FindSkips(s[1..], rest, word);
    }
  }

  lemma LacksElJoins(a: string, b: string)
    requires LacksEl(a) && LacksEl(b)
    ensures LacksEl(a + b)
  {
  }

  lemma HeadLacksEl(family: Family)
    ensures LacksEl(SetHead(family))
  {
    var a, d := "    set ", "; flags interval, timeout; ";
    var name, typ := SetName(family), SetType(family);
    assert LacksEl(a) && LacksEl(d);
    assert LacksEl(name);
    assert LacksEl(" { type ");
    assert LacksEl(typ);
    LacksElJoins(a, name);
    LacksElJoins(a + name, " { type ");
    LacksElJoins(a + name + " { type ", typ);
    LacksElJoins(a + name + " { type " + typ, d);
  }

  ghost predicate AllValidTargets(es: seq<Element>) {
    forall e | e in es :: e.target.IsValid()
  }

  lemma {:induction false} JoinedLacksBrace(c: Codec, es: seq<Element>)
    requires Inverse(c) && AllValidTargets(es) && es != []
    ensures '}' !in JoinTokens(c, es)
  {
    TokenLacks(c, es[0]);
    if |es| > 1 {
      JoinedLacksBrace(c, es[1..]);
    }
  }

  lemma TokenLacks(c: Codec, e: Element)
    requires Inverse(c) && e.target.IsValid()
    ensures Tight(TokenText(c, e)) && ',' !in TokenText(c, e) && '}' !in TokenText(c, e)
  {
    var ws := TokenWords(c, e);
    TokenWordsFacts(c, e);
    WordsAreTight(ws);
    JoinLacks(ws, ' ', ',');
    JoinLacks(ws, ' ', '}');
  }

  lemma PaddedTrims(t: string)
    requires Tight(t)
    ensures Trim(" " + t) == t && Trim(" " + t + " ") == t
  {
    assert (" " + t)[1..] == t;
    TightIsTrimmed(t);
    TrimSnocSpace(" " + t, ' ');
  }

  /** Splitting the written list at its commas finds the tokens again. */
  lemma {:induction false} SplitFindsTokens(c: Codec, es: seq<Element>)
    requires Inverse(c) && AllValidTargets(es) && es != []
    ensures
      var parts := Split(" " + JoinTokens(c, es) + " ", ',');
      |parts| == |es| && forall i | 0 <= i < |es| :: Trim(parts[i]) == TokenText(c, es[i])
  {
    var t := TokenText(c, es[0]);
    TokenLacks(c, es[0]);
    PaddedTrims(t);
    var body := " " + JoinTokens(c, es) + " ";
    if |es| == 1 {
      SplitNone(body, ',');
    } else {
      var rest := " " + JoinTokens(c, es[1..]) + " ";
      assert body == (" " + t) + [','] + rest;
      SplitHead(" " + t, ',', rest);
      SplitFindsTokens(c, es[1..]);
    }
  }

  lemma {:induction false} TokensRead(c: Codec, parts: seq<string>, es: seq<Element>, now: Time)
    requires Inverse(c) && AllValidTargets(es) && |parts| == |es|
    requires forall i | 0 <= i < |es| :: Trim(parts[i]) == TokenText(c, es[i])
    ensures ParseParts(c, parts, now) == Plain(es)
  {
    if es != [] {
      var n := |es| - 1;
      TokensRead(c, parts[..n], es[..n], now);
      TokenReads(c, es[n], parts[n], now);
    }
  }

  lemma WrittenBody(head: string, body: string)
    requires LacksEl(head) && '}' !in body
    ensures ElementsBody(head + ("elements = " + ['{'] + (body + ['}'] + " }\n"))) == Ok(Some(body))
  {
    KeywordFacts("elements = ");
    BracedBody(head, "elements = ", "elements", body, " }\n");
  }

  lemma KeywordFacts(lead: string)
    requires lead == "elements = "
    ensures "elements" <= lead && '{' !in lead
  {
  }

  lemma BracedBody(head: string, lead: string, word: string, body: string, rest: string)
    requires LacksEl(head) && word == "elements" && word <= lead && '{' !in lead && '}' !in body
    ensures ElementsBody(head + (lead + ['{'] + (body + ['}'] + rest))) == Ok(Some(body))
  {
    var after := body + ['}'] + rest;
    ClosesAt(body, rest);
    OpensAt(lead, after);
    FoundAt(head, lead + ['{'] + after, word);
  }

  lemma ClosesAt(body: string, rest: string)
    requires '}' !in body
    ensures UpToBrace(body + ['}'] + rest) == Ok(Some(body))
  {
    FirstIndexIs(body, '}', rest);
    assert (body + ['}'] + rest)[..|body|] == body;
  }

  lemma OpensAt(lead: string, after: string)
    requires '{' !in lead
    ensures InBraces(lead + ['{'] + after) == UpToBrace(after)
  {
    FirstIndexIs(lead, '{', after);
    assert (lead + ['{'] + after)[|lead| + 1..] == after;
  }

  lemma FoundAt(head: string, tail: string, word: string)
    requires LacksEl(head) && word == "elements" && word <= tail
    ensures ElementsBody(head + tail) == InBraces(tail)
  {
    FindSkips(head, tail, word);
    assert (head + tail)[|head|..] == tail;
  }

  /** Reading back what the compiler wrote yields its elements, in order. */
  lemma WrittenSetReadsBack(c: Codec, family: Family, es: seq<Element>, now: Time)
    requires Inverse(c) && AllValidTargets(es)
    ensures ParseSetText(c, SetDef(c, family, es), now) == Ok(Plain(es))
  {
    HeadLacksEl(family);
    var word := "elements";
    if es == [] {
      FindSkips("}\n", "", word);
      assert "}\n" + "" == "}\n";
      FindSkips(SetHead(family), "}\n", word);
    } else {
      var body := " " + JoinTokens(c, es) + " ";
      JoinedLacksBrace(c, es);
      WrittenBody(SetHead(family), body);
      SplitFindsTokens(c, es);
      TokensRead(c, Split(body, ','), es, now);
    }
  }

  function LiveTargetOf(e: Entry, family: Family, now: Time): seq<Net> {
    if e.IsExpired(now) || e.target.addr.family != family then [] else [e.target]
  }

  /** The targets of one family's live entries, in store order. */
  function LiveInOrder(entries: seq<Entry>, family: Family, now: Time): seq<Net> {
    if entries == [] then [] else LiveTargetOf(entries[0], family, now) + LiveInOrder(entries[1..], family, now)
  }

  function TargetsOf(ks: seq<KernelElement>): seq<Net> {
    seq(|ks|, i requires 0 <= i < |ks| => ks[i].target)
  }

  lemma {:induction false} LiveInOrderSnoc(entries: seq<Entry>, e: Entry, family: Family, now: Time)
    ensures LiveInOrder(entries + [e], family, now) == LiveInOrder(entries, family, now) + LiveTargetOf(e, family, now)
  {
    if entries == [] {
      assert [e][1..] == [];
      assert entries + [e] == [e];
    } else {
      assert (entries + [e])[0] == entries[0] && (entries + [e])[1..] == entries[1..] + [e];
      LiveInOrderSnoc(entries[1..], e, family, now);
      Regroup(LiveTargetOf(entries[0], family, now), LiveInOrder(entries[1..], family, now), LiveTargetOf(e, family, now));
    }
  }

  lemma TargetsSnoc(ks: seq<KernelElement>, k: KernelElement)
    ensures TargetsOf(ks + [k]) == TargetsOf(ks) + [k.target]
  {
  }

  lemma {:induction false} ElementsInOrder(entries: seq<Entry>, family: Family, now: Time)
    ensures TargetsOf(Plain(LiveElements(entries, family, now))) == LiveInOrder(entries, family, now)
  {
    if entries != [] {
      var init, e := entries[..|entries| - 1], entries[|entries| - 1];
      assert entries == init + [e];
      ElementsInOrder(init, family, now);
      LiveInOrderSnoc(init, e, family, now);
      var es := LiveElements(entries, family, now);
      if !e.IsExpired(now) && e.target.addr.family == family {
        assert es[..|es| - 1] == LiveElements(init, family, now);
        TargetsSnoc(Plain(es[..|es| - 1]), KernelElement(e.target, None));
      }
    }
  }

  lemma {:induction false} LiveInOrderMembers(entries: seq<Entry>, now: Time)
    ensures forall n ::
      n in LiveTargets(entries, now) <==> n in LiveInOrder(entries, Ip4, now) || n in LiveInOrder(entries, Ip6, now)
  {
    if entries != [] {
      LiveInOrderMembers(entries[1..], now);
      assert forall e :: e in entries <==> e == entries[0] || e in entries[1..];
    }
  }

  function Listed(ks: seq<KernelElement>): set<Net> {
    set k | k in ks :: k.target
  }

  lemma ListedAreLive(entries: seq<Entry>, now: Time, four: seq<KernelElement>, six: seq<KernelElement>)
    requires TargetsOf(four) == LiveInOrder(entries, Ip4, now) && TargetsOf(six) == LiveInOrder(entries, Ip6, now)
    ensures Listed(four + six) == LiveTargets(entries, now)
  {
    LiveInOrderMembers(entries, now);
    ListedMembers(four);
    ListedMembers(six);
    assert forall n :: n in Listed(four + six) <==> n in TargetsOf(four) || n in TargetsOf(six);
  }

  lemma {:induction false} LiveTargetsValid(entries: seq<Entry>, family: Family, now: Time)
    requires forall e | e in entries :: e.target.IsValid()
    ensures AllValidTargets(LiveElements(entries, family, now))
  {
    if entries != [] {
      LiveTargetsValid(entries[..|entries| - 1], family, now);
    }
  }

  /** Right after a rebuild, listing both sets as text shows the live targets of the store in store
      order, and the reconcile diff against that listing is empty. */
  lemma {:induction false} RebuildLeavesNoDiff(c: Codec, cfg: RulesetConfig, entries: seq<Entry>, now: Time, t: Table)
    requires Inverse(c) && Rendered(cfg, entries, now, t) && forall e | e in entries :: e.target.IsValid()
    ensures
      var four, six := ParseSetText(c, SetDef(c, Ip4, t.allow4), now), ParseSetText(c, SetDef(c, Ip6, t.allow6), now);
      && four.Ok? && TargetsOf(four.value) == LiveInOrder(entries, Ip4, now)
      && six.Ok? && TargetsOf(six.value) == LiveInOrder(entries, Ip6, now)
      && var diff := Reconcile.DiffOf(entries, Listed(four.value + six.value), now);
         diff.missing == {} && diff.stale == {}
  {
    LiveTargetsValid(entries, Ip4, now);
    LiveTargetsValid(entries, Ip6, now);
    WrittenSetReadsBack(c, Ip4, t.allow4, now);
    WrittenSetReadsBack(c, Ip6, t.allow6, now);
    ElementsInOrder(entries, Ip4, now);
    ElementsInOrder(entries, Ip6, now);
    ListedAreLive(entries, now, Plain(t.allow4), Plain(t.allow6));
  }

  lemma ListedMembers(ks: seq<KernelElement>)
    ensures forall n :: n in TargetsOf(ks) <==> exists k :: k in ks && k.target == n
  {
    forall k | k in ks ensures k.target in TargetsOf(ks) {
      var i :| 0 <= i < |ks| && ks[i] == k;
      assert TargetsOf(ks)[i] == k.target;
    }
  }

  /** The kernel's own form of a timed element carries its remaining time. */
  lemma ListedExpiryReads(c: Codec, n: Net, timeout: string, left: string, raw: string, now: Time)
    requires Inverse(c) && n.IsValid() && IsWord(timeout) && timeout != "expires" && IsWord(left)
    requires Trim(raw) == Join([c.show(n), "timeout", timeout, "expires", left], ' ')
    ensures ParsePart(c, raw, now)
      == Some(KernelElement(n, if Duration(left).Some? then Some(now + Duration(left).value * SECOND) else None))
  {
    var a := c.show(n);
    assert AddrText(a) && c.parseNet(a) == Some(n);
    AddrIsClean(a);
    TimeoutIsClean();
    var ws := [a, "timeout", timeout, "expires", left];
    assert IsWord("expires");
    WordsOfJoin(ws);
    ExpiryOfListed(a, timeout, left, now);
  }

  lemma ExpiryOfListed(a: string, timeout: string, left: string, now: Time)
    requires a != "expires" && timeout != "expires"
    ensures Expiry([a, "timeout", timeout, "expires", left], now)
      == if Duration(left).Some? then Some(now + Duration(left).value * SECOND) else None
  {
    var ws := [a, "timeout", timeout, "expires", left];
    TimeoutIsClean();
    assert ws[1..] == ["timeout", timeout, "expires", left];
    assert ws[1..][1..] == [timeout, "expires", left];
    assert ws[1..][1..][1..] == ["expires", left];
    SkipsWord(None, ws, now);
    SkipsWord(None, ws[1..], now);
    SkipsWord(None, ws[1..][1..], now);
    TakesDuration(None, ["expires", left], now, Duration(left));
    assert ["expires", left][2..] == [];
  }
}
