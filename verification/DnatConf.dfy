/** `dnat/conf.rs`: the configuration lines of the dnat tool, their keys, and the removal of the
    lines of one key. */
module DnatConf {
  import opened Wrappers
  import opened Ports
  import opened Forwards
  import opened Text

  /** One rule line, `port>interface>host:port>source`. */
  datatype DnatRule = DnatRule(
    listen: PortRange,
    iface: string,
    remoteHost: string,
    destPort: PortRange,
    source: ForwardSource)

  /** What a line is: nothing (blank or comment), an error, or a rule. */
  datatype Parsed = Blank | Malformed | Rule(rule: DnatRule)

  function PortSpec(r: PortRange): string {
    if r.start == r.end then Show(r.start) else Show(r.start) + "-" + Show(r.end)
  }

  function PrefixKey(r: DnatRule): string {
    PortSpec(r.listen) + ">" + r.iface + ">"
  }

  /** `parse_port_range`: a non-zero port, or a range whose end exceeds its start. */
  function ParsePortRange(text: string): Option<PortRange> {
    var s := Trim(text);
    match FirstIndex(s, '-')
    case Some(i) =>
      var a, b := ParseUnsigned(Trim(s[..i]), MAX_PORT), ParseUnsigned(Trim(s[i + 1..]), MAX_PORT);
      if a.None? || b.None? || a.value == 0 || b.value <= a.value then None
      else Some(PortRange(a.value, b.value))
    case None =>
      var p := ParseUnsigned(s, MAX_PORT);
      if p.None? || p.value == 0 then None else Some(PortRange(p.value, p.value))
  }

  // ---- IPv4 literals: four decimal octets without leading zeros ----

  function ParseOctet(s: string): Option<Octet> {
    if s != "" && AllDigits(s) && |s| <= 3 && (s[0] == '0' ==> |s| == 1) && Value(s) < 256 then Some(Value(s)) else None
  }

  function ParseIp(s: string): Option<Ip> {
    var ps := Split(s, '.');
    if |ps| != 4 then None
    else
      var a, b, c, d := ParseOctet(ps[0]), ParseOctet(ps[1]), ParseOctet(ps[2]), ParseOctet(ps[3]);
      if a.Some? && b.Some? && c.Some? && d.Some? then Some(Ip(a.value, b.value, c.value, d.value)) else None
  }

  function IpParts(ip: Ip): seq<string> {
    [Show(ip.a), Show(ip.b), Show(ip.c), Show(ip.d)]
  }

  function ShowIp(ip: Ip): string {
    Join(IpParts(ip), '.')
  }

  /** `parse_line`. */
  function ParseLine(line: string): Parsed {
    var t := Trim(line);
    if t == "" || t[0] == '#' then Blank
    else
      var parts := Split(t, '>');
      if |parts| != 4 then Malformed else ParseFields(parts, ParseSource(Trim(parts[3])))
  }

  function ParseFields(parts: seq<string>, source: Option<ForwardSource>): Parsed
    requires |parts| == 4
  {
    match LastIndex(parts[2], ':')
    case None => Malformed
    case Some(colon) =>
      Assemble(ParsePortRange(parts[0]), Trim(parts[1]), Trim(parts[2][..colon]), ParsePortRange(parts[2][colon + 1..]), source)
  }

  /** Every field must be there, and the two ranges must fit. */
  function Assemble(
    listen: Option<PortRange>, iface: string, host: string, dest: Option<PortRange>, source: Option<ForwardSource>): Parsed
  {
    if listen.None? || iface == "" || host == "" || dest.None? || source.None? || !LengthsFit(listen.value, dest.value)
    then Malformed
    else Rule(DnatRule(listen.value, iface, host, dest.value, source.value))
  }

  // Two real ranges must have the same length; a single port goes with anything.
  predicate LengthsFit(listen: PortRange, dest: PortRange) {
    listen.start == listen.end || dest.start == dest.end || listen.end - listen.start == dest.end - dest.start
  }

  function ParseSource(s: string): Option<ForwardSource> {
    if s == "" || s == "auto" then Some(Auto)
    else match ParseIp(s)
      case None => None
      case Some(ip) => Some(Fixed(ip))
  }

  function RulesOf(p: Parsed): seq<DnatRule> {
    match p
    case Rule(r) => [r]
    case _ => []
  }

  function RulesIn(lines: seq<string>): seq<DnatRule> {
    if lines == [] then [] else RulesOf(ParseLine(lines[0])) + RulesIn(lines[1..])
  }

  /** `parse_conf`: malformed lines are skipped. */
  function ParseConf(text: string): seq<DnatRule> {
    RulesIn(Lines(text))
  }

  function Drop(rules: seq<DnatRule>, key: string): seq<DnatRule> {
    if rules == [] then []
    else (if PrefixKey(rules[0]) == key then [] else [rules[0]]) + Drop(rules[1..], key)
  }

  /** The line itself, unless it is a hit. */
  function KeptLine(line: string, hit: string -> bool): seq<string> {
    if hit(line) then [] else [line]
  }

  /** The lines that survive, in order. */
  function Kept(lines: seq<string>, hit: string -> bool): (ls: seq<string>)
    ensures forall l | l in ls :: l in lines
  {
    if lines == [] then []
    else
      assert lines == [lines[0]] + lines[1..];
      KeptLine(lines[0], hit) + Kept(lines[1..], hit)
  }

  predicate IsRuleOf(line: string, key: string) {
    ParseLine(line).Rule? && PrefixKey(ParseLine(line).rule) == key
  }

  /** The lines to remove: rule lines with that very key. */
  function RuleOf(key: string): string -> bool {
    line => IsRuleOf(line, key)
  }

  ghost predicate HasHit(lines: seq<string>, hit: string -> bool) {
    exists l :: l in lines && hit(l)
  }

  lemma {:induction false} KeptOneMore(lines: seq<string>, line: string, hit: string -> bool)
    ensures Kept(lines + [line], hit) == Kept(lines, hit) + KeptLine(line, hit)
  {
    if lines == [] {
      assert lines + [line] == [line];
      assert [line][1..] == [];
    } else {
      assert (lines + [line])[0] == lines[0] && (lines + [line])[1..] == lines[1..] + [line];
      KeptOneMore(lines[1..], line, hit);
      Regroup(KeptLine(lines[0], hit), Kept(lines[1..], hit), KeptLine(line, hit));
    }
  }

  lemma KeptSnoc(lines: seq<string>, i: nat, hit: string -> bool)
    requires i < |lines|
    ensures Kept(lines[..i + 1], hit) == Kept(lines[..i], hit) + KeptLine(lines[i], hit)
  {
    assert lines[..i + 1] == lines[..i] + [lines[i]];
    KeptOneMore(lines[..i], lines[i], hit);
  }

  /** Something was dropped iff some line was a hit. */
  lemma {:induction false} DroppedIff(lines: seq<string>, hit: string -> bool)
    ensures |Kept(lines, hit)| <= |lines|
    ensures |Kept(lines, hit)| < |lines| <==> HasHit(lines, hit)
  {
    if lines != [] {
      DroppedIff(lines[1..], hit);
      assert forall l :: l in lines <==> l == lines[0] || l in lines[1..];
    }
  }

  lemma DropParsed(p: Parsed, rest: seq<DnatRule>, key: string)
    ensures Drop(RulesOf(p) + rest, key) ==
      (if p.Rule? && PrefixKey(p.rule) == key then [] else RulesOf(p)) + Drop(rest, key)
  {
    match p
    case Rule(r) => assert ([r] + rest)[1..] == rest;
    case _ => assert [] + rest == rest;
  }

  lemma RulesInCons(line: string, rest: seq<string>)
    ensures RulesIn([line] + rest) == RulesOf(ParseLine(line)) + RulesIn(rest)
  {
    assert ([line] + rest)[1..] == rest;
  }

  lemma {:induction false} RulesInKept(lines: seq<string>, key: string)
    ensures RulesIn(Kept(lines, RuleOf(key))) == Drop(RulesIn(lines), key)
  {
    if lines != [] {
      var rest := Kept(lines[1..], RuleOf(key));
      RulesInKept(lines[1..], key);
      DropParsed(ParseLine(lines[0]), RulesIn(lines[1..]), key);
      if IsRuleOf(lines[0], key) {
        assert Kept(lines, RuleOf(key)) == rest;
      } else {
        RulesInCons(lines[0], rest);
      }
    }
  }

  /** `join("\n")` and a final LF unless the result is empty. */
  function Joined(ls: seq<string>): string {
    if ls == [] then "" else if |ls| == 1 then ls[0] else ls[0] + "\n" + Joined(ls[1..])
  }

  lemma {:induction false} JoinedIsUnlines(ls: seq<string>)
    requires ls != []
    ensures Joined(ls) + "\n" == Unlines(ls)
  {
    if |ls| == 1 {
      assert Unlines(ls[1..]) == "";
    } else {
      JoinedIsUnlines(ls[1..]);
      assert Joined(ls) + "\n" == ls[0] + "\n" + (Joined(ls[1..]) + "\n");
    }
  }

  lemma StripCrParsesAlike(line: string)
    ensures ParseLine(StripCr(line)) == ParseLine(line)
  {
    StripCrTrims(line);
  }

  lemma {:induction false} RulesInStripped(ls: seq<string>)
    ensures RulesIn(StripAll(ls)) == RulesIn(ls)
  {
    if ls != [] {
      StripCrParsesAlike(ls[0]);
      assert StripAll(ls)[1..] == StripAll(ls[1..]);
      RulesInStripped(ls[1..]);
    }
  }

  /** Writing lines back and parsing again loses no rule. */
  lemma {:induction false} WrittenBack(ls: seq<string>)
    requires forall l | l in ls :: '\n' !in l
    ensures ParseConf(if Joined(ls) == "" then "" else Joined(ls) + "\n") == RulesIn(ls)
  {
    if Joined(ls) == "" {
      if ls != [] {
        assert |ls| == 1 && ls[0] == "";
        assert ls[1..] == [];
        assert Trim("") == "";
        assert RulesIn(ls[1..]) == [];
      }
    } else {
      JoinedIsUnlines(ls);
      LinesOfUnlines(ls);
      RulesInStripped(ls);
    }
  }

  predicate HasKey(rules: seq<DnatRule>, key: string) {
    exists r :: r in rules && PrefixKey(r) == key
  }

  lemma HasKeyAppend(a: seq<DnatRule>, b: seq<DnatRule>, key: string)
    ensures HasKey(a + b, key) <==> HasKey(a, key) || HasKey(b, key)
  {
    assert forall r :: r in a + b <==> r in a || r in b;
  }

  lemma HitCons(lines: seq<string>, hit: string -> bool)
    requires lines != []
    ensures HasHit(lines, hit) <==> hit(lines[0]) || HasHit(lines[1..], hit)
  {
    assert forall l :: l in lines <==> l == lines[0] || l in lines[1..];
  }

  lemma {:induction false} RuleLines(lines: seq<string>, key: string)
    ensures HasKey(RulesIn(lines), key) <==> HasHit(lines, RuleOf(key))
  {
    if lines != [] {
      RuleLines(lines[1..], key);
      HitCons(lines, RuleOf(key));
      HasKeyAppend(RulesOf(ParseLine(lines[0])), RulesIn(lines[1..]), key);
      OneLine(lines[0], key);
    }
  }

  lemma OneLine(line: string, key: string)
    ensures HasKey(RulesOf(ParseLine(line)), key) <==> IsRuleOf(line, key)
  {
    match ParseLine(line)
    case Rule(r) => assert r in [r];
    case _ =>
  }

  /** What the written text means, for whatever lines are kept. */
  lemma {:induction false} KeptText(text: string, key: string, kept: seq<string>)
    requires kept == Kept(Lines(text), RuleOf(key))
    ensures
      var out := if Joined(kept) == "" then "" else Joined(kept) + "\n";
      && ParseConf(out) == Drop(ParseConf(text), key)
      && (out == "" || Lines(out) == StripAll(kept))
  {
    RulesInKept(Lines(text), key);
    WrittenBack(kept);
    if Joined(kept) != "" {
      JoinedIsUnlines(kept);
      LinesOfUnlines(kept);
    }
  }

  /** The loop over the lines. */
  method KeepOthers(lines: seq<string>, hit: string -> bool) returns (kept: seq<string>, removed: bool)
    ensures kept == Kept(lines, hit)
    ensures removed <==> HasHit(lines, hit)
  {
    kept, removed := [], false;
    for i := 0 to |lines|
      invariant kept == Kept(lines[..i], hit) && |kept| <= i
      invariant removed <==> |kept| < i
    {
      KeptSnoc(lines, i, hit);
      if hit(lines[i]) {
        removed := true;
      } else {
        kept := kept + [lines[i]];
      }
    }
    assert lines[..|lines|] == lines;
    DroppedIff(lines, hit);
  }

  /** `remove_rule_lines`: parsing the new text gives the old rules without those of the key, in
      order; every other line is kept verbatim; the flag says whether there was one. */
  method RemoveRuleLines(text: string, key: string) returns (out: string, removed: bool)
    ensures ParseConf(out) == Drop(ParseConf(text), key)
    ensures removed <==> HasKey(ParseConf(text), key)
    ensures out == "" || Lines(out) == StripAll(Kept(Lines(text), RuleOf(key)))
  {
    var kept: seq<string>;
    kept, removed := KeepOthers(Lines(text), RuleOf(key));
    RuleLines(Lines(text), key);
    KeptText(text, key, kept);
    out := Joined(kept);
    if out != "" {
      out := out + "\n";
    }
  }

  // ---- Keys and the shape of parsed rules ----

  /** What every parsed rule satisfies. */
  predicate WellFormed(r: DnatRule) {
    && 0 < r.listen.start <= r.listen.end && 0 < r.destPort.start <= r.destPort.end
    && r.iface != "" && Tight(r.iface) && '>' !in r.iface
    && r.remoteHost != "" && Tight(r.remoteHost) && '>' !in r.remoteHost
    // as many ports on one side as on the other, if both are ranges
    && (r.listen.start < r.listen.end && r.destPort.start < r.destPort.end ==>
          r.listen.end + r.destPort.start == r.listen.start + r.destPort.end)
  }

  lemma {:induction false} ParsedIsWellFormed(line: string)
    ensures ParseLine(line).Rule? ==> WellFormed(ParseLine(line).rule)
  {
    var t := Trim(line);
    if t != "" && t[0] != '#' && |Split(t, '>')| == 4 {
      FieldsAreWellFormed(Split(t, '>'), ParseSource(Trim(Split(t, '>')[3])));
    }
  }

  lemma {:induction false} FieldsAreWellFormed(parts: seq<string>, source: Option<ForwardSource>)
    requires |parts| == 4 && '>' !in parts[1] && '>' !in parts[2]
    ensures ParseFields(parts, source).Rule? ==> WellFormed(ParseFields(parts, source).rule)
  {
    if LastIndex(parts[2], ':').Some? {
      var colon := LastIndex(parts[2], ':').value;
      TrimmedField(parts[1]);
      TrimmedField(parts[2][..colon]);
      AssembledIsWellFormed(parts[0], Trim(parts[1]), Trim(parts[2][..colon]), parts[2][colon + 1..], source);
    }
  }

  lemma AssembledIsWellFormed(listen: string, iface: string, host: string, dest: string, source: Option<ForwardSource>)
    requires Tight(iface) && '>' !in iface && Tight(host) && '>' !in host
    ensures
      var p := Assemble(ParsePortRange(listen), iface, host, ParsePortRange(dest), source);
      p.Rule? ==> WellFormed(p.rule)
  {
    ParsedPorts(listen);
    ParsedPorts(dest);
  }

  lemma TrimmedField(field: string)
    requires '>' !in field
    ensures Tight(Trim(field)) && '>' !in Trim(field)
  {
    TrimIsTight(field);
  }

  lemma ParsedPorts(text: string)
    ensures ParsePortRange(text).Some? ==> 0 < ParsePortRange(text).value.start <= ParsePortRange(text).value.end
  {
  }

  lemma ShownShape(n: nat)
    ensures Tight(Show(n)) && Trim(Show(n)) == Show(n) && Show(n)[0] != '#'
    ensures ':' !in Show(n) && '>' !in Show(n) && '-' !in Show(n) && '.' !in Show(n)
  {
    ShowFacts(n);
    DigitsAreTight(Show(n));
    TightIsTrimmed(Show(n));
    assert Show(n)[0] in Show(n);
  }

  lemma TightConcat(a: string, b: string)
    requires Tight(a) && Tight(b) && a != "" && b != ""
    ensures Tight(a + b) && (a + b)[0] == a[0]
  {
    assert (a + b)[|a + b| - 1] == b[|b| - 1];
  }

  lemma PortSpecShape(r: PortRange)
    ensures Tight(PortSpec(r)) && PortSpec(r) != "" && PortSpec(r)[0] != '#'
    ensures '>' !in PortSpec(r) && ':' !in PortSpec(r)
  {
    ShownShape(r.start);
    ShownShape(r.end);
    TightConcat(Show(r.start), "-");
    TightConcat(Show(r.start) + "-", Show(r.end));
  }

  lemma DashSplits(a: string, b: string)
    requires '-' !in a && '-' !in b
    ensures
      var s := a + "-" + b;
      FirstIndex(s, '-') == Some(|a|) && s[..|a|] == a && s[|a| + 1..] == b
  {
    assert a + "-" + b == a + ['-'] + b;
    FirstIndexIs(a, '-', b);
  }

  lemma PortSpecParses(r: PortRange)
    requires 0 < r.start <= r.end
    ensures ParsePortRange(PortSpec(r)) == Some(r)
  {
    PortSpecShape(r);
    TightIsTrimmed(PortSpec(r));
    ShownShape(r.start);
    ShownShape(r.end);
    ParseShown(r.start, MAX_PORT);
    ParseShown(r.end, MAX_PORT);
    if r.start != r.end {
      DashSplits(Show(r.start), Show(r.end));
    }
  }

  /** Two numbers and a hyphen are a range exactly if the first is not 0, the second is larger and both are
      ports. */
  lemma {:induction false} RangeTextParses(a: nat, b: nat)
    ensures ParsePortRange(Show(a) + "-" + Show(b)) == if 0 < a < b <= 65535 then Some(PortRange(a, b)) else None
  {
    ShownShape(a);
    ShownShape(b);
    TightConcat(Show(a), "-");
    TightConcat(Show(a) + "-", Show(b));
    TightIsTrimmed(Show(a) + "-" + Show(b));
    ParseShown(a, MAX_PORT);
    ParseShown(b, MAX_PORT);
    DashSplits(Show(a), Show(b));
  }

  /** A number alone is a port unless it is 0 or too large. */
  lemma PortTextParses(a: nat)
    ensures ParsePortRange(Show(a)) == if 0 < a <= 65535 then Some(PortRange(a, a)) else None
  {
    ShownShape(a);
    ParseShown(a, MAX_PORT);
  }

  lemma CutAtFirst(a: string, b: string, x: string, y: string, c: char)
    requires c !in a && c !in b && a + [c] + x == b + [c] + y
    ensures a == b && x == y
  {
    FirstIndexIs(a, c, x);
    FirstIndexIs(b, c, y);
    var s := a + [c] + x;
    assert a == s[..|a|] && x == s[|a| + 1..];
    assert b == s[..|a|] && y == s[|a| + 1..];
  }

  /** Two parsed rules have the same key iff they listen on the same ports of the same interface. */
  lemma PrefixKeyInjective(r: DnatRule, q: DnatRule)
    requires WellFormed(r) && WellFormed(q)
    ensures PrefixKey(r) == PrefixKey(q) <==> r.listen == q.listen && r.iface == q.iface
  {
    if PrefixKey(r) == PrefixKey(q) {
      PortSpecShape(r.listen);
      PortSpecShape(q.listen);
      assert PrefixKey(r) == PortSpec(r.listen) + ['>'] + (r.iface + ">");
      assert PrefixKey(q) == PortSpec(q.listen) + ['>'] + (q.iface + ">");
      CutAtFirst(PortSpec(r.listen), PortSpec(q.listen), r.iface + ">", q.iface + ">", '>');
      CutAtFirst(r.iface, q.iface, "", "", '>');
      PortSpecParses(r.listen);
      PortSpecParses(q.listen);
    }
  }

  // ---- A rule written as a line parses back to itself ----

  function ShowSource(s: ForwardSource): string {
    match s
    case Auto => "auto"
    case Fixed(ip) => ShowIp(ip)
  }

  function RuleParts(r: DnatRule): seq<string> {
    [PortSpec(r.listen), r.iface, r.remoteHost + [':'] + PortSpec(r.destPort), ShowSource(r.source)]
  }

  function ShowRule(r: DnatRule): string {
    Join(RuleParts(r), '>')
  }

  lemma OctetParses(o: Octet)
    ensures ParseOctet(Show(o)) == Some(o)
  {
    ShowFacts(o);
  }

  lemma IpPartsShape(ip: Ip)
    ensures forall p | p in IpParts(ip) :: p != "" && AllDigits(p) && '.' !in p && '>' !in p
  {
    forall p | p in IpParts(ip) ensures AllDigits(p) && '.' !in p && '>' !in p {
      var n :| p == Show(n);
      ShowFacts(n);
      ShownShape(n);
    }
  }

  lemma {:induction false} IpParses(ip: Ip)
    ensures ParseIp(ShowIp(ip)) == Some(ip)
  {
    IpPartsShape(ip);
    SplitOfJoin(IpParts(ip), '.');
    OctetParses(ip.a);
    OctetParses(ip.b);
    OctetParses(ip.c);
    OctetParses(ip.d);
  }

  lemma IpShape(ip: Ip)
    ensures Tight(ShowIp(ip)) && ShowIp(ip) != "" && IsDigit(ShowIp(ip)[0]) && '>' !in ShowIp(ip)
  {
    var ps := IpParts(ip);
    IpPartsShape(ip);
    JoinLacks(ps, '.', '>');
    JoinEnds(ps, '.');
    assert ps[0] in ps && ps[3] in ps;
    assert ps[0][0] in ps[0];
    assert ps[3][|ps[3]| - 1] in ps[3];
  }

  lemma {:induction false} SourceShape(s: ForwardSource)
    ensures ParseSource(ShowSource(s)) == Some(s)
    ensures Tight(ShowSource(s)) && ShowSource(s) != "" && '>' !in ShowSource(s)
  {
    if s.Fixed? {
      IpParses(s.ip);
      IpShape(s.ip);
    }
  }

  lemma {:induction false} RemoteParses(host: string, dest: PortRange)
    requires 0 < dest.start <= dest.end
    ensures
      var p := host + [':'] + PortSpec(dest);
      LastIndex(p, ':') == Some(|host|) && p[..|host|] == host && ParsePortRange(p[|host| + 1..]) == Some(dest)
  {
    var p := host + [':'] + PortSpec(dest);
    PortSpecShape(dest);
    PortSpecParses(dest);
    LastIndexIs(host, ':', PortSpec(dest));
    assert p[..|host|] == host && p[|host| + 1..] == PortSpec(dest);
  }

  lemma {:induction false} RulePartsShape(r: DnatRule)
    requires WellFormed(r)
    ensures forall p | p in RuleParts(r) :: '>' !in p
    ensures
      var first, last := RuleParts(r)[0], RuleParts(r)[3];
      Tight(first) && first != "" && first[0] != '#' && Tight(last) && last != ""
  {
    PortSpecShape(r.listen);
    PortSpecShape(r.destPort);
    SourceShape(r.source);
    assert '>' !in r.remoteHost + [':'] + PortSpec(r.destPort);
  }

  lemma RuleLineShape(r: DnatRule)
    requires WellFormed(r)
    ensures var line := ShowRule(r); Trim(line) == line && line != "" && line[0] != '#' && Split(line, '>') == RuleParts(r)
  {
    RulePartsShape(r);
    SplitOfJoin(RuleParts(r), '>');
    JoinEnds(RuleParts(r), '>');
    TightIsTrimmed(ShowRule(r));
  }

  lemma {:induction false} FieldsParseBack(r: DnatRule)
    requires WellFormed(r)
    ensures ParseFields(RuleParts(r), Some(r.source)) == Rule(r)
  {
    PortSpecParses(r.listen);
    RemoteParses(r.remoteHost, r.destPort);
    TightIsTrimmed(r.iface);
    TightIsTrimmed(r.remoteHost);
  }

  /** A line rebuilt from a parsed rule parses back to that rule. */
  lemma RuleParsesBack(r: DnatRule)
    requires WellFormed(r)
    ensures ParseLine(ShowRule(r)) == Rule(r)
  {
    RuleLineShape(r);
    FieldsParseBack(r);
    SourceShape(r.source);
    TightIsTrimmed(ShowSource(r.source));
  }
}
