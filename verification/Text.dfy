/** The string operations the parsers are written with: lines, trimming, splitting, decimals. */
module Text {
  import opened Wrappers

  predicate IsSpace(c: char) {
    || '\U{9}' <= c <= '\U{d}' || c == ' ' || c == '\U{85}' || c == '\U{a0}' || c == '\U{1680}'
    || '\U{2000}' <= c <= '\U{200a}' || c == '\U{2028}' || c == '\U{2029}' || c == '\U{202f}'
    || c == '\U{205f}' || c == '\U{3000}'
  }

  /** The 25 characters of the Unicode property White_Space. */
  lemma WhiteSpace(c: char)
    ensures IsSpace(c) <==>
      c as int in {9, 10, 11, 12, 13, 32, 133, 160, 5760, 8192, 8193, 8194, 8195, 8196, 8197, 8198, 8199, 8200, 8201, 8202,
                   8232, 8233, 8239, 8287, 12288}
  {
  }

  function TrimStart(s: string): string {
    if s != "" && IsSpace(s[0]) then TrimStart(s[1..]) else s
  }

  function TrimEnd(s: string): string {
    if s != "" && IsSpace(s[|s| - 1]) then TrimEnd(s[..|s| - 1]) else s
  }

  function Trim(s: string): string {
    TrimEnd(TrimStart(s))
  }

  /** Nothing to trim. */
  predicate Tight(s: string) {
    s != "" ==> !IsSpace(s[0]) && !IsSpace(s[|s| - 1])
  }

  lemma {:induction false} TrimStartFacts(s: string)
    ensures |TrimStart(s)| <= |s| && TrimStart(s) == s[|s| - |TrimStart(s)|..]
    ensures TrimStart(s) != "" ==> !IsSpace(TrimStart(s)[0])
    ensures forall c | c in TrimStart(s) :: c in s
  {
    if s != "" && IsSpace(s[0]) {
      TrimStartFacts(s[1..]);
      assert forall c | c in s[1..] :: c in s;
    }
  }

  lemma {:induction false} TrimEndFacts(s: string)
    ensures TrimEnd(s) <= s
    ensures TrimEnd(s) != "" ==> !IsSpace(TrimEnd(s)[|TrimEnd(s)| - 1])
  {
    if s != "" && IsSpace(s[|s| - 1]) {
      TrimEndFacts(s[..|s| - 1]);
    }
  }

  lemma TrimIsTight(s: string)
    ensures Tight(Trim(s))
    ensures forall c | c in Trim(s) :: c in s
  {
    TrimStartFacts(s);
    var t := TrimStart(s);
    TrimEndFacts(t);
    assert forall c | c in TrimEnd(t) :: c in t;
    if TrimEnd(t) != "" {
      assert TrimEnd(t)[0] == t[0];
    }
  }

  /** Only blanks trim to nothing. */
  lemma TrimsToNothing(s: string)
    ensures Trim(s) == "" <==> forall c | c in s :: IsSpace(c)
  {
    TrimStartFacts(s);
    TrimEndFacts(TrimStart(s));
    AllBlank(s);
    if TrimStart(s) != "" { assert TrimStart(s)[0] in s; TrimEndKeepsHead(TrimStart(s)); }
  }

  lemma {:induction false} AllBlank(s: string)
    ensures TrimStart(s) == "" <==> forall c | c in s :: IsSpace(c)
  {
    if s != "" {
      assert s == [s[0]] + s[1..];
      AllBlank(s[1..]);
    }
  }

  lemma {:induction false} TrimEndKeepsHead(s: string)
    requires s != "" && !IsSpace(s[0])
    ensures TrimEnd(s) != ""
  {
    if IsSpace(s[|s| - 1]) { TrimEndKeepsHead(s[..|s| - 1]); }
  }

  lemma TightIsTrimmed(s: string)
    requires Tight(s)
    ensures Trim(s) == s
  {
  }

  lemma {:induction false} TrimStartSnocSpace(s: string, c: char)
    requires IsSpace(c)
    ensures TrimStart(s + [c]) == if TrimStart(s) == "" then "" else TrimStart(s) + [c]
  {
    if s == "" {
      assert s + [c] == [c];
      assert [c][1..] == "";
    } else if IsSpace(s[0]) {
      assert (s + [c])[1..] == s[1..] + [c];
      TrimStartSnocSpace(s[1..], c);
    }
  }

  /** White space at the end does not survive trimming. */
  lemma TrimSnocSpace(s: string, c: char)
    requires IsSpace(c)
    ensures Trim(s + [c]) == Trim(s)
  {
    TrimStartSnocSpace(s, c);
    var t := TrimStart(s);
    if t != "" {
      assert (t + [c])[..|t|] == t;
    }
  }

  function FirstIndex(s: string, c: char): (r: Option<nat>)
    ensures r.Some? ==> r.value < |s| && s[r.value] == c && c !in s[..r.value]
    ensures r.None? <==> c !in s
  {
    if s == "" then None
    else if s[0] == c then Some(0)
    else
      assert s == [s[0]] + s[1..];
      match FirstIndex(s[1..], c)
      case None => None
      case Some(i) =>
        assert s[..i + 1] == [s[0]] + s[1..][..i];
        Some(i + 1)
  }

  lemma LacksBehind(s: string, k: nat, c: char)
    requires k < |s| && c !in s[..|s| - 1][k..] && s[|s| - 1] != c
    ensures c !in s[k..]
  {
    forall j | 0 <= j < |s[k..]| ensures s[k..][j] != c {
      if j < |s| - 1 - k { assert s[..|s| - 1][k..][j] == s[k..][j]; }
    }
  }

  function LastIndex(s: string, c: char): (r: Option<nat>)
    ensures r.Some? ==> r.value < |s| && s[r.value] == c && c !in s[r.value + 1..]
    ensures r.None? <==> c !in s
  {
    if s == "" then None
    else if s[|s| - 1] == c then Some(|s| - 1)
    else
      var init := s[..|s| - 1];
      assert s == init + [s[|s| - 1]];
      match LastIndex(init, c)
      case None => None
      case Some(i) =>
        LacksBehind(s, i + 1, c);
        Some(i)
  }

  lemma FirstIndexIs(a: string, c: char, b: string)
    requires c !in a
    ensures FirstIndex(a + [c] + b, c) == Some(|a|)
  {
    var s := a + [c] + b;
    assert s[|a|] == c;
    var i := FirstIndex(s, c).value;
    forall k | 0 <= k < |a| ensures s[k] != c { assert s[k] == a[k] && a[k] in a; }
    forall k | 0 <= k < i ensures s[k] != c { assert s[..i][k] == s[k] && s[k] in s[..i]; }
  }

  lemma {:induction false} LastIndexIs(a: string, c: char, b: string)
    requires c !in b
    ensures LastIndex(a + [c] + b, c) == Some(|a|)
    decreases b
  {
    var s := a + [c] + b;
    if b == "" {
      assert s[|s| - 1] == c;
    } else {
      var init := b[..|b| - 1];
      assert b == init + [b[|b| - 1]];
      assert s[..|s| - 1] == a + [c] + init && s[|s| - 1] == b[|b| - 1];
      LastIndexIs(a, c, init);
    }
  }

  /** `str::split` on one character: always at least one part. */
  function Split(s: string, c: char): (parts: seq<string>)
    ensures |parts| >= 1
    ensures forall p | p in parts :: c !in p
  {
    match FirstIndex(s, c)
    case None => [s]
    case Some(i) => [s[..i]] + Split(s[i + 1..], c)
  }

  lemma SplitHead(a: string, c: char, b: string)
    requires c !in a
    ensures Split(a + [c] + b, c) == [a] + Split(b, c)
  {
    FirstIndexIs(a, c, b);
    var s := a + [c] + b;
    assert s[..|a|] == a && s[|a| + 1..] == b;
  }

  lemma SplitNone(a: string, c: char)
    requires c !in a
    ensures Split(a, c) == [a]
  {
  }

  /** `join` with one character between the parts. */
  function Join(parts: seq<string>, c: char): string
    requires parts != []
  {
    if |parts| == 1 then parts[0] else parts[0] + [c] + Join(parts[1..], c)
  }

  lemma {:induction false} SplitOfJoin(parts: seq<string>, c: char)
    requires parts != [] && forall p | p in parts :: c !in p
    ensures Split(Join(parts, c), c) == parts
  {
    if |parts| == 1 {
      SplitNone(parts[0], c);
    } else {
      SplitOfJoin(parts[1..], c);
      SplitHead(parts[0], c, Join(parts[1..], c));
      assert parts == [parts[0]] + parts[1..];
    }
  }

  /** The ends of a joined text are the ends of its outer parts. */
  lemma {:induction false} JoinEnds(parts: seq<string>, c: char)
    requires parts != [] && parts[0] != "" && parts[|parts| - 1] != ""
    ensures
      var t, last := Join(parts, c), parts[|parts| - 1];
      t != "" && t[0] == parts[0][0] && t[|t| - 1] == last[|last| - 1]
  {
    if |parts| == 2 {
      assert Join(parts[1..], c) == parts[1];
    } else if |parts| > 2 {
      JoinLast(parts[1..], c);
    }
  }

  lemma {:induction false} JoinLast(parts: seq<string>, c: char)
    requires parts != [] && parts[|parts| - 1] != ""
    ensures
      var t, last := Join(parts, c), parts[|parts| - 1];
      t != "" && t[|t| - 1] == last[|last| - 1]
  {
    if |parts| > 1 {
      JoinLast(parts[1..], c);
    }
  }

  lemma {:induction false} JoinLacks(parts: seq<string>, c: char, d: char)
    requires parts != [] && d != c && forall p | p in parts :: d !in p
    ensures d !in Join(parts, c)
  {
    if |parts| > 1 {
      JoinLacks(parts[1..], c, d);
    }
  }

  /** `str::lines`: a line ends at LF, taking one CR before it; a last line without LF keeps its CR. */
  function Lines(text: string): (ls: seq<string>)
    ensures forall l | l in ls :: '\n' !in l
    ensures text == "" <==> ls == []
  {
    if text == "" then []
    else match FirstIndex(text, '\n')
      case None => [text]
      case Some(i) =>
        var rest := Lines(text[i + 1..]);
        StripCrKeeps(text[..i], '\n');
        [StripCr(text[..i])] + rest
  }

  function StripCr(line: string): string {
    if line != "" && line[|line| - 1] == '\r' then line[..|line| - 1] else line
  }

  lemma StripCrKeeps(line: string, c: char)
    requires c !in line
    ensures c !in StripCr(line)
  {
  }

  lemma StripCrTrims(line: string)
    ensures Trim(StripCr(line)) == Trim(line)
  {
    if StripCr(line) != line {
      assert line == StripCr(line) + ['\r'];
      TrimSnocSpace(StripCr(line), '\r');
    }
  }

  /** Every line followed by LF. */
  function Unlines(ls: seq<string>): string {
    if ls == [] then "" else ls[0] + "\n" + Unlines(ls[1..])
  }

  function StripAll(ls: seq<string>): seq<string> {
    seq(|ls|, i requires 0 <= i < |ls| => StripCr(ls[i]))
  }

  lemma StripAllHead(ls: seq<string>)
    requires ls != []
    ensures StripAll(ls) == [StripCr(ls[0])] + StripAll(ls[1..])
  {
  }

  lemma OneLineBehind(line: string, rest: string)
    requires '\n' !in line
    ensures Lines(line + "\n" + rest) == [StripCr(line)] + Lines(rest)
  {
    var whole := line + ['\n'] + rest;
    FirstIndexIs(line, '\n', rest);
    assert whole[..|line|] == line && whole[|line| + 1..] == rest;
  }

  lemma {:induction false} LinesBehind(ls: seq<string>, text: string)
    requires forall l | l in ls :: '\n' !in l
    ensures Lines(Unlines(ls) + text) == StripAll(ls) + Lines(text)
  {
    if ls == [] {
      assert Unlines(ls) + text == text;
    } else {
      var rest := Unlines(ls[1..]) + text;
      LinesBehind(ls[1..], text);
      StripAllHead(ls);
      UnlinesHead(ls, text);
      OneLineBehind(ls[0], rest);
      Regroup([StripCr(ls[0])], StripAll(ls[1..]), Lines(text));
    }
  }

  lemma UnlinesHead(ls: seq<string>, text: string)
    requires ls != []
    ensures Unlines(ls) + text == ls[0] + "\n" + (Unlines(ls[1..]) + text)
  {
  }

  lemma LinesOfUnlines(ls: seq<string>)
    requires forall l | l in ls :: '\n' !in l
    ensures Lines(Unlines(ls)) == StripAll(ls)
  {
    LinesBehind(ls, "");
    assert Unlines(ls) + "" == Unlines(ls);
  }

  // ---- Decimals ----

  predicate IsDigit(c: char) { '0' <= c <= '9' }

  predicate AllDigits(s: string) {
    forall c | c in s :: IsDigit(c)
  }

  function Digit(d: nat): char
    requires d < 10
  {
    '0' + (d as char)
  }

  function Show(n: nat): (s: string)
    ensures s != ""
  {
    (if n < 10 then "" else Show(n / 10)) + [Digit(n % 10)]
  }

  function Value(s: string): nat
    requires AllDigits(s)
  {
    if s == "" then 0
    else
      assert forall c | c in s[..|s| - 1] :: c in s;
      assert s[|s| - 1] in s;
      Value(s[..|s| - 1]) * 10 + (s[|s| - 1] - '0') as nat
  }

  lemma {:induction false} ShowFacts(n: nat)
    ensures AllDigits(Show(n)) && Value(Show(n)) == n
    ensures Show(n)[0] == '0' ==> n == 0
    ensures n < 1000 ==> |Show(n)| <= 3
    ensures n < 100 ==> |Show(n)| <= 2
    ensures n < 10 ==> |Show(n)| == 1
  {
    var last := Digit(n % 10);
    assert (last - '0') as nat == n % 10;
    if n < 10 {
      assert Show(n) == [last];
      assert [last][..0] == "";
    } else {
      ShowFacts(n / 10);
      assert Show(n)[..|Show(n)| - 1] == Show(n / 10);
    }
  }

  lemma DigitsAreTight(s: string)
    requires AllDigits(s)
    ensures Tight(s) && ':' !in s && '>' !in s && '-' !in s && '.' !in s && '+' !in s
  {
    if s != "" { assert s[0] in s && s[|s| - 1] in s; }
  }

  /** An unsigned parse as Rust does it: an optional plus sign, then at least one digit. */
  function ParseUnsigned(s: string, max: nat): Option<nat> {
    var d := if s != "" && s[0] == '+' then s[1..] else s;
    if d != "" && AllDigits(d) && Value(d) <= max then Some(Value(d)) else None
  }

  lemma ParseShown(n: nat, max: nat)
    ensures ParseUnsigned(Show(n), max) == if n <= max then Some(n) else None
  {
    ShowFacts(n);
    assert Show(n)[0] in Show(n);
  }

  // ---- Words ----

  predicate IsWord(w: string) {
    w != "" && forall c | c in w :: !IsSpace(c)
  }

  function WordEnd(s: string): (k: nat)
    ensures k <= |s| && (k < |s| ==> IsSpace(s[k]))
    ensures forall c | c in s[..k] :: !IsSpace(c)
  {
    if s == "" || IsSpace(s[0]) then 0
    else
      var k := WordEnd(s[1..]);
      assert s[..k + 1] == [s[0]] + s[1..][..k];
      k + 1
  }

  /** `split_whitespace`. */
  function Words(s: string): (ws: seq<string>)
    ensures forall w | w in ws :: IsWord(w)
    decreases |s|
  {
    if s == "" then []
    else if IsSpace(s[0]) then Words(s[1..])
    else [s[..WordEnd(s)]] + Words(s[WordEnd(s)..])
  }

  lemma {:induction false} WordEndIs(w: string, rest: string)
    requires (forall c | c in w :: !IsSpace(c)) && (rest != "" ==> IsSpace(rest[0]))
    ensures WordEnd(w + rest) == |w|
  {
    if w == "" {
      assert w + rest == rest;
    } else {
      assert w[0] in w && w == [w[0]] + w[1..];
      assert (w + rest)[1..] == w[1..] + rest;
      WordEndIs(w[1..], rest);
    }
  }

  lemma {:induction false} WordThenRest(w: string, rest: string)
    requires IsWord(w) && (rest != "" ==> IsSpace(rest[0]))
    ensures Words(w + rest) == [w] + Words(rest)
  {
    var s := w + rest;
    WordEndIs(w, rest);
    assert s[0] == w[0] && w[0] in w;
    assert s[..|w|] == w && s[|w|..] == rest;
  }

  /** Words joined by blanks are found again. */
  lemma {:induction false} WordsOfJoin(ws: seq<string>)
    requires ws != [] && forall w | w in ws :: IsWord(w)
    ensures Words(Join(ws, ' ')) == ws
  {
    if |ws| == 1 {
      assert ws[0] + "" == ws[0] && ws == [ws[0]];
      WordThenRest(ws[0], "");
    } else {
      var tail := Join(ws[1..], ' ');
      WordsOfJoin(ws[1..]);
      assert ws[0] + [' '] + tail == ws[0] + ([' '] + tail);
      WordThenRest(ws[0], [' '] + tail);
      assert ([' '] + tail)[1..] == tail;
      assert ws == [ws[0]] + ws[1..];
    }
  }
}
