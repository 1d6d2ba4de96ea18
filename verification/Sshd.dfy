/** The managed block at the top of the sshd configuration (`sshd.rs`). */
module Sshd {
  import opened Wrappers
  import opened Text

  /** The texts that make up a managed block. */
  datatype Template = Template(begin: string, end: string, note: string, on: seq<string>, off: seq<string>) {
    function Settings(enabled: bool): seq<string> { if enabled then on else off }
  }

  const TEMPLATE := Template(
    "# >>> ipgate-agent managed" + " (ssh password auth) >>>",
    "# <<< ipgate-agent managed <<<",
    "# 由 ipgate 客户端管理，勿手改；删除本块即恢复你原本的设置。",
    ["PasswordAuthentication yes"],
    ["PasswordAuthentication no", "KbdInteractiveAuthentication no"])

  function BlockLines(t: Template, enabled: bool): seq<string> {
    [t.begin, t.note] + t.Settings(enabled) + [t.end]
  }

  /** `managed_block`. */
  function Block(t: Template, enabled: bool): string {
    Unlines(BlockLines(t, enabled))
  }

  /** A line by itself: no LF, nothing to trim. */
  predicate Plain(line: string) {
    '\n' !in line && line != "" && Tight(line)
  }

  /** Every text is one plain line, and only the marks look like marks. */
  ghost predicate Sane(t: Template) {
    && Plain(t.begin) && Plain(t.end) && t.begin != t.end
    && (forall l | l == t.note || l in t.on || l in t.off :: Plain(l) && l != t.begin && l != t.end)
  }

  predicate Begins(t: Template, line: string) { Trim(line) == t.begin }
  predicate Ends(t: Template, line: string) { Trim(line) == t.end }

  predicate Unmarked(t: Template, lines: seq<string>) {
    forall l | l in lines :: !Begins(t, l) && !Ends(t, l)
  }

  /** The lines outside managed blocks; a block that is never closed runs to the end. */
  function Keep(t: Template, lines: seq<string>, skipping: bool): (kept: seq<string>)
    ensures forall l | l in kept :: l in lines && !Begins(t, l) && !Ends(t, l)
  {
    if lines == [] then []
    else
      assert lines == [lines[0]] + lines[1..];
      if Begins(t, lines[0]) then Keep(t, lines[1..], true)
      else if Ends(t, lines[0]) then Keep(t, lines[1..], false)
      else if skipping then Keep(t, lines[1..], true)
      else [lines[0]] + Keep(t, lines[1..], false)
  }

  function Kept(t: Template, text: string): (ls: seq<string>)
    ensures forall l | l in ls :: '\n' !in l && !Begins(t, l) && !Ends(t, l)
  {
    Keep(t, Lines(text), false)
  }

  function Strip(t: Template, text: string): string {
    Unlines(Kept(t, text))
  }

  /** `strip_managed_block`. */
  method StripManagedBlock(t: Template, text: string) returns (out: string)
    ensures out == Strip(t, text)
  {
    out := "";
    var skipping := false;
    var lines := Lines(text);
    for i := 0 to |lines|
      invariant out + Unlines(Keep(t, lines[i..], skipping)) == Strip(t, text)
    {
      var line := Trim(lines[i]);
      assert lines[i..][1..] == lines[i + 1..];
      if line == t.begin {
        skipping := true;
        continue;
      }
      if line == t.end {
        skipping := false;
        continue;
      }
      if !skipping {
        KeptLine(out, lines[i], Keep(t, lines[i + 1..], false));
        out := out + lines[i] + "\n";
      }
    }
  }

  lemma KeptLine(out: string, line: string, rest: seq<string>)
    ensures out + Unlines([line] + rest) == out + line + "\n" + Unlines(rest)
  {
    assert ([line] + rest)[1..] == rest;
  }

  // ---- Stripping twice ----

  predicate EndsInCr(line: string) { line != "" && line[|line| - 1] == '\r' }

  lemma {:induction false} KeepAll(t: Template, lines: seq<string>)
    requires Unmarked(t, lines)
    ensures Keep(t, lines, false) == lines
  {
    if lines != [] {
      assert lines == [lines[0]] + lines[1..];
      KeepAll(t, lines[1..]);
    }
  }

  lemma KeptOfStripped(t: Template, text: string)
    ensures Kept(t, Strip(t, text)) == StripAll(Kept(t, text))
  {
    var k := Kept(t, text);
    LinesOfUnlines(k);
    NoMarksLeft(t, k);
    KeepAll(t, StripAll(k));
  }

  lemma NoMarksLeft(t: Template, k: seq<string>)
    requires Unmarked(t, k)
    ensures Unmarked(t, StripAll(k))
  {
    forall i | 0 <= i < |k| ensures !Begins(t, StripCr(k[i])) && !Ends(t, StripCr(k[i])) {
      StripCrTrims(k[i]);
      assert k[i] in k;
    }
  }

  lemma {:induction false} UnlinesShrinks(ls: seq<string>)
    ensures |Unlines(StripAll(ls))| <= |Unlines(ls)|
    ensures Unlines(StripAll(ls)) == Unlines(ls) <==> forall l | l in ls :: !EndsInCr(l)
  {
    if ls != [] {
      assert StripAll(ls)[1..] == StripAll(ls[1..]);
      UnlinesShrinks(ls[1..]);
      var a, b := Unlines(StripAll(ls)), Unlines(ls);
      if EndsInCr(ls[0]) {
        assert |a| < |b|;
      } else {
        assert a == ls[0] + "\n" + Unlines(StripAll(ls[1..]));
        assert a[|ls[0]| + 1..] == Unlines(StripAll(ls[1..])) && b[|ls[0]| + 1..] == Unlines(ls[1..]);
        assert forall l :: l in ls <==> l == ls[0] || l in ls[1..];
      }
    }
  }

  /** Stripping is idempotent on a text exactly when no kept line ends in a CR. Such a line has two CRs
      before its LF, or is an unterminated last line with one. */
  lemma StripIdempotentIff(t: Template, text: string)
    ensures Strip(t, Strip(t, text)) == Strip(t, text) <==> forall l | l in Kept(t, text) :: !EndsInCr(l)
  {
    KeptOfStripped(t, text);
    UnlinesShrinks(Kept(t, text));
  }

  /** A single CR is changed by each of two strippings, and no shorter text is. */
  lemma UnterminatedCr(t: Template)
    requires Unmarked(t, ["\r"])
    ensures Strip(t, "\r") == "\r\n" && Strip(t, Strip(t, "\r")) == "\n"
    ensures forall text | |text| < |"\r"| :: Strip(t, Strip(t, text)) == Strip(t, text)
  {
    var l := "\r";
    assert Lines(l) == [l];
    KeepAll(t, [l]);
    assert [l][1..] == [];
    assert Unlines([l]) == l + "\n" + "";
    KeptOfStripped(t, l);
    assert l[..0] == "" && StripCr(l) == "";
    assert StripAll([l]) == [""];
    assert [""][1..] == [];
    assert Unlines([""]) == "" + "\n" + "";
    forall text: string | |text| < |"\r"| ensures Strip(t, Strip(t, text)) == Strip(t, text) {
      assert text == "" && Lines(text) == [];
      assert Strip(t, text) == "";
    }
  }

  // ---- Under the block ----

  lemma PlainFacts(line: string)
    requires Plain(line)
    ensures StripCr(line) == line && Trim(line) == line
  {
    TightIsTrimmed(line);
  }

  lemma BlockLinesFacts(t: Template, enabled: bool)
    requires Sane(t)
    ensures forall l | l in BlockLines(t, enabled) :: Plain(l)
    ensures StripAll(BlockLines(t, enabled)) == BlockLines(t, enabled)
    ensures Begins(t, t.begin) && Ends(t, t.end) && !Begins(t, t.end)
    ensures Unmarked(t, [t.note] + t.Settings(enabled))
  {
    forall l | l in BlockLines(t, enabled) ensures Plain(l) && StripCr(l) == l && Trim(l) == l {
      PlainFacts(l);
    }
  }

  lemma {:induction false} SkipsTo(t: Template, ls: seq<string>, rest: seq<string>)
    requires Unmarked(t, ls) && Ends(t, t.end) && !Begins(t, t.end)
    ensures Keep(t, ls + ([t.end] + rest), true) == Keep(t, rest, false)
  {
    var all := ls + ([t.end] + rest);
    if ls == [] {
      assert all[0] == t.end && all[1..] == rest;
    } else {
      assert all[0] == ls[0] && all[1..] == ls[1..] + ([t.end] + rest);
      SkipsTo(t, ls[1..], rest);
    }
  }

  /** A block in front of a text adds nothing to what is kept of it: the setting it wrote is replaced,
      not repeated. */
  lemma StripDropsBlock(t: Template, enabled: bool, text: string)
    requires Sane(t)
    ensures Strip(t, Block(t, enabled) + text) == Strip(t, text)
  {
    BlockLinesFacts(t, enabled);
    LinesBehind(BlockLines(t, enabled), text);
    var inner := [t.note] + t.Settings(enabled);
    BlockThenLines(t, enabled, Lines(text));
    SkipsTo(t, inner, Lines(text));
    SkipsFromBegin(t, inner + ([t.end] + Lines(text)));
  }

  lemma BlockThenLines(t: Template, enabled: bool, lines: seq<string>)
    ensures BlockLines(t, enabled) + lines == [t.begin] + (([t.note] + t.Settings(enabled)) + ([t.end] + lines))
  {
  }

  lemma SkipsFromBegin(t: Template, lines: seq<string>)
    requires Begins(t, t.begin)
    ensures Keep(t, [t.begin] + lines, false) == Keep(t, lines, true)
  {
    assert ([t.begin] + lines)[1..] == lines;
  }

  lemma NoLf(line: string)
    requires forall i | 0 <= i < |line| :: line[i] != '\n'
    ensures '\n' !in line
  {
  }

  lemma SaneWhen(t: Template)
    requires Plain(t.begin) && Plain(t.end) && Plain(t.note) && |t.begin| > 2 && |t.end| > 2 && |t.note| > 2
    requires t.begin[0] == t.end[0] == '#' && t.begin[2] != t.end[2] && t.note[2] !in {t.begin[2], t.end[2]}
    requires forall l | l in t.on || l in t.off :: Plain(l) && l[0] != '#'
    ensures Sane(t)
  {
  }

  /** The texts of the source meet what the lemmas ask of them. */
  lemma TemplateIsSane()
    ensures Sane(TEMPLATE)
  {
    BeginIsPlain();
    EndIsPlain();
    NoteIsPlain();
    SettingsArePlain();
    SaneWhen(TEMPLATE);
  }

  lemma JoinIsPlain(a: string, b: string)
    requires a != "" && b != "" && '\n' !in a && '\n' !in b && !IsSpace(a[0]) && !IsSpace(b[|b| - 1])
    ensures Plain(a + b)
  {
  }

  lemma BeginIsPlain()
    ensures Plain(TEMPLATE.begin) && |TEMPLATE.begin| > 2 && TEMPLATE.begin[0] == '#' && TEMPLATE.begin[2] == '>'
  {
    var a, b := "# >>> ipgate-agent managed", " (ssh password auth) >>>";
    NoLf(a);
    NoLf(b);
    JoinIsPlain(a, b);
    assert TEMPLATE.begin == a + b;
  }

  lemma EndIsPlain()
    ensures Plain(TEMPLATE.end) && |TEMPLATE.end| > 2 && TEMPLATE.end[0] == '#' && TEMPLATE.end[2] == '<'
  {
    NoLf(TEMPLATE.end);
  }

  lemma NoteIsPlain()
    ensures Plain(TEMPLATE.note) && |TEMPLATE.note| > 2 && TEMPLATE.note[2] == '由'
  {
    NoLf(TEMPLATE.note);
  }

  lemma SettingsArePlain()
    ensures forall l | l in TEMPLATE.on || l in TEMPLATE.off :: Plain(l) && l[0] != '#'
  {
    NoLf("PasswordAuthentication yes");
    NoLf("PasswordAuthentication no");
    NoLf("KbdInteractiveAuthentication no");
  }

  // ---- What sshd makes of a file ----

  function Lower(c: char): char {
    if 'A' <= c <= 'Z' then 'a' + (c - 'A') else c
  }

  predicate SameIgnoringCase(a: string, b: string) {
    |a| == |b| && forall i | 0 <= i < |a| :: Lower(a[i]) == Lower(b[i])
  }

  /** The line sets the keyword, which stands first in it, in any case, before a blank or an `=`. */
  predicate Sets(line: string, keyword: string) {
    var t := TrimStart(line);
    && |keyword| <= |t| && SameIgnoringCase(t[..|keyword|], keyword)
    && (|keyword| < |t| ==> IsSpace(t[|keyword|]) || t[|keyword|] == '=')
  }

  /** sshd takes the first value it finds for a keyword. */
  function FirstSetting(lines: seq<string>, keyword: string): Option<string> {
    if lines == [] then None
    else if Sets(lines[0], keyword) then Some(lines[0])
    else FirstSetting(lines[1..], keyword)
  }

  const PASSWORD := "PasswordAuthentication"
  const KEYBOARD := "KbdInteractiveAuthentication"

  /** The file turns password login on or off; to be off, the keyboard-interactive way is off as well. */
  predicate Decides(lines: seq<string>, enabled: bool) {
    && FirstSetting(lines, PASSWORD) == Some(if enabled then "PasswordAuthentication yes" else "PasswordAuthentication no")
    && (!enabled ==> FirstSetting(lines, KEYBOARD) == Some("KbdInteractiveAuthentication no"))
  }

  lemma StartsOtherwise(line: string, keyword: string)
    requires line != "" && keyword != "" && !IsSpace(line[0]) && Lower(line[0]) != Lower(keyword[0])
    ensures !Sets(line, keyword)
  {
    var t := TrimStart(line);
    assert t == line;
    if |keyword| <= |t| { assert t[..|keyword|][0] == line[0]; }
  }

  lemma StartsWith(keyword: string, value: string)
    requires keyword != "" && !IsSpace(keyword[0])
    ensures Sets(keyword + " " + value, keyword)
  {
    var line := keyword + " " + value;
    assert line[0] == keyword[0] && TrimStart(line) == line;
    assert line[..|keyword|] == keyword;
  }

  lemma {:induction false} FoundBehind(before: seq<string>, line: string, rest: seq<string>, keyword: string)
    requires (forall l | l in before :: !Sets(l, keyword)) && Sets(line, keyword)
    ensures FirstSetting(before + ([line] + rest), keyword) == Some(line)
  {
    var all := before + ([line] + rest);
    if before == [] {
      assert all[0] == line;
    } else {
      assert all[0] == before[0] && before[0] in before && all[1..] == before[1..] + ([line] + rest);
      FoundBehind(before[1..], line, rest, keyword);
    }
  }

  lemma MarksSetNothing(keyword: string)
    requires keyword in [PASSWORD, KEYBOARD]
    ensures forall l | l in [TEMPLATE.begin, TEMPLATE.note] :: !Sets(l, keyword)
  {
    BeginIsPlain();
    NoteIsPlain();
    assert TEMPLATE.note[0] == '#';
    StartsOtherwise(TEMPLATE.begin, keyword);
    StartsOtherwise(TEMPLATE.note, keyword);
  }

  lemma PasswordFound(value: string, rest: seq<string>)
    ensures FirstSetting([TEMPLATE.begin, TEMPLATE.note] + ([PASSWORD + " " + value] + rest), PASSWORD) == Some(PASSWORD + " " + value)
  {
    MarksSetNothing(PASSWORD);
    StartsWith(PASSWORD, value);
    FoundBehind([TEMPLATE.begin, TEMPLATE.note], PASSWORD + " " + value, rest, PASSWORD);
  }

  lemma KeyboardFound(password: string, rest: seq<string>)
    ensures
      FirstSetting([TEMPLATE.begin, TEMPLATE.note, PASSWORD + " " + password] + ([KEYBOARD + " " + "no"] + rest), KEYBOARD)
        == Some(KEYBOARD + " " + "no")
  {
    MarksSetNothing(KEYBOARD);
    StartsWith(KEYBOARD, "no");
    StartsOtherwise(PASSWORD + " " + password, KEYBOARD);
    var before := [TEMPLATE.begin, TEMPLATE.note, PASSWORD + " " + password];
    assert before == [TEMPLATE.begin, TEMPLATE.note] + [PASSWORD + " " + password];
    FoundBehind(before, KEYBOARD + " " + "no", rest, KEYBOARD);
  }

  lemma SettingTexts()
    ensures PASSWORD + " " + "yes" == "PasswordAuthentication yes" && PASSWORD + " " + "no" == "PasswordAuthentication no"
    ensures KEYBOARD + " " + "no" == "KbdInteractiveAuthentication no"
  {
  }

  /** The block is found before anything that follows it. */
  lemma BlockDecides(enabled: bool, rest: seq<string>)
    ensures Decides(BlockLines(TEMPLATE, enabled) + rest, enabled)
  {
    if enabled { OnDecides(rest); } else { OffDecides(rest); }
  }

  lemma OnDecides(rest: seq<string>)
    ensures Decides(BlockLines(TEMPLATE, true) + rest, true)
  {
    SettingTexts();
    PasswordFound("yes", [TEMPLATE.end] + rest);
    OneBehind(TEMPLATE.begin, TEMPLATE.note, "PasswordAuthentication yes", TEMPLATE.end, rest);
  }

  lemma OffDecides(rest: seq<string>)
    ensures Decides(BlockLines(TEMPLATE, false) + rest, false)
  {
    SettingTexts();
    PasswordFound("no", ["KbdInteractiveAuthentication no"] + ([TEMPLATE.end] + rest));
    KeyboardFound("no", [TEMPLATE.end] + rest);
    TwoBehind(TEMPLATE.begin, TEMPLATE.note, "PasswordAuthentication no", "KbdInteractiveAuthentication no", TEMPLATE.end, rest);
  }

  lemma OneBehind(a: string, b: string, c: string, end: string, rest: seq<string>)
    ensures [a, b] + [c] + [end] + rest == [a, b] + ([c] + ([end] + rest))
  {
  }

  lemma TwoBehind(a: string, b: string, c: string, d: string, end: string, rest: seq<string>)
    ensures [a, b] + [c, d] + [end] + rest == [a, b] + ([c] + ([d] + ([end] + rest))) == [a, b, c] + ([d] + ([end] + rest))
  {
  }

  lemma RewrittenDecides(text: string, enabled: bool)
    ensures Decides(Lines(Rewritten(TEMPLATE, text, enabled)), enabled)
  {
    TemplateIsSane();
    BlockLinesFacts(TEMPLATE, enabled);
    LinesBehind(BlockLines(TEMPLATE, enabled), Strip(TEMPLATE, text));
    BlockDecides(enabled, Lines(Strip(TEMPLATE, text)));
  }

  // ---- What `sshd -T` is read as ----

  datatype SshAuth = SshAuth(password: Option<bool>, keyboard: Option<bool>, permitRoot: Option<string>)

  predicate IsYes(value: string) { SameIgnoringCase(value, "yes") }

  /** The value of a line that begins with the key. */
  function ValueIn(line: string, key: string): Option<string> {
    var ws := Words(line);
    if |ws| >= 2 && ws[0] == key then Some(ws[1]) else None
  }

  function LastValue(lines: seq<string>, key: string): (r: Option<string>)
    ensures r.None? <==> forall i | 0 <= i < |lines| :: ValueIn(lines[i], key).None?
    ensures r.Some? ==> exists i | 0 <= i < |lines| ::
      r == ValueIn(lines[i], key) && forall j | i < j < |lines| :: ValueIn(lines[j], key).None?
  {
    if lines == [] then None
    else
      var n := |lines| - 1;
      if ValueIn(lines[n], key).Some? then ValueIn(lines[n], key) else LastValue(lines[..n], key)
  }

  function FirstValue(lines: seq<string>, key: string): (r: Option<string>)
    ensures r.None? <==> forall i | 0 <= i < |lines| :: ValueIn(lines[i], key).None?
    ensures r.Some? ==> exists i | 0 <= i < |lines| ::
      r == ValueIn(lines[i], key) && forall j | 0 <= j < i :: ValueIn(lines[j], key).None?
  {
    if lines == [] then None
    else
      var n := |lines| - 1;
      if FirstValue(lines[..n], key).Some? then FirstValue(lines[..n], key) else ValueIn(lines[n], key)
  }

  function Yes(value: Option<string>): Option<bool> {
    if value.Some? then Some(IsYes(value.value)) else None
  }

  /** The last line of a key counts; the old name of the keyboard-interactive setting only where the new
      one is missing, and then the first. */
  function AuthOf(lines: seq<string>): SshAuth {
    var keyboard := LastValue(lines, "kbdinteractiveauthentication");
    SshAuth(
      Yes(LastValue(lines, "passwordauthentication")),
      Yes(if keyboard.Some? then keyboard else FirstValue(lines, "challengeresponseauthentication")),
      LastValue(lines, "permitrootlogin"))
  }

  /** `parse`. */
  method Parse(text: string) returns (a: SshAuth)
    ensures a == AuthOf(Lines(text))
  {
    a := SshAuth(None, None, None);
    var lines := Lines(text);
    for i := 0 to |lines|
      invariant a == AuthOf(lines[..i])
    {
      assert lines[..i + 1][..i] == lines[..i];
      KeysDiffer();
      var ws := Words(lines[i]);
      if |ws| < 2 { continue; }
      var yes := IsYes(ws[1]);
      if ws[0] == "passwordauthentication" {
        a := a.(password := Some(yes));
      } else if ws[0] == "kbdinteractiveauthentication" {
        a := a.(keyboard := Some(yes));
      } else if ws[0] == "challengeresponseauthentication" && a.keyboard.None? {
        a := a.(keyboard := Some(yes));
      } else if ws[0] == "permitrootlogin" {
        a := a.(permitRoot := Some(ws[1]));
      }
    }
    assert lines[..|lines|] == lines;
  }

  lemma KeysDiffer()
    ensures "passwordauthentication"[0] == 'p' && "kbdinteractiveauthentication"[0] == 'k'
    ensures "challengeresponseauthentication"[0] == 'c' && |"permitrootlogin"| != |"passwordauthentication"|
  {
  }

  /** `probe().password`, given what `sshd -T` prints for a file. */
  function Probed(sshdT: string -> Option<string>, file: string): Option<bool> {
    if sshdT(file).Some? then AuthOf(Lines(sshdT(file).value)).password else None
  }

  /** It prints what the file decides. */
  ghost predicate ShowsDecision(sshdT: string -> Option<string>) {
    forall file, enabled | Decides(Lines(file), enabled) ::
      && sshdT(file).Some?
      && LastValue(Lines(sshdT(file).value), "passwordauthentication") == Some(if enabled then "yes" else "no")
  }

  /** If it does, the check of a rewritten file passes. */
  lemma ProbeConfirms(sshdT: string -> Option<string>, text: string, enabled: bool)
    requires ShowsDecision(sshdT)
    ensures Probed(sshdT, Rewritten(TEMPLATE, text, enabled)) == Some(enabled)
  {
    var file := Rewritten(TEMPLATE, text, enabled);
    RewrittenDecides(text, enabled);
    ReadsAs(Lines(sshdT(file).value), enabled);
  }

  lemma ReadsAs(lines: seq<string>, enabled: bool)
    requires LastValue(lines, "passwordauthentication") == Some(if enabled then "yes" else "no")
    ensures AuthOf(lines).password == Some(enabled)
  {
    assert |"no"| != |"yes"|;
  }

  // ---- Runs of toggles ----

  function Rewritten(t: Template, text: string, enabled: bool): string {
    Block(t, enabled) + Strip(t, text)
  }

  /** How a call of `set_password_auth` ended. `Stuck` is a failed step whose rollback also failed. */
  datatype Ending = Refused | RolledBack | Applied | Stuck

  predicate Installs(e: Ending) { e == Applied || e == Stuck }

  /** What the host lets one call do: read and write the file, reload the daemon, and in a rollback write
      and reload again. */
  datatype Luck = Luck(canRead: bool, canWrite: bool, canReload: bool, canRestore: bool, canReloadAgain: bool)

  /** How the call ends: every step must work, the last of them the check of what `sshd -T` shows. */
  function EndingOf(next: string, enabled: bool, luck: Luck, valid: string -> bool, sshdT: string -> Option<string>): Ending {
    if !luck.canRead || !luck.canWrite then Refused
    else if valid(next) && luck.canReload && Probed(sshdT, next) == Some(enabled) then Applied
    else if luck.canRestore then RolledBack
    else Stuck
  }

  class SshdConfig {
    const template: Template
    var main: string
    var loaded: string     // what the running daemon has read

    constructor (template: Template, main: string)
      ensures this.template == template && this.main == main && loaded == main
    {
      this.template, this.main, loaded := template, main, main;
    }

    /** `set_password_auth`; `valid` stands for `sshd -t`, `sshdT` for what `sshd -T` prints. */
    method SetPasswordAuth(enabled: bool, luck: Luck, valid: string -> bool, sshdT: string -> Option<string>) returns (e: Ending)
      modifies this`main, this`loaded
      ensures e == EndingOf(Rewritten(template, old(main), enabled), enabled, luck, valid, sshdT)
      ensures main == if Installs(e) then Rewritten(template, old(main), enabled) else old(main)
      // an installed file of the source's own template turns password login on or off as asked
      ensures Installs(e) && template == TEMPLATE ==> Decides(Lines(main), enabled)
      ensures e == Applied ==> valid(main) && loaded == main && Probed(sshdT, main) == Some(enabled)
      // unless the rollback fails, no text that does not pass validation is newly loaded
      ensures e != Stuck ==> loaded in {old(loaded), old(main)} || (loaded == Rewritten(template, old(main), enabled) && valid(loaded))
      ensures loaded ==
        if e == Refused then old(loaded)
        else if e == Applied || luck.canReloadAgain then main
        else if valid(Rewritten(template, old(main), enabled)) && luck.canReload then Rewritten(template, old(main), enabled)
        else old(loaded)
    {
      if !luck.canRead { return Refused; }
      var prev := main;
      var rest := StripManagedBlock(template, prev);
      var next := Block(template, enabled) + rest;
      if !luck.canWrite { return Refused; }
      main := next;
      if template == TEMPLATE { RewrittenDecides(prev, enabled); }
      var good := valid(main);
      if good {
        good := luck.canReload;
        if good {
          loaded := main;
          var shown := sshdT(main);
          var got := SshAuth(None, None, None);
          if shown.Some? { got := Parse(shown.value); }
          good := got.password == Some(enabled);
        }
      }
      if good { return Applied; }
      if luck.canRestore { main := prev; }
      if luck.canReloadAgain { loaded := main; }
      e := if luck.canRestore then RolledBack else Stuck;
    }
  }

  datatype Toggle = Toggle(enabled: bool, ending: Ending)

  function FileAfter(t: Template, original: string, run: seq<Toggle>): string {
    if run == [] then original
    else
      var last, before := run[|run| - 1], FileAfter(t, original, run[..|run| - 1]);
      if Installs(last.ending) then Rewritten(t, before, last.enabled) else before
  }

  function Installed(run: seq<Toggle>): nat {
    if run == [] then 0
    else Installed(run[..|run| - 1]) + if Installs(run[|run| - 1].ending) then 1 else 0
  }

  function LastInstalled(run: seq<Toggle>): bool
    requires Installed(run) > 0
  {
    if Installs(run[|run| - 1].ending) then run[|run| - 1].enabled else LastInstalled(run[..|run| - 1])
  }

  function StripTimes(t: Template, text: string, n: nat): string {
    if n == 0 then text else Strip(t, StripTimes(t, text, n - 1))
  }

  function Expected(t: Template, original: string, run: seq<Toggle>): string {
    if Installed(run) == 0 then original
    else Block(t, LastInstalled(run)) + StripTimes(t, original, Installed(run))
  }

  lemma {:induction false} ExpectedStep(t: Template, original: string, run: seq<Toggle>)
    requires Sane(t) && run != []
    ensures
      var last, before := run[|run| - 1], run[..|run| - 1];
      Expected(t, original, run) ==
        if Installs(last.ending) then Block(t, last.enabled) + Strip(t, Expected(t, original, before))
        else Expected(t, original, before)
  {
    var last, before := run[|run| - 1], run[..|run| - 1];
    if !Installs(last.ending) {
      return;
    }
    assert StripTimes(t, original, Installed(run)) == Strip(t, StripTimes(t, original, Installed(before)));
    if Installed(before) > 0 {
      StripDropsBlock(t, LastInstalled(before), StripTimes(t, original, Installed(before)));
    }
  }

  /** Over any run the file is the original until a toggle is installed, and from then on one block,
      the last one, over the original stripped once per installed toggle. */
  lemma {:induction false} FileOverRuns(t: Template, original: string, run: seq<Toggle>)
    requires Sane(t)
    ensures FileAfter(t, original, run) == Expected(t, original, run)
  {
    if run != [] {
      FileOverRuns(t, original, run[..|run| - 1]);
      ExpectedStep(t, original, run);
    }
  }

  lemma {:induction false} StripTimesStable(t: Template, text: string, n: nat)
    requires n >= 1 && Strip(t, Strip(t, text)) == Strip(t, text)
    ensures StripTimes(t, text, n) == Strip(t, text)
  {
    if n > 1 {
      StripTimesStable(t, text, n - 1);
    } else {
      assert StripTimes(t, text, 0) == text;
    }
  }

  ghost predicate OneBlockOverOriginal(t: Template, original: string) {
    forall run | Installed(run) > 0 :: FileAfter(t, original, run) == Block(t, LastInstalled(run)) + Strip(t, original)
  }

  /** The file is the last block over the once-stripped original after every run, exactly when no kept
      line of the original ends in a CR. */
  lemma OneBlockOverOriginalIff(t: Template, original: string)
    requires Sane(t)
    ensures OneBlockOverOriginal(t, original) <==> forall l | l in Kept(t, original) :: !EndsInCr(l)
  {
    StripIdempotentIff(t, original);
    if Strip(t, Strip(t, original)) == Strip(t, original) {
      StableMeansOneBlock(t, original);
    } else {
      UnstableMeansDrift(t, original);
    }
  }

  lemma StableMeansOneBlock(t: Template, original: string)
    requires Sane(t) && Strip(t, Strip(t, original)) == Strip(t, original)
    ensures OneBlockOverOriginal(t, original)
  {
    forall run | Installed(run) > 0
      ensures FileAfter(t, original, run) == Block(t, LastInstalled(run)) + Strip(t, original)
    {
      FileOverRuns(t, original, run);
      StripTimesStable(t, original, Installed(run));
    }
  }

  lemma UnstableMeansDrift(t: Template, original: string)
    requires Sane(t) && Strip(t, Strip(t, original)) != Strip(t, original)
    ensures !OneBlockOverOriginal(t, original)
  {
    var on := Toggle(true, Applied);
    TwiceInstalled(on);
    FileOverRuns(t, original, [on, on]);
    TwoStrips(t, original);
    SamePrefix(Block(t, true), Strip(t, Strip(t, original)), Strip(t, original));
  }

  lemma SamePrefix(a: string, b: string, c: string)
    requires b != c
    ensures a + b != a + c
  {
    assert (a + b)[|a|..] == b && (a + c)[|a|..] == c;
  }

  lemma TwoStrips(t: Template, text: string)
    ensures StripTimes(t, text, 2) == Strip(t, Strip(t, text))
  {
    assert StripTimes(t, text, 1) == Strip(t, StripTimes(t, text, 0));
  }

  lemma TwiceInstalled(on: Toggle)
    requires on == Toggle(true, Applied)
    ensures Installed([on, on]) == 2 && LastInstalled([on, on])
  {
    assert [on, on][..1] == [on] && [on][..0] == [];
    assert Installed([on]) == 1;
  }

  function CountBegins(t: Template, lines: seq<string>): nat {
    if lines == [] then 0 else (if Begins(t, lines[0]) then 1 else 0) + CountBegins(t, lines[1..])
  }

  lemma {:induction false} CountBeginsAppend(t: Template, a: seq<string>, b: seq<string>)
    ensures CountBegins(t, a + b) == CountBegins(t, a) + CountBegins(t, b)
  {
    if a == [] {
      assert a + b == b;
    } else {
      assert (a + b)[1..] == a[1..] + b;
      CountBeginsAppend(t, a[1..], b);
    }
  }

  lemma {:induction false} NoBegins(t: Template, lines: seq<string>)
    requires forall l | l in lines :: !Begins(t, l)
    ensures CountBegins(t, lines) == 0
  {
    if lines != [] {
      assert forall l | l in lines[1..] :: l in lines;
      NoBegins(t, lines[1..]);
    }
  }

  /** Blocks never accumulate: once a toggle has been installed the file has exactly one, whatever the
      original held. */
  lemma {:induction false} ExactlyOneBlock(t: Template, original: string, run: seq<Toggle>)
    requires Sane(t) && Installed(run) > 0
    ensures CountBegins(t, Lines(FileAfter(t, original, run))) == 1
  {
    var n, enabled := Installed(run), LastInstalled(run);
    FileOverRuns(t, original, run);
    var rest := StripTimes(t, original, n);
    BlockLinesFacts(t, enabled);
    LinesBehind(BlockLines(t, enabled), rest);
    var k := Kept(t, StripTimes(t, original, n - 1));
    LinesOfUnlines(k);
    NoMarksLeft(t, k);
    NoBegins(t, Lines(rest));
    OneBegin(t, enabled);
    CountBeginsAppend(t, BlockLines(t, enabled), Lines(rest));
  }

  lemma OneBegin(t: Template, enabled: bool)
    requires Sane(t)
    ensures CountBegins(t, BlockLines(t, enabled)) == 1
  {
    BlockLinesFacts(t, enabled);
    var inner := [t.note] + t.Settings(enabled) + [t.end];
    NoBegins(t, inner);
    assert BlockLines(t, enabled)[1..] == inner;
  }

  /** Over any run, the last installed toggle decides whether passwords are taken, whatever else the file
      says about it. */
  lemma {:induction false} LastToggleDecides(original: string, run: seq<Toggle>, i: nat)
    requires i < |run| && Installs(run[i].ending) && forall j | i < j < |run| :: !Installs(run[j].ending)
    ensures Decides(Lines(FileAfter(TEMPLATE, original, run)), run[i].enabled)
  {
    var n := |run| - 1;
    if i < n {
      NotInstalledKeeps(TEMPLATE, original, run);
      LastToggleDecides(original, run[..n], i);
    } else {
      InstalledRewrites(TEMPLATE, original, run);
      RewrittenDecides(FileAfter(TEMPLATE, original, run[..n]), run[n].enabled);
    }
  }

  lemma NotInstalledKeeps(t: Template, original: string, run: seq<Toggle>)
    requires run != [] && !Installs(run[|run| - 1].ending)
    ensures FileAfter(t, original, run) == FileAfter(t, original, run[..|run| - 1])
  {
  }

  lemma InstalledRewrites(t: Template, original: string, run: seq<Toggle>)
    requires run != [] && Installs(run[|run| - 1].ending)
    ensures FileAfter(t, original, run) == Rewritten(t, FileAfter(t, original, run[..|run| - 1]), run[|run| - 1].enabled)
  {
  }

  /** In so many words: passwords are taken exactly if it turned them on. */
  lemma {:induction false} PasswordOnIff(original: string, run: seq<Toggle>, i: nat)
    requires i < |run| && Installs(run[i].ending) && forall j | i < j < |run| :: !Installs(run[j].ending)
    ensures
      FirstSetting(Lines(FileAfter(TEMPLATE, original, run)), "PasswordAuthentication") == Some("PasswordAuthentication yes") <==> run[i].enabled
  {
    LastToggleDecides(original, run, i);
    assert |"PasswordAuthentication yes"| != |"PasswordAuthentication no"|;
  }
}
