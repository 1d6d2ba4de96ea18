/** `nft/mod.rs`: the atomic backend and the fallback ladder that gives up optional features when
    nft rejects them. */
module Apply {
  import opened Wrappers
  import opened Entries
  import opened Ruleset
  import opened Elements

  /** The two optional features of a ruleset. */
  datatype Features = Features(knock: bool, gate: bool) {
    predicate SubsetOf(other: Features) { (knock ==> other.knock) && (gate ==> other.gate) }

    /** Position in the order of preference: both, the gate alone, the knock alone, neither. */
    function Rank(): nat {
      if gate then (if knock then 0 else 1) else (if knock then 2 else 3)
    }
  }

  const PLAIN: Features := Features(false, false)

  datatype Gate = Off | Active | Rejected(reason: string)

  datatype Applied = Applied(gate: Gate, knock: Gate) {
    function Granted(): Features { Features(knock.Active?, gate.Active?) }
  }

  function Wanted(cfg: RulesetConfig): Features {
    Features(cfg.Knock().Some?, cfg.forwardAllowlistOnly)
  }

  /** `cfg` with only the given features left in. */
  function WithFeatures(cfg: RulesetConfig, f: Features): RulesetConfig {
    cfg.(forwardAllowlistOnly := f.gate, sshKnock := if f.knock then cfg.sshKnock else None)
  }

  /** What the table in the kernel was rendered from, which determines it (`Ruleset.RenderedUnique`),
      and the single-element edits carried out since. */
  datatype Installed = Installed(cfg: RulesetConfig, entries: seq<Entry>, builtAt: Time, edits: seq<Edit>) {
    function Elements(): seq<Timed> { AllEdited(Initial(entries, builtAt), edits) }
  }

  /** One call of the backend: which features it carried and nft's complaint, if any. */
  datatype Attempt = Attempt(features: Features, failure: Option<string>)

  /** nft's complaint about each feature set, `None` where it accepts. */
  type Answers = Features -> Option<string>

  /** The kernel behind `nft -f`. Whether it accepts a call is an input, arbitrary for every call; a rejected
      transaction changes nothing. */
  class Backend {
    var installed: Option<Installed>
    ghost var log: seq<Attempt>

    constructor ()
      ensures installed == None && log == []
    {
      installed := None;
      log := [];
    }

    method Apply(cfg: RulesetConfig, entries: seq<Entry>, now: Time, answers: Answers) returns (failure: Option<string>)
      modifies this
      ensures failure == answers(Wanted(cfg))
      ensures log == old(log) + [Attempt(Wanted(cfg), failure)]
      ensures installed == if failure.Some? then old(installed) else Some(Installed(cfg, entries, now, []))
    {
      failure := answers(Wanted(cfg));
      if !failure.Some? {
        installed := Some(Installed(cfg, entries, now, []));
      }
      log := log + [Attempt(Wanted(cfg), failure)];
    }

    /** The element of one entry. nft may also accept without taking it, because it keeps an older element
        of the same prefix. */
    method Add(e: Entry, now: Time, accepts: bool, takes: bool) returns (put: bool)
      modifies this`installed
      ensures put == (accepts && takes && old(installed).Some?)
      ensures installed == if put then Some(WithEdit(old(installed).value, PutEdit(e, now))) else old(installed)
    {
      put := accepts && takes && installed.Some?;
      if put { installed := Some(WithEdit(installed.value, PutEdit(e, now))); }
    }

    method Remove(target: Net, now: Time, accepts: bool) returns (taken: bool)
      modifies this`installed
      ensures taken == (accepts && old(installed).Some?)
      ensures installed == if taken then Some(WithEdit(old(installed).value, Take(target, now))) else old(installed)
    {
      taken := accepts && installed.Some?;
      if taken { installed := Some(WithEdit(installed.value, Take(target, now))); }
    }
  }

  function PutEdit(e: Entry, now: Time): Edit {
    Put(e.target, ElementToken(e, now).timeoutSecs, now)
  }

  function WithEdit(i: Installed, ed: Edit): Installed {
    i.(edits := i.edits + [ed])
  }

  lemma EditedElements(i: Installed, ed: Edit)
    ensures WithEdit(i, ed).Elements() == Edited(i.Elements(), ed)
  {
    assert (i.edits + [ed])[..|i.edits|] == i.edits;
  }

  /** From the most preferred to the least, each at most once. */
  ghost predicate Descending(attempts: seq<Attempt>) {
    forall i, j | 0 <= i < j < |attempts| :: attempts[i].features.Rank() < attempts[j].features.Rank()
  }

  ghost predicate TriedAndFailed(attempts: seq<Attempt>, f: Features) {
    exists i | 0 <= i < |attempts| :: attempts[i].features == f && attempts[i].failure.Some?
  }

  function Label(want: bool, got: bool, reason: string): Gate {
    if !want then Off else if got then Active else Rejected(reason)
  }

  /** How one climb down the ladder may end: the calls it made, the labels it reports. */
  ghost predicate LadderEnds(want: Features, attempts: seq<Attempt>, r: Result<Applied, string>) {
    && 1 <= |attempts| <= 4
    && Descending(attempts)
    && (forall i | 0 <= i < |attempts| :: attempts[i].features.SubsetOf(want))
    && (forall i | 0 <= i < |attempts| - 1 :: attempts[i].failure.Some?)
    && var last := attempts[|attempts| - 1];
       var reason := if attempts[0].failure.Some? then attempts[0].failure.value else "";
       match r
       case Err(e) =>
         // every combination was refused, the plain ruleset last; the last complaint is returned
         && last == Attempt(PLAIN, Some(e))
         && (forall f: Features | f.SubsetOf(want) :: TriedAndFailed(attempts, f))
       case Ok(applied) =>
         && last == Attempt(applied.Granted(), None)
         && applied.gate == Label(want.gate, last.features.gate, reason)
         && applied.knock == Label(want.knock, last.features.knock, reason)
         // everything preferable to the outcome was tried and refused
         && (forall f: Features | f.SubsetOf(want) && f.Rank() < last.features.Rank() :: TriedAndFailed(attempts, f))
  }

  function FeaturesTried(attempts: seq<Attempt>): (fs: seq<Features>)
    ensures |fs| == |attempts|
    ensures forall j | 0 <= j < |attempts| :: fs[j] == attempts[j].features
  {
    seq(|attempts|, j requires 0 <= j < |attempts| => attempts[j].features)
  }

  lemma TriedAppend(attempts: seq<Attempt>, a: Attempt)
    ensures FeaturesTried(attempts + [a]) == FeaturesTried(attempts) + [a.features]
  {
  }

  /** A ladder that has refused the plain ruleset and goes on wants nothing else. */
  ghost predicate PlainOnlyAlone(want: Features, attempts: seq<Attempt>) {
    && (PLAIN in FeaturesTried(attempts) ==> want == PLAIN)
    && (want == PLAIN ==> |attempts| <= 1)
  }

  lemma PlainStaysAlone(want: Features, i: nat, attempts: seq<Attempt>, failure: Option<string>)
    requires i < 4 && Climbing(want, i, attempts) && PlainOnlyAlone(want, attempts)
    requires Candidates(want)[i] !in FeaturesTried(attempts)
    requires attempts == [] || Candidates(want)[i] != PLAIN
    ensures PlainOnlyAlone(want, attempts + [Attempt(Candidates(want)[i], failure)])
  {
    TriedAppend(attempts, Attempt(Candidates(want)[i], failure));
  }

  lemma PlainTried(want: Features, attempts: seq<Attempt>)
    requires Climbing(want, 4, attempts)
    requires PlainOnlyAlone(want, attempts)
    ensures |attempts| == 1 && attempts[0].features == PLAIN
  {
    assert TriedAndFailed(attempts, Candidates(want)[3]);
    assert PLAIN in FeaturesTried(attempts);
  }

  /** The candidates in the order the source lists them; duplicates are skipped when tried. */
  function Candidates(want: Features): (cs: seq<Features>)
    ensures |cs| == 4
  {
    [want, Features(false, want.gate), Features(want.knock, false), PLAIN]
  }

  /** The first `i` candidates have been tried, each once, and all were refused. */
  ghost predicate Climbing(want: Features, i: nat, attempts: seq<Attempt>) {
    && |attempts| <= i <= 4
    && (i > 0 ==> attempts != [])
    && Descending(attempts)
    && (forall j | 0 <= j < |attempts| :: attempts[j].failure.Some? && attempts[j].features in Candidates(want)[..i])
    && (forall j | 0 <= j < i :: TriedAndFailed(attempts, Candidates(want)[j]))
  }

  lemma FailedStays(attempts: seq<Attempt>, a: Attempt, f: Features)
    requires TriedAndFailed(attempts, f)
    ensures TriedAndFailed(attempts + [a], f)
  {
    var k :| 0 <= k < |attempts| && attempts[k].features == f && attempts[k].failure.Some?;
    assert (attempts + [a])[k] == attempts[k];
  }

  /** A candidate not tried so far is less preferred than all that were. */
  lemma NextRanksBelow(want: Features, i: nat, attempts: seq<Attempt>)
    requires i < 4 && Climbing(want, i, attempts)
    requires Candidates(want)[i] !in FeaturesTried(attempts)
    ensures forall j | 0 <= j < |attempts| :: attempts[j].features.Rank() < Candidates(want)[i].Rank()
  {
    var cs := Candidates(want);
    forall j | 0 <= j < |attempts| ensures attempts[j].features.Rank() < cs[i].Rank() {
      var k :| 0 <= k < i && cs[k] == attempts[j].features;
      assert attempts[j].features == FeaturesTried(attempts)[j];
    }
  }

  lemma ClimbSkip(want: Features, i: nat, attempts: seq<Attempt>)
    requires i < 4 && Climbing(want, i, attempts)
    requires Candidates(want)[i] in FeaturesTried(attempts)
    ensures Climbing(want, i + 1, attempts)
  {
    var cs := Candidates(want);
    assert forall f | f in cs[..i] :: f in cs[..i + 1];
  }

  lemma ClimbRefused(want: Features, i: nat, attempts: seq<Attempt>, e: string)
    requires i < 4 && Climbing(want, i, attempts)
    requires Candidates(want)[i] !in FeaturesTried(attempts)
    ensures Climbing(want, i + 1, attempts + [Attempt(Candidates(want)[i], Some(e))])
  {
    var cs := Candidates(want);
    var a := Attempt(cs[i], Some(e));
    NextRanksBelow(want, i, attempts);
    assert forall f | f in cs[..i] :: f in cs[..i + 1];
    assert cs[i] in cs[..i + 1];
    forall j | 0 <= j < i + 1 ensures TriedAndFailed(attempts + [a], cs[j]) {
      if j < i {
        FailedStays(attempts, a, cs[j]);
      } else {
        assert (attempts + [a])[|attempts|] == a;
      }
    }
  }

  lemma PreferredComesFirst(want: Features, i: nat, f: Features)
    requires i < 4 && f.SubsetOf(want) && f.Rank() < Candidates(want)[i].Rank()
    ensures exists j | 0 <= j < i :: Candidates(want)[j] == f
  {
    var cs := Candidates(want);
    var j := if f == cs[0] then 0 else if f == cs[1] then 1 else if f == cs[2] then 2 else 3;
    assert cs[j] == f && j < i;
  }

  lemma ClimbAccepted(want: Features, i: nat, attempts: seq<Attempt>, r: Result<Applied, string>)
    requires i < 4 && Climbing(want, i, attempts)
    requires
      var got := Candidates(want)[i];
      var reason := if attempts != [] then attempts[0].failure.value else "";
      && got !in FeaturesTried(attempts)
      && r == Ok(Applied(Label(want.gate, got.gate, reason), Label(want.knock, got.knock, reason)))
    ensures LadderEnds(want, attempts + [Attempt(Candidates(want)[i], None)], r)
  {
    var cs := Candidates(want);
    var got := cs[i];
    var a := Attempt(got, None);
    NextRanksBelow(want, i, attempts);
    assert r.value.Granted() == got;
    forall f: Features | f.SubsetOf(want) && f.Rank() < got.Rank() ensures TriedAndFailed(attempts + [a], f) {
      PreferredComesFirst(want, i, f);
      var j :| 0 <= j < i && cs[j] == f;
      FailedStays(attempts, a, f);
    }
  }

  lemma ClimbExhausted(want: Features, i: nat, attempts: seq<Attempt>)
    requires Climbing(want, i, attempts) && attempts != []
    requires attempts[|attempts| - 1].features == PLAIN
    ensures LadderEnds(want, attempts, Err(attempts[|attempts| - 1].failure.value))
  {
    var cs := Candidates(want);
    forall f: Features | f.SubsetOf(want) ensures TriedAndFailed(attempts, f) {
      if f == PLAIN {
        assert attempts[|attempts| - 1].features == f;
      } else {
        var k :| 0 <= k < i && cs[k] == PLAIN;
        PreferredComesFirst(want, k, f);
        assert exists j | 0 <= j < k :: cs[j] == f;
      }
    }
  }

  /** One candidate: the features given are the features the backend sees. */
  method Try(backend: Backend, cfg: RulesetConfig, f: Features, entries: seq<Entry>, now: Time, answers: Answers)
    returns (failure: Option<string>)
    requires f.SubsetOf(Wanted(cfg))
    modifies backend
    ensures failure == answers(f)
    ensures backend.log == old(backend.log) + [Attempt(f, failure)]
    ensures backend.installed ==
      if failure.Some? then old(backend.installed) else Some(Installed(WithFeatures(cfg, f), entries, now, []))
  {
    failure := backend.Apply(WithFeatures(cfg, f), entries, now, answers);
  }

  /** `apply_ruleset`. The ghost result lists the calls it made. */
  method ApplyRuleset(backend: Backend, cfg: RulesetConfig, entries: seq<Entry>, now: Time, answers: Answers)
    returns (r: Result<Applied, string>, ghost attempts: seq<Attempt>)
    modifies backend
    ensures backend.log == old(backend.log) + attempts
    ensures LadderEnds(Wanted(cfg), attempts, r) && AnsweredBy(attempts, answers)
    ensures backend.installed ==
      if r.Err? then old(backend.installed)
      else Some(Installed(WithFeatures(cfg, r.value.Granted()), entries, now, []))
  {
    var want := Wanted(cfg);
    var tried: seq<Features> := [];
    var firstErr: Option<string> := None;
    attempts := [];
    var i := 0;
    while i < 4
      invariant 0 <= i <= 4
      invariant backend.log == old(backend.log) + attempts
      invariant backend.installed == old(backend.installed)
      invariant tried == FeaturesTried(attempts)
      invariant Climbing(want, i, attempts)
      invariant firstErr == if attempts == [] then None else attempts[0].failure
      invariant PlainOnlyAlone(want, attempts) && AnsweredBy(attempts, answers)
    {
      var cand := Candidates(want)[i];
      if cand !in tried {
        var failure := Try(backend, cfg, cand, entries, now, answers);
        ghost var before := attempts;
        attempts := attempts + [Attempt(cand, failure)];
        TriedAppend(before, Attempt(cand, failure));
        Regroup(old(backend.log), before, [Attempt(cand, failure)]);
        if !failure.Some? {
          var reason := if firstErr.Some? then firstErr.value else "";
          r := Ok(Applied(Label(want.gate, cand.gate, reason), Label(want.knock, cand.knock, reason)));
          ClimbAccepted(want, i, before, r);
          return;
        }
        ClimbRefused(want, i, before, failure.value);
        if firstErr.Some? && cand == PLAIN {
          ClimbExhausted(want, i + 1, attempts);
          r := Err(failure.value);
          return;
        }
        PlainStaysAlone(want, i, before, failure);
        tried := tried + [cand];
        firstErr := if firstErr.Some? then firstErr else failure;
      } else {
        ClimbSkip(want, i, attempts);
      }
      i := i + 1;
    }
    // Only a ladder of the plain ruleset alone falls out of the loop, so `firstErr` is always there.
    PlainTried(want, attempts);
    ClimbExhausted(want, 4, attempts);
    r := Err(firstErr.value);
  }

  // ---- The same ladder as a function of nft's answers ----

  /** The most preferred accepted part of what is wanted. */
  function BestAccepted(want: Features, answers: Answers): Option<Features> {
    if answers(want).None? then Some(want)
    else if answers(Features(false, want.gate)).None? then Some(Features(false, want.gate))
    else if answers(Features(want.knock, false)).None? then Some(Features(want.knock, false))
    else if answers(PLAIN).None? then Some(PLAIN)
    else None
  }

  function Ladder(want: Features, answers: Answers): Result<Applied, string> {
    match BestAccepted(want, answers)
    case None => Err(answers(PLAIN).value)
    case Some(got) =>
      var reason := if answers(want).Some? then answers(want).value else "";
      Ok(Applied(Label(want.gate, got.gate, reason), Label(want.knock, got.knock, reason)))
  }

  ghost predicate AnsweredBy(attempts: seq<Attempt>, answers: Answers) {
    forall i | 0 <= i < |attempts| :: attempts[i].failure == answers(attempts[i].features)
  }

  lemma FirstIsWanted(want: Features, attempts: seq<Attempt>, r: Result<Applied, string>)
    requires LadderEnds(want, attempts, r)
    ensures attempts[0].features == want
  {
    var last := attempts[|attempts| - 1];
    if last.features == want {
      if |attempts| > 1 { assert attempts[0].features.SubsetOf(want); }
    } else {
      assert TriedAndFailed(attempts, want);
      var i :| 0 <= i < |attempts| && attempts[i].features == want && attempts[i].failure.Some?;
      if i > 0 { assert attempts[0].features.SubsetOf(want); }
    }
  }

  /** However nft answers, the climb ends where the function says. */
  lemma LadderIsFunction(want: Features, attempts: seq<Attempt>, r: Result<Applied, string>, answers: Answers)
    requires LadderEnds(want, attempts, r) && AnsweredBy(attempts, answers)
    ensures r == Ladder(want, answers)
  {
    FirstIsWanted(want, attempts, r);
    forall f: Features | TriedAndFailed(attempts, f) ensures answers(f).Some? {}
  }

  /** The outcome is one that some nft brings about. */
  ghost predicate Possible(want: Features, r: Result<Applied, string>) {
    exists answers: Answers :: r == Ladder(want, answers)
  }

  lemma LadderIsPossible(want: Features, answers: Answers)
    ensures Possible(want, Ladder(want, answers))
  {
  }

  lemma EndsArePossible(want: Features, attempts: seq<Attempt>, r: Result<Applied, string>)
    requires LadderEnds(want, attempts, r)
    ensures Possible(want, r)
  {
    var answers: Answers := f =>
      if exists i | 0 <= i < |attempts| :: attempts[i].features == f && attempts[i].failure.Some?
      then (var i :| 0 <= i < |attempts| && attempts[i].features == f && attempts[i].failure.Some?; attempts[i].failure)
      else None;
    forall i | 0 <= i < |attempts| ensures attempts[i].failure == answers(attempts[i].features) {
      forall j | 0 <= j < |attempts| && attempts[j].features == attempts[i].features ensures i == j {}
    }
    LadderIsFunction(want, attempts, r, answers);
  }
}
