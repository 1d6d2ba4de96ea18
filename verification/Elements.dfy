/** The elements of the two allowlist sets in the kernel: when they end, how single edits change
    them. An element sits in the set of its family. */
module Elements {
  import opened Wrappers
  import opened Entries
  import opened Ruleset

  datatype Timed = Timed(target: Net, until: Option<Time>) {
    predicate Alive(now: Time) { until.Some? ==> now < until.value }
  }

  /** An edit that nft has carried out. */
  datatype Edit =
    | Put(target: Net, timeoutSecs: Option<nat>, at: Time)
    | Take(target: Net, at: Time)

  function Started(e: Element, at: Time): Timed {
    Timed(e.target, if e.timeoutSecs.Some? then Some(at + e.timeoutSecs.value * SECOND) else None)
  }

  function StartedAll(es: seq<Element>, at: Time): (r: seq<Timed>)
    ensures forall x :: x in r <==> exists e :: e in es && x == Started(e, at)
  {
    if es == [] then []
    else
      var init, last := es[..|es| - 1], es[|es| - 1];
      assert es == init + [last];
      StartedAll(init, at) + [Started(last, at)]
  }

  /** What a rebuild at `at` puts into the sets. */
  function Initial(entries: seq<Entry>, at: Time): seq<Timed> {
    StartedAll(LiveElements(entries, Ip4, at) + LiveElements(entries, Ip6, at), at)
  }

  function WithoutMask(els: seq<Timed>, m: Net): (r: seq<Timed>)
    ensures forall x :: x in r <==> x in els && Mask(x.target) != m
  {
    Filter(els, (x: Timed) => Mask(x.target) != m)
  }

  /** The kernel knows an element by its masked prefix. */
  function Edited(els: seq<Timed>, ed: Edit): seq<Timed> {
    match ed
    case Put(t, secs, at) => WithoutMask(els, Mask(t)) + [Started(Element(t, secs), at)]
    case Take(t, _) => WithoutMask(els, Mask(t))
  }

  function AllEdited(els: seq<Timed>, edits: seq<Edit>): seq<Timed> {
    if edits == [] then els else Edited(AllEdited(els, edits[..|edits| - 1]), edits[|edits| - 1])
  }

  predicate Lists(els: seq<Timed>, now: Time, a: Addr) {
    exists x | x in els :: x.target.Contains(a) && x.Alive(now)
  }

  // ---- Elements against entries ----

  /** The element a live entry is rendered to. */
  function ElementOf(e: Entry, at: Time): Timed {
    Started(ElementToken(e, at), at)
  }

  lemma {:induction false} LiveElementsMembers(entries: seq<Entry>, family: Family, now: Time)
    ensures forall el :: el in LiveElements(entries, family, now) <==>
      exists e :: e in entries && !e.IsExpired(now) && e.target.addr.family == family && el == ElementToken(e, now)
  {
    if entries != [] {
      var init, last := entries[..|entries| - 1], entries[|entries| - 1];
      LiveElementsMembers(init, family, now);
      assert entries == init + [last];
      assert forall e :: e in entries <==> e in init || e == last;
    }
  }

  /** A rebuild puts in exactly the elements of the live entries. */
  lemma InitialMembers(entries: seq<Entry>, at: Time)
    ensures forall x :: x in Initial(entries, at) <==> exists e :: e in entries && !e.IsExpired(at) && x == ElementOf(e, at)
  {
    LiveElementsMembers(entries, Ip4, at);
    LiveElementsMembers(entries, Ip6, at);
    forall e | e in entries && !e.IsExpired(at) ensures ElementOf(e, at) in Initial(entries, at) {
      assert e.target.addr.family == Ip4 || e.target.addr.family == Ip6;
      assert ElementToken(e, at) in LiveElements(entries, Ip4, at) + LiveElements(entries, Ip6, at);
    }
    forall x | x in Initial(entries, at) ensures exists e :: e in entries && !e.IsExpired(at) && x == ElementOf(e, at) {
      var el :| el in LiveElements(entries, Ip4, at) + LiveElements(entries, Ip6, at) && x == Started(el, at);
      assert el in LiveElements(entries, Ip4, at) || el in LiveElements(entries, Ip6, at);
    }
  }

  /** The element lives at least until a second before the entry expires. */
  predicate Outlasts(x: Timed, e: Entry) {
    x.until.Some? ==> e.expiresAt.Some? && e.expiresAt.value - SECOND < x.until.value
  }

  /** The element is gone a second after the entry has expired. */
  predicate EndsWith(x: Timed, e: Entry) {
    e.expiresAt.Some? ==> x.until.Some? && x.until.value < e.expiresAt.value + SECOND
  }

  /** Rounding to whole seconds, and the minimum of one, cost less than a second. */
  lemma ElementTracksEntry(e: Entry, at: Time)
    ensures ElementOf(e, at).target == e.target && Outlasts(ElementOf(e, at), e)
    ensures !e.IsExpired(at) ==> EndsWith(ElementOf(e, at), e)
  {
  }
}
