# A verified model of ipgate

ipgate turns a host into one with a default-drop firewall that opens only to an allowlist, and lets
paired devices change that allowlist over an encrypted channel. This project models the logic of its
agent (and of the small `ipecho` service) in Dafny and proves what that logic is for.

`dafny verify dfyconfig.toml` checks the whole project.

## How it is organised

| layer | modules |
|---|---|
| shared | `Wrappers` (results, filtering), `Text` (lines, words, trimming, splitting, decimals), `Entries` (addresses, prefixes, expiry), `Ports` (ranges and their merge) |
| firewall | `Ruleset` (settings and entries to one table of rules), `Elements` (the elements of the allowlist sets and single edits of them), `Packets` (first-match evaluation over runs of packets, ticks, rebuilds and edits, against a policy that mentions no rules), `ForwardGate` |
| settings | `Apply` (the ladder of candidates), `Settings` (every handler of the settings and of the list, the start of the service and the rescue commands, as functions of the answers of nft and the disk), `SshRestriction` (from the stored setting and list to the packet, end to end) |
| reconcile | `Reconcile` (snapshot, list and repair as separate steps among RPCs and rebuilds), `NftParse` (reading a set back) |
| forwards | `Forwards` (resolver, cache, commit), `Nat` (rules and translation), `ForwardApi` (checks of the handlers), `DnatConf` (the dnat tool's file as text), `Migration` |
| channel | `Noise` (framing), `Connections` (slots and revocation), `RateLimit` |
| rest | `Sshd` (managed block), `ClientIp` (X-Forwarded-For) |

Code that changes state in the source is a class or a method with a loop, tied by its contract to a
function of the old state; the theorems are about those functions and about runs of steps. Whatever
the agent cannot control is an input, and arbitrary: nft's answers, file writes, DNS, the dnat tool, the peer's bytes,
the order of steps. Time is an integer.

The central results:

- for every run of packets, ticks, rebuilds and single edits the verdict on a packet is the policy's; a
  source is in a knock set iff it knocked correctly within 60 s and since the last rebuild, and on the list
  iff an element put in since then stands and is not over;
- with the restriction stored, the stored list decides: a packet opening SSH is accepted if it comes from
  loopback, from a source that has knocked or from an address of a stored entry, and only then, up to a
  second around an expiry and to prefixes with a kernel edit under way, refused or without effect. No
  sequence of handlers, list edits, repairs, starts, crashes, rescue commands and rejected tables leads out
  of the invariant this rests on;
- the ladder ends in the most preferred feature set nft accepts, is a function of nft's answers and reports
  truthfully;
- an undisturbed target converges under every interleaving of a reconcile round with RPCs and rebuilds, and
  for one RPC on the target itself, with rebuilds interleaved too, the race is lost exactly under a stated
  condition, which without rebuilds is an order of four steps;
- until the dnat tool applies the shortened file, and at every error exit, a migration leaves no port of the
  rule untranslated, whatever the resolver and other handlers do in between. Nor does it after that, as long
  as nobody touches the new forward and no tick meets a forbidden answer or an interface without an address;
  in general a port no other dnat rule claims is then translated iff the last commit found a forward for it
  stored and resolvable;
- a forward with a permitted cached address is in every table committed from the first one on, also after a
  reboot, as long as it is neither removed nor replaced, its host is not edited, each DNS answer is absent or
  permitted and its interface keeps an address; and no forbidden target is ever committed, without any such
  condition;
- removing a key from the dnat tool's text removes exactly its rules;
- Noise framing is lossless for every sequence of messages up to 1 MiB, bounded against any peer, and takes
  nothing from the stream but the frames of one message;
- what a revoke has removed from the state file stays away through every run until it is allowed again;
- after every run of toggles the last installed one decides whether sshd takes passwords.

## Where the code does less than it seems to

These are proved as lemmas: a concrete run that fails, and the exact condition where there is one.

- Host bits: `Store::allow` keeps them and the diff compares verbatim, so an entry with host bits is added
  in one round and removed in the next (`Reconcile.HostBitsFlap`). A quiet round agrees from every kernel
  set iff no stored target has host bits (`Reconcile.QuietRoundConvergesIff`).
- A target allowed between a round's snapshot and its list loses its element until a later round, and a
  target revoked there is put back and let in again (`Reconcile.RaceRemovesAllowed`,
  `Reconcile.RaceRestoresRevoked`), and a rebuild in the middle can bring that about where the order of the
  RPC and the round alone would not (`Reconcile.RebuildLosesRace`). `Reconcile.RaceLostIff` is the exact
  condition.
- The withdrawal of a migrated rule does not look again whether the new forward is still alive. If a tick of
  the resolver after the liveness check finds its answer forbidden or its interface without an address, or
  another handler removes it, the rule's ports are left untranslated once the tool has applied
  (`Migration.UnresolvedTickGaps`, `Migration.RemovalGaps`, and `Migration.RebindingGap` for one concrete rule).
  `Migration.WithdrawnTranslatedIff` is the exact condition.
- Allowing a target again with another expiry changes the store; where nft accepts the element without effect,
  the kernel keeps the old expiry, which a reconcile round, comparing targets only, does not see
  (`Settings.LongerWithoutEffect`, `Settings.ShorterWithoutEffect`). `Settings.AllowTakesEffectIff` is the exact
  condition.
- A rollback that nft refuses leaves the kernel stricter than the store: `SshRestriction.StricterIff` says
  when, `SshRestriction.FailedRollbackIsStricter` that it happens.
- Allowing an entry that has already expired puts its address into the kernel for one second
  (`Elements.ElementTracksEntry`, `Ruleset.TimeoutSecs`).
- The periodic resolver compares with the hash of its own last commit only, so a removal whose commit nft
  refused is never repaired (`Forwards.SkipKeepsRemovedForward`); `Forwards.TickFreshIff` is the exact
  condition over runs.
- Resolving and committing take the lock separately: an edit of the host in between is answered with the old
  address (`Forwards.SplitCommitRevivesOldTarget`), exactly when the host is no longer the one of the
  snapshot (`Forwards.SplitCommitFitsIff`). Everywhere else the two are one step.
- Adding a forward replaces one on the same ports but does not notice an overlap; the older forward keeps the
  shared ports (`ForwardApi.AddedDecidesIff`).
- Stripping the managed block is idempotent iff no kept line ends in a CR, which an unterminated last line
  with a single CR already does (`Sshd.StripIdempotentIff`, `Sshd.UnterminatedCr`).
- The limiter's `u32` counter wraps in a release build: a call is granted iff the number of calls in its
  window is within the maximum modulo 2^32 (`RateLimit.GrantedIff`).
- `parse_nft_duration` ignores digits behind the last unit and wraps beyond an `i64`
  (`NftParse.DurationExactIff`).
- With fewer non-blank proxy entries than trusted proxies the client's own text decides
  (`ClientIp.Forged`, `ClientIp.IndependentIff`).

## Model

| member | source | states |
|---|---|---|
| Ports.OverlapsIffSharedPort | proto/src/ruleset.rs:91-100 | two valid ranges overlap iff they share a port |
| Ports.MergePorts | agent/src/nft/ruleset.rs:50-63 | the merged ranges cover the same ports, are sorted and leave a port between neighbours; the width of the comparison never overflows |
| Ports.CanonicalUnique | agent/src/nft/ruleset.rs:50-63 | the merged list depends on nothing but the set of covered ports |
| Ports.CanonicalFewest | agent/src/nft/ruleset.rs:50-63 | no list with the same cover is shorter |
| Ruleset.TimeoutSecs | agent/src/nft/ruleset.rs:39-47 | an element's timeout is within a second of the entry's expiry, and at least one second, also for an entry that has expired |
| Ruleset.RenderApply | agent/src/nft/ruleset.rs:91-194 | the table: elements by family, merged ports, knock sets only with knock rules, rules in order, optional gate |
| Ruleset.RenderedUnique | agent/src/nft/ruleset.rs:91-194 | settings, entries and instant determine the table |
| Elements.InitialMembers | agent/src/nft/ruleset.rs:95-106 | a rebuild puts in exactly the elements of the live entries of both families |
| Elements.ElementTracksEntry | agent/src/nft/ruleset.rs:39-47 | an element lasts until less than a second before its entry expires, and ends less than a second after |
| Entries.MaskContains | agent/src/nft/ruleset.rs:221-242 | masking a prefix, as the kernel does, changes no membership |
| Entries.ContainsMeans | agent/src/nft/ruleset.rs:186-187 | a prefix contains only addresses of its family; one of whole bytes, or a /64, those with the same quotient |
| Entries.ShorterByOne | agent/src/nft/ruleset.rs:186-187 | a prefix shorter by one bit contains those that agree after one more halving, and all that the longer one does |
| Entries.ValidMeans | agent/src/nft/ruleset.rs:95-106 | a valid prefix has 32 or 128 bits and a length of at most as many |
| Packets.ElementsAreLiveEntries | agent/src/nft/ruleset.rs:95-106 | as a rebuild leaves the sets, an address is in its set iff an entry live then contains it and its element is not over |
| Packets.ChainImplementsPolicy | agent/src/nft/ruleset.rs:134-188 | first-match over the chain is the access policy, and only a correct knock that gets that far writes a knock set |
| Packets.KnockSetsExact | agent/src/nft/ruleset.rs:128-162 | over every run, a source is in its knock set iff it knocked within 60 s and since the last rebuild |
| Packets.ElementsExact | agent/src/nft/ruleset.rs:221-242 | over every run, the sets hold exactly the elements put in since the last rebuild that no later edit of their prefix has displaced |
| Packets.ListExact | agent/src/nft/ruleset.rs:186-187 | over every run, a source is in its allowlist set iff such an element contains it and is not over |
| Packets.ElementsFromEdits | agent/src/nft/ruleset.rs:221-242 | the sets are those of the last rebuild with the edits since applied in order |
| Packets.VerdictsExact | agent/src/nft/ruleset.rs:91-242 | over every run of packets, ticks, rebuilds and single edits, every verdict is the policy of the last rebuild, the list and the knocks since |
| Packets.PingNeedsListing | agent/src/nft/ruleset.rs:139-148 | a new ping from outside is accepted iff its source is on the list |
| Packets.ListedTracksExpiry | agent/src/nft/ruleset.rs:39-47 | listing never misses an entry's expiry by a whole second in either direction |
| ForwardGate.GateFirstMatch | agent/src/nft/ruleset.rs:203-219 | the gate passes replies and listed sources, then leaves it to the public ports and the drop |
| ForwardGate.GateComposition | agent/src/nft/ruleset.rs:196-219 | among arbitrary other chains, what passes is what passes without the gate minus unlisted new DNATed connections to non-public original ports |
| ForwardGate.GateOverRuns | agent/src/nft/ruleset.rs:196-219 | the same over every run, with the list as packets find it |
| ForwardGate.GateLeavesInputAlone | agent/src/nft/ruleset.rs:189-191 | rendering the gate changes no input verdict and no knock write |
| Apply.Backend.Apply | agent/src/nft/mod.rs:26-28 | accepted or rejected as nft answers for the features; a rejected transaction changes nothing |
| Apply.Try | agent/src/nft/mod.rs:104-110 | a candidate reaches nft with exactly its features |
| Apply.ApplyRuleset | agent/src/nft/mod.rs:81-137 | at most four candidates from the most to the least preferred; nothing committed on an error and one table on success; only gate and knock dropped; the most preferred accepted set; truthful labels; the last complaint on total refusal, never the unreachable failure; every call is answered as nft does |
| Apply.LadderIsFunction | agent/src/nft/mod.rs:97-136 | however nft answers, the outcome is a function of its answers: the best accepted set, or the last complaint |
| Apply.EndsArePossible | agent/src/nft/mod.rs:97-136 | every outcome is one that some answers bring about |
| Apply.Backend.Add | agent/src/nft/cli.rs:88-94 | an element is put in iff nft accepts and takes it and there is a table; nothing else changes |
| Settings.BuildRuleset | agent/src/config.rs:112-131 | the ruleset: config ranges followed by the client's ranges of that protocol |
| Settings.Validate | agent/src/config.rs:95-108 | accepted iff both ports are non-zero and every configured range is valid |
| Settings.RulesetIsValid | agent/src/config.rs:95-131 | from a validated config and safe settings every rung of the ladder is a ruleset the compiler accepts |
| Settings.GuardMeansRuleset | agent/src/config.rs:134-143 | the guard finds a range iff the ruleset's public TCP ports contain the SSH port |
| Settings.RangesForCovers | agent/src/config.rs:115-122 | a protocol's ranges cover a port iff a client range for that protocol does |
| Settings.Agent.Reapply | agent/src/api/handlers.rs:113-118 | refused: nothing changes; committed: the kernel holds that ruleset with the granted features and the present entries, and they are what is reported; the outcome is the ladder's function of nft's answers |
| Settings.Agent.SetSshExposure | agent/src/api/handlers.rs:125-168 | state and answer as a function of the answers of nft to the two calls and of the disk |
| SshRestriction.ToggleTells | agent/src/api/handlers.rs:125-168 | its own refusal changes nothing; a refusal by nft keeps every setting; success stores and installs the same |
| SshRestriction.RefusedMeans | agent/src/api/handlers.rs:129-154 | it refuses iff nobody would be left on the list or a public range opens the port |
| Settings.Agent.SetForwardExposure | agent/src/api/handlers.rs:254-270 | likewise for the gate, which is left off when it is rejected |
| Settings.Agent.AddPublicPort | agent/src/api/handlers.rs:189-218 | likewise: exact refusals; an existing range only gets its note, without touching the kernel; a new one is installed and stored |
| Settings.Agent.RemovePublicPort | agent/src/api/handlers.rs:221-246 | likewise: not found iff no such range; otherwise installed and stored without it |
| Settings.Agent.StoreAllow | agent/src/store.rs:148-161 | the entry replaces one on the same target, in memory and, if saved, on disk |
| Settings.Agent.KernelAdd | agent/src/api/handlers.rs:41-43 | the element is put in iff nft accepts and takes it, else nothing changes |
| Settings.Agent.Allow | agent/src/api/handlers.rs:32-45 | answer and state as a function of the disk and of nft: the store step and then, if it was saved, the kernel step; the entry is the only one on its target; unless refused, without effect, expired or sharing its prefix it is settled; no other entry and no other prefix is affected |
| Settings.Agent.StoreRevoke | agent/src/store.rs:197-206 | found iff an entry has the target; then it is gone from memory, and from the file if saved |
| Settings.Agent.KernelRemove | agent/src/api/handlers.rs:63-65 | the element of the prefix is taken out iff nft accepts, else nothing changes |
| Settings.Agent.Revoke | agent/src/api/handlers.rs:47-67 | answer and state as a function of the disk and of nft; not found iff no entry has the target; exactly the entries on it go, from the file too unless saving failed, which leaves the file; success leaves nothing of the prefix in the kernel unless another entry shares it |
| Settings.Agent.Prune | agent/src/store.rs:288-302 | exactly the expired entries go; the kernel is not touched |
| Settings.Agent.FallbackRebuild | agent/src/main.rs:780-787 | as nft answers, either nothing or a rebuild of the current settings that changes nothing else |
| Settings.Agent.Start | agent/src/main.rs:679-689 | serves iff the whole table was committed for the stored settings and the unexpired entries of the file |
| Settings.Agent.SshExposeCli | agent/src/main.rs:793-829 | file, kernel and answer as a function of nft's answers and of the disk, for every refusal too |
| Settings.Agent.ForwardExposeCli | agent/src/main.rs:832-856 | likewise for the gate |
| Settings.CommittedSetsAgree | agent/src/nft/mod.rs:26-28 | after a committed table every live entry has its element and every element its entry, for the same time up to a second |
| Settings.CommittedKeeps | agent/src/nft/mod.rs:69-74 | a rebuild for safe settings that become the store's makes kernel, store and report agree |
| Settings.GateToggleTells | agent/src/api/handlers.rs:254-270 | a refusal by nft keeps every stored setting, and either nothing changes or the gate that was asked for is off in kernel and report; success, or a failed save, leaves kernel and settings at what was asked for |
| Settings.PortAddedTells | agent/src/api/handlers.rs:189-218 | a refusal, by nft too, changes nothing; else the range is stored beside all others, and a table installed for it opens exactly what config, old ranges and the new one open |
| Settings.PortRefusedIff | agent/src/api/handlers.rs:189-211 | a range is refused iff it starts at 0, is reversed, or is a new one for TCP that contains a restricted SSH port |
| Settings.PortRemovedTells | agent/src/api/handlers.rs:221-246 | a refusal, by nft too, changes nothing, and it is not found iff no client range is that one; else the stored ranges are all the others, as often as before and in their old order, and the table opens exactly what the config and those open |
| Settings.AllowTakesEffectIff | agent/src/api/handlers.rs:32-45 | the kernel's element lasts as long as the entry iff it was put and the entry has not expired, or, without effect, iff the element before happened to; the prefix is settled iff besides no other entry shares it |
| Settings.LongerWithoutEffect | agent/src/nft/cli.rs:88-94 | allowed again for longer, without effect, a target leaves the kernel while its entry lives |
| Settings.ShorterWithoutEffect | agent/src/nft/cli.rs:88-94 | allowed again for a shorter time, without effect, it stays after its entry has expired |
| Settings.SshToggleKeeps | agent/src/api/handlers.rs:125-168 | every outcome of the toggle keeps kernel, store and report in the stated agreement |
| Settings.ForwardToggleKeeps | agent/src/api/handlers.rs:254-270 | likewise |
| Settings.PortAddedKeeps | agent/src/api/handlers.rs:189-218 | adding a port keeps it and never opens a restricted SSH port |
| Settings.PortRemovedKeeps | agent/src/api/handlers.rs:221-246 | likewise |
| Settings.ElementAddedKeeps | agent/src/api/handlers.rs:41-43 | putting in any element, also a stale one, keeps the agreement of the sets, prefix by prefix |
| Settings.ElementRemovedKeeps | agent/src/api/handlers.rs:63-65 | likewise for taking one out |
| Settings.PrunedKeeps | agent/src/store.rs:288-302 | likewise for pruning |
| Settings.StartKeeps | agent/src/main.rs:679-689 | a start from any safe state file establishes the agreement |
| Settings.Agent.Step | agent/src/api/handlers.rs:32-270 | every command makes of the host what the transition function says for the answers of nft and the disk, and keeps the invariant |
| Settings.Agent.Run | agent/src/main.rs:672-791 | every sequence of commands, kills, starts and rescue commands included, is a run of such transitions and keeps the invariant |
| Settings.StepKeeps | agent/src/api/handlers.rs:32-270 | every transition of every command keeps kernel, store and report in the stated agreement |
| Settings.RevokedStaysGone | agent/src/api/handlers.rs:47-67 | over every run, what a revoke has removed from memory and file stays away, through kills and starts, until it is allowed again |
| Settings.AllowedStaysKept | agent/src/store.rs:148-161 | over every run, an entry in memory and file stays there until it is revoked, replaced, or pruned or started without after its expiry |
| Settings.CliSshTells | agent/src/main.rs:793-829 | only success writes the file, and then kernel and file say what was asked; its own refusal and a first refusal by nft leave the kernel; where the knock was refused the old restriction is back unless that was refused too |
| Settings.CliGateTells | agent/src/main.rs:832-856 | likewise for the gate, which is off when it was refused |
| Settings.PruneTells | agent/src/store.rs:288-302 | the entries without an expiry or with a later one stay, in their old order; kernel and settings are not touched |
| Settings.StartTells | agent/src/main.rs:679-689 | memory holds the file's settings and its unexpired entries in order; the service runs only if the kernel was built from them at that instant and the file holds them too |
| SshRestriction.RestrictedSshExact | agent/src/api/handlers.rs:125-218 | with the restriction stored, a packet opening SSH is accepted iff its source is loopback, on the kernel's list or has knocked, or the config file opens the port |
| SshRestriction.OnlyKnownSourcesReachSsh | agent/src/api/handlers.rs:138-144 | with config ranges that avoid the port, nobody else gets in |
| SshRestriction.ListFollowsStore | agent/src/api/handlers.rs:32-67 | an address of a settled stored entry is on the kernel's list, and an address on the list is accounted for by the store, up to a second and to unsettled prefixes |
| SshRestriction.StoredListDecidesSsh | agent/src/api/handlers.rs:32-168 | the two together: the stored setting and the stored list decide who can open SSH |
| SshRestriction.RevokedIsRefused | agent/src/api/handlers.rs:47-67 | with nothing unsettled, an address that no entry has held within the last second and that has not knocked is refused |
| SshRestriction.RestrictedHost | agent/src/main.rs:679-689 | a freshly started host with the restriction stored, any entry and its packet run meet the hypotheses of these results |
| SshRestriction.OpenSshExact | agent/src/nft/ruleset.rs:166-183 | with the restriction off, everybody gets in unless a rollback has failed, and then exactly the known sources do |
| SshRestriction.StricterIff | agent/src/api/handlers.rs:125-163 | from an agreeing state a toggle leaves the kernel stricter iff it passes its checks, the store was open, the table was accepted only without the knock and the rollback was refused |
| SshRestriction.FailedRollbackIsStricter | agent/src/api/handlers.rs:155-163 | answers of nft that end there, from every open state with a knock in which the toggle passes its checks |
| SshRestriction.RebuildEndsStricter | agent/src/main.rs:783-786 | the next committed table for the stored settings ends it |
| Reconcile.NextOnTrack | agent/src/main.rs:751-790 | one step of the round, of an RPC on another target or of a rebuild by a settings handler keeps an undisturbed target on its way |
| Reconcile.RoundConverges | agent/src/main.rs:744-790 | under every such interleaving, after a round an undisturbed target is in the kernel iff the store holds it |
| Reconcile.RoundFor | agent/src/main.rs:753-779 | the hypotheses of that are met, for one, by a round that puts a stored target into the kernel |
| Reconcile.RaceRemovesAllowed | agent/src/api/handlers.rs:32-45 | the hypothesis is needed: the run in which a repair removes what was just allowed |
| Reconcile.RaceRestoresRevoked | agent/src/api/handlers.rs:47-67 | and the run in which a repair puts back what was just revoked |
| Reconcile.RestoredIsLost | agent/src/api/handlers.rs:47-67 | which is a lost race in the sense of the condition below |
| Reconcile.RaceLostIff | agent/src/main.rs:753-778 | for every interleaving of one round, whose list may fail, with one `allow` or `revoke` of a target and any rebuilds, kernel and store agree on it afterwards unless its store step came after the snapshot, the list found its effect already in the kernel, and neither its kernel step nor a rebuild followed the repair of that |
| Reconcile.LostWithoutRebuilds | agent/src/main.rs:753-778 | without rebuilds that is: the store step after the snapshot and the kernel step before the list |
| Reconcile.RebuildLosesRace | agent/src/api/handlers.rs:113-118 | the run in which a rebuild makes an `allow` lose although its kernel step comes after the list |
| Reconcile.Reconciler.AddMissing | agent/src/main.rs:771-775 | the missing elements left are exactly the failed additions, and nothing else moves |
| Reconcile.Reconciler.RemoveStale | agent/src/main.rs:776-778 | the stale elements left are exactly the failed removals, and nothing else moves |
| Reconcile.Reconciler.Round | agent/src/main.rs:753-779 | the difference shrinks by one per success and is then exactly the repairs that did not work; the round is a run of the steps |
| Reconcile.QuietRoundIsRun | agent/src/main.rs:753-779 | the effect of a round in which every repair works is that of a run of the steps, also with host bits |
| Reconcile.QuietRoundConvergesIff | agent/src/reconcile.rs:13-30 | a quiet round reaches agreement from every kernel set iff no stored target has host bits |
| Reconcile.HostBitsFlap | agent/src/store.rs:148-161 | such an entry is added and removed in turn |
| NftParse.ShapeSpells | agent/src/nft/parse.rs:92-114 | every text is digit groups, each ended by a character, and left-over digits |
| NftParse.ShapeOfSpelled | agent/src/nft/parse.rs:92-114 | and in only one way |
| NftParse.ParseDuration | agent/src/nft/parse.rs:92-114 | nothing iff some group is unreadable or there is none, else the weighted sum in 64 bits |
| NftParse.DurationExactIff | agent/src/nft/parse.rs:92-114 | for any groups and trailing digits, the result is the time that the totals of each unit make up iff that fits an `i64` |
| NftParse.PiecesRead | agent/src/nft/parse.rs:92-114 | numbers with units, in any order and with any of them left out, read as the time they make up |
| NftParse.CompoundReads | agent/src/nft/parse.rs:92-114 | weeks, days, hours, minutes and seconds, any of them left out, read as (((7w + d) * 24 + h) * 60 + m) * 60 + s |
| NftParse.ShownSecondsRead | agent/src/nft/parse.rs:92-114 | a timeout as the compiler writes it reads back as its number |
| NftParse.ParseSetElementsText | agent/src/nft/parse.rs:120-155 | an error iff the closing brace is missing, else the readable parts in order with their last readable expiry |
| NftParse.ListedExpiryReads | agent/src/nft/parse.rs:142-152 | a timed element as the kernel lists it reads as its target and now plus the remaining time |
| NftParse.WrittenSetReadsBack | agent/src/nft/ruleset.rs:79-85 | parsing a written set definition yields its targets in order, also when it is empty |
| NftParse.RebuildLeavesNoDiff | agent/src/nft/ruleset.rs:95-125 | right after a rebuild both listings are the live targets in store order and the diff is empty |
| Forwards.ResolveOne | agent/src/forward.rs:27-74 | a resolved forward never has a forbidden target, and its source address is on its interface |
| Forwards.ResolvedMeans | agent/src/forward.rs:27-74 | a request resolves iff its interface has a usable name and an address and its host a permitted answer or remembered address; it keeps ports and protocol, and its source address is the fixed one if the interface holds that, else the interface's first |
| Forwards.ForbiddenNets | proto/src/forward.rs:122-138 | forbidden are 127/8, 169.254/16, 0/8, 224/4, the broadcast address and the two metadata endpoints, and nothing else |
| Forwards.IfaceNames | proto/src/forward.rs:91-97 | a usable interface name is one to fifteen ASCII letters, digits, full stops, underscores and hyphens |
| Forwards.Forwarder.AddForward | agent/src/store.rs:222-246 | a new id; the forward on the same ports and interface is replaced |
| Forwards.Forwarder.UpdateForward | agent/src/store.rs:249-264 | the rule keeps its id and place; a changed host drops the cached address |
| Forwards.Forwarder.RemoveForward | agent/src/store.rs:266-275 | the rule and its cached address go |
| Forwards.Forwarder.ResolveAll | agent/src/forward.rs:77-108 | the resolvable rules in order, and their addresses by id |
| Forwards.Forwarder.ApplyNow | agent/src/forward.rs:111-139 | table and cache change together or not at all |
| Forwards.NextKeepsInvariant | agent/src/store.rs:222-285 | each step keeps ids unique and the committed targets permitted, whatever cache the state file held |
| Forwards.RunsKeepInvariant | agent/src/forward.rs:111-130 | over every run from any service start no forbidden target is committed |
| Forwards.CacheAgreesSinceCommit | agent/src/forward.rs:111-130 | since the last successful commit the cache holds only what the committed table holds |
| Forwards.RebootIsStart | agent/src/store.rs:78-91 | a reboot, with the file's cache and no table, is such a start, and the agreement does not hold there |
| Forwards.CommitServes | agent/src/forward.rs:111-130 | a successful commit that resolves a forward makes it served |
| Forwards.CommittedStays | agent/src/forward.rs:42-64 | a forward with a permitted cached address that is neither removed nor replaced, and whose host is not edited, is in every table from the first commit on, while each DNS answer is absent or permitted and its interface keeps an address |
| Forwards.TickFreshIff | agent/src/forward.rs:153-173 | after any run of ticks and handlers, a tick leaves the current resolution in the kernel iff the loop has not itself last committed that resolution, or no handler has left another table since |
| Forwards.CollisionSkips | agent/src/forward.rs:158-161 | a colliding hash makes the tick skip a changed resolution |
| Forwards.SkipKeepsRemovedForward | agent/src/forward.rs:159-161 | a run after which a removed forward stays in the kernel through every later tick |
| Forwards.SplitCommitRevivesOldTarget | agent/src/forward.rs:77-130 | an edit between resolving and committing brings the old host's address back |
| Forwards.SplitCommitFitsIff | agent/src/forward.rs:77-130 | after resolving, any edits and the commit of what was resolved, a cached address was resolved for the forward's present host iff that was its host at the snapshot |
| Forwards.CommitIsHonest | agent/src/forward.rs:42-45 | every cached address is an answer DNS has given for the host it is attributed to |
| Forwards.EditKeepsFit | agent/src/store.rs:249-275 | edits alone keep every address with the host it was resolved for |
| Forwards.OneStepCommitFits | agent/src/forward.rs:135-139 | and so does a commit with nothing between it and its resolution |
| Nat.RenderNat | agent/src/nft/nat.rs:45-103 | the three chains, one rule per forward and protocol |
| Nat.TranslatedIffServed | agent/src/nft/nat.rs:52-66 | a port is translated iff a forward serves it |
| Nat.SoleServerDecides | agent/src/nft/nat.rs:52-66 | a port only one forward serves goes to that forward's target |
| Nat.TranslatedCanReturn | agent/src/nft/nat.rs:68-99 | what is translated has a source rewrite and a forward accept |
| Nat.TranslatedIsRewritten | agent/src/nft/nat.rs:68-81 | on its way it gets the source address of the first forward to the same destination |
| Nat.RewriteIsFirst | agent/src/nft/nat.rs:68-81 | for every destination the first forward that goes there decides the source address |
| Nat.CommittedForwardDecides | agent/src/forward.rs:77-130 | a resolved forward that clashes with no other has all its ports sent to its own target |
| Nat.LastForwardDecides | agent/src/nft/nat.rs:52-66 | the last forward gets a port iff no earlier one serves it |
| ForwardApi.CheckRequest | agent/src/api/handlers.rs:401-426 | a request that passes shares no port with a rule of the dnat tool on its interface |
| ForwardApi.MalformedIff | agent/src/api/handlers.rs:380-408 | a request is malformed iff a range is reversed, the lengths differ and the target is no single port, the host is blank, the interface name unusable, or the host a forbidden literal |
| ForwardApi.ConflictIff | agent/src/api/handlers.rs:410-425 | one that is not is in conflict iff it shares a port with a dnat rule on its interface |
| ForwardApi.Api.UpdateForward | agent/src/api/handlers.rs:455-482 | exact refusals without effect, then an error only if the disk or nft refuses; after success the forward is live iff it resolves, and then all its ports go to its own target and no dnat rule claims one |
| ForwardApi.Api.AddForward | agent/src/api/handlers.rs:428-446 | exact refusals without effect, then an error exactly if the disk or nft refuses; after success the new forward gets the ports that no forward left in place serves |
| ForwardApi.AddedDecidesIff | agent/src/store.rs:228-243 | an added forward gets a port iff no forward it does not replace already serves it |
| DnatConf.ParsedIsWellFormed | agent/src/dnat/conf.rs:61-108 | what a parsed rule satisfies: non-zero ordered ports, trimmed non-empty fields, ranges that fit |
| DnatConf.PrefixKeyInjective | agent/src/dnat/conf.rs:25-36 | two parsed rules have the same key iff they have the same ports and interface |
| DnatConf.RuleParsesBack | agent/src/dnat/conf.rs:61-108 | a line written from a parsed rule parses to that rule |
| DnatConf.PortSpecParses | agent/src/dnat/conf.rs:30-58 | a written port range parses to itself |
| DnatConf.RangeTextParses | agent/src/dnat/conf.rs:38-52 | two numbers and a hyphen are a range iff the first is not 0, the second is larger and both are ports |
| DnatConf.PortTextParses | agent/src/dnat/conf.rs:53-58 | a number alone is a port iff it is from 1 to 65535 |
| DnatConf.KeepOthers | agent/src/dnat/conf.rs:123-131 | exactly the lines that are no hit are kept, in order; the flag says whether there was one |
| DnatConf.RemoveRuleLines | agent/src/dnat/conf.rs:123-137 | parsing the new text drops exactly the rules with that key, in order; other lines stay; the flag is true iff there was one |
| Migration.RuleFor | agent/src/dnat/mod.rs:123-125 | a rule of the file with that key, if there is one |
| Migration.Host.RemovePrefix | agent/src/dnat/mod.rs:167-187 | answer as a function of lock, file and key; failed: nothing changed; else the file without the key, the tool's table old or, if it applies, rebuilt in the last step, and the forwards as the events of other threads leave them |
| Migration.Host.BuildNative | agent/src/api/handlers.rs:543-579 | the dnat side is untouched throughout; answer and native state exactly: success iff saved, committed and cached at the check, and a forward that did not come alive is removed again |
| Migration.TakenBackIff | agent/src/api/handlers.rs:556-579 | of the failures before the withdrawal, only that of the liveness check takes the new forward back |
| Migration.Host.TakeOver | agent/src/api/handlers.rs:543-587 | the tool's table changes at most in the last step and not on an error; success means the file without the key and the native state that all events lead to |
| Migration.Host.Migrate | agent/src/api/handlers.rs:521-591 | with the resolver and other handlers interleaved in any way, each port of the rule that was translated still is at every step before the tool's apply and at every error exit; if none of their events edits, replaces or removes the new forward or meets a forbidden answer or an interface without an address, also after it, with the rule covered natively and stored and committed with its own ports, host and source; which refusal exactly; an error leaves the dnat side as it was; which end exactly, as a function of what works; success hands over to the state that all events lead to, and to the address found if there were none |
| Migration.RefusalIff | agent/src/api/handlers.rs:529-554 | which refusal: bad ranges, then an unusable name or forbidden literal, then a native forward with a port of the rule on its interface |
| Migration.QuietMigrationHands | agent/src/dnat/mod.rs:238-252 | under the same condition the stored forward has both protocols and the rule's own interface, ports, host, target ports and source, and the committed one goes out from the rule's fixed address if the interface held it at the last commit |
| Migration.QuietKeepsCovered | agent/src/forward.rs:111-130 | no handler that leaves the forward alone, and no tick at which the answer is absent or permitted and the interface has an address, takes its coverage away |
| Migration.QuietMigrationCovers | agent/src/api/handlers.rs:543-587 | if the others' events after the add are all of that kind and the liveness check passes, the rule is covered from then to the end |
| Migration.CoveredTranslates | agent/src/api/handlers.rs:582-587 | while the rule is covered natively, no state of the dnat table, however late, leaves a port of it untranslated |
| Migration.TableOfLastCommit | agent/src/forward.rs:105-130 | after any events the native table is what the last successful commit resolved |
| Migration.HasLastCommit | agent/src/api/handlers.rs:556-567 | a migration that is not refused always has a last commit, at the latest its own |
| Migration.WithdrawnTranslatedIff | agent/src/api/handlers.rs:556-587 | after the withdrawal and the tool's apply, whatever the others did, a port of the rule that no other dnat rule claims is translated iff the last commit found some forward for it stored and resolved it; that is the rule's own if no other is for the port and it was not edited |
| Migration.UnresolvedTickGaps | agent/src/forward.rs:27-74 | the runs in which a tick between the liveness check and the withdrawal meets a forbidden answer or an interface without an address: the migration succeeds, and a port translated before is not any more |
| Migration.RemovalGaps | agent/src/store.rs:266-275 | likewise when another handler removes the forward there |
| Migration.RebindingGap | agent/src/forward.rs:42-51 | such a run for one rule: its name begins to resolve to 127.0.0.1 |
| Migration.AddedReplaces | agent/src/api/handlers.rs:556-579 | with nothing else going on all its ports go to the address found and the rule's ports |
| Migration.DrainedKeepsTarget | agent/src/nft/nat.rs:52-66 | after the tool applies, ports no other dnat rule claims go to the same host and ports |
| Noise.NumberOfBigEndian | agent/src/noise.rs:156 | a big-endian length reads back |
| Noise.FramesFit | agent/src/noise.rs:176-183 | no frame is empty or longer than 65535 bytes, and there are no more than needed |
| Noise.NoiseConn.Send | agent/src/noise.rs:172-185 | success iff the stream takes all frames of the message, and then nothing else; otherwise exactly the leading frames that it takes |
| Noise.NoiseConn.Recv | agent/src/noise.rs:135-169 | the message, error, rest of the stream and nonce of the recursive receive |
| Noise.ReceiveBounded | agent/src/noise.rs:135-169 | against any peer: at most 4 + 2^20 frames, a buffer below 2^20 + 65519 bytes, a message of at most 2^20 |
| Noise.ReceiveTakes | agent/src/noise.rs:135-169 | whatever is on the stream, a receive takes whole frames from its front, opens them in order and stops at the one that completes the announced message or announces too much, or at the first that is missing, empty, does not open or opens to nothing; frames, nonce and rest count exactly those |
| Noise.RoundTripIff | agent/src/noise.rs:135-185 | a receive behind a send returns the message and eats exactly its bytes iff it is at most 1 MiB |
| Noise.AllMessagesRoundTripIff | agent/src/noise.rs:135-185 | any sequence of messages comes back and empties the stream iff each is at most 1 MiB |
| RateLimit.RateLimiter.Allow | agent/src/api/limit.rs:28-43 | answer and new map of one step of the limiter |
| RateLimit.PruningIsInvisible | agent/src/api/limit.rs:33-36 | with time not running backwards every answer is that of a limiter that never prunes |
| RateLimit.GrantedIff | agent/src/api/limit.rs:28-43 | over every run a call is granted iff the number of calls of its address in its window is within the maximum modulo 2^32 |
| RateLimit.ZeroIsUnlimited | agent/src/api/limit.rs:28-31 | a maximum of 0 grants every call of every run and remembers none |
| RateLimit.AtMostTwicePerInterval | agent/src/api/limit.rs:28-43 | in any half-open interval of one window length at most twice the maximum per address, if none of its windows sees 2^32 calls |
| RateLimit.AtMostMaxPerWindow | agent/src/api/limit.rs:37-42 | from the call that opens a window to its end at most the maximum |
| RateLimit.BurstGrantedIff | agent/src/api/limit.rs:41-42 | call n of a burst is granted iff n modulo 2^32 is within the maximum |
| Connections.DeviceConns.Acquire | agent/src/api/mod.rs:56-66 | one more guard, or a refusal that changes nothing |
| Connections.DeviceConns.Release | agent/src/api/mod.rs:68-78 | one guard fewer; a count of zero is not stored |
| Connections.Added | agent/src/store.rs:123-128 | an earlier device of the same id or key gives way; keys stay unique |
| Connections.FindDevice | agent/src/store.rs:131-133 | found iff a device has that key, and then the id of such a device |
| Connections.ConnectionPassesIff | agent/src/api/mod.rs:110-231 | a connection is let in iff within the rate and fewer than 64 are, passes iff its key is known or newly paired and saved, gets a slot iff its key holds fewer than 8, and its request is taken up iff a device has its key; otherwise it is closed |
| Connections.OthersUntouched | agent/src/api/mod.rs:110-231 | and no event touches another connection |
| Connections.NextKeepsInvariant | agent/src/api/mod.rs:110-231 | every step keeps counts equal to live guards, the two bounds, and unique keys |
| Connections.SlotsOverRuns | agent/src/api/mod.rs:110-231 | over every interleaving a key's count is its live guards, at most 8 and never a stored zero, and at most 64 connections hold permits |
| Connections.UnknownStays | agent/src/api/mod.rs:204-210 | without a pairing an unknown key stays unknown and passes no recheck |
| Connections.RevokedExecutesAtMostOne | agent/src/api/mod.rs:190-230 | after a revoke each connection of the key executes at most the request already past its recheck, unless the key is paired again |
| Sshd.StripManagedBlock | agent/src/sshd.rs:91-110 | the lines outside managed blocks, in order |
| Sshd.StripDropsBlock | agent/src/sshd.rs:81-110 | a block in front of a text adds nothing to what is kept |
| Sshd.StripIdempotentIff | agent/src/sshd.rs:91-110 | stripping twice is stripping once iff no kept line ends in a CR |
| Sshd.UnterminatedCr | agent/src/sshd.rs:94-107 | a single CR is such a text, and no shorter one is |
| Sshd.TemplateIsSane | agent/src/sshd.rs:19-20 | the marks and block texts of the source meet the hypotheses of these lemmas |
| Sshd.SshdConfig.SetPasswordAuth | agent/src/sshd.rs:116-144 | answer, file and loaded configuration as a function of which steps work; the file is the rewritten one if the toggle was installed and untouched otherwise; an installed one sets first what was asked for; success means it is valid, loaded and confirmed by `sshd -T`; no invalid text is loaded unless the rollback fails |
| Sshd.RewrittenDecides | agent/src/sshd.rs:79-89 | the first line of a rewritten file that sets `PasswordAuthentication` is `PasswordAuthentication yes` or `no` as asked, and after a disable the first for `KbdInteractiveAuthentication` is `no` |
| Sshd.LastToggleDecides | agent/src/sshd.rs:116-144 | so it is after every run with the last installed toggle |
| Sshd.PasswordOnIff | agent/src/sshd.rs:116-144 | the first setting is `PasswordAuthentication yes` iff the last installed toggle turned it on |
| Sshd.Parse | agent/src/sshd.rs:54-75 | of each key the last line with a value counts; the old name of the keyboard-interactive one only where the new is missing |
| Sshd.ProbeConfirms | agent/src/sshd.rs:132-135 | if `sshd -T` prints what the file decides, the check of a rewritten file passes |
| Sshd.FileOverRuns | agent/src/sshd.rs:116-144 | over any run: the original, or the last block over the original stripped once per installed toggle |
| Sshd.OneBlockOverOriginalIff | agent/src/sshd.rs:116-144 | it is the last block over the once-stripped original after every run iff no kept line ends in a CR |
| Sshd.ExactlyOneBlock | agent/src/sshd.rs:120-121 | once a toggle was installed the file holds exactly one block, for every original |
| ClientIp.Compact | ipecho/main.go:164-170 | compaction in place leaves the trimmed non-blank parts in order |
| ClientIp.SplitTrim | ipecho/main.go:162-171 | the same for the parts of a header |
| ClientIp.ClientIp | ipecho/main.go:104-124 | the entry counted from the right, or the peer when there are too few or it is no address |
| ClientIp.PeerDecides | ipecho/main.go:116-123 | with no proxy trusted or too few entries, the answer is the connection's host, in normal form if it is an address |
| ClientIp.PartsAppend | ipecho/main.go:162-171 | what is before and behind a comma contributes separately |
| ClientIp.ProxiesDecide | ipecho/main.go:98-115 | behind any client text, N non-blank comma-free entries select the first of them |
| ClientIp.IndependentIff | ipecho/main.go:98-115 | the result is independent of the client's text iff at least N entries behind it are not blank |
| ClientIp.Forged | ipecho/main.go:105-114 | with fewer, the client can be taken for any address it names |

## Left out

- Cryptography: the Noise handshake, the access key and knock token derivation. The transport cipher is any in-order inverse pair with a 16-byte tag (there is one: `Noise.SoundIsPossible`); its nonce does not run out.
- Processes and files: `nft`, `ip`, `sshd`, `systemctl`, `chpasswd` and `dnat` are steps that succeed or fail; a failed save changes memory but not the file.
- The exact nft text, except for the two allowlist set definitions; a rule is a syntax tree. Comments and the packet counter are dropped.
- Set size limits and garbage collection of the kernel, conntrack itself (a packet carries its state), and IPv6 extension headers.
- The JSON listing of a set, JSON in general, base64 keys, prefix parsing and printing (any inverse pair; there is one: `NftParse.InverseIsPossible`), DNS and network probing.
- Overflow of `chrono` durations and instants, and of revision numbers.
- Elements of the reconcile runs carry no timeouts; `Packets` and `Settings` have them. What `nft` does with prefixes that overlap without being equal is an accept or a refusal like any other.
- The redaction of the knock token in error texts, trimming of notes, which error text names which range, and whether a missing public port is a configured one.
- A rescue command while the service runs: the commands of `Settings` are interleaved with starts and crashes, not with a running service.
- Edits of the dnat tool's file by the tool itself between the lookup of a rule and its removal; entries of that file for which the tool keeps an older address.
- The choice of a port inside a translated range: a target is an address and a range.
- ClientIp.ClientIp: sees the one header value that Go's `Header.Get` returns, not several header lines.
- Pairing codes, the access key file, CLI parsing, QR codes, status output, the settings view and the unified forward list, which would add only easy members.
