/** Repeated delivery-path failures of a domain, and their escalation to a lasting verdict. */
module MxFailures {
  import opened Results
  import opened Text
  import opened SlidingWindow
  import opened SmtpVerdict
  import MxProbe

  datatype Config = Config(windowMs: int, threshold: nat)

  datatype FailureKind = MxHostDns | Smtp | SmtpTimeoutKind

  /** The failure stamps per domain, and the two caches that an escalation writes. */
  datatype Paths = Paths(events: map<string, seq<int>>, dead: map<string, VerificationResult>, persistent: set<string>)

  const NO_PATHS: Paths := Paths(map[], map[], {})

  function Stamps(events: map<string, seq<int>>, domain: string): seq<int> {
    if Lower(domain) in events then events[Lower(domain)] else []
  }

  function Recorded(s: Paths, domain: string, now: int, c: Config): seq<int> {
    Prune(Stamps(s.events, domain), now - c.windowMs) + [now]
  }

  /** A failure that counts: one more stamp, and the escalated result when there are enough. */
  function Fail(s: Paths, domain: string, base: VerificationResult, now: int, c: Config): (Paths, VerificationResult) {
    var next := Recorded(s, domain, now, c);
    var s' := s.(events := s.events[Lower(domain) := next]);
    if |next| >= c.threshold then
      var u := Escalated(base);
      (s'.(dead := s.dead[Lower(domain) := u], persistent := s.persistent + {Lower(domain)}), u)
    else (s', base)
  }

  function Escalated(base: VerificationResult): VerificationResult {
    base.(code := Undeliverable,
    message := "Delivery path has repeatedly failed; treated as not routable at this time",
    reason := MxUnreachablePersistent)
  }

  function Cleared(s: Paths, domain: string): Paths {
    s.(events := s.events - {Lower(domain)}, persistent := s.persistent - {Lower(domain)})
  }

  /** How one verification ended: in the DNS of its domain, at the addresses of its exchangers, or after a probe. */
  datatype Outcome =
    | DomainMissing(forceRefresh: bool)
    | NoMx(forceRefresh: bool)
    | LookupFailed(message: string, transient: bool)
    | HostsUnresolvable
    | HostsGone
    | Probed(r: RcptResult)

  /**
   * One concluded verification: its verdict before escalation, what it does to the stamps
   * of its domain, and whether DNS alone makes it a dead-domain entry.
   */
  datatype Act = Act(domain: string, base: VerificationResult, effect: PathEffect, dead: bool, now: int)

  function Conclusion(email: string, domain: string, outcome: Outcome, now: int, w: Wording): Act {
    match outcome
    case DomainMissing(forceRefresh) =>
      Act(domain, Verdict(email, Undeliverable, "Domain does not exist", DomainInvalid), NoEffect, !forceRefresh, now)
    case NoMx(forceRefresh) =>
      Act(domain, Verdict(email, Undeliverable, "No MX records for domain", NoMxRecords), NoEffect, !forceRefresh, now)
    case LookupFailed(message, transient) =>
      Act(domain, Verdict(email, if transient then RetryLater else Undeliverable, "DNS: " + message, MxLookupReason), NoEffect, false, now)
    case HostsGone =>
      Act(domain,
          Verdict(email, Undeliverable, "No MX hostnames resolve in DNS (A/AAAA)", OfSocket(MxUnreachableReason)),
          NoEffect, false, now)
    case Probed(r) =>
      var (base, effect) := MapSmtpToResult(email, r, w);
      Act(domain, base, effect, false, now)
    case HostsUnresolvable =>
      Act(domain,
          Verdict(email, RetryLater, "All MX hostnames failed DNS (A/AAAA); retry later", OfSocket(MxUnreachableReason)),
          CountFailure, false, now)
  }

  function Step(s: Paths, act: Act, c: Config): (Paths, VerificationResult) {
    match act.effect
    case NoEffect => (if act.dead then s.(dead := s.dead[Lower(act.domain) := act.base]) else s, act.base)
    case ClearFailures => (Cleared(s, act.domain), act.base)
    case CountFailure => Fail(s, act.domain, act.base, act.now, c)
  }

  function Run(acts: seq<Act>, c: Config): Paths
    decreases |acts|
  {
    if acts == [] then NO_PATHS else Step(Run(acts[..|acts| - 1], c), acts[|acts| - 1], c).0
  }

  /** The tracker of the source, beside the two cache layers it reaches. */
  class MxFailureTracker {
    const config: Config
    var eventsByDomain: map<string, seq<int>>
    var deadDomains: map<string, VerificationResult>
    var persistentMx: set<string>

    function View(): Paths
      reads this
    {
      Paths(eventsByDomain, deadDomains, persistentMx)
    }

    constructor (config: Config)
      ensures View() == NO_PATHS && this.config == config
    {
      this.config := config;
      eventsByDomain, deadDomains, persistentMx := map[], map[], {};
    }

    method RecordMxPathFailure(domain: string, kind: FailureKind, now: int) returns (count: nat, persistent: bool)
      modifies this`eventsByDomain
      ensures kind == SmtpTimeoutKind ==> View() == old(View()) && count == 0 && !persistent
      ensures kind != SmtpTimeoutKind ==>
                && View() == old(View()).(events := old(eventsByDomain)[Lower(domain) := Recorded(old(View()), domain, now, config)])
                && count == |Recorded(old(View()), domain, now, config)|
                && persistent == (count >= config.threshold)
    {
      if kind == SmtpTimeoutKind {
        return 0, false;
      }
      var start := now - config.windowMs;
      var prev := if Lower(domain) in eventsByDomain then eventsByDomain[Lower(domain)] else [];
      var next := Prune(prev, start);
      next := next + [now];
      eventsByDomain := eventsByDomain[Lower(domain) := next];
      return |next|, |next| >= config.threshold;
    }

    method ClearMxPathFailures(domain: string)
      modifies this`eventsByDomain, this`persistentMx
      ensures View() == Cleared(old(View()), domain)
    {
      var k := Lower(domain);
      eventsByDomain := eventsByDomain - {k};
      persistentMx := persistentMx - {k};
    }

    method WithMxPersistent(domain: string, base: VerificationResult, kind: FailureKind, now: int) returns (r: VerificationResult)
      modifies this
      ensures if base.code != RetryLater || kind == SmtpTimeoutKind then View() == old(View()) && r == base
              else (View(), r) == Fail(old(View()), domain, base, now, config)
    {
      if base.code != RetryLater {
        return base;
      }
      var _, persistent := RecordMxPathFailure(domain, kind, now);
      if !persistent {
        return base;
      }
      r := Escalated(base);
      deadDomains := deadDomains[Lower(domain) := r];
      persistentMx := persistentMx + {Lower(domain)};
    }

    /** The end of one verification: its verdict, with the stamps and caches it leaves. */
    method Conclude(email: string, domain: string, outcome: Outcome, now: int, w: Wording) returns (r: VerificationResult)
      modifies this
      ensures (View(), r) == Step(old(View()), Conclusion(email, domain, outcome, now, w), config)
    {
      var act := Conclusion(email, domain, outcome, now, w);
      EffectsOfOutcomes(email, domain, outcome, now, w);
      match act.effect
      case NoEffect =>
        if act.dead {
          deadDomains := deadDomains[Lower(domain) := act.base];
        }
        r := act.base;
      case ClearFailures =>
        ClearMxPathFailures(domain);
        r := act.base;
      case CountFailure =>
        r := WithMxPersistent(domain, act.base, if outcome.Probed? then Smtp else MxHostDns, now);
    }
  }

  predicate IsTimeout(r: RcptResult) {
    && r.MxFail?
    && (r.error == Timeout || (if r.socketReason.Some? then r.socketReason.value else MapSmtpSocketErrno(r.error, r.errno)) == SmtpTimeout)
  }

  /** What counts against a domain, and what clears it: failures of transport other than timeouts, and a valid recipient. */
  lemma EffectsOfOutcomes(email: string, domain: string, outcome: Outcome, now: int, w: Wording)
    ensures var act := Conclusion(email, domain, outcome, now, w);
            && act.domain == domain && act.now == now && act.base.email == email
            && (act.effect == CountFailure <==>
                  outcome.HostsUnresolvable? || (outcome.Probed? && !outcome.r.Rcpt? && !IsTimeout(outcome.r)))
            && (act.effect == ClearFailures <==> act.base.code == Valid)
            && (act.effect == CountFailure ==> act.base.code == RetryLater)
            && (act.dead <==> (outcome.DomainMissing? || outcome.NoMx?) && !outcome.forceRefresh)
            && (act.dead ==> act.effect == NoEffect)
            && (outcome.DomainMissing? ==> act.base.code == Undeliverable && act.base.reason == DomainInvalid)
            && (outcome.NoMx? ==> act.base.code == Undeliverable && act.base.reason == NoMxRecords)
            && (outcome.LookupFailed? ==>
                  act.base.code == (if outcome.transient then RetryLater else Undeliverable) && act.base.reason == MxLookupReason)
            && (outcome.HostsUnresolvable? ==> act.base.reason == OfSocket(MxUnreachableReason))
            && (outcome.HostsGone? ==> act.base.code == Undeliverable && act.base.reason == OfSocket(MxUnreachableReason))
            && (outcome == Probed(AllMxFailed) ==> act.base.reason == OfSocket(SmtpConnectFailed))
  {
    if outcome.Probed? && outcome.r.Rcpt? {
      RefusalIsNotValid(email, outcome.r, w);
    }
  }

  lemma RefusalIsNotValid(email: string, r: RcptResult, w: Wording)
    requires r.Rcpt?
    ensures MapRefusal(email, r, w).code != Valid && MapRefusal(email, r, w).email == email
  {
  }

  /**
   * A probe whose last session failed always means retry; the failure counts against the
   * domain unless it was a timeout, by the session or by the operating system, and each
   * socket error has its own reason.
   */
  lemma EffectsOfSessions(email: string, domain: string, o: SessionOutcome, now: int, w: Wording)
    requires o.Ended? ==>
               && o.result.MxFail? && o.result.error == Protocol && o.result.errno == None
               && o.result.socketReason in {None, Some(SmtpConnectFailed)}
    ensures var act := Conclusion(email, domain, Probed(MxProbe.ResultOf(o)), now, w);
            && act.base.code == RetryLater && !act.dead
            && (act.effect == if o.TimedOut? || (o.Threw? && o.errno == Some("ETIMEDOUT")) then NoEffect else CountFailure)
            && act.base.reason ==
               if o.Ended? then SmtpProtocol
               else if o.TimedOut? || o.errno == Some("ETIMEDOUT") then OfSocket(SmtpTimeout)
               else if o.errno in {Some("ECONNRESET"), Some("EPIPE"), Some("ECONNABORTED")} then OfSocket(SmtpConnectionReset)
               else if o.errno in {Some("EHOSTUNREACH"), Some("ENETUNREACH")} then OfSocket(MxUnreachableReason)
               else OfSocket(SmtpConnectFailed)
  {
  }

  // ----- the full history -----

  predicate Concerns(act: Act, domain: string) {
    Lower(act.domain) == Lower(domain)
  }

  /** The history of a domain after one more verification. */
  function Logged(log: seq<int>, act: Act, domain: string): seq<int> {
    if !Concerns(act, domain) then log
    else match act.effect
      case NoEffect => log
      case ClearFailures => []
      case CountFailure => log + [act.now]
  }

  predicate DiesInDns(act: Act) {
    act.effect == NoEffect && act.dead
  }

  predicate FoundDead(acts: seq<Act>, domain: string) {
    exists k :: 0 <= k < |acts| && Concerns(acts[k], domain) && DiesInDns(acts[k])
  }

  /** The times of the domain's counted failures since its last accepted recipient. */
  function FailuresSince(acts: seq<Act>, domain: string): seq<int>
    decreases |acts|
  {
    if acts == [] then [] else Logged(FailuresSince(acts[..|acts| - 1], domain), acts[|acts| - 1], domain)
  }

  /** A clock that does not run backwards, up to `now`. */
  predicate Timely(acts: seq<Act>, now: int)
    decreases |acts|
  {
    acts == [] || (acts[|acts| - 1].now <= now && Timely(acts[..|acts| - 1], acts[|acts| - 1].now))
  }

  lemma {:induction false} HistoryIsChronological(acts: seq<Act>, domain: string, now: int)
    requires Timely(acts, now)
    ensures Chronological(FailuresSince(acts, domain), now)
    decreases |acts|
  {
    if acts != [] {
      var last := acts[|acts| - 1];
      HistoryIsChronological(acts[..|acts| - 1], domain, last.now);
      ChronologicalLater(FailuresSince(acts[..|acts| - 1], domain), last.now, now);
      Later(FailuresSince(acts[..|acts| - 1], domain), last.now);
      ChronologicalLater(FailuresSince(acts[..|acts| - 1], domain) + [last.now], last.now, now);
    }
  }

  lemma ChronologicalLater(log: seq<int>, clock: int, now: int)
    requires Chronological(log, clock) && clock <= now
    ensures Chronological(log, now)
  {
  }

  lemma StepKeepsWindow(s: Paths, log: seq<int>, act: Act, domain: string, c: Config)
    requires c.windowMs > 0 && Chronological(log, act.now) && Stamps(s.events, domain) == Window(log, c.windowMs)
    ensures Stamps(Step(s, act, c).0.events, domain) == Window(Logged(log, act, domain), c.windowMs)
  {
    StepStamps(s, act, domain, c);
    LoggedWindow(log, act, domain, c);
  }

  /** What one verification does to the window of the history. */
  lemma LoggedWindow(log: seq<int>, act: Act, domain: string, c: Config)
    requires c.windowMs > 0 && Chronological(log, act.now)
    ensures Window(Logged(log, act, domain), c.windowMs) ==
            if !Concerns(act, domain) || act.effect == NoEffect then Window(log, c.windowMs)
            else if act.effect == ClearFailures then []
            else Prune(Window(log, c.windowMs), act.now - c.windowMs) + [act.now]
  {
    if Concerns(act, domain) && act.effect == CountFailure {
      WindowExtends(log, c.windowMs, act.now);
    }
  }

  lemma NextCounts(s: Paths, log: seq<int>, domain: string, c: Config, now: int)
    requires c.windowMs > 0 && Chronological(log, now) && Stamps(s.events, domain) == Window(log, c.windowMs)
    ensures |Recorded(s, domain, now, c)| == CountIn(log + [now], now - c.windowMs, now)
  {
    WindowCounts(log, c.windowMs, now);
  }

  /** After any run the pruned stamps of a domain are the window of its full history. */
  lemma {:induction false} StampsAreTheWindow(acts: seq<Act>, domain: string, c: Config, now: int)
    requires c.windowMs > 0 && Timely(acts, now)
    ensures Stamps(Run(acts, c).events, domain) == Window(FailuresSince(acts, domain), c.windowMs)
    decreases |acts|
  {
    if acts != [] {
      var last, before := acts[|acts| - 1], acts[..|acts| - 1];
      StampsAreTheWindow(before, domain, c, last.now);
      HistoryIsChronological(before, domain, last.now);
      StepKeepsWindow(Run(before, c), FailuresSince(before, domain), last, domain, c);
    }
  }

  /** One verification changes the stamps of its own domain only. */
  lemma StepStamps(s: Paths, act: Act, domain: string, c: Config)
    ensures var s', effect := Step(s, act, c).0, act.effect;
            Stamps(s'.events, domain) ==
            if !Concerns(act, domain) || effect == NoEffect then Stamps(s.events, domain)
            else if effect == ClearFailures then []
            else Prune(Stamps(s.events, domain), act.now - c.windowMs) + [act.now]
  {
  }

  predicate Escalates(acts: seq<Act>, act: Act, c: Config) {
    && act.effect == CountFailure
    && CountIn(FailuresSince(acts, act.domain) + [act.now], act.now - c.windowMs, act.now) >= c.threshold
  }

  /** With the next failure the stamps number the failures of the window in the full history. */
  lemma RecordedCounts(acts: seq<Act>, domain: string, c: Config, now: int)
    requires c.windowMs > 0 && Timely(acts, now)
    ensures |Recorded(Run(acts, c), domain, now, c)| == CountIn(FailuresSince(acts, domain) + [now], now - c.windowMs, now)
  {
    StampsAreTheWindow(acts, domain, c, now);
    HistoryIsChronological(acts, domain, now);
    NextCounts(Run(acts, c), FailuresSince(acts, domain), domain, c, now);
  }

  /** The lasting verdict on a delivery path that has failed repeatedly. */
  predicate IsPersistent(r: VerificationResult, email: string) {
    r.email == email && r.code == Undeliverable && r.reason == MxUnreachablePersistent
  }

  lemma StepEscalates(s: Paths, act: Act, c: Config)
    ensures var (s', r) := Step(s, act, c);
            if act.effect == CountFailure && |Recorded(s, act.domain, act.now, c)| >= c.threshold then
              && IsPersistent(r, act.base.email)
              && s'.dead == s.dead[Lower(act.domain) := r]
              && s'.persistent == s.persistent + {Lower(act.domain)}
            else r == act.base && s'.dead == DeadAfter(s.dead, act) && s'.persistent <= s.persistent
  {
  }

  /** The dead-domain entries after a verification that does not escalate. */
  function DeadAfter(dead: map<string, VerificationResult>, act: Act): map<string, VerificationResult> {
    if DiesInDns(act) then dead[Lower(act.domain) := act.base] else dead
  }

  /**
   * Over any run, a verification answers with the persistent verdict, and writes both
   * caches, exactly when it is itself a counted failure and, with it, at least the threshold
   * of counted failures of its domain since the last accepted recipient lie in the window
   * that ends now. Every other verification keeps its own verdict, writes no persistent
   * entry, and writes a dead-domain entry only when DNS says that the domain is dead.
   */
  lemma EscalatesExactly(acts: seq<Act>, act: Act, c: Config)
    requires c.windowMs > 0 && Timely(acts, act.now)
    ensures var s := Run(acts, c);
            var (s', r) := Step(s, act, c);
            if Escalates(acts, act, c) then
              && IsPersistent(r, act.base.email)
              && s'.dead == s.dead[Lower(act.domain) := r]
              && s'.persistent == s.persistent + {Lower(act.domain)}
            else r == act.base && s'.dead == DeadAfter(s.dead, act) && s'.persistent <= s.persistent
  {
    RecordedCounts(acts, act.domain, c, act.now);
    StepEscalates(Run(acts, c), act, c);
  }

  /**
   * A domain none of whose verifications counts as a failure is never escalated, however
   * many timeouts there are; a dead-domain entry it has comes from DNS.
   */
  lemma {:induction false} TimeoutsNeverEscalate(acts: seq<Act>, domain: string, c: Config)
    requires forall k :: 0 <= k < |acts| && Concerns(acts[k], domain) ==> acts[k].effect != CountFailure
    ensures FailuresSince(acts, domain) == []
    ensures Lower(domain) !in Run(acts, c).persistent
    ensures Lower(domain) in Run(acts, c).dead <==> FoundDead(acts, domain)
    decreases |acts|
  {
    if acts != [] {
      var last, before := acts[|acts| - 1], acts[..|acts| - 1];
      TimeoutsNeverEscalate(before, domain, c);
      StepPersistent(Run(before, c), last, domain, c);
      StepDead(Run(before, c), last, domain, c);
      FoundDeadNext(acts, domain);
    }
  }

  lemma FoundDeadNext(acts: seq<Act>, domain: string)
    requires acts != []
    ensures var last, before := acts[|acts| - 1], acts[..|acts| - 1];
            FoundDead(acts, domain) <==> FoundDead(before, domain) || (Concerns(last, domain) && DiesInDns(last))
  {
    var before := acts[..|acts| - 1];
    assert forall k :: 0 <= k < |before| ==> before[k] == acts[k];
  }

  // ----- what an accepted recipient undoes -----

  /** An escalation of the domain that no accepted recipient followed. */
  predicate EscalatedSinceAccept(acts: seq<Act>, domain: string, c: Config)
    decreases |acts|
  {
    acts != [] &&
    var last, before := acts[|acts| - 1], acts[..|acts| - 1];
    if !Concerns(last, domain) then EscalatedSinceAccept(before, domain, c)
    else if last.effect == ClearFailures then false
    else Escalates(before, last, c) || EscalatedSinceAccept(before, domain, c)
  }

  /** The domain was ever escalated, or ever found dead in DNS by a verification that may use the caches. */
  predicate EverDead(acts: seq<Act>, domain: string, c: Config)
    decreases |acts|
  {
    acts != [] &&
    var last, before := acts[|acts| - 1], acts[..|acts| - 1];
    (Concerns(last, domain) && (DiesInDns(last) || Escalates(before, last, c))) || EverDead(before, domain, c)
  }

  /** The persistent entry follows escalations and acceptances; the dead-domain entry escalations and DNS only. */
  lemma {:induction false} CachesAfterRun(acts: seq<Act>, domain: string, c: Config, now: int)
    requires c.windowMs > 0 && Timely(acts, now)
    ensures Lower(domain) in Run(acts, c).persistent <==> EscalatedSinceAccept(acts, domain, c)
    ensures Lower(domain) in Run(acts, c).dead <==> EverDead(acts, domain, c)
    decreases |acts|
  {
    if acts != [] {
      var last, before := acts[|acts| - 1], acts[..|acts| - 1];
      CachesAfterRun(before, domain, c, last.now);
      EscalatesExactly(before, last, c);
      StepPersistent(Run(before, c), last, domain, c);
      StepDead(Run(before, c), last, domain, c);
    }
  }

  lemma StepPersistent(s: Paths, act: Act, domain: string, c: Config)
    ensures var s', k := Step(s, act, c).0, Lower(domain);
            && (!Concerns(act, domain) ==> (k in s'.persistent <==> k in s.persistent))
            && (Concerns(act, domain) && act.effect == ClearFailures ==> k !in s'.persistent)
            && (act.effect != ClearFailures ==> s.persistent <= s'.persistent)
  {
  }

  lemma StepDead(s: Paths, act: Act, domain: string, c: Config)
    ensures var s', k := Step(s, act, c).0, Lower(domain);
            && (k in s.dead ==> k in s'.dead)
            && (!Concerns(act, domain) ==> (k in s'.dead <==> k in s.dead))
            && (Concerns(act, domain) && DiesInDns(act) ==> k in s'.dead)
  {
    match act.effect
    case NoEffect =>
    case ClearFailures =>
    case CountFailure =>
  }

  /** What a verification answers from the two caches before it looks up anything. */
  function ShortCircuit(s: Paths, email: string, domain: string, forceRefresh: bool): Option<VerificationResult> {
    if forceRefresh then None
    else if Lower(domain) in s.persistent then Some(Escalated(Verdict(email, RetryLater, "", NoReason)))
    else if Lower(domain) in s.dead then Some(s.dead[Lower(domain)].(email := email))
    else None
  }

  /**
   * An accepted recipient clears the stamps and the persistent entry but not the
   * dead-domain entry: the next verification for the domain that may use the caches is
   * answered from them exactly when the domain was ever escalated, or ever found dead in
   * DNS by a verification that may use them.
   */
  lemma AcceptLeavesDeadEntry(acts: seq<Act>, accepted: Act, email: string, c: Config)
    requires c.windowMs > 0 && Timely(acts, accepted.now) && accepted.effect == ClearFailures
    ensures var s := Run(acts + [accepted], c);
            && Stamps(s.events, accepted.domain) == [] && Lower(accepted.domain) !in s.persistent
            && (ShortCircuit(s, email, accepted.domain, false).Some? <==> EverDead(acts, accepted.domain, c))
  {
    assert (acts + [accepted])[..|acts|] == acts;
    CachesAfterRun(acts, accepted.domain, c, accepted.now);
  }

  // ----- what the caches answer -----

  /** One verification as it ended. */
  datatype Verification = Verification(email: string, domain: string, outcome: Outcome, now: int)

  function Conclusions(vs: seq<Verification>, w: Wording): seq<Act> {
    seq(|vs|, i requires 0 <= i < |vs| => Conclusion(vs[i].email, vs[i].domain, vs[i].outcome, vs[i].now, w))
  }

  /** A cached verdict is that the domain does not exist, has no exchangers, or has failed repeatedly. */
  predicate IsDead(r: VerificationResult) {
    r.code == Undeliverable && r.reason in {DomainInvalid, NoMxRecords, MxUnreachablePersistent}
  }

  lemma {:induction false} DeadEntriesAreDead(vs: seq<Verification>, c: Config, w: Wording)
    ensures forall k :: k in Run(Conclusions(vs, w), c).dead ==> IsDead(Run(Conclusions(vs, w), c).dead[k])
  {
    if vs != [] {
      var v, front := vs[|vs| - 1], vs[..|vs| - 1];
      DeadEntriesAreDead(front, c, w);
      assert Conclusions(vs, w)[..|vs| - 1] == Conclusions(front, w);
      EffectsOfOutcomes(v.email, v.domain, v.outcome, v.now, w);
      StepEscalates(Run(Conclusions(front, w), c), Conclusion(v.email, v.domain, v.outcome, v.now, w), c);
    }
  }

  /**
   * After any run of verifications, whatever a later one is answered from the two caches is
   * about its own address and undeliverable: as repeatedly failed while the persistent entry
   * is there, and otherwise as DNS or an earlier escalation left it. A forced refresh is
   * never answered from them.
   */
  lemma CachedVerdicts(vs: seq<Verification>, c: Config, w: Wording, email: string, domain: string, forceRefresh: bool)
    ensures var s := Run(Conclusions(vs, w), c);
            var r := ShortCircuit(s, email, domain, forceRefresh);
            && (r.Some? <==> !forceRefresh && (Lower(domain) in s.persistent || Lower(domain) in s.dead))
            && (r.Some? ==> r.value.email == email && IsDead(r.value))
            && (r.Some? && Lower(domain) in s.persistent ==> IsPersistent(r.value, email))
  {
    DeadEntriesAreDead(vs, c, w);
  }
}
