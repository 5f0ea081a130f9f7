/** The probe over the MX hosts of a domain: retries, fallback to the next host, and failure accounting. */
module MxProbe {
  import opened Results
  import opened SmtpVerdict
  import ReplyReading

  /** What bounds the loops: retries a host, and the capped transient fallback. */
  datatype Config = Config(retries: nat, allowTransient: bool, maxExtra: nat, provider: Option<string>)

  /** The class of domains that belong to none of the large providers. */
  const OTHER := "other"

  datatype NetworkKind = NetTimeout | ConnectRefused | ConnectReset | ConnectError

  /** The accounting behind the loops: the host marked unhealthy and the failure reported for the provider. */
  datatype Accounting = Accounting(unhealthy: Option<string>, reported: Option<NetworkKind>)

  const NO_ACCOUNTING: Accounting := Accounting(None, None)

  predicate IsTransientRcptSuitableForNextMx(r: RcptResult) {
    if !r.Rcpt? then false
    else if r.class_ == ProviderBlock || (r.class_ == Temporary && r.providerBlock) then false
    else if r.class_ == Accept || r.semantic == MailboxOk || r.semantic == AcceptDeferred then false
    else if r.class_ == PermanentReject then false
    else if r.class_ == Temporary then true
    else
      || r.semantic == TempMailbox || r.semantic == TempLocal || r.semantic == ServiceUnavailable
      || r.semantic == InsufficientStorage || r.semantic == LimitExceeded
  }

  predicate CanTryAnotherMxForTransient(mxi: nat, mxCount: nat, extraTriesSoFar: nat, maxExtra: nat) {
    if mxi + 1 >= mxCount then false else if extraTriesSoFar >= maxExtra then false else true
  }

  predicate ListedErrno(errno: Option<string>) {
    errno.Some? && errno.value in {"ECONNREFUSED", "EHOSTUNREACH", "ENETUNREACH", "ETIMEDOUT", "ECONNRESET", "EPIPE"}
  }

  /** The result a session leaves behind. */
  function ResultOf(o: SessionOutcome): RcptResult {
    match o
    case Ended(r) => r
    case TimedOut(m) => MxFail(Timeout, m, None, Some(MapSmtpSocketErrno(Timeout, None)))
    case Threw(errno, m) => MxFail(Connect, m, errno, Some(MapSmtpSocketErrno(Connect, errno)))
  }

  predicate AnswersRcpt(o: SessionOutcome) {
    o.Ended? && o.result.Rcpt?
  }

  /** A protocol failure or one of the listed socket errors. */
  predicate CountsAsFailure(o: SessionOutcome) {
    (o.Ended? && !o.result.Rcpt?) || (o.Threw? && ListedErrno(o.errno))
  }

  // ----- the specification -----

  /** What follows a session: another attempt, the next host, a transient hop to it, or the end. */
  datatype After = Retry | NextHost | Hop | Stop

  function Decide(c: Config, n: nat, m: nat, a: nat, hops: nat, o: SessionOutcome): After {
    match o
    case Ended(r) =>
      if r.Rcpt? then
        if c.allowTransient && IsTransientRcptSuitableForNextMx(r) && CanTryAnotherMxForTransient(m, n, hops, c.maxExtra) then Hop
        else Stop
      else if m + 1 < n then NextHost
      else if a < c.retries then Retry
      else NextHost
    case TimedOut(_) => if a < c.retries then Retry else if m + 1 < n then NextHost else Stop
    case Threw(errno, _) => if ListedErrno(errno) || m + 1 < n then NextHost else Stop
  }

  /** The sessions made, the answer, and whether the accounting tail was reached. */
  datatype Walked = Walked(sessions: seq<(nat, nat)>, result: RcptResult, tail: bool)

  function From(s: (nat, nat), w: Walked): Walked {
    w.(sessions := [s] + w.sessions)
  }

  /** The probe from attempt `a` at host `m` on, after `hops` transient hops, with the last failure so far. */
  function Walk(c: Config, n: nat, oracle: (nat, nat) -> SessionOutcome, m: nat, a: nat, hops: nat, last: RcptResult): Walked
    requires m <= n && a <= c.retries
    decreases n - m, c.retries - a
  {
    if m == n then Walked([], if last.MxFail? then last else AllMxFailed, last.MxFail?)
    else
      var o := oracle(m, a);
      match Decide(c, n, m, a, hops, o)
      case Stop => Walked([(m, a)], ResultOf(o), false)
      case Hop => From((m, a), Walk(c, n, oracle, m + 1, 0, hops + 1, last))
      case Retry => From((m, a), if a < c.retries then Walk(c, n, oracle, m, a + 1, hops, ResultOf(o)) else Walked([], last, false))
      case NextHost => From((m, a), Walk(c, n, oracle, m + 1, 0, hops, ResultOf(o)))
  }

  function Account(c: Config, lastHost: string, lastFail: RcptResult): Accounting {
    if !lastFail.MxFail? then NO_ACCOUNTING
    else
      Accounting(
        if lastHost != "" then Some(lastHost) else None,
        if c.provider.None? || c.provider.value == OTHER then None
        else if lastFail.error == Timeout then Some(NetTimeout)
        else if lastFail.errno == Some("ECONNREFUSED") then Some(ConnectRefused)
        else if lastFail.errno == Some("ECONNRESET") || lastFail.errno == Some("EPIPE") || lastFail.errno == Some("ECONNABORTED") then
          Some(ConnectReset)
        else Some(ConnectError))
  }

  function Onward(sessions: seq<(nat, nat)>, w: Walked): Walked {
    w.(sessions := sessions + w.sessions)
  }

  /** The walk behind the sessions made so far, one session further. */
  lemma OnwardOne(c: Config, n: nat, oracle: (nat, nat) -> SessionOutcome, m: nat, a: nat, hops: nat, last: RcptResult, sessions: seq<(nat, nat)>)
    requires m < n && a <= c.retries
    ensures var o, goal := oracle(m, a), Onward(sessions, Walk(c, n, oracle, m, a, hops, last));
            var made := sessions + [(m, a)];
            match Decide(c, n, m, a, hops, o)
            case Stop => goal == Walked(made, ResultOf(o), false)
            case Hop => goal == Onward(made, Walk(c, n, oracle, m + 1, 0, hops + 1, last))
            case Retry => a < c.retries && goal == Onward(made, Walk(c, n, oracle, m, a + 1, hops, ResultOf(o)))
            case NextHost => goal == Onward(made, Walk(c, n, oracle, m + 1, 0, hops, ResultOf(o)))
  {
    var w := Walk(c, n, oracle, m, a, hops, last);
    assert sessions + w.sessions == sessions + [(m, a)] + w.sessions[1..];
  }

  // ----- the loops -----

  method ProbeRcpt(hosts: seq<string>, c: Config, oracle: (nat, nat) -> SessionOutcome)
    returns (result: RcptResult, accounting: Accounting, sessions: seq<(nat, nat)>)
    ensures var w := Walk(c, |hosts|, oracle, 0, 0, 0, AllMxFailed);
            && sessions == w.sessions && result == w.result
            && accounting == if w.tail then Account(c, hosts[|hosts| - 1], w.result) else NO_ACCOUNTING
  {
    sessions := [];
    var lastFail, lastHostTried, extraTransientHops := AllMxFailed, "", 0;
    ghost var goal := Walk(c, |hosts|, oracle, 0, 0, 0, AllMxFailed);
    var mxi := 0;
    while mxi < |hosts|
      invariant 0 <= mxi <= |hosts|
      invariant mxi > 0 ==> lastHostTried == hosts[mxi - 1]
      invariant mxi == 0 ==> lastFail == AllMxFailed
      invariant Onward(sessions, Walk(c, |hosts|, oracle, mxi, 0, extraTransientHops, lastFail)) == goal
    {
      lastHostTried := hosts[mxi];
      var answer;
      answer, lastFail, extraTransientHops, sessions := TryHost(mxi, |hosts|, c, oracle, lastFail, extraTransientHops, sessions);
      if answer.Some? {
        return answer.value, NO_ACCOUNTING, sessions;
      }
      mxi := mxi + 1;
    }
    accounting := Account(c, lastHostTried, lastFail);
    result := if lastFail.MxFail? then lastFail else AllMxFailed;
  }

  /** The attempts at one host: the answer that ends the probe, or none when the next host is due. */
  method TryHost(mxi: nat, n: nat, c: Config, oracle: (nat, nat) -> SessionOutcome, last: RcptResult, hops: nat, made: seq<(nat, nat)>)
    returns (answer: Option<RcptResult>, lastFail: RcptResult, extraTransientHops: nat, sessions: seq<(nat, nat)>)
    requires mxi < n
    ensures Onward(made, Walk(c, n, oracle, mxi, 0, hops, last)) ==
            if answer.Some? then Walked(sessions, answer.value, false)
            else Onward(sessions, Walk(c, n, oracle, mxi + 1, 0, extraTransientHops, lastFail))
  {
    lastFail, extraTransientHops, sessions := last, hops, made;
    var attempt := 0;
    while attempt <= c.retries
      invariant 0 <= attempt <= c.retries + 1
      invariant Onward(made, Walk(c, n, oracle, mxi, 0, hops, last)) ==
                Onward(sessions, if attempt <= c.retries then Walk(c, n, oracle, mxi, attempt, extraTransientHops, lastFail)
                                 else Walk(c, n, oracle, mxi + 1, 0, extraTransientHops, lastFail))
    {
      var o := oracle(mxi, attempt);
      OnwardOne(c, n, oracle, mxi, attempt, extraTransientHops, lastFail, sessions);
      sessions := sessions + [(mxi, attempt)];
      match o {
        case Ended(r) =>
          if r.Rcpt? {
            if c.allowTransient && IsTransientRcptSuitableForNextMx(r) &&
               CanTryAnotherMxForTransient(mxi, n, extraTransientHops, c.maxExtra) {
              return None, lastFail, extraTransientHops + 1, sessions;
            }
            return Some(r), lastFail, extraTransientHops, sessions;
          }
          lastFail := r;
          if mxi < n - 1 {
            return None, lastFail, extraTransientHops, sessions;
          }
        case TimedOut(m) =>
          lastFail := MxFail(Timeout, m, None, Some(MapSmtpSocketErrno(Timeout, None)));
          if attempt == c.retries {
            return if mxi < n - 1 then None else Some(lastFail), lastFail, extraTransientHops, sessions;
          }
        case Threw(errno, m) =>
          lastFail := MxFail(Connect, m, errno, Some(MapSmtpSocketErrno(Connect, errno)));
          return if ListedErrno(errno) || mxi < n - 1 then None else Some(lastFail), lastFail, extraTransientHops, sessions;
      }
      attempt := attempt + 1;
    }
    answer := None;
  }

  // ----- what every probe does -----

  /** Another attempt is made after a timeout, and on the last host after a protocol failure, while retries last. */
  predicate RetriesHere(c: Config, n: nat, s: (nat, nat), o: SessionOutcome) {
    s.1 < c.retries && (o.TimedOut? || (o.Ended? && !o.result.Rcpt? && s.0 + 1 >= n))
  }

  /** How many of these sessions got an answer for the recipient. */
  function Answers(oracle: (nat, nat) -> SessionOutcome, sessions: seq<(nat, nat)>): nat {
    if sessions == [] then 0
    else (if AnswersRcpt(oracle(sessions[0].0, sessions[0].1)) then 1 else 0) + Answers(oracle, sessions[1..])
  }

  /**
   * The answers that may be passed over for the next host: temporary ones that are neither a
   * block nor an accepted or deferred mailbox, and others whose semantic is temporary.
   */
  predicate MayBePassedOver(r: RcptResult) {
    && r.Rcpt? && r.semantic !in {MailboxOk, AcceptDeferred}
    && (if r.class_ == Temporary then !r.providerBlock
        else r.class_ !in {ProviderBlock, Accept, PermanentReject} &&
             r.semantic in {TempMailbox, TempLocal, ServiceUnavailable, InsufficientStorage, LimitExceeded})
  }

  /** One step of a walk is explained: when it stays on a host, and why an answer did not end it. */
  ghost predicate StepOk(c: Config, n: nat, oracle: (nat, nat) -> SessionOutcome, s: (nat, nat), t: (nat, nat)) {
    var o := oracle(s.0, s.1);
    && t == (if RetriesHere(c, n, s, o) then (s.0, s.1 + 1) else (s.0 + 1, 0))
    && (AnswersRcpt(o) ==> c.allowTransient && MayBePassedOver(o.result))
  }

  ghost predicate StepsOk(c: Config, n: nat, oracle: (nat, nat) -> SessionOutcome, s: seq<(nat, nat)>) {
    && (forall i :: 0 <= i < |s| ==> s[i].0 < n && s[i].1 <= c.retries)
    && (forall i :: 0 <= i < |s| - 1 ==> StepOk(c, n, oracle, s[i], s[i + 1]))
  }

  /** The answer is that of the last session. */
  predicate AnswerOf(o: SessionOutcome, r: RcptResult) {
    match o
    case Ended(own) => r == own
    case TimedOut(m) => r.MxFail? && r.error == Timeout && r.message == m && r.errno == None && r.socketReason == Some(SmtpTimeout)
    case Threw(errno, m) => r.MxFail? && r.error == Connect && r.message == m && r.errno == errno
  }

  /**
   * The last session gives the answer, decides about the accounting, and had to be the last.
   * Before the last host it answered for the recipient, and the answer could not be passed
   * over: fallback is off, the answer does not allow it, or the cap was reached. On the last
   * host a timeout or a protocol failure means that the retries are used up.
   */
  ghost predicate EndOk(c: Config, n: nat, oracle: (nat, nat) -> SessionOutcome, hops: nat, w: Walked)
    requires w.sessions != []
  {
    var k := |w.sessions| - 1;
    var (m, a) := w.sessions[k];
    var last := oracle(m, a);
    && AnswerOf(last, w.result)
    && (w.tail <==> CountsAsFailure(last) && m == n - 1)
    && (m < n - 1 ==>
          && AnswersRcpt(last)
          && (!c.allowTransient || !MayBePassedOver(last.result) || hops + Answers(oracle, w.sessions[..k]) >= c.maxExtra))
    && (m == n - 1 && (last.TimedOut? || (last.Ended? && !last.result.Rcpt?)) ==> a == c.retries)
  }

  /** The answers passed over are bounded by the cap and by the hosts left. */
  ghost predicate HopsOk(c: Config, n: nat, oracle: (nat, nat) -> SessionOutcome, m: nat, hops: nat, s: seq<(nat, nat)>)
    requires s != []
  {
    var passed := Answers(oracle, s[..|s| - 1]);
    && (hops <= c.maxExtra ==> hops + passed <= c.maxExtra)
    && (!c.allowTransient ==> passed == 0)
    && m + passed <= n - 1
  }

  /** The sessions of a probe from `(m, a)` on, after `hops` answers passed over. */
  ghost predicate Lawful(c: Config, n: nat, oracle: (nat, nat) -> SessionOutcome, m: nat, a: nat, hops: nat, w: Walked) {
    && w.sessions != [] && w.sessions[0] == (m, a)
    && StepsOk(c, n, oracle, w.sessions) && EndOk(c, n, oracle, hops, w)
    && (hops <= c.maxExtra ==> hops + Answers(oracle, w.sessions[..|w.sessions| - 1]) <= c.maxExtra)
  }

  ghost predicate WalkOk(c: Config, n: nat, oracle: (nat, nat) -> SessionOutcome, m: nat, a: nat, hops: nat, w: Walked) {
    Lawful(c, n, oracle, m, a, hops, w) && HopsOk(c, n, oracle, m, hops, w.sessions)
  }

  /** Sessions never end with the answer that stands for an empty host list. */
  ghost predicate RealSessions(oracle: (nat, nat) -> SessionOutcome) {
    forall m, a :: oracle(m, a).Ended? ==> oracle(m, a).result.Rcpt? || oracle(m, a).result.MxFail?
  }

  lemma StepsOneMore(c: Config, n: nat, oracle: (nat, nat) -> SessionOutcome, m: nat, a: nat, s: seq<(nat, nat)>)
    requires m < n && a <= c.retries && s != [] && StepsOk(c, n, oracle, s) && StepOk(c, n, oracle, (m, a), s[0])
    ensures StepsOk(c, n, oracle, [(m, a)] + s)
  {
    var t := [(m, a)] + s;
    forall i | 0 <= i < |t| - 1 ensures StepOk(c, n, oracle, t[i], t[i + 1]) {
      if i > 0 {
        assert t[i] == s[i - 1] && t[i + 1] == s[i - 1 + 1];
      }
    }
  }

  lemma HopsOneMore(c: Config, n: nat, oracle: (nat, nat) -> SessionOutcome, m: nat, a: nat, hops: nat, s: seq<(nat, nat)>)
    requires s != []
    requires var answered := AnswersRcpt(oracle(m, a));
             && (answered ==> c.allowTransient && hops < c.maxExtra)
             && m <= s[0].0 && (answered ==> m < s[0].0)
             && HopsOk(c, n, oracle, s[0].0, if answered then hops + 1 else hops, s)
    ensures HopsOk(c, n, oracle, m, hops, [(m, a)] + s)
  {
    var t, front := [(m, a)] + s, s[..|s| - 1];
    assert t[..|t| - 1] == [(m, a)] + front;
    assert ([(m, a)] + front)[1..] == front;
  }

  lemma EndOneMore(c: Config, n: nat, oracle: (nat, nat) -> SessionOutcome, m: nat, a: nat, hops: nat, hops': nat, w: Walked)
    requires w.sessions != [] && EndOk(c, n, oracle, hops', w)
    requires hops' == if AnswersRcpt(oracle(m, a)) then hops + 1 else hops
    ensures EndOk(c, n, oracle, hops, From((m, a), w))
  {
    var k := |w.sessions| - 1;
    var t := [(m, a)] + w.sessions;
    assert t[..k + 1] == [(m, a)] + w.sessions[..k];
    assert t[..k + 1][1..] == w.sessions[..k];
  }

  lemma WalkOneMore(c: Config, n: nat, oracle: (nat, nat) -> SessionOutcome, m: nat, a: nat, hops: nat,
                    m': nat, a': nat, hops': nat, w: Walked)
    requires m < n && a <= c.retries && WalkOk(c, n, oracle, m', a', hops', w)
    requires StepOk(c, n, oracle, (m, a), (m', a'))
    requires var answered := AnswersRcpt(oracle(m, a));
             hops' == (if answered then hops + 1 else hops) && (answered ==> c.allowTransient && hops < c.maxExtra)
    ensures WalkOk(c, n, oracle, m, a, hops, From((m, a), w))
  {
    StepsOneMore(c, n, oracle, m, a, w.sessions);
    HopsOneMore(c, n, oracle, m, a, hops, w.sessions);
    EndOneMore(c, n, oracle, m, a, hops, hops', w);
  }

  /** What each decision rests on. */
  lemma DecideLaw(c: Config, n: nat, oracle: (nat, nat) -> SessionOutcome, m: nat, a: nat, hops: nat)
    requires m < n && a <= c.retries
    ensures var o := oracle(m, a);
            var d := Decide(c, n, m, a, hops, o);
            && (d == Retry ==> a < c.retries && !AnswersRcpt(o) && StepOk(c, n, oracle, (m, a), (m, a + 1)))
            && (d == NextHost ==> !AnswersRcpt(o) && StepOk(c, n, oracle, (m, a), (m + 1, 0)))
            && (d == Hop ==> AnswersRcpt(o) && c.allowTransient && hops < c.maxExtra && m + 1 < n
                             && StepOk(c, n, oracle, (m, a), (m + 1, 0)))
  {
  }

  /** A walk that ends with its first session. */
  lemma LastSession(c: Config, n: nat, oracle: (nat, nat) -> SessionOutcome, m: nat, a: nat, hops: nat, last: RcptResult)
    requires m < n && a <= c.retries && RealSessions(oracle)
    requires var d := Decide(c, n, m, a, hops, oracle(m, a)); d == Stop || (d == NextHost && m + 1 == n)
    ensures WalkOk(c, n, oracle, m, a, hops, Walk(c, n, oracle, m, a, hops, last))
  {
    assert [(m, a)][..0] == [];
  }

  /** A walk goes on from where its first session leads. */
  lemma NextSession(c: Config, n: nat, oracle: (nat, nat) -> SessionOutcome, m: nat, a: nat, hops: nat, last: RcptResult,
                    m': nat, a': nat, hops': nat, last': RcptResult)
    requires m < n && a <= c.retries
    requires var d := Decide(c, n, m, a, hops, oracle(m, a));
             && d != Stop && (d != Retry ==> m + 1 < n)
             && (m', a') == (if d == Retry then (m, a + 1) else (m + 1, 0))
             && hops' == (if d == Hop then hops + 1 else hops)
             && last' == (if d == Hop then last else ResultOf(oracle(m, a)))
    requires m' < n && a' <= c.retries && WalkOk(c, n, oracle, m', a', hops', Walk(c, n, oracle, m', a', hops', last'))
    ensures WalkOk(c, n, oracle, m, a, hops, Walk(c, n, oracle, m, a, hops, last))
  {
    DecideLaw(c, n, oracle, m, a, hops);
    WalkOneMore(c, n, oracle, m, a, hops, m', a', hops', Walk(c, n, oracle, m', a', hops', last'));
  }

  lemma {:induction false} WalkLaw(c: Config, n: nat, oracle: (nat, nat) -> SessionOutcome, m: nat, a: nat, hops: nat, last: RcptResult)
    requires m < n && a <= c.retries && RealSessions(oracle)
    ensures WalkOk(c, n, oracle, m, a, hops, Walk(c, n, oracle, m, a, hops, last))
    decreases n - m, c.retries - a
  {
    var d, own := Decide(c, n, m, a, hops, oracle(m, a)), ResultOf(oracle(m, a));
    DecideLaw(c, n, oracle, m, a, hops);
    if d == Retry {
      WalkLaw(c, n, oracle, m, a + 1, hops, own);
      NextSession(c, n, oracle, m, a, hops, last, m, a + 1, hops, own);
    } else if d != Stop && m + 1 < n {
      var hops', last' := if d == Hop then hops + 1 else hops, if d == Hop then last else own;
      WalkLaw(c, n, oracle, m + 1, 0, hops', last');
      NextSession(c, n, oracle, m, a, hops, last, m + 1, 0, hops', last');
    } else {
      LastSession(c, n, oracle, m, a, hops, last);
    }
  }

  /**
   * Every probe, for every behaviour of the servers: it visits the hosts in order
   * without going back or skipping, with at most retries-plus-one sessions a host
   * and at most the capped number of transient hops; its answer is that of the
   * last session; and the accounting is reached exactly when that session ended in
   * a protocol failure or a listed socket error.
   */
  lemma ProbeLaw(c: Config, n: nat, oracle: (nat, nat) -> SessionOutcome)
    requires RealSessions(oracle)
    ensures var w := Walk(c, n, oracle, 0, 0, 0, AllMxFailed);
            && (w.result == AllMxFailed <==> n == 0)
            && (n == 0 ==> w.sessions == [] && !w.tail)
            && (n > 0 ==> WalkOk(c, n, oracle, 0, 0, 0, w))
  {
    if n > 0 {
      WalkLaw(c, n, oracle, 0, 0, 0, AllMxFailed);
    }
  }

  /** Whether a probe goes on behind session `(m, a)` with outcome `o`. */
  predicate GoesOn(c: Config, n: nat, m: nat, a: nat, hops: nat, o: SessionOutcome) {
    if AnswersRcpt(o) then m + 1 < n && c.allowTransient && MayBePassedOver(o.result) && hops < c.maxExtra
    else m + 1 < n || (a < c.retries && !o.Threw?)
  }

  lemma FirstGoesOn(c: Config, n: nat, oracle: (nat, nat) -> SessionOutcome, m: nat, a: nat, hops: nat, w: Walked)
    requires m < n && a <= c.retries && hops <= c.maxExtra && Lawful(c, n, oracle, m, a, hops, w)
    ensures |w.sessions| > 1 <==> GoesOn(c, n, m, a, hops, oracle(m, a))
  {
    var front := w.sessions[..|w.sessions| - 1];
    if |w.sessions| > 1 {
      assert StepOk(c, n, oracle, w.sessions[0], w.sessions[0 + 1]);
      assert front[0] == (m, a);
    } else {
      assert front == [];
    }
  }

  lemma LawfulRest(c: Config, n: nat, oracle: (nat, nat) -> SessionOutcome, m: nat, a: nat, hops: nat, w: Walked)
    requires Lawful(c, n, oracle, m, a, hops, w) && |w.sessions| > 1 && hops <= c.maxExtra
    ensures var hops' := if AnswersRcpt(oracle(m, a)) then hops + 1 else hops;
            && hops' <= c.maxExtra
            && Lawful(c, n, oracle, w.sessions[1].0, w.sessions[1].1, hops', w.(sessions := w.sessions[1..]))
  {
    var s, t := w.sessions, w.sessions[1..];
    forall i | 0 <= i < |t| - 1 ensures StepOk(c, n, oracle, t[i], t[i + 1]) {
      assert StepOk(c, n, oracle, s[i + 1], s[i + 1 + 1]);
    }
    assert s[..|s| - 1][1..] == t[..|t| - 1];
  }

  /** Two lawful probes from the same session on are one: the conditions leave no choice. */
  lemma {:induction false} OneWayOnly(c: Config, n: nat, oracle: (nat, nat) -> SessionOutcome, m: nat, a: nat, hops: nat, v: Walked, w: Walked)
    requires m < n && a <= c.retries && hops <= c.maxExtra
    requires Lawful(c, n, oracle, m, a, hops, v) && Lawful(c, n, oracle, m, a, hops, w)
    ensures v.sessions == w.sessions
    decreases |v.sessions|
  {
    FirstGoesOn(c, n, oracle, m, a, hops, v);
    FirstGoesOn(c, n, oracle, m, a, hops, w);
    if |v.sessions| > 1 {
      assert StepOk(c, n, oracle, v.sessions[0], v.sessions[0 + 1]) && StepOk(c, n, oracle, w.sessions[0], w.sessions[0 + 1]);
      LawfulRest(c, n, oracle, m, a, hops, v);
      LawfulRest(c, n, oracle, m, a, hops, w);
      OneWayOnly(c, n, oracle, v.sessions[1].0, v.sessions[1].1, if AnswersRcpt(oracle(m, a)) then hops + 1 else hops,
                 v.(sessions := v.sessions[1..]), w.(sessions := w.sessions[1..]));
      assert v.sessions == [(m, a)] + v.sessions[1..] && w.sessions == [(m, a)] + w.sessions[1..];
    }
  }

  /** The sessions of a probe are the one sequence that obeys its conditions, and its accounting follows. */
  lemma ProbeExactly(c: Config, n: nat, oracle: (nat, nat) -> SessionOutcome, v: Walked)
    requires RealSessions(oracle) && n > 0
    ensures var w := Walk(c, n, oracle, 0, 0, 0, AllMxFailed);
            && Lawful(c, n, oracle, 0, 0, 0, w)
            && (Lawful(c, n, oracle, 0, 0, 0, v) ==> v.sessions == w.sessions && v.tail == w.tail)
  {
    var w := Walk(c, n, oracle, 0, 0, 0, AllMxFailed);
    ProbeLaw(c, n, oracle);
    if Lawful(c, n, oracle, 0, 0, 0, v) {
      OneWayOnly(c, n, oracle, 0, 0, 0, v, w);
    }
  }

  /** No host before the last one tried is left out. */
  lemma {:induction false} NoHostSkipped(c: Config, n: nat, oracle: (nat, nat) -> SessionOutcome, s: seq<(nat, nat)>, h: nat) returns (i: nat)
    requires s != [] && s[0].0 == 0 && StepsOk(c, n, oracle, s) && h <= s[|s| - 1].0
    ensures i < |s| && s[i].0 == h
  {
    if h == s[|s| - 1].0 {
      i := |s| - 1;
    } else {
      var k := |s| - 2;
      assert StepOk(c, n, oracle, s[k], s[k + 1]);
      var front := s[..|s| - 1];
      forall j | 0 <= j < |front| - 1 ensures StepOk(c, n, oracle, front[j], front[j + 1]) {
        assert StepOk(c, n, oracle, s[j], s[j + 1]);
      }
      i := NoHostSkipped(c, n, oracle, front, h);
    }
  }

  /**
   * A probe gives up early on nobody: unless its last session answered for the recipient,
   * every host was tried, and a timeout or protocol failure at the end is the last retry.
   */
  lemma EveryHostIsTried(c: Config, n: nat, oracle: (nat, nat) -> SessionOutcome, h: nat) returns (i: nat)
    requires RealSessions(oracle) && h < n
    requires var s := Walk(c, n, oracle, 0, 0, 0, AllMxFailed).sessions;
             s != [] ==> !AnswersRcpt(oracle(s[|s| - 1].0, s[|s| - 1].1))
    ensures var s := Walk(c, n, oracle, 0, 0, 0, AllMxFailed).sessions;
            && i < |s| && s[i].0 == h
            && s[|s| - 1].0 == n - 1
            && (!oracle(n - 1, s[|s| - 1].1).Threw? ==> s[|s| - 1].1 == c.retries)
  {
    ProbeLaw(c, n, oracle);
    i := NoHostSkipped(c, n, oracle, Walk(c, n, oracle, 0, 0, 0, AllMxFailed).sessions, h);
  }

  /** Of the replies to a recipient, those with an unblocked 4xx or 552 may be passed over, and no others. */
  lemma PassedOverReplies(code: nat, lines: seq<string>, w: Wording, r: RcptResult)
    ensures MayBePassedOver(RcptOf(code, lines, w)) <==>
            (400 <= code < 500 || code == 552) && !w.blocked(JoinSmtpText(lines))
    ensures IsTransientRcptSuitableForNextMx(r) <==> MayBePassedOver(r)
  {
  }

  /**
   * The accounting behind the loops: it is reached exactly when the last host's last session
   * ended in a protocol failure or one of six socket errors; the last host is then marked,
   * and to a large provider a refusal is reported as such, a reset or broken pipe as a reset,
   * and anything else as a failed connection.
   */
  lemma AccountingExactly(c: Config, n: nat, oracle: (nat, nat) -> SessionOutcome, host: string)
    requires RealSessions(oracle) && n > 0 && host != ""
    requires forall m, a :: oracle(m, a).Ended? && oracle(m, a).result.MxFail? ==>
                              oracle(m, a).result.error == Protocol && oracle(m, a).result.errno == None
    ensures var w := Walk(c, n, oracle, 0, 0, 0, AllMxFailed);
            var (m, a) := w.sessions[|w.sessions| - 1];
            var last := oracle(m, a);
            && (w.tail <==>
                  && m == n - 1
                  && (if last.Threw? then last.errno in {Some("ECONNREFUSED"), Some("EHOSTUNREACH"), Some("ENETUNREACH"),
                                                         Some("ETIMEDOUT"), Some("ECONNRESET"), Some("EPIPE")}
                      else last.Ended? && !last.result.Rcpt?))
            && (w.tail ==>
                  Account(c, host, w.result) ==
                  Accounting(Some(host),
                             if c.provider.None? || c.provider == Some("other") then None
                             else if last.Threw? && last.errno == Some("ECONNREFUSED") then Some(ConnectRefused)
                             else if last.Threw? && last.errno in {Some("ECONNRESET"), Some("EPIPE")} then Some(ConnectReset)
                             else Some(ConnectError)))
  {
    ProbeLaw(c, n, oracle);
  }

  /** The accounting never sees a timeout, nor ECONNABORTED: those branches of the tail are dead code. */
  lemma TailNeverSeesTimeout(c: Config, n: nat, oracle: (nat, nat) -> SessionOutcome, host: string)
    requires RealSessions(oracle)
    requires forall m, a :: oracle(m, a).Ended? && oracle(m, a).result.MxFail? ==>
                              oracle(m, a).result.error == Protocol && oracle(m, a).result.errno == None
    ensures var w := Walk(c, n, oracle, 0, 0, 0, AllMxFailed);
            w.tail ==>
              && w.result.MxFail? && w.result.error != Timeout && w.result.errno != Some("ECONNABORTED")
              && (var kind := Account(c, host, w.result).reported;
                  c.provider.Some? && c.provider.value != OTHER ==> kind.Some? && kind != Some(NetTimeout))
  {
    ProbeLaw(c, n, oracle);
  }

  /** What a session returns itself is an answer or a protocol failure, as the probe relies on. */
  lemma SessionResults(read: nat -> ReplyReading.Response, w: Wording)
    ensures Session(read, w).Ended? ==>
              var r := Session(read, w).result;
              r.Rcpt? || (r.MxFail? && r.error == Protocol && r.errno == None && r.socketReason in {None, Some(SmtpConnectFailed)})
  {
  }

  /** Along a walk no pair of host and attempt comes twice: later sessions are later in the order. */
  lemma {:induction false} NeverBack(c: Config, n: nat, oracle: (nat, nat) -> SessionOutcome, w: Walked, i: nat, k: nat)
    requires WalkOk(c, n, oracle, 0, 0, 0, w) && i < k < |w.sessions|
    ensures var s, t := w.sessions[i], w.sessions[k];
            s.0 < t.0 || (s.0 == t.0 && s.1 < t.1)
    ensures w.sessions[i].0 <= w.sessions[k].0
    decreases k - i
  {
    if i + 1 < k {
      NeverBack(c, n, oracle, w, i, k - 1);
    }
    assert StepOk(c, n, oracle, w.sessions[k - 1], w.sessions[k - 1 + 1]);
  }
}
