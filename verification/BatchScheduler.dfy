/**
 * One batch running inside the station: domain groups, their addresses, the other
 * verifications that share the station-wide limiter, and the verifications of
 * asynchronous jobs, which skip it but share the provider limiters, as tasks moving
 * through stages. Every p-limit limiter is its counter of active tasks and its
 * first-in-first-out queue. Steps interleave freely.
 */
module BatchScheduler {
  import opened Results

  type Email = string
  type Provider = string

  /** A group of the batch, an address of a group, a limited verification outside this batch, or one of a job. */
  datatype Task = Group(g: nat) | Item(g: nat, i: nat) | Other(n: nat) | Job(n: nat)

  /** A slot is what a limiter hands out. */
  datatype Slot = GroupSlot | InnerSlot(g: nat) | VerifySlot | SmtpSlot(p: Provider)

  datatype Stage =
    | WaitGroup | Open | Closed(recorded: nat, aborted: bool)
    | Outside | WaitInner | WaitVerify | Verifying | WaitSmtp(p: Provider) | Probing(p: Provider) | Probed | Returned | Settled

  datatype Limiter = Limiter(active: nat, queue: seq<Task>)

  /** How `verifyItemNeverThrows` ended for an address. */
  datatype Outcome = Fulfilled(result: VerificationResult) | Rejected(reason: string)

  /**
   * `groups` lists the addresses of each domain, `others` and `jobs` count the foreign
   * verifications, and the four capacities are the configured ones.
   */
  datatype Setup = Setup(groups: seq<seq<Email>>, others: nat, jobs: nat,
                         groupCap: nat, innerCap: nat, verifyCap: nat, smtpCap: nat)
  {
    ghost predicate Valid() {
      groupCap >= 1 && innerCap >= 1 && verifyCap >= 1 && smtpCap >= 1
    }

    predicate HasTask(t: Task) {
      match t
      case Group(g) => g < |groups|
      case Item(g, i) => g < |groups| && i < |groups[g]|
      case Other(n) => n < others
      case Job(n) => n < jobs
    }

    function Cap(s: Slot): nat {
      match s
      case GroupSlot => groupCap
      case InnerSlot(_) => innerCap
      case VerifySlot => verifyCap
      case SmtpSlot(_) => smtpCap
    }
  }

  /** `limiters` holds the limiters created so far; a slot without one has an idle one. */
  datatype State = State(limiters: map<Slot, Limiter>, stage: map<Task, Stage>, results: map<Email, VerificationResult>)
  {
    function At(s: Slot): Limiter {
      if s in limiters then limiters[s] else Limiter(0, [])
    }

    function With(s: Slot, l: Limiter): State {
      this.(limiters := limiters[s := l])
    }

    function Put(t: Task, st: Stage): State {
      this.(stage := stage[t := st])
    }
  }

  datatype Event =
    | GroupStart
    | GroupThrow
    | InnerStart(g: nat)
    | Arrive(n: nat)
    | JobStart(n: nat)
    | VerifyStart
    | NeedSmtp(t: Task, p: Provider)
    | SmtpStart(p: Provider)
    | SmtpDone(t: Task)
    | VerifyDone(t: Task)
    | InnerDone(g: nat, i: nat)
    | GroupEnd(g: nat, recorded: nat)

  // ----- which stage waits for, or holds, which slot -----

  predicate Waits(s: Slot, t: Task, st: Stage) {
    match s
    case GroupSlot => st == WaitGroup
    case InnerSlot(g) => t.Item? && t.g == g && st == WaitInner
    case VerifySlot => st == WaitVerify
    case SmtpSlot(p) => st == WaitSmtp(p)
  }

  predicate InVerify(st: Stage) {
    st == Verifying || st.WaitSmtp? || st.Probing? || st == Probed
  }

  predicate Holds(s: Slot, t: Task, st: Stage) {
    match s
    case GroupSlot => st == Open
    case InnerSlot(g) => t.Item? && t.g == g && (st == WaitVerify || InVerify(st) || st == Returned)
    case VerifySlot => !t.Job? && InVerify(st)
    case SmtpSlot(p) => st == Probing(p)
  }

  // ----- the steps -----

  function Submit(l: Limiter, t: Task): Limiter {
    l.(queue := l.queue + [t])
  }

  predicate CanStart(u: Setup, st: State, s: Slot) {
    st.At(s).active < u.Cap(s) && st.At(s).queue != []
  }

  function Next(st: State, s: Slot): Task
    requires st.At(s).queue != []
  {
    st.At(s).queue[0]
  }

  function Started(l: Limiter): Limiter
    requires l.queue != []
  {
    Limiter(l.active + 1, l.queue[1..])
  }

  function Released(l: Limiter): Limiter {
    l.(active := if l.active > 0 then l.active - 1 else 0)
  }

  function ItemsFrom(u: Setup, g: nat, i: nat): seq<Task>
    requires g < |u.groups| && i <= |u.groups[g]|
    decreases |u.groups[g]| - i
  {
    if i == |u.groups[g]| then [] else [Item(g, i)] + ItemsFrom(u, g, i + 1)
  }

  predicate Enabled(u: Setup, st: State, e: Event) {
    match e
    case GroupStart => CanStart(u, st, GroupSlot) && u.HasTask(Next(st, GroupSlot)) && Next(st, GroupSlot).Group?
    case GroupThrow => CanStart(u, st, GroupSlot) && u.HasTask(Next(st, GroupSlot)) && Next(st, GroupSlot).Group?
    case InnerStart(g) => CanStart(u, st, InnerSlot(g))
    case Arrive(n) => Other(n) in st.stage && st.stage[Other(n)] == Outside
    case JobStart(n) => Job(n) in st.stage && st.stage[Job(n)] == Outside
    case VerifyStart => CanStart(u, st, VerifySlot)
    case NeedSmtp(t, _) => t in st.stage && st.stage[t] == Verifying
    case SmtpStart(p) => CanStart(u, st, SmtpSlot(p))
    case SmtpDone(t) => t in st.stage && st.stage[t].Probing?
    case VerifyDone(t) => t in st.stage && (st.stage[t] == Verifying || st.stage[t] == Probed)
    case InnerDone(g, i) => Item(g, i) in st.stage && st.stage[Item(g, i)] == Returned
    case GroupEnd(g, k) =>
      && g < |u.groups| && k <= |u.groups[g]|
      && Group(g) in st.stage && st.stage[Group(g)] == Open
      && forall i :: 0 <= i < |u.groups[g]| ==> Item(g, i) in st.stage && st.stage[Item(g, i)] == Settled
  }

  /** The stage a verification is left in: an address reports to its group, the others are done. */
  function AfterVerify(t: Task): Stage {
    if t.Item? then Returned else Settled
  }

  function ItemResult(email: Email, o: Outcome): VerificationResult {
    match o
    case Fulfilled(r) => r
    case Rejected(reason) => VerificationResult(email, SystemError, reason, SystemErrorReason)
  }

  /** The recording loop of a group over its first `k` addresses. */
  function Recorded(results: map<Email, VerificationResult>, emails: seq<Email>, k: nat, oracle: Email -> Outcome):
    map<Email, VerificationResult>
    requires k <= |emails|
  {
    if k == 0 then results
    else Recorded(results, emails, k - 1, oracle)[emails[k - 1] := ItemResult(emails[k - 1], oracle(emails[k - 1]))]
  }

  function Step(u: Setup, oracle: Email -> Outcome, st: State, e: Event): State
    requires Enabled(u, st, e)
  {
    match e
    case GroupStart =>
      var t := Next(st, GroupSlot);
      var items := ItemsFrom(u, t.g, 0);
      var entered := map x | x in items :: WaitInner;
      st.With(GroupSlot, Started(st.At(GroupSlot))).With(InnerSlot(t.g), Limiter(0, items))
      .(stage := st.stage[t := Open] + entered)
    case GroupThrow =>
      var t := Next(st, GroupSlot);
      st.With(GroupSlot, Released(Started(st.At(GroupSlot)))).Put(t, Closed(0, true))
    case InnerStart(g) =>
      var t := Next(st, InnerSlot(g));
      st.With(InnerSlot(g), Started(st.At(InnerSlot(g)))).With(VerifySlot, Submit(st.At(VerifySlot), t)).Put(t, WaitVerify)
    case Arrive(n) =>
      st.With(VerifySlot, Submit(st.At(VerifySlot), Other(n))).Put(Other(n), WaitVerify)
    case JobStart(n) => st.Put(Job(n), Verifying)
    case VerifyStart =>
      st.With(VerifySlot, Started(st.At(VerifySlot))).Put(Next(st, VerifySlot), Verifying)
    case NeedSmtp(t, p) =>
      st.With(SmtpSlot(p), Submit(st.At(SmtpSlot(p)), t)).Put(t, WaitSmtp(p))
    case SmtpStart(p) =>
      st.With(SmtpSlot(p), Started(st.At(SmtpSlot(p)))).Put(Next(st, SmtpSlot(p)), Probing(p))
    case SmtpDone(t) =>
      var s := SmtpSlot(st.stage[t].p);
      st.With(s, Released(st.At(s))).Put(t, Probed)
    case VerifyDone(t) =>
      if t.Job? then st.Put(t, Settled)
      else st.With(VerifySlot, Released(st.At(VerifySlot))).Put(t, AfterVerify(t))
    case InnerDone(g, i) =>
      st.With(InnerSlot(g), Released(st.At(InnerSlot(g)))).Put(Item(g, i), Settled)
    case GroupEnd(g, k) =>
      st.With(GroupSlot, Released(st.At(GroupSlot))).Put(Group(g), Closed(k, false))
      .(results := Recorded(st.results, u.groups[g], k, oracle))
  }

  // ----- the start -----

  function GroupTasks(g: nat, n: nat): seq<Task>
    requires g <= n
    decreases n - g
  {
    if g == n then [] else [Group(g)] + GroupTasks(g + 1, n)
  }

  /** Every task there is, group after group, then the others. */
  function AllItems(u: Setup, g: nat): seq<Task>
    requires g <= |u.groups|
    decreases |u.groups| - g
  {
    if g == |u.groups| then [] else ItemsFrom(u, g, 0) + AllItems(u, g + 1)
  }

  function OtherTasks(n: nat): seq<Task> {
    if n == 0 then [] else OtherTasks(n - 1) + [Other(n - 1)]
  }

  function JobTasks(n: nat): seq<Task> {
    if n == 0 then [] else JobTasks(n - 1) + [Job(n - 1)]
  }

  /** The tasks of the batch itself. */
  function OwnTasks(u: Setup): seq<Task> {
    GroupTasks(0, |u.groups|) + AllItems(u, 0)
  }

  function Tasks(u: Setup): seq<Task> {
    OwnTasks(u) + OtherTasks(u.others) + JobTasks(u.jobs)
  }

  function InitialStage(t: Task): Stage {
    if t.Group? then WaitGroup else Outside
  }

  function Initial(u: Setup): State {
    State(map[GroupSlot := Limiter(0, GroupTasks(0, |u.groups|))], map t | t in Tasks(u) :: InitialStage(t), map[])
  }

  ghost predicate Feasible(u: Setup, oracle: Email -> Outcome, st: State, run: seq<Event>)
    decreases |run|
  {
    run == [] || (Enabled(u, st, run[0]) && Feasible(u, oracle, Step(u, oracle, st, run[0]), run[1..]))
  }

  ghost function Exec(u: Setup, oracle: Email -> Outcome, st: State, run: seq<Event>): State
    requires Feasible(u, oracle, st, run)
    decreases |run|
  {
    if run == [] then st else Exec(u, oracle, Step(u, oracle, st, run[0]), run[1..])
  }
}
