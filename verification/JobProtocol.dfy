/**
 * The asynchronous job queue as a transition system. One World value is the
 * module state (`jobs`, `queue`, `running`), the unfinished callbacks (started
 * jobs and scheduled `setImmediate(pump)` calls) and a history used by the
 * theorems. Job ids are fresh, as random 128-bit ids are taken to be.
 */
module JobProtocol {
  import opened Results
  import opened StableSort

  type JobId = string

  datatype Status = Pending | Processing | Completed | Failed

  datatype Job = Job(id: JobId, email: string, createdAt: int, status: Status,
                     result: Option<VerificationResult>, errorMessage: Option<string>)
  {
    predicate Terminal() { status == Completed || status == Failed }
  }

  /** How the verification of a job ended. */
  datatype Outcome = Returned(result: VerificationResult) | Threw(message: string)

  datatype Stage = Verifying | Posting

  /** A started job whose asynchronous body has not finished: verifying, then posting the webhook. */
  datatype Flight = Flight(id: JobId, stage: Stage)

  /** `jobs` lists the entries of the job map in insertion order. */
  datatype State = State(jobs: seq<Job>, queue: seq<JobId>, running: bool, flights: seq<Flight>, pumps: nat)

  datatype World = World(st: State, accepted: seq<JobId>, started: seq<JobId>, evicted: set<JobId>)

  datatype Event =
    | Enqueue(id: JobId, email: string, now: int)
    | PumpTick
    | VerifyDone(flight: nat, outcome: Outcome)
    | WebhookDone(flight: nat)

  const IDLE: World := World(State([], [], false, [], 0), [], [], {})

  // ----- the job map -----

  function CreatedAt(j: Job): int { j.createdAt }

  function Find(jobs: seq<Job>, id: JobId): Option<Job> {
    if jobs == [] then None else if jobs[0].id == id then Some(jobs[0]) else Find(jobs[1..], id)
  }

  function Without(jobs: seq<Job>, id: JobId): seq<Job> {
    if jobs == [] then []
    else if jobs[0].id == id then Without(jobs[1..], id)
    else [jobs[0]] + Without(jobs[1..], id)
  }

  function Replace(jobs: seq<Job>, id: JobId, j: Job): seq<Job> {
    if jobs == [] then [] else [if jobs[0].id == id then j else jobs[0]] + Replace(jobs[1..], id, j)
  }

  function Terminals(jobs: seq<Job>): seq<Job> {
    if jobs == [] then []
    else if jobs[0].Terminal() then [jobs[0]] + Terminals(jobs[1..])
    else Terminals(jobs[1..])
  }

  /** The ids of the jobs in a given status, in insertion order. */
  function IdsWith(jobs: seq<Job>, status: Status): seq<JobId> {
    if jobs == [] then []
    else if jobs[0].status == status then [jobs[0].id] + IdsWith(jobs[1..], status)
    else IdsWith(jobs[1..], status)
  }

  /** The jobs eviction may not touch. */
  function Unfinished(jobs: seq<Job>): seq<Job> {
    if jobs == [] then []
    else if !jobs[0].Terminal() then [jobs[0]] + Unfinished(jobs[1..])
    else Unfinished(jobs[1..])
  }

  ghost function Ids(jobs: seq<Job>): set<JobId> { set j | j in jobs :: j.id }

  ghost predicate DistinctIds(jobs: seq<Job>) {
    forall i, k :: 0 <= i < k < |jobs| ==> jobs[i].id != jobs[k].id
  }

  // ----- the transitions -----

  /** Deletes oldest finished jobs until there is room or nothing finished is left. */
  function EvictOld(jobs: seq<Job>, max: nat): seq<Job>
    decreases |jobs|
  {
    var terminals := Terminals(jobs);
    if |jobs| < max || terminals == [] then jobs
    else
      OldestLaw(jobs);
      WithoutShrinks(jobs, Oldest(jobs));
      EvictOld(Without(jobs, Oldest(jobs).id), max)
  }

  /** The head of the finished jobs after the stable sort by creation time. */
  function Oldest(jobs: seq<Job>): Job
    requires Terminals(jobs) != []
  {
    SortSorts(Terminals(jobs), CreatedAt);
    Sort(Terminals(jobs), CreatedAt)[0]
  }

  function DoEnqueue(st: State, id: JobId, email: string, now: int, max: nat): (State, bool) {
    var jobs := EvictOld(st.jobs, max);
    if |jobs| >= max then (st.(jobs := jobs), false)
    else
      (st.(jobs := jobs + [Job(id, email, now, Pending, None, None)], queue := st.queue + [id], pumps := st.pumps + 1),
       true)
  }

  function DoPump(st: State): State
    requires st.pumps > 0
  {
    var s := st.(pumps := st.pumps - 1);
    if s.running || s.queue == [] then s
    else
      var id, rest := s.queue[0], s.queue[1..];
      match Find(s.jobs, id)
      case Some(j) =>
        if j.status == Pending then
          s.(jobs := Replace(s.jobs, id, j.(status := Processing)), queue := rest,
          running := true, flights := s.flights + [Flight(id, Verifying)])
        else s.(queue := rest, pumps := s.pumps + 1)
      case None => s.(queue := rest, pumps := s.pumps + 1)
  }

  function Finished(j: Job, outcome: Outcome): Job {
    match outcome
    case Returned(r) => j.(status := Completed, result := Some(r))
    case Threw(m) => j.(status := Failed, errorMessage := Some(m))
  }

  function DoVerifyDone(st: State, k: nat, outcome: Outcome): State
    requires k < |st.flights|
  {
    var id := st.flights[k].id;
    var jobs := match Find(st.jobs, id)
      case Some(j) => Replace(st.jobs, id, Finished(j, outcome))
      case None => st.jobs;
    st.(jobs := jobs, flights := st.flights[k := Flight(id, Posting)])
  }

  function DoWebhookDone(st: State, k: nat): State
    requires k < |st.flights|
  {
    st.(running := false, flights := st.flights[..k] + st.flights[k + 1..],
    pumps := if |st.queue| > 0 then st.pumps + 1 else st.pumps)
  }

  predicate Enabled(w: World, e: Event) {
    match e
    case Enqueue(id, _, _) => id !in w.accepted
    case PumpTick => w.st.pumps > 0
    case VerifyDone(k, _) => k < |w.st.flights| && w.st.flights[k].stage == Verifying
    case WebhookDone(k) => k < |w.st.flights| && w.st.flights[k].stage == Posting
  }

  ghost function Step(w: World, e: Event, max: nat): World
    requires Enabled(w, e)
  {
    match e
    case Enqueue(id, email, now) =>
      var (st, ok) := DoEnqueue(w.st, id, email, now, max);
      var gone := Ids(w.st.jobs) - Ids(EvictOld(w.st.jobs, max));
      w.(st := st, accepted := if ok then w.accepted + [id] else w.accepted, evicted := w.evicted + gone)
    case PumpTick =>
      var st := DoPump(w.st);
      w.(st := st, started := if |st.flights| > |w.st.flights| then w.started + [w.st.queue[0]] else w.started)
    case VerifyDone(k, outcome) => w.(st := DoVerifyDone(w.st, k, outcome))
    case WebhookDone(k) => w.(st := DoWebhookDone(w.st, k))
  }

  ghost predicate Feasible(w: World, run: seq<Event>, max: nat)
    decreases |run|
  {
    run == [] || (Enabled(w, run[0]) && Feasible(Step(w, run[0], max), run[1..], max))
  }

  ghost function Exec(w: World, run: seq<Event>, max: nat): World
    requires Feasible(w, run, max)
    decreases |run|
  {
    if run == [] then w else Exec(Step(w, run[0], max), run[1..], max)
  }

  // ----- facts about the job map -----

  lemma {:induction false} TerminalsMembers(jobs: seq<Job>)
    ensures forall j :: j in Terminals(jobs) <==> j in jobs && j.Terminal()
  {
    if jobs != [] {
      TerminalsMembers(jobs[1..]);
      assert jobs == [jobs[0]] + jobs[1..];
    }
  }

  /** What sorting by creation time and taking the head selects. */
  lemma OldestLaw(jobs: seq<Job>)
    requires Terminals(jobs) != []
    ensures Oldest(jobs) in jobs && Oldest(jobs).Terminal()
    ensures forall j :: j in jobs && j.Terminal() ==> Oldest(jobs).createdAt <= j.createdAt
  {
    var t := Terminals(jobs);
    var sorted := Sort(t, CreatedAt);
    SortSorts(t, CreatedAt);
    SortPermutes(t, CreatedAt);
    TerminalsMembers(jobs);
    assert sorted[0] in multiset(t);
    forall j | j in jobs && j.Terminal() ensures sorted[0].createdAt <= j.createdAt {
      assert j in multiset(sorted);
      var i :| 0 <= i < |sorted| && sorted[i] == j;
      assert CreatedAt(sorted[0]) <= CreatedAt(sorted[i]);
    }
  }

  lemma {:induction false} TerminalAt(jobs: seq<Job>, i: nat) returns (m: nat)
    requires i < |jobs| && jobs[i].Terminal()
    ensures m < |Terminals(jobs)| && Terminals(jobs)[m] == jobs[i]
    ensures forall n :: 0 <= n <= m ==> Terminals(jobs)[n] in jobs[..i + 1]
  {
    if i == 0 {
      m := 0;
    } else {
      m := TerminalAt(jobs[1..], i - 1);
      assert jobs[..i + 1] == [jobs[0]] + jobs[1..][..i];
      if jobs[0].Terminal() {
        m := m + 1;
        forall n | 0 <= n <= m ensures Terminals(jobs)[n] in jobs[..i + 1] {
          if n > 0 {
            assert Terminals(jobs)[n] == Terminals(jobs[1..])[n - 1];
          }
        }
      }
    }
  }

  /** Of finished jobs created at the same time the one stored first is selected. */
  lemma OldestIsFirst(jobs: seq<Job>, i: nat)
    requires Terminals(jobs) != []
    requires i < |jobs| && jobs[i].Terminal() && jobs[i].createdAt == Oldest(jobs).createdAt
    ensures Oldest(jobs) in jobs[..i + 1]
  {
    var m := TerminalAt(jobs, i);
    SortSorts(Terminals(jobs), CreatedAt);
    var k := HeadIsFirst(Terminals(jobs), CreatedAt, m);
  }

  lemma {:induction false} WithoutMembers(jobs: seq<Job>, id: JobId)
    ensures forall j :: j in Without(jobs, id) <==> j in jobs && j.id != id
    ensures |Without(jobs, id)| <= |jobs|
  {
    if jobs != [] {
      WithoutMembers(jobs[1..], id);
      assert jobs == [jobs[0]] + jobs[1..];
    }
  }

  lemma {:induction false} WithoutKeepsDistinct(jobs: seq<Job>, id: JobId)
    requires DistinctIds(jobs)
    ensures DistinctIds(Without(jobs, id))
  {
    if jobs != [] {
      WithoutKeepsDistinct(jobs[1..], id);
      WithoutMembers(jobs[1..], id);
      var w := Without(jobs[1..], id);
      forall k | 0 <= k < |w| ensures w[k].id != jobs[0].id {
        assert w[k] in jobs[1..];
      }
    }
  }

  lemma {:induction false} WithoutShrinks(jobs: seq<Job>, j: Job)
    requires j in jobs
    ensures |Without(jobs, j.id)| < |jobs|
    ensures DistinctIds(jobs) ==> |Without(jobs, j.id)| == |jobs| - 1
  {
    if jobs[0].id == j.id {
      WithoutMembers(jobs[1..], j.id);
      if DistinctIds(jobs) {
        WithoutAbsent(jobs[1..], j.id);
      }
    } else {
      assert j in jobs[1..];
      WithoutShrinks(jobs[1..], j);
    }
  }

  lemma {:induction false} WithoutAbsent(jobs: seq<Job>, id: JobId)
    requires forall j :: j in jobs ==> j.id != id
    ensures Without(jobs, id) == jobs
  {
    if jobs != [] {
      WithoutAbsent(jobs[1..], id);
    }
  }

  lemma {:induction false} WithoutKeepsStatus(jobs: seq<Job>, id: JobId, status: Status)
    requires forall j :: j in jobs && j.id == id ==> j.status != status
    ensures IdsWith(Without(jobs, id), status) == IdsWith(jobs, status)
  {
    if jobs != [] {
      WithoutKeepsStatus(jobs[1..], id, status);
      var w := Without(jobs[1..], id);
      if jobs[0].id != id {
        assert ([jobs[0]] + w)[1..] == w;
      }
    }
  }

  lemma {:induction false} IdsWithMembers(jobs: seq<Job>, status: Status)
    ensures forall id :: id in IdsWith(jobs, status) <==> exists j :: j in jobs && j.id == id && j.status == status
  {
    if jobs != [] {
      IdsWithMembers(jobs[1..], status);
      assert jobs == [jobs[0]] + jobs[1..];
    }
  }

  lemma {:induction false} IdsWithAppend(jobs: seq<Job>, j: Job, status: Status)
    ensures IdsWith(jobs + [j], status) == IdsWith(jobs, status) + if j.status == status then [j.id] else []
  {
    if jobs != [] {
      IdsWithAppend(jobs[1..], j, status);
      assert (jobs + [j])[1..] == jobs[1..] + [j];
    }
  }

  lemma {:induction false} FindFinds(jobs: seq<Job>, id: JobId)
    ensures match Find(jobs, id)
            case Some(j) => j in jobs && j.id == id
            case None => forall j :: j in jobs ==> j.id != id
  {
    if jobs != [] && jobs[0].id != id {
      FindFinds(jobs[1..], id);
    }
  }

  lemma {:induction false} FindUnique(jobs: seq<Job>, j: Job)
    requires j in jobs && DistinctIds(jobs)
    ensures Find(jobs, j.id) == Some(j)
  {
    FindFinds(jobs, j.id);
    var f := Find(jobs, j.id).value;
    var a :| 0 <= a < |jobs| && jobs[a] == j;
    var b :| 0 <= b < |jobs| && jobs[b] == f;
  }

  /** Replacing the one job with this id changes nothing else, and takes it off the pending list. */
  lemma {:induction false} ReplaceLaw(jobs: seq<Job>, id: JobId, n: Job)
    requires n.id == id
    ensures |Replace(jobs, id, n)| == |jobs|
    ensures forall i :: 0 <= i < |jobs| ==> Replace(jobs, id, n)[i] == if jobs[i].id == id then n else jobs[i]
    ensures DistinctIds(jobs) ==> DistinctIds(Replace(jobs, id, n))
    ensures Ids(Replace(jobs, id, n)) == Ids(jobs)
  {
    ReplaceAt(jobs, id, n);
    var r := Replace(jobs, id, n);
    forall x ensures x in Ids(r) <==> x in Ids(jobs) {
      if i :| 0 <= i < |jobs| && jobs[i].id == x {
        assert r[i] in r && jobs[i] in jobs && r[i].id == x;
      }
      if j :| j in r && j.id == x {
        var i :| 0 <= i < |r| && r[i] == j;
        assert jobs[i] in jobs && jobs[i].id == x;
      }
    }
  }

  lemma {:induction false} ReplaceAt(jobs: seq<Job>, id: JobId, n: Job)
    ensures |Replace(jobs, id, n)| == |jobs|
    ensures forall i :: 0 <= i < |jobs| ==> Replace(jobs, id, n)[i] == if jobs[i].id == id then n else jobs[i]
  {
    if jobs != [] {
      ReplaceAt(jobs[1..], id, n);
    }
  }

  lemma {:induction false} ReplaceKeepsStatus(jobs: seq<Job>, id: JobId, n: Job, status: Status)
    requires n.id == id && n.status != status
    requires forall j :: j in jobs && j.id == id ==> j.status != status
    ensures IdsWith(Replace(jobs, id, n), status) == IdsWith(jobs, status)
  {
    if jobs != [] {
      ReplaceKeepsStatus(jobs[1..], id, n, status);
    }
  }

  /** Moving the first job of a status to another status takes it off the list of that status. */
  lemma {:induction false} ReplaceTakesHead(jobs: seq<Job>, n: Job, status: Status)
    requires DistinctIds(jobs) && IdsWith(jobs, status) != []
    requires n.id == IdsWith(jobs, status)[0] && n.status != status
    ensures IdsWith(Replace(jobs, n.id, n), status) == IdsWith(jobs, status)[1..]
  {
    if jobs[0].status == status {
      assert forall j :: j in jobs[1..] ==> j.id != n.id;
      ReplaceKeepsStatus(jobs[1..], n.id, n, status);
    } else {
      IdsWithMembers(jobs[1..], status);
      assert n.id in IdsWith(jobs[1..], status);
      var p :| p in jobs[1..] && p.id == n.id && p.status == status;
      assert jobs[0].id != n.id;
      ReplaceTakesHead(jobs[1..], n, status);
    }
  }

  lemma {:induction false} ReplaceEnters(jobs: seq<Job>, j: Job, n: Job, status: Status)
    requires DistinctIds(jobs) && j in jobs && n.id == j.id
    requires IdsWith(jobs, status) == [] && n.status == status
    ensures IdsWith(Replace(jobs, n.id, n), status) == [n.id]
  {
    if jobs[0].id == n.id {
      assert forall x :: x in jobs[1..] ==> x.id != n.id;
      ReplaceAbsent(jobs[1..], n.id, n);
    } else {
      ReplaceEnters(jobs[1..], j, n, status);
    }
  }

  lemma {:induction false} ReplaceAbsent(jobs: seq<Job>, id: JobId, n: Job)
    requires forall j :: j in jobs ==> j.id != id
    ensures Replace(jobs, id, n) == jobs
  {
    if jobs != [] {
      ReplaceAbsent(jobs[1..], id, n);
    }
  }
}
