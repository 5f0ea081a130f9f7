/** What holds in every state the job queue can reach, and how long a job can wait. */
module JobTheorems {
  import opened Results
  import opened Sequences
  import opened StableSort
  import opened JobProtocol

  // ----- eviction -----

  /**
   * Eviction deletes finished jobs only, oldest first, and no more than it
   * needs; the pending jobs and their order are untouched.
   */
  lemma {:induction false} EvictionLaw(jobs: seq<Job>, max: nat)
    requires DistinctIds(jobs)
    ensures var r := EvictOld(jobs, max);
            && DistinctIds(r)
            && (forall j :: j in r ==> j in jobs)
            && (forall j :: j in jobs && j !in r ==> j.Terminal())
            && (forall j, x :: j in jobs && j !in r && x in r && x.Terminal() ==> j.createdAt <= x.createdAt)
            && (forall s :: s == Pending || s == Processing ==> IdsWith(r, s) == IdsWith(jobs, s))
            && |r| <= |jobs|
            && (r == jobs || |r| >= max - 1)
            && (|r| >= max ==> forall j :: j in r ==> !j.Terminal())
    decreases |jobs|
  {
    TerminalsMembers(jobs);
    if |jobs| < max {
    } else if Terminals(jobs) == [] {
      assert forall j :: j in jobs ==> j !in Terminals(jobs);
    } else {
      var victim := Oldest(jobs);
      OldestLaw(jobs);
      WithoutMembers(jobs, victim.id);
      WithoutKeepsDistinct(jobs, victim.id);
      WithoutShrinks(jobs, victim);
      OneJobPerId(jobs);
      WithoutKeepsStatus(jobs, victim.id, Pending);
      WithoutKeepsStatus(jobs, victim.id, Processing);
      EvictionLaw(Without(jobs, victim.id), max);
    }
  }

  lemma OneJobPerId(jobs: seq<Job>)
    requires DistinctIds(jobs)
    ensures forall j, k :: j in jobs && k in jobs && j.id == k.id ==> j == k
  {
    forall j, k | j in jobs && k in jobs && j.id == k.id ensures j == k {
      FindUnique(jobs, j);
      FindUnique(jobs, k);
    }
  }

  lemma {:induction false} UnfinishedWithout(jobs: seq<Job>, id: JobId)
    requires forall j :: j in jobs && j.id == id ==> j.Terminal()
    ensures Unfinished(Without(jobs, id)) == Unfinished(jobs)
  {
    if jobs != [] {
      UnfinishedWithout(jobs[1..], id);
    }
  }

  lemma {:induction false} UnfinishedSize(jobs: seq<Job>)
    ensures |Unfinished(jobs)| <= |jobs|
    ensures (forall j :: j in jobs ==> !j.Terminal()) ==> Unfinished(jobs) == jobs
  {
    if jobs != [] {
      UnfinishedSize(jobs[1..]);
    }
  }

  lemma {:induction false} EvictionKeepsUnfinished(jobs: seq<Job>, max: nat)
    requires DistinctIds(jobs)
    ensures Unfinished(EvictOld(jobs, max)) == Unfinished(jobs)
    decreases |jobs|
  {
    if |jobs| >= max && Terminals(jobs) != [] {
      var victim := Oldest(jobs);
      OldestLaw(jobs);
      OneJobPerId(jobs);
      WithoutMembers(jobs, victim.id);
      WithoutKeepsDistinct(jobs, victim.id);
      WithoutShrinks(jobs, victim);
      UnfinishedWithout(jobs, victim.id);
      EvictionKeepsUnfinished(Without(jobs, victim.id), max);
    }
  }

  /** A request is refused exactly when the stored jobs that are not finished fill the map. */
  lemma QueueFullExactly(st: State, id: JobId, email: string, now: int, max: nat)
    requires DistinctIds(st.jobs)
    ensures !DoEnqueue(st, id, email, now, max).1 <==> |Unfinished(st.jobs)| >= max
  {
    var r := EvictOld(st.jobs, max);
    EvictionLaw(st.jobs, max);
    EvictionKeepsUnfinished(st.jobs, max);
    UnfinishedSize(r);
  }

  // ----- the invariant -----

  /** The ids of the flights still verifying. */
  function VerifyingIds(flights: seq<Flight>): seq<JobId> {
    if flights == [] then []
    else if flights[0].stage == Verifying then [flights[0].id] + VerifyingIds(flights[1..])
    else VerifyingIds(flights[1..])
  }

  /**
   * The module state: the queue is the pending jobs in insertion order, at most
   * one flight is open, the processing jobs are those of the verifying flights,
   * and a non-empty queue has somebody who will look at it.
   */
  ghost predicate QueueInv(st: State, max: nat) {
    && DistinctIds(st.jobs)
    && |st.jobs| <= max
    && st.queue == IdsWith(st.jobs, Pending)
    && |st.flights| <= 1
    && st.running == (|st.flights| == 1)
    && IdsWith(st.jobs, Processing) == VerifyingIds(st.flights)
    && (st.queue != [] ==> st.running || st.pumps > 0)
  }

  /** The history: first in, first started, and every accepted id is stored or was evicted. */
  ghost predicate HistoryInv(w: World) {
    && Distinct(w.accepted)
    && w.accepted == w.started + w.st.queue
    && Ids(w.st.jobs) !! w.evicted
    && (forall id :: id in w.accepted <==> id in Ids(w.st.jobs) || id in w.evicted)
  }

  ghost predicate Inv(w: World, max: nat) {
    QueueInv(w.st, max) && HistoryInv(w)
  }

  lemma EnqueueKeepsQueue(st: State, id: JobId, email: string, now: int, max: nat)
    requires QueueInv(st, max) && id !in Ids(st.jobs)
    ensures QueueInv(DoEnqueue(st, id, email, now, max).0, max)
  {
    var r := EvictOld(st.jobs, max);
    EvictionLaw(st.jobs, max);
    var j := Job(id, email, now, Pending, None, None);
    IdsWithAppend(r, j, Pending);
    IdsWithAppend(r, j, Processing);
    if |r| < max {
      assert forall x :: x in r ==> x.id in Ids(st.jobs);
      AppendDistinctIds(r, j);
    }
  }

  lemma AppendDistinctIds(jobs: seq<Job>, j: Job)
    requires DistinctIds(jobs) && forall x :: x in jobs ==> x.id != j.id
    ensures DistinctIds(jobs + [j])
  {
  }

  lemma AppendDistinct<T>(s: seq<T>, x: T)
    requires Distinct(s) && x !in s
    ensures Distinct(s + [x])
  {
  }

  lemma EnqueueKeepsHistory(w: World, id: JobId, email: string, now: int, max: nat)
    requires Inv(w, max) && id !in w.accepted
    ensures HistoryInv(Step(w, Enqueue(id, email, now), max))
  {
    var r := EvictOld(w.st.jobs, max);
    EvictionLaw(w.st.jobs, max);
    assert Ids(r) <= Ids(w.st.jobs);
    if |r| < max {
      AppendDistinct(w.accepted, id);
      var j := Job(id, email, now, Pending, None, None);
      assert forall x :: x in r + [j] <==> x in r || x == j;
      assert Ids(r + [j]) == Ids(r) + {id};
    }
  }

  lemma PumpKeepsQueueInv(st: State, max: nat)
    requires QueueInv(st, max) && st.pumps > 0
    ensures QueueInv(DoPump(st), max)
    ensures Ids(DoPump(st).jobs) == Ids(st.jobs)
    ensures DoPump(st).queue == if !st.running && st.queue != [] then st.queue[1..] else st.queue
    ensures |DoPump(st).flights| == if !st.running && st.queue != [] then 1 else |st.flights|
  {
    if !st.running && st.queue != [] {
      var id := st.queue[0];
      QueueHeadIsPending(st, max);
      FindFinds(st.jobs, id);
      var j := Find(st.jobs, id).value;
      var n := j.(status := Processing);
      ReplaceLaw(st.jobs, id, n);
      ReplaceTakesHead(st.jobs, n, Pending);
      ReplaceEnters(st.jobs, j, n, Processing);
    }
  }

  /** The entry at the head of the queue is stored and pending: the stale-entry branch of `pump` is dead code. */
  lemma QueueHeadIsPending(st: State, max: nat)
    requires QueueInv(st, max) && st.queue != []
    ensures Find(st.jobs, st.queue[0]).Some? && Find(st.jobs, st.queue[0]).value.status == Pending
  {
    IdsWithMembers(st.jobs, Pending);
    assert st.queue[0] in IdsWith(st.jobs, Pending);
    var p :| p in st.jobs && p.id == st.queue[0] && p.status == Pending;
    FindUnique(st.jobs, p);
  }

  /** A scheduled call of `pump` does nothing while a job runs or none waits, and otherwise starts the head of the queue. */
  lemma PumpStartsHead(st: State, max: nat)
    requires QueueInv(st, max) && st.pumps > 0
    ensures var st' := DoPump(st);
            if st.running || st.queue == [] then st' == st.(pumps := st.pumps - 1)
            else
              && st'.running && st'.queue == st.queue[1..] && st'.pumps == st.pumps - 1
              && st'.flights == [Flight(st.queue[0], Verifying)]
              && Find(st.jobs, st.queue[0]).Some?
              && Find(st'.jobs, st.queue[0]) == Some(Find(st.jobs, st.queue[0]).value.(status := Processing))
              && forall x :: x != st.queue[0] ==> Find(st'.jobs, x) == Find(st.jobs, x)
  {
    if !st.running && st.queue != [] {
      var id := st.queue[0];
      QueueHeadIsPending(st, max);
      FindFinds(st.jobs, id);
      var n := Find(st.jobs, id).value.(status := Processing);
      forall x ensures Find(Replace(st.jobs, id, n), x) == if x == id then Some(n) else Find(st.jobs, x) {
        FindReplaced(st.jobs, id, n, x);
      }
    }
  }

  /** The job of an open verification is still stored, so its outcome is never lost. */
  lemma FlightJobIsStored(st: State, max: nat)
    requires QueueInv(st, max) && |st.flights| == 1 && st.flights[0].stage == Verifying
    ensures Find(st.jobs, st.flights[0].id).Some?
    ensures Find(st.jobs, st.flights[0].id).value.status == Processing
  {
    var id := st.flights[0].id;
    IdsWithMembers(st.jobs, Processing);
    assert id in IdsWith(st.jobs, Processing);
    var p :| p in st.jobs && p.id == id && p.status == Processing;
    FindUnique(st.jobs, p);
  }

  lemma VerifyDoneKeepsQueueInv(st: State, k: nat, outcome: Outcome, max: nat)
    requires QueueInv(st, max) && k < |st.flights| && st.flights[k].stage == Verifying
    ensures QueueInv(DoVerifyDone(st, k, outcome), max)
    ensures Ids(DoVerifyDone(st, k, outcome).jobs) == Ids(st.jobs)
  {
    var id := st.flights[0].id;
    FlightJobIsStored(st, max);
    FindFinds(st.jobs, id);
    var n := Finished(Find(st.jobs, id).value, outcome);
    ReplaceLaw(st.jobs, id, n);
    OneJobPerId(st.jobs);
    ReplaceKeepsStatus(st.jobs, id, n, Pending);
    ReplaceTakesHead(st.jobs, n, Processing);
  }

  lemma WebhookDoneKeepsQueueInv(st: State, k: nat, max: nat)
    requires QueueInv(st, max) && k < |st.flights| && st.flights[k].stage == Posting
    ensures QueueInv(DoWebhookDone(st, k), max)
  {
    assert st.flights[..k] + st.flights[k + 1..] == [];
  }

  lemma StepKeepsInv(w: World, e: Event, max: nat)
    requires Inv(w, max) && Enabled(w, e)
    ensures Inv(Step(w, e, max), max)
  {
    match e
    case Enqueue(id, email, now) => 
      assert forall x :: x in Ids(w.st.jobs) ==> x in w.accepted;
      EnqueueKeepsQueue(w.st, id, email, now, max);
      EnqueueKeepsHistory(w, id, email, now, max);
    case PumpTick =>
      PumpKeepsQueueInv(w.st, max);
      if !w.st.running && w.st.queue != [] {
        assert w.started + [w.st.queue[0]] + w.st.queue[1..] == w.accepted;
      }
    case VerifyDone(k, o) =>
      VerifyDoneKeepsQueueInv(w.st, k, o, max);
    case WebhookDone(k) =>
      WebhookDoneKeepsQueueInv(w.st, k, max);
  }

  /** Safety over whole runs: every interleaving from a state of the invariant stays inside it. */
  lemma {:induction false} RunKeepsInv(w: World, run: seq<Event>, max: nat)
    requires Inv(w, max) && Feasible(w, run, max)
    ensures Inv(Exec(w, run, max), max)
    decreases |run|
  {
    if run != [] {
      StepKeepsInv(w, run[0], max);
      RunKeepsInv(Step(w, run[0], max), run[1..], max);
    }
  }

  lemma IdleInv(max: nat)
    ensures Inv(IDLE, max)
  {
    assert Ids([]) == {};
  }

  // ----- conservation -----

  /**
   * Every accepted id is in exactly one place: waiting in the queue, being
   * verified, stored with a final status, or evicted. No id is started twice.
   */
  lemma ExactlyOnePlace(w: World, id: JobId, max: nat)
    requires Inv(w, max) && id in w.accepted
    ensures var f := Find(w.st.jobs, id);
            && (id in w.evicted <==> f.None?)
            && (id in w.st.queue <==> f.Some? && f.value.status == Pending)
            && (id in VerifyingIds(w.st.flights) <==> f.Some? && f.value.status == Processing)
            && (id in w.started <==> id !in w.st.queue)
    ensures Distinct(w.started)
  {
    FindFinds(w.st.jobs, id);
    IdsWithMembers(w.st.jobs, Pending);
    IdsWithMembers(w.st.jobs, Processing);
    OneJobPerId(w.st.jobs);
    StartedThenQueued(w);
  }

  lemma StartedThenQueued(w: World)
    requires HistoryInv(w)
    ensures Distinct(w.started)
    ensures forall i, k :: 0 <= i < |w.started| && 0 <= k < |w.st.queue| ==> w.started[i] != w.st.queue[k]
  {
    forall i, k | 0 <= i < k < |w.started| ensures w.started[i] != w.started[k] {
      assert w.accepted[i] != w.accepted[k];
    }
    forall i, k | 0 <= i < |w.started| && 0 <= k < |w.st.queue| ensures w.started[i] != w.st.queue[k] {
      assert w.accepted[i] != w.accepted[|w.started| + k];
    }
  }

  // ----- progress -----

  function FlightRank(flights: seq<Flight>): nat {
    if flights == [] then 0 else if flights[0].stage == Verifying then 2 else 1
  }

  /** A bound on how many more steps there can be before the next request. */
  function Weight(st: State): nat {
    4 * |st.queue| + 2 * FlightRank(st.flights) + st.pumps
  }

  /** Every step except a new request strictly lowers the weight. */
  lemma WeightFalls(w: World, e: Event, max: nat)
    requires Inv(w, max) && Enabled(w, e) && !e.Enqueue?
    ensures Weight(Step(w, e, max).st) < Weight(w.st)
  {
    StepKeepsInv(w, e, max);
    var st := w.st;
    match e
    case PumpTick =>
      if !st.running && st.queue != [] {
        QueueHeadIsPending(st, max);
      }
    case VerifyDone(k, o) =>
      assert st.flights[k := Flight(st.flights[k].id, Posting)][0].stage == Posting;
    case WebhookDone(k) =>
      assert st.flights[..k] + st.flights[k + 1..] == [];
  }

  /** So without new requests every run is finite, and its length is bounded in advance. */
  lemma {:induction false} QuietRunsAreBounded(w: World, run: seq<Event>, max: nat)
    requires Inv(w, max) && Feasible(w, run, max)
    requires forall e :: e in run ==> !e.Enqueue?
    ensures |run| + Weight(Exec(w, run, max).st) <= Weight(w.st)
    decreases |run|
  {
    if run != [] {
      StepKeepsInv(w, run[0], max);
      WeightFalls(w, run[0], max);
      QuietRunsAreBounded(Step(w, run[0], max), run[1..], max);
    }
  }

  /** A step that moves some job on: it opens, advances or closes a flight. */
  predicate Progress(st: State, e: Event) {
    match e
    case Enqueue(_, _, _) => false
    case PumpTick => !st.running && st.queue != []
    case VerifyDone(_, _) => true
    case WebhookDone(_) => true
  }

  ghost function ProgressSteps(w: World, run: seq<Event>, max: nat): nat
    requires Feasible(w, run, max)
    decreases |run|
  {
    if run == [] then 0
    else (if Progress(w.st, run[0]) then 1 else 0) + ProgressSteps(Step(w, run[0], max), run[1..], max)
  }

  function Position(queue: seq<JobId>, id: JobId): nat
    requires id in queue
  {
    if queue[0] == id then 0 else 1 + Position(queue[1..], id)
  }

  /** How many progress steps separate an accepted job from its final status. */
  function Distance(st: State, id: JobId): nat {
    if id in st.queue then 3 * Position(st.queue, id) + 2 + FlightRank(st.flights)
    else if id in VerifyingIds(st.flights) then 1
    else 0
  }

  lemma {:induction false} PositionAppend(queue: seq<JobId>, id: JobId, x: JobId)
    requires id in queue
    ensures Position(queue + [x], id) == Position(queue, id)
  {
    if queue[0] != id {
      assert (queue + [x])[1..] == queue[1..] + [x];
      PositionAppend(queue[1..], id, x);
    }
  }

  lemma DistanceFallsAtStart(st: State, id: JobId, max: nat)
    requires QueueInv(st, max) && st.pumps > 0 && !st.running && st.queue != []
    requires Distinct(st.queue)
    ensures Distance(DoPump(st), id) == if Distance(st, id) > 0 then Distance(st, id) - 1 else 0
  {
    QueueHeadIsPending(st, max);
    var head, rest := st.queue[0], st.queue[1..];
    assert VerifyingIds([Flight(head, Verifying)]) == [head];
    assert DoPump(st).flights == [Flight(head, Verifying)];
    assert st.queue == [head] + rest && head !in rest;
  }

  lemma DistanceAtEnqueue(st: State, id: JobId, new_: JobId, email: string, now: int, max: nat)
    requires id != new_
    ensures Distance(DoEnqueue(st, new_, email, now, max).0, id) == Distance(st, id)
  {
    if id in st.queue {
      PositionAppend(st.queue, id, new_);
    }
  }

  lemma OneFlight(f: Flight)
    ensures VerifyingIds([f]) == if f.stage == Verifying then [f.id] else []
  {
    assert [f][1..] == [] && VerifyingIds([]) == [];
  }

  lemma DistanceAtOutcome(st: State, id: JobId, k: nat, outcome: Outcome, max: nat)
    requires QueueInv(st, max) && k < |st.flights| && st.flights[k].stage == Verifying
    ensures var d := Distance(st, id); Distance(DoVerifyDone(st, k, outcome), id) == if d > 0 then d - 1 else 0
  {
    assert st.flights == [Flight(st.flights[k].id, Verifying)];
    assert st.flights[k := Flight(st.flights[k].id, Posting)] == [Flight(st.flights[k].id, Posting)];
    OneFlight(st.flights[k]);
    OneFlight(Flight(st.flights[k].id, Posting));
    assert st.queue == IdsWith(st.jobs, Pending) && IdsWith(st.jobs, Processing) == [st.flights[k].id];
    NotBoth(st.jobs, st.flights[k].id);
  }

  /** No id is both pending and in processing. */
  lemma NotBoth(jobs: seq<Job>, id: JobId)
    requires DistinctIds(jobs) && id in IdsWith(jobs, Processing)
    ensures id !in IdsWith(jobs, Pending)
  {
    IdsWithMembers(jobs, Processing);
    IdsWithMembers(jobs, Pending);
    OneJobPerId(jobs);
  }

  lemma DistanceAtWebhook(st: State, id: JobId, k: nat, max: nat)
    requires QueueInv(st, max) && k < |st.flights| && st.flights[k].stage == Posting
    ensures var d := Distance(st, id); Distance(DoWebhookDone(st, k), id) == if d > 0 then d - 1 else 0
  {
    assert st.flights == [Flight(st.flights[k].id, Posting)];
    assert st.flights[..k] + st.flights[k + 1..] == [];
  }

  /** Every progress step brings every waiting job one step closer; no other step matters. */
  lemma DistanceFalls(w: World, e: Event, id: JobId, max: nat)
    requires Inv(w, max) && Enabled(w, e) && id in w.accepted
    ensures var d := Distance(w.st, id);
            Distance(Step(w, e, max).st, id) == if Progress(w.st, e) && d > 0 then d - 1 else d
  {
    match e
    case Enqueue(new_, email, now) => DistanceAtEnqueue(w.st, id, new_, email, now, max);
    case PumpTick =>
      if !w.st.running && w.st.queue != [] {
        QueueIsDistinct(w);
        DistanceFallsAtStart(w.st, id, max);
      }
    case VerifyDone(k, o) => DistanceAtOutcome(w.st, id, k, o, max);
    case WebhookDone(k) => DistanceAtWebhook(w.st, id, k, max);
  }

  lemma QueueIsDistinct(w: World)
    requires HistoryInv(w)
    ensures Distinct(w.st.queue)
  {
    forall i, k | 0 <= i < k < |w.st.queue| ensures w.st.queue[i] != w.st.queue[k] {
      assert w.accepted[|w.started| + i] != w.accepted[|w.started| + k];
    }
  }

  /** An accepted job has its final status, or had it and was evicted. */
  ghost predicate Served(w: World, id: JobId) {
    id in w.evicted || (Find(w.st.jobs, id).Some? && Find(w.st.jobs, id).value.Terminal())
  }

  lemma ServedMeansDistanceZero(w: World, id: JobId, max: nat)
    requires Inv(w, max) && id in w.accepted
    ensures Served(w, id) <==> Distance(w.st, id) == 0
  {
    ExactlyOnePlace(w, id, max);
  }

  /**
   * However requests, pump calls and completions interleave, an accepted job is
   * served exactly when the run has made as many progress steps as the job was
   * away at its start.
   */
  lemma {:induction false} ServedAfterDistance(w: World, run: seq<Event>, id: JobId, max: nat)
    requires Inv(w, max) && Feasible(w, run, max) && id in w.accepted
    ensures id in Exec(w, run, max).accepted
    ensures Served(Exec(w, run, max), id) <==> ProgressSteps(w, run, max) >= Distance(w.st, id)
    decreases |run|
  {
    if run == [] {
      ServedMeansDistanceZero(w, id, max);
    } else {
      StepKeepsInv(w, run[0], max);
      DistanceFalls(w, run[0], id, max);
      ServedAfterDistance(Step(w, run[0], max), run[1..], id, max);
    }
  }

  // ----- results -----

  /** The job `j` after its verification ended so: only its status and the result, or the message, have changed. */
  predicate SettledAs(j: Job, outcome: Outcome, after: Job) {
    && after.id == j.id && after.email == j.email && after.createdAt == j.createdAt
    && match outcome
       case Returned(r) => after.status == Completed && after.result == Some(r) && after.errorMessage == j.errorMessage
       case Threw(m) => after.status == Failed && after.errorMessage == Some(m) && after.result == j.result
  }

  /**
   * An outcome lands on the job it belongs to and on no other: a verification that returned
   * completes its job with its result, one that threw fails it with its message.
   */
  lemma OutcomeLandsOnItsJob(st: State, k: nat, outcome: Outcome, max: nat)
    requires QueueInv(st, max) && k < |st.flights| && st.flights[k].stage == Verifying
    ensures var id := st.flights[k].id;
            var st' := DoVerifyDone(st, k, outcome);
            && Find(st.jobs, id).Some? && Find(st.jobs, id).value.status == Processing
            && Find(st'.jobs, id).Some? && SettledAs(Find(st.jobs, id).value, outcome, Find(st'.jobs, id).value)
            && (forall x :: x != id ==> Find(st'.jobs, x) == Find(st.jobs, x))
  {
    var id := st.flights[k].id;
    FlightJobIsStored(st, max);
    FindFinds(st.jobs, id);
    var n := Finished(Find(st.jobs, id).value, outcome);
    forall x ensures Find(Replace(st.jobs, id, n), x) ==
                     if x == id then Some(n) else Find(st.jobs, x)
    {
      FindReplaced(st.jobs, id, n, x);
    }
  }

  lemma {:induction false} FindReplaced(jobs: seq<Job>, id: JobId, n: Job, x: JobId)
    requires n.id == id && Find(jobs, id).Some?
    ensures Find(Replace(jobs, id, n), x) == if x == id then Some(n) else Find(jobs, x)
  {
    if jobs[0].id == id {
      ReplaceKeepsFind(jobs[1..], id, n, x);
    } else {
      FindReplaced(jobs[1..], id, n, x);
    }
  }

  lemma {:induction false} ReplaceKeepsFind(jobs: seq<Job>, id: JobId, n: Job, x: JobId)
    requires n.id == id
    ensures x != id ==> Find(Replace(jobs, id, n), x) == Find(jobs, x)
  {
    if jobs != [] {
      ReplaceKeepsFind(jobs[1..], id, n, x);
    }
  }

  /** A finished job is never touched again: it stays as it is until it is evicted. */
  lemma FinalIsFinal(w: World, e: Event, j: Job, max: nat)
    requires Inv(w, max) && Enabled(w, e) && j in w.st.jobs && j.Terminal()
    ensures var w' := Step(w, e, max); j in w'.st.jobs || j.id in w'.evicted
  {
    var st := w.st;
    match e
    case Enqueue(id, email, now) =>
      var r := EvictOld(st.jobs, max);
      EvictionLaw(st.jobs, max);
      OneJobPerId(st.jobs);
      assert j.id in Ids(st.jobs);
      assert forall x :: x in r && x.id == j.id ==> x == j;
    case PumpTick =>
      if !st.running && st.queue != [] {
        QueueHeadIsPending(st, max);
        FindFinds(st.jobs, st.queue[0]);
        UntouchedByReplace(st.jobs, Find(st.jobs, st.queue[0]).value.(status := Processing), j);
      }
    case VerifyDone(k, outcome) =>
      FlightJobIsStored(st, max);
      FindFinds(st.jobs, st.flights[k].id);
      UntouchedByReplace(st.jobs, Finished(Find(st.jobs, st.flights[k].id).value, outcome), j);
    case WebhookDone(k) =>
  }

  lemma UntouchedByReplace(jobs: seq<Job>, n: Job, j: Job)
    requires DistinctIds(jobs) && j in jobs && Find(jobs, n.id) != Some(j)
    ensures j in Replace(jobs, n.id, n)
  {
    FindUnique(jobs, j);
    var i :| 0 <= i < |jobs| && jobs[i] == j;
    ReplaceAt(jobs, n.id, n);
    assert Replace(jobs, n.id, n)[i] == j;
  }

  // ----- what a stored job says about the run -----

  /** How a stored job came out of one step: new, unchanged, started, or settled by its own verification. */
  lemma JobAfterStep(w: World, e: Event, after: Job, max: nat) returns (j: Job)
    requires Inv(w, max) && Enabled(w, e) && after in Step(w, e, max).st.jobs
    ensures (e.Enqueue? && after == Job(e.id, e.email, e.now, Pending, None, None)) ||
            (j in w.st.jobs &&
             (after == j || (!j.Terminal() && after == j.(status := Processing)) ||
              (e.VerifyDone? && w.st.flights[e.flight] == Flight(j.id, Verifying) && !j.Terminal() && SettledAs(j, e.outcome, after))))
  {
    var st := w.st;
    j := after;
    match e
    case Enqueue(_, _, _) =>
      EvictionLaw(st.jobs, max);
    case WebhookDone(_) =>
    case PumpTick =>
      if !st.running && st.queue != [] {
        QueueHeadIsPending(st, max);
        FindFinds(st.jobs, st.queue[0]);
        var head := Find(st.jobs, st.queue[0]).value;
        j := BeforeReplace(st.jobs, head.id, head.(status := Processing), after);
        if j.id == head.id {
          FindUnique(st.jobs, j);
        }
      }
    case VerifyDone(k, outcome) =>
      FlightJobIsStored(st, max);
      FindFinds(st.jobs, st.flights[k].id);
      var own := Find(st.jobs, st.flights[k].id).value;
      j := BeforeReplace(st.jobs, own.id, Finished(own, outcome), after);
      if j.id == own.id {
        FindUnique(st.jobs, j);
      }
  }

  lemma BeforeReplace(jobs: seq<Job>, id: JobId, n: Job, after: Job) returns (j: Job)
    requires after in Replace(jobs, id, n)
    ensures j in jobs && after == if j.id == id then n else j
  {
    ReplaceAt(jobs, id, n);
    var i :| 0 <= i < |jobs| && Replace(jobs, id, n)[i] == after;
    j := jobs[i];
  }

  /** A run without its last event. */
  lemma {:induction false} RunFront(w: World, run: seq<Event>, max: nat)
    requires run != [] && Feasible(w, run, max)
    ensures var front, e := run[..|run| - 1], run[|run| - 1];
            Feasible(w, front, max) && Enabled(Exec(w, front, max), e) && Exec(w, run, max) == Step(Exec(w, front, max), e, max)
    decreases |run|
  {
    if |run| > 1 {
      RunFront(Step(w, run[0], max), run[1..], max);
      assert run[..|run| - 1][1..] == run[1..][..|run| - 2];
    } else {
      assert run[1..] == [];
    }
  }

  /** In this run the verification of this job, and not of another, ended at event `d`, and left what the job shows. */
  ghost predicate OwnOutcome(run: seq<Event>, d: nat, j: Job, max: nat) {
    && d < |run| && run[d].VerifyDone? && Feasible(IDLE, run[..d], max)
    && var st := Exec(IDLE, run[..d], max).st;
       && run[d].flight < |st.flights| && st.flights[run[d].flight] == Flight(j.id, Verifying)
       && match run[d].outcome
          case Returned(r) => j.status == Completed && j.result == Some(r) && j.errorMessage == None
          case Threw(m) => j.status == Failed && j.result == None && j.errorMessage == Some(m)
  }

  /**
   * After any run a stored job carries the address and the time of the request `q` that was
   * accepted under its id; a job found completed is one whose own verification returned, at
   * event `d`, with the result it shows; a job found failed is one whose own verification
   * threw the message it shows; and any other job shows neither.
   */
  lemma {:induction false} JobHistory(run: seq<Event>, j: Job, max: nat) returns (q: nat, d: nat)
    requires Feasible(IDLE, run, max) && j in Exec(IDLE, run, max).st.jobs
    ensures q < |run| && run[q] == Enqueue(j.id, j.email, j.createdAt)
    ensures if j.Terminal() then OwnOutcome(run, d, j, max) else j.result == None && j.errorMessage == None
    decreases |run|
  {
    if run == [] {
      assert false;
    } else {
      var n := |run| - 1;
      var front, e := run[..n], run[n];
      RunFront(IDLE, run, max);
      IdleInv(max);
      RunKeepsInv(IDLE, front, max);
      var before := JobAfterStep(Exec(IDLE, front, max), e, j, max);
      if e.Enqueue? && j == Job(e.id, e.email, e.now, Pending, None, None) {
        q, d := n, 0;
      } else {
        q, d := JobHistory(front, before, max);
        if before.Terminal() {
          assert run[..d] == front[..d];
        } else {
          d := n;
        }
      }
    }
  }

  /** And what it shows then it shows for ever, until it is evicted. */
  lemma {:induction false} RunKeepsFinal(w: World, run: seq<Event>, j: Job, max: nat)
    requires Inv(w, max) && Feasible(w, run, max) && ((j in w.st.jobs && j.Terminal()) || j.id in w.evicted)
    ensures var end := Exec(w, run, max); (j in end.st.jobs && j.Terminal()) || j.id in end.evicted
    decreases |run|
  {
    if run != [] {
      StepKeepsInv(w, run[0], max);
      if j.id !in w.evicted {
        FinalIsFinal(w, run[0], j, max);
      }
      RunKeepsFinal(Step(w, run[0], max), run[1..], j, max);
    }
  }

  /** No wake-up is lost: while an accepted job is not served, a progress step is enabled. */
  lemma NoLostWakeUp(w: World, id: JobId, max: nat) returns (e: Event)
    requires Inv(w, max) && id in w.accepted && !Served(w, id)
    ensures Enabled(w, e) && Progress(w.st, e)
  {
    ExactlyOnePlace(w, id, max);
    if w.st.flights == [] {
      e := PumpTick;
    } else if w.st.flights[0].stage == Verifying {
      e := VerifyDone(0, Threw(""));
    } else {
      e := WebhookDone(0);
    }
  }

  /** A run without new requests that can go no further has served every accepted job. */
  lemma QuietRunsServeAll(w: World, run: seq<Event>, max: nat)
    requires Inv(w, max) && Feasible(w, run, max)
    requires forall e :: Enabled(Exec(w, run, max), e) ==> e.Enqueue?
    ensures forall id :: id in w.accepted ==> Served(Exec(w, run, max), id)
  {
    RunKeepsInv(w, run, max);
    forall id | id in w.accepted ensures Served(Exec(w, run, max), id) {
      ServedAfterDistance(w, run, id, max);
      if !Served(Exec(w, run, max), id) {
        var e := NoLostWakeUp(Exec(w, run, max), id, max);
        assert false;
      }
    }
  }
}
