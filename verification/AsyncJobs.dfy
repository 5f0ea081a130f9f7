/** The job queue module itself: the map of job objects, the id queue and the flag, mutated in place. */
module AsyncJobs {
  import opened Results
  import opened StableSort
  import opened JobProtocol
  import opened JobTheorems

  class AsyncJob {
    const id: JobId
    const email: string
    const createdAt: int
    var status: Status
    var result: Option<VerificationResult>
    var errorMessage: Option<string>

    constructor (id: JobId, email: string, now: int)
      ensures Record() == Job(id, email, now, Pending, None, None)
    {
      this.id, this.email, this.createdAt := id, email, now;
      status, result, errorMessage := Pending, None, None;
    }

    function Record(): Job
      reads this
    {
      Job(id, email, createdAt, status, result, errorMessage)
    }
  }

  /**
   * `jobs` holds the entries of the job map in insertion order. `flights` are
   * the started asynchronous bodies, each keeping its own reference to its job,
   * and `pumps` counts the scheduled calls of `pump`. `model` is the protocol
   * state the methods are specified by.
   */
  class JobQueue {
    const max: nat
    var jobs: seq<AsyncJob>
    var queue: seq<JobId>
    var running: bool
    var flights: seq<(AsyncJob, Stage)>
    var pumps: nat
    ghost var model: State

    ghost predicate Represents()
      reads this, jobs
    {
      && |jobs| == |model.jobs|
      && (forall i :: 0 <= i < |jobs| ==> jobs[i].Record() == model.jobs[i])
      && queue == model.queue && running == model.running && pumps == model.pumps
      && |flights| == |model.flights|
      && (forall k :: 0 <= k < |flights| ==> Flight(flights[k].0.id, flights[k].1) == model.flights[k])
      && (forall k, i :: 0 <= k < |flights| && 0 <= i < |jobs| && flights[k].0.id == jobs[i].id ==> flights[k].0 == jobs[i])
    }

    ghost predicate Valid()
      reads this, jobs
    {
      Represents() && QueueInv(model, max)
    }

    constructor (max: nat)
      ensures Valid() && this.max == max && model == IDLE.st
    {
      this.max := max;
      jobs, queue, running, flights, pumps := [], [], false, [], 0;
      model := IDLE.st;
    }

    method OldestTerminal() returns (id: Option<JobId>)
      requires Valid()
      ensures id == if Terminals(model.jobs) == [] then None else Some(Oldest(model.jobs).id)
    {
      var terminals: seq<Job> := [];
      var i := |jobs|;
      while i > 0
        invariant 0 <= i <= |jobs|
        invariant terminals == Terminals(model.jobs[i..])
      {
        i := i - 1;
        assert model.jobs[i..][1..] == model.jobs[i + 1..];
        if jobs[i].status == Completed || jobs[i].status == Failed {
          terminals := [jobs[i].Record()] + terminals;
        }
      }
      assert model.jobs[0..] == model.jobs;
      if terminals == [] {
        return None;
      }
      SortSorts(terminals, CreatedAt);
      return Some(Sort(terminals, CreatedAt)[0].id);
    }

    method Delete(id: JobId)
      requires Represents() && DistinctIds(model.jobs)
      modifies this`jobs, this`model
      ensures Represents() && forall j :: j in jobs ==> j in old(jobs)
      ensures model == old(model).(jobs := Without(old(model.jobs), id))
    {
      var i := 0;
      while i < |jobs| && jobs[i].id != id
        invariant 0 <= i <= |jobs|
        invariant forall k :: 0 <= k < i ==> model.jobs[k].id != id
      {
        i := i + 1;
      }
      WithoutAt(model.jobs, id, i);
      if i < |jobs| {
        ghost var before := jobs;
        jobs := jobs[..i] + jobs[i + 1..];
        model := model.(jobs := model.jobs[..i] + model.jobs[i + 1..]);
        assert forall k :: 0 <= k < |jobs| ==> jobs[k] == before[if k < i then k else k + 1];
      }
    }

    method EvictOldTerminalIfNeeded()
      requires Valid()
      modifies this`jobs, this`model
      ensures Valid() && forall j :: j in jobs ==> j in old(jobs)
      ensures model == old(model).(jobs := EvictOld(old(model.jobs), max))
    {
      while |jobs| >= max
        invariant Valid() && forall j :: j in jobs ==> j in old(jobs)
        invariant model == old(model).(jobs := model.jobs)
        invariant EvictOld(model.jobs, max) == EvictOld(old(model.jobs), max)
        decreases |jobs|
      {
        var id := OldestTerminal();
        if id == None {
          return;
        }
        ghost var victim := Oldest(model.jobs);
        OldestLaw(model.jobs);
        WithoutKeepsQueueInv(model, victim, max);
        WithoutShrinks(model.jobs, victim);
        Delete(id.value);
      }
    }

    method Append(job: AsyncJob)
      requires Represents() && job !in jobs
      requires forall f :: f in flights ==> f.0.id != job.id
      modifies this`jobs, this`queue, this`pumps, this`model
      ensures Represents() && job in jobs
      ensures var st := old(model);
              model == st.(jobs := st.jobs + [job.Record()], queue := st.queue + [job.id], pumps := st.pumps + 1)
    {
      jobs := jobs + [job];
      queue := queue + [job.id];
      pumps := pumps + 1;
      model := model.(jobs := model.jobs + [job.Record()], queue := queue, pumps := pumps);
    }

    /** Answers the stored job, or none for `queue_full`. */
    method EnqueueAsyncVerify(id: JobId, email: string, now: int) returns (job: AsyncJob?)
      requires Valid()
      requires id !in Ids(model.jobs) && forall f :: f in flights ==> f.0.id != id
      modifies this
      ensures Valid()
      ensures model == DoEnqueue(old(model), id, email, now, max).0
      ensures job != null <==> DoEnqueue(old(model), id, email, now, max).1
      ensures job != null ==> job in jobs && job.Record() == Job(id, email, now, Pending, None, None)
      ensures queue == (if job != null then old(queue) + [id] else old(queue))
      ensures pumps == (if job != null then old(pumps) + 1 else old(pumps))
    {
      EnqueueKeepsQueue(model, id, email, now, max);
      EvictOldTerminalIfNeeded();
      if |jobs| >= max {
        return null;
      }
      job := new AsyncJob(id, email, now);
      Append(job);
    }

    method GetAsyncJob(id: JobId) returns (job: AsyncJob?)
      requires Represents()
      ensures job == null <==> Find(model.jobs, id) == None
      ensures job != null ==> job in jobs && Find(model.jobs, id) == Some(job.Record())
    {
      var i := 0;
      while i < |jobs|
        invariant 0 <= i <= |jobs|
        invariant Find(model.jobs, id) == Find(model.jobs[i..], id)
      {
        if jobs[i].id == id {
          return jobs[i];
        }
        assert model.jobs[i..][1..] == model.jobs[i + 1..];
        i := i + 1;
      }
      return null;
    }

    /** Takes the head of the queue and opens its flight. */
    method Start(job: AsyncJob)
      requires Represents() && DistinctIds(model.jobs)
      requires job in jobs && queue != [] && job.id == queue[0]
      modifies this`queue, this`running, this`flights, this`model, job
      ensures Represents()
      ensures var st, id := old(model), old(queue)[0];
              model == st.(jobs := Replace(st.jobs, id, old(job.Record()).(status := Processing)), queue := st.queue[1..],
              running := true, flights := st.flights + [Flight(id, Verifying)])
    {
      Write(job, Processing, job.result, job.errorMessage);
      OpenFlight(job);
    }

    method OpenFlight(job: AsyncJob)
      requires Represents() && DistinctIds(model.jobs) && job in jobs && queue != []
      modifies this`queue, this`running, this`flights, this`model
      ensures Represents()
      ensures var st := old(model);
              model == st.(queue := st.queue[1..], running := true, flights := st.flights + [Flight(job.id, Verifying)])
    {
      SameObjectForId(job.id, job);
      queue := queue[1..];
      running := true;
      flights := flights + [(job, Verifying)];
      model := model.(queue := queue, running := true, flights := model.flights + [Flight(job.id, Verifying)]);
    }

    /**
     * A scheduled call of `pump`: starts the job at the head of the queue unless
     * one is running. Without the invariant the stale-entry branch is live.
     */
    method Pump()
      requires Represents() && DistinctIds(model.jobs) && pumps > 0
      modifies this, jobs
      ensures Represents() && jobs == old(jobs)
      ensures model == DoPump(old(model))
      ensures QueueInv(old(model), max) ==> Valid()
    {
      PumpKeepsValid(model, max);
      pumps := pumps - 1;
      model := model.(pumps := pumps);
      if running {
        return;
      }
      if |queue| == 0 {
        return;
      }
      FindFinds(model.jobs, queue[0]);
      var job := GetAsyncJob(queue[0]);
      if job == null || job.status != Pending {
        SkipStale();
        return;
      }
      Start(job);
    }

    /** The branch for an entry whose job is gone or no longer pending: drop it and look again. */
    method SkipStale()
      requires Represents() && queue != []
      modifies this`queue, this`pumps, this`model
      ensures Represents()
      ensures model == old(model).(queue := old(queue)[1..], pumps := old(pumps) + 1)
    {
      queue := queue[1..];
      pumps := pumps + 1;
      model := model.(queue := queue, pumps := pumps);
    }

    /** Distinct ids make the entry found for an id the only entry with it. */
    lemma SameObjectForId(id: JobId, job: AsyncJob)
      requires Represents() && DistinctIds(model.jobs)
      requires job in jobs && job.id == id
      ensures forall i :: 0 <= i < |jobs| ==> (jobs[i].id == id <==> jobs[i] == job)
    {
      var k :| 0 <= k < |jobs| && jobs[k] == job;
      forall i | 0 <= i < |jobs| && jobs[i].id == id ensures jobs[i] == job {
        assert model.jobs[i].id == model.jobs[k].id;
      }
    }

    /** Writes a new record for a stored job through its object. */
    method Write(job: AsyncJob, status: Status, result: Option<VerificationResult>, message: Option<string>)
      requires Represents() && DistinctIds(model.jobs) && job in jobs
      modifies this`model, job
      ensures Represents()
      ensures job.status == status && job.result == result && job.errorMessage == message
      ensures var n := old(job.Record()).(status := status, result := result, errorMessage := message);
              model == old(model).(jobs := Replace(old(model.jobs), job.id, n))
    {
      SameObjectForId(job.id, job);
      ghost var n := job.Record().(status := status, result := result, errorMessage := message);
      ReplaceAt(model.jobs, job.id, n);
      job.status, job.result, job.errorMessage := status, result, message;
      model := model.(jobs := Replace(model.jobs, job.id, n));
    }

    /** The rest of a flight after `verifyOne`: the outcome goes to the job object the flight holds. */
    method Settle(k: nat, outcome: Outcome)
      requires Represents() && DistinctIds(model.jobs) && k < |flights|
      requires flights[k].0 in jobs
      modifies this`flights, this`model, flights[k].0
      ensures Represents() && model == DoVerifyDone(old(model), k, outcome)
      ensures SettledAs(old(flights[k].0.Record()), outcome, old(flights[k].0).Record())
    {
      var job := flights[k].0;
      FindUnique(model.jobs, job.Record());
      match outcome {
        case Returned(r) =>
          Write(job, Completed, Some(r), job.errorMessage);
        case Threw(m) =>
          Write(job, Failed, job.result, Some(m));
      }
      MarkPosting(k);
    }

    method MarkPosting(k: nat)
      requires Represents() && k < |flights|
      modifies this`flights, this`model
      ensures Represents()
      ensures model == old(model).(flights := old(model).flights[k := Flight(old(model).flights[k].id, Posting)])
    {
      var job := flights[k].0;
      flights := flights[k := (job, Posting)];
      model := model.(flights := model.flights[k := Flight(job.id, Posting)]);
    }

    /** `verifyOne` has settled. */
    method VerificationSettled(k: nat, outcome: Outcome)
      requires Valid() && k < |flights| && flights[k].1 == Verifying
      modifies this, jobs
      ensures Valid() && jobs == old(jobs)
      ensures model == DoVerifyDone(old(model), k, outcome)
      ensures old(flights[k].0) in jobs && SettledAs(old(flights[k].0.Record()), outcome, old(flights[k].0).Record())
    {
      VerifyDoneKeepsQueueInv(model, k, outcome, max);
      FlightJobIsStored(model, max);
      FindFinds(model.jobs, model.flights[k].id);
      ghost var i :| 0 <= i < |jobs| && model.jobs[i] == Find(model.jobs, model.flights[k].id).value;
      assert jobs[i] == flights[k].0;
      Settle(k, outcome);
    }

    /** `postWebhook` has settled: the flag is lowered and the next job, if any, is scheduled. */
    method WebhookSettled(k: nat)
      requires Valid() && k < |flights| && flights[k].1 == Posting
      modifies this
      ensures Valid() && jobs == old(jobs)
      ensures model == DoWebhookDone(old(model), k)
      ensures !running && queue == old(queue) && pumps == old(pumps) + if old(queue) != [] then 1 else 0
    {
      WebhookDoneKeepsQueueInv(model, k, max);
      running := false;
      if |queue| > 0 {
        pumps := pumps + 1;
      }
      flights := flights[..k] + flights[k + 1..];
      model := model.(running := false, flights := model.flights[..k] + model.flights[k + 1..], pumps := pumps);
    }
  }

  lemma {:induction false} WithoutAt(jobs: seq<Job>, id: JobId, i: nat)
    requires DistinctIds(jobs) && i <= |jobs|
    requires forall k :: 0 <= k < i ==> jobs[k].id != id
    requires i < |jobs| ==> jobs[i].id == id
    ensures Without(jobs, id) == if i == |jobs| then jobs else jobs[..i] + jobs[i + 1..]
  {
    if i == |jobs| {
      WithoutAbsent(jobs, id);
    } else if i == 0 {
      WithoutAbsent(jobs[1..], id);
    } else {
      WithoutAt(jobs[1..], id, i - 1);
      assert jobs[..i] + jobs[i + 1..] == [jobs[0]] + (jobs[1..][..i - 1] + jobs[1..][i..]);
    }
  }

  lemma WithoutKeepsQueueInv(st: State, victim: Job, max: nat)
    requires QueueInv(st, max) && victim in st.jobs && victim.Terminal()
    ensures QueueInv(st.(jobs := Without(st.jobs, victim.id)), max)
  {
    OneJobPerId(st.jobs);
    WithoutMembers(st.jobs, victim.id);
    WithoutKeepsDistinct(st.jobs, victim.id);
    WithoutKeepsStatus(st.jobs, victim.id, Pending);
    WithoutKeepsStatus(st.jobs, victim.id, Processing);
  }

  lemma PumpKeepsValid(st: State, max: nat)
    requires st.pumps > 0
    ensures QueueInv(st, max) ==> QueueInv(DoPump(st), max)
  {
    if QueueInv(st, max) {
      PumpKeepsQueueInv(st, max);
    }
  }
}
