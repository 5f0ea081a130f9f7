/** Concurrency bounds of a batch, absence of deadlock, and the end of every run. */
module BatchProgress {
  import opened Results
  import opened BatchScheduler
  import opened BatchSafety

  // ----- the start -----

  lemma {:induction false} GroupTasksLaw(g: nat, n: nat)
    requires g <= n
    ensures |GroupTasks(g, n)| == n - g
    ensures forall k :: 0 <= k < n - g ==> GroupTasks(g, n)[k] == Group(g + k)
    decreases n - g
  {
    if g < n {
      GroupTasksLaw(g + 1, n);
    }
  }

  lemma {:induction false} AllItemsMembers(u: Setup, g: nat)
    requires g <= |u.groups|
    ensures forall t: Task :: t in AllItems(u, g) <==> t.Item? && g <= t.g < |u.groups| && t.i < |u.groups[t.g]|
    decreases |u.groups| - g
  {
    if g < |u.groups| {
      AllItemsMembers(u, g + 1);
      ItemsOf(u, g);
    }
  }

  lemma {:induction false} OtherTasksMembers(n: nat)
    ensures forall t: Task :: t in OtherTasks(n) <==> t.Other? && t.n < n
  {
    if n > 0 {
      OtherTasksMembers(n - 1);
    }
  }

  lemma {:induction false} JobTasksMembers(n: nat)
    ensures forall t: Task :: t in JobTasks(n) <==> t.Job? && t.n < n
  {
    if n > 0 {
      JobTasksMembers(n - 1);
    }
  }

  lemma TasksMembers(u: Setup)
    ensures forall t: Task :: t in Tasks(u) <==> u.HasTask(t)
    ensures forall t: Task :: t in OwnTasks(u) <==> u.HasTask(t) && (t.Group? || t.Item?)
  {
    JobTasksMembers(u.jobs);
    GroupTasksLaw(0, |u.groups|);
    AllItemsMembers(u, 0);
    OtherTasksMembers(u.others);
    forall t: Task | t.Group? && t.g < |u.groups| ensures t in GroupTasks(0, |u.groups|) {
      assert GroupTasks(0, |u.groups|)[t.g] == t;
    }
  }

  lemma InitialStages(u: Setup)
    ensures forall t: Task :: t in Initial(u).stage <==> u.HasTask(t)
    ensures forall t: Task :: t in Initial(u).stage ==> Initial(u).stage[t] == InitialStage(t)
  {
    TasksMembers(u);
  }

  lemma InitialLimiters(u: Setup)
    ensures LimitersOk(u, Initial(u))
  {
    var st := Initial(u);
    InitialStages(u);
    GroupTasksLaw(0, |u.groups|);
    forall s: Slot ensures LimiterOk(u, s, st.At(s), st.stage) {
      assert Holders(s, st.stage) == {};
      forall t | t in st.stage && Waits(s, t, st.stage[t]) ensures t in st.At(s).queue {
        assert t.Group? && s == GroupSlot;
        assert GroupTasks(0, |u.groups|)[t.g] == t;
      }
    }
  }

  lemma InitialInv(u: Setup)
    ensures Inv(u, Initial(u))
  {
    InitialLimiters(u);
    InitialStages(u);
    StartingStagesOk(u, Initial(u).stage);
  }

  lemma StartingStagesOk(u: Setup, stage: map<Task, Stage>)
    requires forall t: Task :: t in stage <==> u.HasTask(t)
    requires forall t: Task :: t in stage ==> stage[t] == InitialStage(t)
    ensures StagesOk(u, stage)
  {
    assert forall g: nat :: g < |u.groups| ==> Group(g) in stage;
    assert forall g: nat, i: nat :: g < |u.groups| && i < |u.groups[g]| ==> Item(g, i) in stage;
  }

  // ----- bounds -----

  /** An address that has entered the queue of its domain and is not settled belongs to an open group. */
  lemma GroupIsOpen(u: Setup, st: State, t: Task)
    requires Inv(u, st) && t in st.stage && t.Item? && st.stage[t] != Outside && st.stage[t] != Settled
    ensures Group(t.g) in st.stage && st.stage[Group(t.g)] == Open
  {
    assert GroupOk(u, st.stage, t.g);
  }

  lemma SubsetSize<T>(a: set<T>, b: set<T>)
    requires a <= b
    ensures |a| <= |b|
  {
    assert b == a + (b - a);
  }

  lemma OneMore(k: nat, n: nat)
    ensures (k + 1) * n == k * n + n
  {
  }

  ghost function OfGroup(tasks: set<Task>, g: nat): set<Task> {
    set t | t in tasks && t.Item? && t.g == g
  }

  /** If each of some groups has at most `n` of the tasks, there are at most `n` times as many tasks as groups. */
  lemma {:induction false} FiberBound(tasks: set<Task>, groups: set<Task>, n: nat)
    requires forall t :: t in tasks ==> t.Item? && Group(t.g) in groups
    requires forall h :: h in groups ==> h.Group? && |OfGroup(tasks, h.g)| <= n
    ensures |tasks| <= |groups| * n
    decreases groups
  {
    if groups == {} {
      assert tasks == {};
    } else {
      var h :| h in groups;
      var own := OfGroup(tasks, h.g);
      var rest := tasks - own;
      forall k | k in groups - {h} ensures |OfGroup(rest, k.g)| <= n {
        assert OfGroup(rest, k.g) == OfGroup(tasks, k.g);
      }
      FiberBound(rest, groups - {h}, n);
      assert tasks == own + rest;
      OneMore(|groups - {h}|, n);
    }
  }

  /** The addresses of the batch whose verification is running. */
  ghost function Running(st: State): set<Task> {
    set t | t in st.stage && t.Item? && InVerify(st.stage[t])
  }

  lemma OneDomainBound(u: Setup, st: State, g: nat)
    requires Inv(u, st)
    ensures |OfGroup(Running(st), g)| <= u.innerCap
  {
    assert LimiterOk(u, InnerSlot(g), st.At(InnerSlot(g)), st.stage);
    SubsetSize(OfGroup(Running(st), g), Holders(InnerSlot(g), st.stage));
  }

  lemma OpenGroupsBound(u: Setup, st: State)
    requires Inv(u, st)
    ensures |Running(st)| <= |Holders(GroupSlot, st.stage)| * u.innerCap
  {
    var open := Holders(GroupSlot, st.stage);
    forall t | t in Running(st) ensures Group(t.g) in open {
      GroupIsOpen(u, st, t);
    }
    forall h | h in open ensures h.Group? && |OfGroup(Running(st), h.g)| <= u.innerCap {
      assert KindOk(h, st.stage[h]);
      OneDomainBound(u, st, h.g);
    }
    FiberBound(Running(st), open, u.innerCap);
  }

  lemma TimesMonotone(a: nat, b: nat, n: nat)
    requires a <= b
    ensures a * n <= b * n
  {
  }

  /**
   * In every reachable state the batch runs at most MAX_CONCURRENCY verifications,
   * at most groups-times-inner of them, at most the inner limit for one domain,
   * and at most the provider limit probes one provider.
   */
  lemma ConcurrencyBounds(u: Setup, st: State)
    requires Inv(u, st)
    ensures |Running(st)| <= u.verifyCap
    ensures |Running(st)| <= u.groupCap * u.innerCap
    ensures forall g :: |OfGroup(Running(st), g)| <= u.innerCap
    ensures forall p :: |Holders(SmtpSlot(p), st.stage)| <= u.smtpCap
  {
    assert LimiterOk(u, VerifySlot, st.At(VerifySlot), st.stage);
    SubsetSize(Running(st), Holders(VerifySlot, st.stage));
    forall g ensures |OfGroup(Running(st), g)| <= u.innerCap {
      OneDomainBound(u, st, g);
    }
    forall p ensures |Holders(SmtpSlot(p), st.stage)| <= u.smtpCap {
      assert LimiterOk(u, SmtpSlot(p), st.At(SmtpSlot(p)), st.stage);
    }
    OpenGroupsBound(u, st);
    assert LimiterOk(u, GroupSlot, st.At(GroupSlot), st.stage);
    TimesMonotone(|Holders(GroupSlot, st.stage)|, u.groupCap, u.innerCap);
  }

  // ----- progress -----

  /** The groups of the batch have settled, whatever else the station does. */
  ghost predicate BatchDone(u: Setup, st: State) {
    forall g :: 0 <= g < |u.groups| ==> Group(g) in st.stage && st.stage[Group(g)].Closed?
  }

  /** Nothing is left to do on the station. */
  ghost predicate Finished(u: Setup, st: State) {
    && BatchDone(u, st)
    && (forall n :: 0 <= n < u.others ==> Other(n) in st.stage && st.stage[Other(n)] == Settled)
    && (forall n :: 0 <= n < u.jobs ==> Job(n) in st.stage && st.stage[Job(n)] == Settled)
  }

  /** A waiting task and a slot nobody holds: the head of that queue can start. */
  lemma FreeSlot(u: Setup, st: State, s: Slot, t: Task)
    requires Inv(u, st) && u.Valid() && t in st.stage && Waits(s, t, st.stage[t])
    requires forall x :: x in st.stage ==> !Holds(s, x, st.stage[x])
    ensures CanStart(u, st, s)
  {
    assert LimiterOk(u, s, st.At(s), st.stage);
    assert t in st.At(s).queue;
    assert Holders(s, st.stage) == {};
  }

  /** While a verification is past the station-wide queue, one of them can move. */
  lemma VerificationMoves(u: Setup, st: State, t: Task) returns (e: Event)
    requires Inv(u, st) && u.Valid() && t in st.stage && InVerify(st.stage[t])
    ensures Enabled(u, st, e)
  {
    if st.stage[t] == Verifying || st.stage[t] == Probed {
      e := VerifyDone(t);
    } else if st.stage[t].Probing? {
      e := SmtpDone(t);
    } else {
      var p := st.stage[t].p;
      if x :| x in st.stage && st.stage[x] == Probing(p) {
        e := SmtpDone(x);
      } else {
        FreeSlot(u, st, SmtpSlot(p), t);
        e := SmtpStart(p);
      }
    }
  }

  /** While a task is between its arrival at the station-wide queue and the end of its verification, something moves. */
  lemma StationMoves(u: Setup, st: State, t: Task) returns (e: Event)
    requires Inv(u, st) && u.Valid() && t in st.stage && (st.stage[t] == WaitVerify || InVerify(st.stage[t]))
    ensures Enabled(u, st, e)
  {
    if InVerify(st.stage[t]) {
      e := VerificationMoves(u, st, t);
    } else if x :| x in st.stage && InVerify(st.stage[x]) {
      e := VerificationMoves(u, st, x);
    } else {
      FreeSlot(u, st, VerifySlot, t);
      e := VerifyStart;
    }
  }

  lemma OpenGroupMoves(u: Setup, st: State, g: nat) returns (e: Event)
    requires Inv(u, st) && u.Valid() && g < |u.groups| && st.stage[Group(g)] == Open
    ensures Enabled(u, st, e)
  {
    assert GroupOk(u, st.stage, g);
    if i: nat :| i < |u.groups[g]| && st.stage[Item(g, i)] != Settled {
      var t := Item(g, i);
      assert KindOk(t, st.stage[t]);
      if x: nat :| Item(g, x) in st.stage && Holds(InnerSlot(g), Item(g, x), st.stage[Item(g, x)]) {
        var y := Item(g, x);
        if st.stage[y] == Returned {
          e := InnerDone(g, x);
        } else {
          e := StationMoves(u, st, y);
        }
      } else {
        assert forall x :: x in st.stage && x.Item? && x.g == g ==> x == Item(g, x.i);
        FreeSlot(u, st, InnerSlot(g), t);
        e := InnerStart(g);
      }
    } else {
      e := GroupEnd(g, 0);
    }
  }

  /** While the batch is not done, some step is enabled. */
  lemma BatchMoves(u: Setup, st: State) returns (e: Event)
    requires Inv(u, st) && u.Valid() && !BatchDone(u, st)
    ensures Enabled(u, st, e)
  {
    if g: nat :| g < |u.groups| && st.stage[Group(g)] == Open {
      e := OpenGroupMoves(u, st, g);
    } else {
      var g: nat :| g < |u.groups| && !st.stage[Group(g)].Closed?;
      assert GroupOk(u, st.stage, g);
      assert forall x :: x in st.stage ==> KindOk(x, st.stage[x]);
      FreeSlot(u, st, GroupSlot, Group(g));
      HeadWaits(u, st, GroupSlot);
      e := GroupStart;
    }
  }

  /** The nested limiters never deadlock: while something is unfinished, some step is enabled. */
  lemma NoDeadlock(u: Setup, st: State) returns (e: Event)
    requires Inv(u, st) && u.Valid() && !Finished(u, st)
    ensures Enabled(u, st, e)
  {
    if !BatchDone(u, st) {
      e := BatchMoves(u, st);
    } else if n: nat :| n < u.jobs && st.stage[Job(n)] != Settled {
      assert KindOk(Job(n), st.stage[Job(n)]);
      if st.stage[Job(n)] == Outside {
        e := JobStart(n);
      } else {
        e := VerificationMoves(u, st, Job(n));
      }
    } else {
      var n: nat :| n < u.others && st.stage[Other(n)] != Settled;
      assert KindOk(Other(n), st.stage[Other(n)]);
      if st.stage[Other(n)] == Outside {
        e := Arrive(n);
      } else {
        e := StationMoves(u, st, Other(n));
      }
    }
  }

  // ----- every run ends -----

  /** How many stages are still ahead. */
  function Rank(st: Stage): nat {
    match st
    case WaitGroup => 2
    case Open => 1
    case Closed(_, _) => 0
    case Outside => 8
    case WaitInner => 7
    case WaitVerify => 6
    case Verifying => 5
    case WaitSmtp(_) => 4
    case Probing(_) => 3
    case Probed => 2
    case Returned => 1
    case Settled => 0
  }

  function RankOf(stage: map<Task, Stage>, t: Task): nat {
    if t in stage then Rank(stage[t]) else 0
  }

  function Total(stage: map<Task, Stage>, ts: seq<Task>): nat {
    if ts == [] then 0 else RankOf(stage, ts[0]) + Total(stage, ts[1..])
  }

  lemma {:induction false} TotalMonotone(a: map<Task, Stage>, b: map<Task, Stage>, ts: seq<Task>)
    requires forall t :: t in ts ==> RankOf(b, t) <= RankOf(a, t)
    ensures Total(b, ts) <= Total(a, ts)
    ensures (exists t :: t in ts && RankOf(b, t) < RankOf(a, t)) ==> Total(b, ts) < Total(a, ts)
  {
    if ts != [] {
      TotalMonotone(a, b, ts[1..]);
      assert ts == [ts[0]] + ts[1..];
    }
  }

  /** The task a step is about. */
  function Subject(u: Setup, st: State, e: Event): Task
    requires Enabled(u, st, e)
  {
    match e
    case GroupStart => Next(st, GroupSlot)
    case GroupThrow => Next(st, GroupSlot)
    case InnerStart(g) => Next(st, InnerSlot(g))
    case Arrive(n) => Other(n)
    case JobStart(n) => Job(n)
    case VerifyStart => Next(st, VerifySlot)
    case NeedSmtp(t, _) => t
    case SmtpStart(p) => Next(st, SmtpSlot(p))
    case SmtpDone(t) => t
    case VerifyDone(t) => t
    case InnerDone(g, i) => Item(g, i)
    case GroupEnd(g, _) => Group(g)
  }

  ghost predicate Forward(a: map<Task, Stage>, b: map<Task, Stage>, x: Task) {
    && x in a && RankOf(b, x) < RankOf(a, x)
    && forall t :: RankOf(b, t) <= RankOf(a, t)
  }

  lemma PutGoesForward(stage: map<Task, Stage>, x: Task, b: Stage)
    requires x in stage && Rank(b) < Rank(stage[x])
    ensures Forward(stage, stage[x := b], x)
  {
  }

  lemma EnteringGoesForward(u: Setup, stage: map<Task, Stage>, g: nat)
    requires StagesOk(u, stage) && g < |u.groups| && stage[Group(g)] == WaitGroup
    ensures Forward(stage, Entering(u, stage[Group(g) := Open], g), Group(g))
  {
    assert GroupOk(u, stage, g);
    ItemsOf(u, g);
  }

  /** The stage a step takes its task to. */
  function Destination(e: Event): Stage {
    match e
    case GroupStart => Open
    case GroupThrow => Closed(0, true)
    case InnerStart(_) => WaitVerify
    case Arrive(_) => WaitVerify
    case JobStart(_) => Verifying
    case VerifyStart => Verifying
    case NeedSmtp(_, p) => WaitSmtp(p)
    case SmtpStart(p) => Probing(p)
    case SmtpDone(_) => Probed
    case VerifyDone(t) => AfterVerify(t)
    case InnerDone(_, _) => Settled
    case GroupEnd(_, k) => Closed(k, false)
  }

  /** A step moves its task, and only the start of a group moves others; only its end records results. */
  lemma StepMovesSubject(u: Setup, oracle: Email -> Outcome, st: State, e: Event)
    requires Enabled(u, st, e)
    ensures var stage' := st.stage[Subject(u, st, e) := Destination(e)];
            Step(u, oracle, st, e).stage == if e == GroupStart then Entering(u, stage', Subject(u, st, e).g) else stage'
    ensures !e.GroupEnd? ==> Step(u, oracle, st, e).results == st.results
  {
  }

  /** The task of a step is at a stage before the one the step takes it to. */
  predicate Behind(u: Setup, st: State, e: Event)
    requires Enabled(u, st, e)
  {
    var t := Subject(u, st, e);
    && t in st.stage && Rank(Destination(e)) < Rank(st.stage[t])
    && (if e == GroupStart || e == GroupThrow then st.stage[t] == WaitGroup else t.Group? ==> e.GroupEnd?)
  }

  lemma HeadIsBehind(u: Setup, st: State, e: Event)
    requires Inv(u, st) && Enabled(u, st, e)
    requires e == GroupStart || e == GroupThrow || e.InnerStart? || e == VerifyStart || e.SmtpStart?
    ensures Behind(u, st, e)
  {
    HeadWaits(u, st, match e
                     case InnerStart(g) => InnerSlot(g)
                     case VerifyStart => VerifySlot
                     case SmtpStart(p) => SmtpSlot(p)
                     case _ => GroupSlot);
    assert KindOk(Subject(u, st, e), st.stage[Subject(u, st, e)]);
  }

  lemma SubjectIsBehind(u: Setup, st: State, e: Event)
    requires Inv(u, st) && Enabled(u, st, e)
    ensures Behind(u, st, e)
  {
    if e == GroupStart || e == GroupThrow || e.InnerStart? || e == VerifyStart || e.SmtpStart? {
      HeadIsBehind(u, st, e);
    } else {
      assert KindOk(Subject(u, st, e), st.stage[Subject(u, st, e)]);
    }
  }

  /** Every step takes its task forward, and no task ever goes back. */
  lemma StepGoesForward(u: Setup, oracle: Email -> Outcome, st: State, e: Event)
    requires Inv(u, st) && Enabled(u, st, e)
    ensures Forward(st.stage, Step(u, oracle, st, e).stage, Subject(u, st, e))
  {
    StepMovesSubject(u, oracle, st, e);
    SubjectIsBehind(u, st, e);
    if e == GroupStart {
      EnteringGoesForward(u, st.stage, Subject(u, st, e).g);
    } else {
      PutGoesForward(st.stage, Subject(u, st, e), Destination(e));
    }
  }

  /** Every run is finite: its length is bounded by the stages ahead of all tasks at its start. */
  lemma {:induction false} RunsAreBounded(u: Setup, oracle: Email -> Outcome, st: State, run: seq<Event>)
    requires Inv(u, st) && Feasible(u, oracle, st, run)
    ensures |run| + Total(Exec(u, oracle, st, run).stage, Tasks(u)) <= Total(st.stage, Tasks(u))
    decreases |run|
  {
    if run != [] {
      var st' := Step(u, oracle, st, run[0]);
      StepKeepsInv(u, oracle, st, run[0]);
      StepGoesForward(u, oracle, st, run[0]);
      TasksMembers(u);
      assert Subject(u, st, run[0]) in Tasks(u);
      TotalMonotone(st.stage, st'.stage, Tasks(u));
      RunsAreBounded(u, oracle, st', run[1..]);
    }
  }

  /** From every reachable state the batch can be brought to its end. */
  lemma {:induction false} CanFinish(u: Setup, oracle: Email -> Outcome, st: State) returns (run: seq<Event>)
    requires Inv(u, st) && u.Valid()
    ensures Feasible(u, oracle, st, run) && Finished(u, Exec(u, oracle, st, run))
    decreases Total(st.stage, Tasks(u))
  {
    if Finished(u, st) {
      run := [];
    } else {
      var e := NoDeadlock(u, st);
      var st' := Step(u, oracle, st, e);
      StepKeepsInv(u, oracle, st, e);
      RunsAreBounded(u, oracle, st, [e]);
      var rest := CanFinish(u, oracle, st');
      run := [e] + rest;
    }
  }
}
