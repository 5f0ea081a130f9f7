/** The order in which the slots of a batch are taken, and the order in which waiting tasks are served. */
module BatchOrder {
  import opened Results
  import opened Sequences
  import opened BatchScheduler
  import opened BatchSafety
  import opened BatchProgress

  // ----- who was handed which slot -----

  /** A slot in the hands of a task. */
  datatype Deal = Deal(s: Slot, t: Task)

  /** What a limiter hands out in a step; a group task that throws at once gives its slot back in the same step. */
  function Handed(st: State, e: Event): set<Deal>
    requires e == GroupStart ==> st.At(GroupSlot).queue != []
    requires e.InnerStart? ==> st.At(InnerSlot(e.g)).queue != []
    requires e == VerifyStart ==> st.At(VerifySlot).queue != []
    requires e.SmtpStart? ==> st.At(SmtpSlot(e.p)).queue != []
  {
    match e
    case GroupStart => {Deal(GroupSlot, Next(st, GroupSlot))}
    case InnerStart(g) => {Deal(InnerSlot(g), Next(st, InnerSlot(g)))}
    case VerifyStart => {Deal(VerifySlot, Next(st, VerifySlot))}
    case SmtpStart(p) => {Deal(SmtpSlot(p), Next(st, SmtpSlot(p)))}
    case _ => {}
  }

  /** What comes back to a limiter in a step. */
  function GivenBack(st: State, e: Event): set<Deal>
    requires e.SmtpDone? ==> e.t in st.stage && st.stage[e.t].Probing?
  {
    match e
    case SmtpDone(t) => {Deal(SmtpSlot(st.stage[t].p), t)}
    case VerifyDone(t) => if t.Job? then {} else {Deal(VerifySlot, t)}
    case InnerDone(g, i) => {Deal(InnerSlot(g), Item(g, i))}
    case GroupEnd(g, _) => {Deal(GroupSlot, Group(g))}
    case _ => {}
  }

  /** The slots handed out and not returned, over a run. */
  ghost function Ledger(u: Setup, oracle: Email -> Outcome, st: State, held: set<Deal>, run: seq<Event>): set<Deal>
    requires Feasible(u, oracle, st, run)
    decreases |run|
  {
    if run == [] then held
    else Ledger(u, oracle, Step(u, oracle, st, run[0]), held + Handed(st, run[0]) - GivenBack(st, run[0]), run[1..])
  }

  /** The slots inside which a task may ask for a slot. */
  function Outer(d: Deal): set<Deal> {
    if !d.t.Item? then {}
    else match d.s
      case GroupSlot => {}
      case InnerSlot(_) => {Deal(GroupSlot, Group(d.t.g))}
      case VerifySlot => {Deal(GroupSlot, Group(d.t.g)), Deal(InnerSlot(d.t.g), d.t)}
      case SmtpSlot(_) => {Deal(GroupSlot, Group(d.t.g)), Deal(InnerSlot(d.t.g), d.t), Deal(VerifySlot, d.t)}
  }

  /** Whoever has a slot, or waits in the queue of its limiter, holds the slots outside it. */
  ghost predicate Nested(st: State, held: set<Deal>) {
    && (forall d :: d in held ==> Outer(d) <= held)
    && (forall s: Slot, t: Task :: t in st.At(s).queue ==> Outer(Deal(s, t)) <= held)
  }

  /** The ledger agrees with the stages of the tasks. */
  ghost predicate Agrees(st: State, held: set<Deal>) {
    forall d: Deal :: d in held <==> d.t in st.stage && Holds(d.s, d.t, st.stage[d.t])
  }

  lemma SubjectAfter(u: Setup, oracle: Email -> Outcome, st: State, e: Event)
    requires Inv(u, st) && Enabled(u, st, e)
    ensures var t, stage' := Subject(u, st, e), Step(u, oracle, st, e).stage;
            t in stage' && stage'[t] == Destination(e)
  {
    StepMovesSubject(u, oracle, st, e);
    SubjectIsBehind(u, st, e);
    if e == GroupStart {
      EnteringLaw(u, st.stage[Subject(u, st, e) := Open], Subject(u, st, e).g);
    }
  }

  /** Only the start of a group moves other tasks: its addresses, which held nothing and hold nothing. */
  lemma OthersAfter(u: Setup, oracle: Email -> Outcome, st: State, e: Event, x: Task)
    requires Inv(u, st) && Enabled(u, st, e) && x != Subject(u, st, e)
    ensures var stage' := Step(u, oracle, st, e).stage;
            && (x in stage' <==> x in st.stage)
            && (x in st.stage ==> stage'[x] == st.stage[x] || (st.stage[x] == Outside && stage'[x] == WaitInner))
  {
    StepMovesSubject(u, oracle, st, e);
    SubjectIsBehind(u, st, e);
    if e == GroupStart {
      var t := Subject(u, st, e);
      EnteringLaw(u, st.stage[t := Open], t.g);
      assert GroupOk(u, st.stage, t.g);
    }
  }

  lemma DealsOfSubject(u: Setup, st: State, e: Event, d: Deal)
    requires Enabled(u, st, e) && (d in Handed(st, e) || d in GivenBack(st, e))
    ensures d.t == Subject(u, st, e)
  {
  }

  lemma StepAgrees(u: Setup, oracle: Email -> Outcome, st: State, held: set<Deal>, e: Event)
    requires Inv(u, st) && Enabled(u, st, e) && Agrees(st, held)
    ensures Agrees(Step(u, oracle, st, e), held + Handed(st, e) - GivenBack(st, e))
  {
    var st', held' := Step(u, oracle, st, e), held + Handed(st, e) - GivenBack(st, e);
    forall d: Deal ensures d in held' <==> d.t in st'.stage && Holds(d.s, d.t, st'.stage[d.t]) {
      DealAgrees(u, oracle, st, held, e, d);
    }
  }

  lemma DealAgrees(u: Setup, oracle: Email -> Outcome, st: State, held: set<Deal>, e: Event, d: Deal)
    requires Inv(u, st) && Enabled(u, st, e) && Agrees(st, held)
    ensures var stage' := Step(u, oracle, st, e).stage;
            d in held + Handed(st, e) - GivenBack(st, e) <==> d.t in stage' && Holds(d.s, d.t, stage'[d.t])
  {
    if d.t == Subject(u, st, e) {
      SubjectAfter(u, oracle, st, e);
      SubjectDealAgrees(u, st, held, e, d, Step(u, oracle, st, e).stage);
    } else {
      OthersAfter(u, oracle, st, e, d.t);
      OtherDealAgrees(u, st, held, e, d, Step(u, oracle, st, e).stage);
    }
  }

  lemma SubjectDealAgrees(u: Setup, st: State, held: set<Deal>, e: Event, d: Deal, stage': map<Task, Stage>)
    requires Inv(u, st) && Enabled(u, st, e) && Agrees(st, held) && d.t == Subject(u, st, e)
    requires d.t in stage' && stage'[d.t] == Destination(e)
    ensures d in held + Handed(st, e) - GivenBack(st, e) <==> d.t in stage' && Holds(d.s, d.t, stage'[d.t])
  {
    SubjectDeals(u, st, e, d.s);
    assert d == Deal(d.s, Subject(u, st, e));
  }

  lemma OtherDealAgrees(u: Setup, st: State, held: set<Deal>, e: Event, d: Deal, stage': map<Task, Stage>)
    requires Inv(u, st) && Enabled(u, st, e) && Agrees(st, held) && d.t != Subject(u, st, e)
    requires d.t in stage' <==> d.t in st.stage
    requires d.t in st.stage ==> stage'[d.t] == st.stage[d.t] || (st.stage[d.t] == Outside && stage'[d.t] == WaitInner)
    ensures d in held + Handed(st, e) - GivenBack(st, e) <==> d.t in stage' && Holds(d.s, d.t, stage'[d.t])
  {
    NothingHeld(d.s, d.t);
    NoDeals(u, st, e, d);
    assert d in held + Handed(st, e) - GivenBack(st, e) <==> d in held;
  }

  lemma NothingHeld(s: Slot, t: Task)
    ensures !Holds(s, t, Outside) && !Holds(s, t, WaitInner)
  {
  }

  lemma NoDeals(u: Setup, st: State, e: Event, d: Deal)
    requires Enabled(u, st, e) && d.t != Subject(u, st, e)
    ensures d !in Handed(st, e) && d !in GivenBack(st, e)
  {
    if d in Handed(st, e) || d in GivenBack(st, e) {
      DealsOfSubject(u, st, e, d);
    }
  }

  /** For the task of a step, what changes hands is what its stages say. */
  lemma SubjectDeals(u: Setup, st: State, e: Event, s: Slot)
    requires Inv(u, st) && Enabled(u, st, e)
    ensures var t := Subject(u, st, e);
            && t in st.stage
            && (Holds(s, t, Destination(e)) <==>
                  (Holds(s, t, st.stage[t]) || Deal(s, t) in Handed(st, e)) && Deal(s, t) !in GivenBack(st, e))
  {
    var t := Subject(u, st, e);
    SubjectIsBehind(u, st, e);
    assert KindOk(t, st.stage[t]);
    if e == GroupStart || e.InnerStart? || e == VerifyStart || e.SmtpStart? {
      StartDeals(u, st, e, s);
    }
  }

  lemma StartDeals(u: Setup, st: State, e: Event, s: Slot)
    requires Inv(u, st) && Enabled(u, st, e) && (e == GroupStart || e.InnerStart? || e == VerifyStart || e.SmtpStart?)
    ensures var t := Subject(u, st, e);
            && t in st.stage
            && (Holds(s, t, Destination(e)) <==> Holds(s, t, st.stage[t]) || Deal(s, t) in Handed(st, e))
            && Deal(s, t) !in GivenBack(st, e)
  {
    HeadWaits(u, st, match e
                     case InnerStart(g) => InnerSlot(g)
                     case VerifyStart => VerifySlot
                     case SmtpStart(p) => SmtpSlot(p)
                     case _ => GroupSlot);
    assert KindOk(Subject(u, st, e), st.stage[Subject(u, st, e)]);
  }

  lemma {:induction false} LedgerAgrees(u: Setup, oracle: Email -> Outcome, st: State, held: set<Deal>, run: seq<Event>)
    requires Inv(u, st) && Agrees(st, held) && Feasible(u, oracle, st, run)
    ensures Inv(u, Exec(u, oracle, st, run)) && Agrees(Exec(u, oracle, st, run), Ledger(u, oracle, st, held, run))
    decreases |run|
  {
    if run != [] {
      StepKeepsInv(u, oracle, st, run[0]);
      StepAgrees(u, oracle, st, held, run[0]);
      LedgerAgrees(u, oracle, Step(u, oracle, st, run[0]), held + Handed(st, run[0]) - GivenBack(st, run[0]), run[1..]);
    }
  }

  lemma AgreeingIsNested(u: Setup, st: State, held: set<Deal>)
    requires Inv(u, st) && Agrees(st, held)
    ensures Nested(st, held)
  {
    forall d: Deal | d in held || d.t in st.At(d.s).queue ensures Outer(d) <= held {
      assert LimiterOk(u, d.s, st.At(d.s), st.stage);
      if d.t.Item? {
        OuterHeld(u, st, held, d);
      }
    }
    forall s: Slot, t: Task | t in st.At(s).queue ensures Outer(Deal(s, t)) <= held {
      assert Deal(s, t).t in st.At(Deal(s, t).s).queue;
    }
  }

  lemma OuterHeld(u: Setup, st: State, held: set<Deal>, d: Deal)
    requires Inv(u, st) && Agrees(st, held) && d.t.Item? && d.t in st.stage
    requires Holds(d.s, d.t, st.stage[d.t]) || Waits(d.s, d.t, st.stage[d.t])
    ensures Outer(d) <= held
  {
    assert KindOk(d.t, st.stage[d.t]);
    GroupIsOpen(u, st, d.t);
    assert Holds(GroupSlot, Group(d.t.g), Open);
    assert Deal(GroupSlot, Group(d.t.g)) in held;
  }

  /**
   * Over every run of a batch, counting only what the limiters handed out and got back:
   * an address asks for a provider slot only while it has its station slot, for that only
   * while it has its domain's slot, and for that only while its group has its own; and no
   * outer slot comes back before the inner ones.
   */
  lemma SlotsAreNested(u: Setup, oracle: Email -> Outcome, run: seq<Event>)
    requires Feasible(u, oracle, Initial(u), run)
    ensures Nested(Exec(u, oracle, Initial(u), run), Ledger(u, oracle, Initial(u), {}, run))
  {
    InitialInv(u);
    InitialStages(u);
    assert Agrees(Initial(u), {});
    LedgerAgrees(u, oracle, Initial(u), {}, run);
    AgreeingIsNested(u, Exec(u, oracle, Initial(u), run), Ledger(u, oracle, Initial(u), {}, run));
  }

  // ----- first come, first served -----

  function Position(queue: seq<Task>, t: Task): nat
    requires t in queue
  {
    if queue[0] == t then 0 else 1 + Position(queue[1..], t)
  }

  /** Does the step take the head off the queue of this slot? */
  predicate Takes(e: Event, s: Slot) {
    match s
    case GroupSlot => e == GroupStart || e == GroupThrow
    case InnerSlot(g) => e == InnerStart(g)
    case VerifySlot => e == VerifyStart
    case SmtpSlot(p) => e == SmtpStart(p)
  }

  ghost function Taken(run: seq<Event>, s: Slot): nat {
    if run == [] then 0 else (if Takes(run[0], s) then 1 else 0) + Taken(run[1..], s)
  }

  /** A step takes the head off a queue or appends to it; only the queue of a new group starts afresh. */
  lemma QueueAfterStep(u: Setup, oracle: Email -> Outcome, st: State, e: Event, s: Slot)
    requires Inv(u, st) && Enabled(u, st, e) && st.At(s).queue != []
    ensures var q, q' := st.At(s).queue, Step(u, oracle, st, e).At(s).queue;
            if Takes(e, s) then q' == q[1..] else q' == q || (|q'| == |q| + 1 && q' == q + [q'[|q|]])
  {
    if Takes(e, s) {
      HeadTaken(u, oracle, st, e, s);
    } else {
      AtMostOneMore(u, oracle, st, e, s);
    }
  }

  lemma HeadTaken(u: Setup, oracle: Email -> Outcome, st: State, e: Event, s: Slot)
    requires Enabled(u, st, e) && st.At(s).queue != [] && Takes(e, s)
    ensures Step(u, oracle, st, e).At(s).queue == st.At(s).queue[1..]
  {
  }

  lemma AtMostOneMore(u: Setup, oracle: Email -> Outcome, st: State, e: Event, s: Slot)
    requires Inv(u, st) && Enabled(u, st, e) && st.At(s).queue != [] && !Takes(e, s)
    ensures var q, q' := st.At(s).queue, Step(u, oracle, st, e).At(s).queue;
            q' == q || (|q'| == |q| + 1 && q' == q + [q'[|q|]])
  {
    if e == GroupStart {
      NoQueueYet(u, st, Next(st, GroupSlot).g);
      GroupStartQueues(u, oracle, st, s);
    } else if e.InnerStart? || e.Arrive? || e.NeedSmtp? {
      OneQueues(u, oracle, st, e, s);
    } else {
      NoneQueues(u, oracle, st, e, s);
    }
  }

  lemma GroupStartQueues(u: Setup, oracle: Email -> Outcome, st: State, s: Slot)
    requires Enabled(u, st, GroupStart) && s != GroupSlot && s != InnerSlot(Next(st, GroupSlot).g)
    ensures Step(u, oracle, st, GroupStart).At(s) == st.At(s)
  {
  }

  lemma OneQueues(u: Setup, oracle: Email -> Outcome, st: State, e: Event, s: Slot)
    requires Enabled(u, st, e) && (e.InnerStart? || e.Arrive? || e.NeedSmtp?) && !Takes(e, s)
    ensures var q, q' := st.At(s).queue, Step(u, oracle, st, e).At(s).queue;
            q' == q || (|q'| == |q| + 1 && q' == q + [q'[|q|]])
  {
  }

  lemma NoneQueues(u: Setup, oracle: Email -> Outcome, st: State, e: Event, s: Slot)
    requires Enabled(u, st, e) && e != GroupStart && !(e.InnerStart? || e.Arrive? || e.NeedSmtp?) && !Takes(e, s)
    ensures Step(u, oracle, st, e).At(s).queue == st.At(s).queue
  {
  }

  lemma NoQueueYet(u: Setup, st: State, g: nat)
    requires Inv(u, st) && CanStart(u, st, GroupSlot) && Next(st, GroupSlot) == Group(g) && g < |u.groups|
    ensures st.At(InnerSlot(g)).queue == []
  {
    var q := st.At(InnerSlot(g)).queue;
    assert q != [] ==> q[0] in q;
    HeadWaits(u, st, GroupSlot);
    assert GroupOk(u, st.stage, g);
    assert LimiterOk(u, InnerSlot(g), st.At(InnerSlot(g)), st.stage);
    forall t | t in st.stage ensures !Waits(InnerSlot(g), t, st.stage[t]) {
      if t.Item? && t.g == g {
        assert t == Item(g, t.i);
      }
    }
  }

  lemma {:induction false} PositionLaw(queue: seq<Task>, t: Task)
    requires Distinct(queue) && t in queue
    ensures Position(queue, t) < |queue| && queue[Position(queue, t)] == t
    ensures forall x :: t in queue + [x] && Position(queue + [x], t) == Position(queue, t)
    ensures Position(queue, t) > 0 ==> t in queue[1..] && Position(queue[1..], t) == Position(queue, t) - 1
    ensures Position(queue, t) == 0 ==> t !in queue[1..]
  {
    assert queue == [queue[0]] + queue[1..];
    if queue[0] != t {
      DropHead(queue);
      PositionLaw(queue[1..], t);
      forall x ensures t in queue + [x] && Position(queue + [x], t) == Position(queue, t) {
        assert (queue + [x])[1..] == queue[1..] + [x];
      }
    }
  }

  /** Once a task has left a queue it never stands in it again. */
  lemma {:induction false} NeverQueuesAgain(u: Setup, oracle: Email -> Outcome, st: State, run: seq<Event>, s: Slot, t: Task)
    requires Inv(u, st) && Feasible(u, oracle, st, run) && t in st.stage && Past(s, st.stage[t])
    ensures t !in Exec(u, oracle, st, run).At(s).queue
    decreases |run|
  {
    if run == [] {
      assert LimiterOk(u, s, st.At(s), st.stage);
    } else {
      var st' := Step(u, oracle, st, run[0]);
      StepKeepsInv(u, oracle, st, run[0]);
      StaysPast(u, oracle, st, run[0], s, t);
      NeverQueuesAgain(u, oracle, st', run[1..], s, t);
    }
  }

  /** Stages behind the waiting stage of a slot. */
  predicate Past(s: Slot, b: Stage) {
    match s
    case GroupSlot => Rank(b) < 2
    case InnerSlot(_) => Rank(b) < 7
    case VerifySlot => Rank(b) < 6
    case SmtpSlot(_) => Rank(b) < 4
  }

  lemma StaysPast(u: Setup, oracle: Email -> Outcome, st: State, e: Event, s: Slot, t: Task)
    requires Inv(u, st) && Enabled(u, st, e) && t in st.stage && Past(s, st.stage[t])
    ensures t in Step(u, oracle, st, e).stage && Past(s, Step(u, oracle, st, e).stage[t])
  {
    if t == Subject(u, st, e) {
      SubjectAfter(u, oracle, st, e);
      SubjectIsBehind(u, st, e);
    } else {
      OthersAfter(u, oracle, st, e, t);
    }
  }

  /**
   * First come, first served, however many others arrive: a task in the queue of a slot
   * is still there exactly when the run has started no more tasks of that slot than stood
   * before it, and each start brings it one place nearer.
   */
  lemma {:induction false} ServedInTurn(u: Setup, oracle: Email -> Outcome, st: State, run: seq<Event>, s: Slot, t: Task)
    requires Inv(u, st) && Feasible(u, oracle, st, run) && t in st.At(s).queue
    ensures var before, q := Position(st.At(s).queue, t), Exec(u, oracle, st, run).At(s).queue;
            && (t in q <==> Taken(run, s) <= before)
            && (t in q ==> Position(q, t) == before - Taken(run, s))
    decreases |run|
  {
    var q := st.At(s).queue;
    assert LimiterOk(u, s, st.At(s), st.stage);
    PositionLaw(q, t);
    if run != [] {
      var st' := Step(u, oracle, st, run[0]);
      StepKeepsInv(u, oracle, st, run[0]);
      QueueAfterStep(u, oracle, st, run[0], s);
      if Takes(run[0], s) && q[0] == t {
        LeavesForGood(u, oracle, st, run[0], s);
        NeverQueuesAgain(u, oracle, st', run[1..], s, t);
      } else {
        ServedInTurn(u, oracle, st', run[1..], s, t);
      }
    }
  }

  lemma LeavesForGood(u: Setup, oracle: Email -> Outcome, st: State, e: Event, s: Slot)
    requires Inv(u, st) && Enabled(u, st, e) && Takes(e, s) && st.At(s).queue != []
    ensures var t := st.At(s).queue[0];
            t in Step(u, oracle, st, e).stage && Past(s, Step(u, oracle, st, e).stage[t])
  {
    assert Subject(u, st, e) == st.At(s).queue[0];
    assert Past(s, Destination(e));
    SubjectAfter(u, oracle, st, e);
  }

  /** Groups are queued in the order in which their domains first occur, and addresses in their order within the group. */
  lemma QueuedInRowOrder(u: Setup, oracle: Email -> Outcome, st: State)
    ensures Initial(u).At(GroupSlot) == Limiter(0, seq(|u.groups|, g requires 0 <= g < |u.groups| => Group(g)))
    ensures Enabled(u, st, GroupStart) ==>
              var g := Next(st, GroupSlot).g;
              g < |u.groups| &&
              Step(u, oracle, st, GroupStart).At(InnerSlot(g)) ==
              Limiter(0, seq(|u.groups[g]|, i requires 0 <= i < |u.groups[g]| => Item(g, i)))
  {
    GroupTasksLaw(0, |u.groups|);
    assert GroupTasks(0, |u.groups|) == seq(|u.groups|, g requires 0 <= g < |u.groups| => Group(g));
    if Enabled(u, st, GroupStart) {
      var g := Next(st, GroupSlot).g;
      ItemsFromLaw(u, g, 0);
      assert ItemsFrom(u, g, 0) == seq(|u.groups[g]|, i requires 0 <= i < |u.groups[g]| => Item(g, i));
    }
  }

  // ----- the batch's own distance -----

  /** The steps of a run that move a task of the batch. */
  ghost function OwnSteps(u: Setup, oracle: Email -> Outcome, st: State, run: seq<Event>): nat
    requires Feasible(u, oracle, st, run)
    decreases |run|
  {
    if run == [] then 0
    else
      (if Subject(u, st, run[0]).Group? || Subject(u, st, run[0]).Item? then 1 else 0)
      + OwnSteps(u, oracle, Step(u, oracle, st, run[0]), run[1..])
  }

  /** The batch makes at most as many steps of its own as its tasks have stages ahead, whatever else arrives and runs. */
  lemma {:induction false} OwnStepsAreBounded(u: Setup, oracle: Email -> Outcome, st: State, run: seq<Event>)
    requires Inv(u, st) && Feasible(u, oracle, st, run)
    ensures OwnSteps(u, oracle, st, run) + Total(Exec(u, oracle, st, run).stage, OwnTasks(u)) <= Total(st.stage, OwnTasks(u))
    decreases |run|
  {
    if run != [] {
      var st' := Step(u, oracle, st, run[0]);
      StepKeepsInv(u, oracle, st, run[0]);
      StepGoesForward(u, oracle, st, run[0]);
      TasksMembers(u);
      TotalMonotone(st.stage, st'.stage, OwnTasks(u));
      OwnStepsAreBounded(u, oracle, st', run[1..]);
    }
  }
}
