/** Invariants of the batch scheduler over every interleaving, its concurrency bounds, and its progress. */
module BatchSafety {
  import opened Results
  import opened Sequences
  import opened BatchScheduler

  ghost function Holders(s: Slot, stage: map<Task, Stage>): set<Task> {
    set t | t in stage && Holds(s, t, stage[t])
  }

  /** A limiter agrees with the stages: it queues who waits, counts who holds, and respects its capacity. */
  ghost predicate LimiterOk(u: Setup, s: Slot, l: Limiter, stage: map<Task, Stage>) {
    && Distinct(l.queue)
    && (forall t :: t in l.queue <==> t in stage && Waits(s, t, stage[t]))
    && l.active == |Holders(s, stage)|
    && l.active <= u.Cap(s)
  }

  ghost predicate LimitersOk(u: Setup, st: State) {
    forall s: Slot :: LimiterOk(u, s, st.At(s), st.stage)
  }

  predicate KindOk(t: Task, st: Stage) {
    match t
    case Group(_) => st == WaitGroup || st == Open || st.Closed?
    case Item(_, _) => !(st == WaitGroup || st == Open || st.Closed?)
    case Other(_) => !(st == WaitGroup || st == Open || st.Closed? || st == WaitInner || st == Returned)
    case Job(_) => st == Outside || st == Settled || InVerify(st)
  }

  ghost predicate KeysOk(u: Setup, stage: map<Task, Stage>) {
    && (forall t :: t in stage ==> u.HasTask(t))
    && (forall g :: 0 <= g < |u.groups| ==> Group(g) in stage)
    && (forall g, i :: 0 <= g < |u.groups| && 0 <= i < |u.groups[g]| ==> Item(g, i) in stage)
    && (forall n :: 0 <= n < u.others ==> Other(n) in stage)
    && (forall n :: 0 <= n < u.jobs ==> Job(n) in stage)
  }

  /** A group and its addresses: not begun, under way, aborted before any began, or over. */
  ghost predicate GroupOk(u: Setup, stage: map<Task, Stage>, g: nat)
    requires g < |u.groups| && KeysOk(u, stage)
  {
    match stage[Group(g)]
    case WaitGroup => forall i :: 0 <= i < |u.groups[g]| ==> stage[Item(g, i)] == Outside
    case Open => forall i :: 0 <= i < |u.groups[g]| ==> stage[Item(g, i)] != Outside
    case Closed(k, aborted) =>
      && k <= |u.groups[g]|
      && (aborted ==> k == 0)
      && forall i :: 0 <= i < |u.groups[g]| ==> stage[Item(g, i)] == if aborted then Outside else Settled
    case _ => false
  }

  ghost predicate StagesOk(u: Setup, stage: map<Task, Stage>) {
    && KeysOk(u, stage)
    && (forall t :: t in stage ==> KindOk(t, stage[t]))
    && (forall g :: 0 <= g < |u.groups| ==> GroupOk(u, stage, g))
  }

  ghost predicate Inv(u: Setup, st: State) {
    LimitersOk(u, st) && StagesOk(u, st.stage)
  }

  // ----- one task moves: what that does to one limiter -----

  lemma MoveNeutral(u: Setup, s: Slot, l: Limiter, stage: map<Task, Stage>, t: Task, b: Stage)
    requires LimiterOk(u, s, l, stage) && t in stage
    requires Waits(s, t, stage[t]) == Waits(s, t, b) && Holds(s, t, stage[t]) == Holds(s, t, b)
    ensures LimiterOk(u, s, l, stage[t := b])
  {
    assert Holders(s, stage[t := b]) == Holders(s, stage);
  }

  lemma MoveEnter(u: Setup, s: Slot, l: Limiter, stage: map<Task, Stage>, t: Task, b: Stage)
    requires LimiterOk(u, s, l, stage) && t in stage
    requires !Waits(s, t, stage[t]) && Waits(s, t, b) && !Holds(s, t, stage[t]) && !Holds(s, t, b)
    ensures LimiterOk(u, s, Submit(l, t), stage[t := b])
  {
    assert Holders(s, stage[t := b]) == Holders(s, stage);
  }

  lemma DropHead(q: seq<Task>)
    requires Distinct(q) && q != []
    ensures Distinct(q[1..])
    ensures forall t :: t in q[1..] <==> t in q && t != q[0]
  {
    assert q == [q[0]] + q[1..];
  }

  lemma MoveStart(u: Setup, s: Slot, l: Limiter, stage: map<Task, Stage>, b: Stage)
    requires LimiterOk(u, s, l, stage) && l.queue != [] && l.active < u.Cap(s)
    requires var t := l.queue[0]; !Waits(s, t, b) && !Holds(s, t, stage[t]) && Holds(s, t, b)
    ensures LimiterOk(u, s, Started(l), stage[l.queue[0] := b])
  {
    var t := l.queue[0];
    assert Holders(s, stage[t := b]) == Holders(s, stage) + {t};
    DropHead(l.queue);
  }

  lemma MoveRelease(u: Setup, s: Slot, l: Limiter, stage: map<Task, Stage>, t: Task, b: Stage)
    requires LimiterOk(u, s, l, stage) && t in stage
    requires !Waits(s, t, stage[t]) && !Waits(s, t, b) && Holds(s, t, stage[t]) && !Holds(s, t, b)
    ensures LimiterOk(u, s, Released(l), stage[t := b])
  {
    assert t in Holders(s, stage);
    assert Holders(s, stage[t := b]) == Holders(s, stage) - {t};
  }

  /** Starting a task that fails at once gives its place back. */
  lemma MoveThrough(u: Setup, s: Slot, l: Limiter, stage: map<Task, Stage>, b: Stage)
    requires LimiterOk(u, s, l, stage) && l.queue != []
    requires var t := l.queue[0]; !Waits(s, t, b) && !Holds(s, t, stage[t]) && !Holds(s, t, b)
    ensures LimiterOk(u, s, Released(Started(l)), stage[l.queue[0] := b])
  {
    var t := l.queue[0];
    assert Holders(s, stage[t := b]) == Holders(s, stage);
    DropHead(l.queue);
  }

  // ----- one task moves: what that does to the groups -----

  lemma StagesAfterMove(u: Setup, stage: map<Task, Stage>, t: Task, b: Stage)
    requires StagesOk(u, stage) && t in stage && KindOk(t, b)
    requires !t.Group?
    requires t.Item? ==> stage[t] != Outside && stage[t] != Settled && b != Outside
    ensures StagesOk(u, stage[t := b])
  {
    var stage' := stage[t := b];
    forall g | 0 <= g < |u.groups| ensures GroupOk(u, stage', g) {
      assert GroupOk(u, stage, g);
    }
  }

  lemma StagesAfterClose(u: Setup, stage: map<Task, Stage>, g: nat, b: Stage)
    requires StagesOk(u, stage) && g < |u.groups| && b.Closed? && b.recorded <= |u.groups[g]|
    requires b.aborted ==> b.recorded == 0
    requires forall i :: 0 <= i < |u.groups[g]| ==> stage[Item(g, i)] == if b.aborted then Outside else Settled
    ensures StagesOk(u, stage[Group(g) := b])
  {
    var stage' := stage[Group(g) := b];
    forall h | 0 <= h < |u.groups| ensures GroupOk(u, stage', h) {
      assert GroupOk(u, stage, h);
    }
  }

  // ----- a group begins: all its addresses enter at once -----

  lemma {:induction false} ItemsFromLaw(u: Setup, g: nat, i: nat)
    requires g < |u.groups| && i <= |u.groups[g]|
    ensures |ItemsFrom(u, g, i)| == |u.groups[g]| - i
    ensures forall k :: 0 <= k < |ItemsFrom(u, g, i)| ==> ItemsFrom(u, g, i)[k] == Item(g, i + k)
    decreases |u.groups[g]| - i
  {
    if i < |u.groups[g]| {
      ItemsFromLaw(u, g, i + 1);
    }
  }

  lemma ItemsOf(u: Setup, g: nat)
    requires g < |u.groups|
    ensures Distinct(ItemsFrom(u, g, 0))
    ensures forall t: Task :: t in ItemsFrom(u, g, 0) <==> t.Item? && t.g == g && t.i < |u.groups[g]|
  {
    ItemsFromLaw(u, g, 0);
    forall t: Task | t.Item? && t.g == g && t.i < |u.groups[g]| ensures t in ItemsFrom(u, g, 0) {
      assert ItemsFrom(u, g, 0)[t.i] == t;
    }
  }

  function Entering(u: Setup, stage: map<Task, Stage>, g: nat): map<Task, Stage>
    requires g < |u.groups|
  {
    stage + map x | x in ItemsFrom(u, g, 0) :: WaitInner
  }

  /** The addresses of group `g` wait for their domain, and nothing else changes. */
  ghost predicate Entered(stage: map<Task, Stage>, stage': map<Task, Stage>, g: nat) {
    && (forall t :: t in stage' <==> t in stage)
    && (forall t :: t in stage ==> stage'[t] == if t.Item? && t.g == g then WaitInner else stage[t])
  }

  lemma EnteringLaw(u: Setup, stage: map<Task, Stage>, g: nat)
    requires g < |u.groups| && KeysOk(u, stage)
    ensures Entered(stage, Entering(u, stage, g), g)
  {
    ItemsOf(u, g);
  }

  lemma OwnLimiterAfterEntering(u: Setup, stage: map<Task, Stage>, stage': map<Task, Stage>, g: nat)
    requires g < |u.groups| && KeysOk(u, stage) && Entered(stage, stage', g)
    ensures LimiterOk(u, InnerSlot(g), Limiter(0, ItemsFrom(u, g, 0)), stage')
  {
    ItemsOf(u, g);
    assert Holders(InnerSlot(g), stage') == {};
  }

  lemma LimiterAfterEntering(u: Setup, s: Slot, l: Limiter, stage: map<Task, Stage>, stage': map<Task, Stage>, g: nat)
    requires g < |u.groups| && KeysOk(u, stage) && s != InnerSlot(g) && Entered(stage, stage', g)
    requires forall i :: 0 <= i < |u.groups[g]| ==> stage[Item(g, i)] == Outside
    requires LimiterOk(u, s, l, stage)
    ensures LimiterOk(u, s, l, stage')
  {
    forall t | t in stage
      ensures Holds(s, t, stage'[t]) == Holds(s, t, stage[t]) && Waits(s, t, stage'[t]) == Waits(s, t, stage[t])
    {
      if t.Item? && t.g == g {
        assert stage[t] == Outside;
      }
    }
    assert Holders(s, stage') == Holders(s, stage);
  }

  lemma StagesAfterEntering(u: Setup, stage: map<Task, Stage>, stage': map<Task, Stage>, g: nat)
    requires StagesOk(u, stage) && g < |u.groups| && stage[Group(g)] == WaitGroup && Entered(stage[Group(g) := Open], stage', g)
    ensures StagesOk(u, stage')
  {
    forall h | 0 <= h < |u.groups| ensures GroupOk(u, stage', h) {
      assert GroupOk(u, stage, h);
    }
  }

  lemma GroupStartKeepsInv(u: Setup, oracle: Email -> Outcome, st: State)
    requires Inv(u, st) && Enabled(u, st, GroupStart)
    ensures Inv(u, Step(u, oracle, st, GroupStart))
  {
    var t := Next(st, GroupSlot);
    HeadWaits(u, st, GroupSlot);
    assert GroupOk(u, st.stage, t.g);
    var st' := Step(u, oracle, st, GroupStart);
    EnteringLaw(u, st.stage[t := Open], t.g);
    assert st'.stage == Entering(u, st.stage[t := Open], t.g);
    StagesAfterEntering(u, st.stage, st'.stage, t.g);
    forall s: Slot ensures LimiterOk(u, s, st'.At(s), st'.stage) {
      LimiterAfterGroupStart(u, st, s, st'.stage);
    }
  }

  lemma LimiterAfterGroupStart(u: Setup, st: State, s: Slot, stage': map<Task, Stage>)
    requires Inv(u, st) && CanStart(u, st, GroupSlot)
    requires var t := Next(st, GroupSlot);
             && t.Group? && t.g < |u.groups| && t in st.stage && st.stage[t] == WaitGroup
             && Entered(st.stage[t := Open], stage', t.g)
    ensures var t := Next(st, GroupSlot);
            LimiterOk(u, s, if s == GroupSlot then Started(st.At(GroupSlot))
                            else if s == InnerSlot(t.g) then Limiter(0, ItemsFrom(u, t.g, 0)) else st.At(s), stage')
  {
    var t, l := Next(st, GroupSlot), st.At(s);
    var mid := st.stage[t := Open];
    assert LimiterOk(u, s, l, st.stage);
    assert GroupOk(u, st.stage, t.g);
    if s == GroupSlot {
      MoveStart(u, s, l, st.stage, Open);
      LimiterAfterEntering(u, s, Started(l), mid, stage', t.g);
    } else if s == InnerSlot(t.g) {
      OwnLimiterAfterEntering(u, mid, stage', t.g);
    } else {
      MoveNeutral(u, s, l, st.stage, t, Open);
      LimiterAfterEntering(u, s, l, mid, stage', t.g);
    }
  }

  /** Whoever stands at the head of a queue waits for that slot. */
  lemma HeadWaits(u: Setup, st: State, s: Slot)
    requires LimitersOk(u, st) && st.At(s).queue != []
    ensures Next(st, s) in st.stage && Waits(s, Next(st, s), st.stage[Next(st, s)])
  {
    assert LimiterOk(u, s, st.At(s), st.stage);
    assert Next(st, s) in st.At(s).queue;
  }

  // ----- the other steps -----

  lemma GroupThrowKeepsInv(u: Setup, oracle: Email -> Outcome, st: State)
    requires Inv(u, st) && Enabled(u, st, GroupThrow)
    ensures Inv(u, Step(u, oracle, st, GroupThrow))
  {
    var t, b := Next(st, GroupSlot), Closed(0, true);
    HeadWaits(u, st, GroupSlot);
    assert GroupOk(u, st.stage, t.g);
    StagesAfterClose(u, st.stage, t.g, b);
    var st' := Step(u, oracle, st, GroupThrow);
    forall s: Slot ensures LimiterOk(u, s, st'.At(s), st'.stage) {
      assert LimiterOk(u, s, st.At(s), st.stage);
      if s == GroupSlot {
        MoveThrough(u, s, st.At(s), st.stage, b);
      } else {
        MoveNeutral(u, s, st.At(s), st.stage, t, b);
      }
    }
  }

  lemma GroupEndKeepsInv(u: Setup, oracle: Email -> Outcome, st: State, g: nat, k: nat)
    requires Inv(u, st) && Enabled(u, st, GroupEnd(g, k))
    ensures Inv(u, Step(u, oracle, st, GroupEnd(g, k)))
  {
    var t, b := Group(g), Closed(k, false);
    StagesAfterClose(u, st.stage, g, b);
    var st' := Step(u, oracle, st, GroupEnd(g, k));
    forall s: Slot ensures LimiterOk(u, s, st'.At(s), st'.stage) {
      assert LimiterOk(u, s, st.At(s), st.stage);
      if s == GroupSlot {
        MoveRelease(u, s, st.At(s), st.stage, t, b);
      } else {
        MoveNeutral(u, s, st.At(s), st.stage, t, b);
      }
    }
  }

  /** Nothing but `slot` notices that `t` moves to stage `b`. */
  ghost predicate OnlyAt(slot: Slot, stage: map<Task, Stage>, t: Task, b: Stage)
    requires t in stage
  {
    forall s: Slot :: s != slot ==> Waits(s, t, stage[t]) == Waits(s, t, b) && Holds(s, t, stage[t]) == Holds(s, t, b)
  }

  lemma LimitersAfterStart(u: Setup, st: State, slot: Slot, b: Stage)
    requires LimitersOk(u, st) && CanStart(u, st, slot)
    requires Next(st, slot) in st.stage && OnlyAt(slot, st.stage, Next(st, slot), b)
    requires var t := Next(st, slot); !Waits(slot, t, b) && !Holds(slot, t, st.stage[t]) && Holds(slot, t, b)
    ensures LimitersOk(u, st.With(slot, Started(st.At(slot))).Put(Next(st, slot), b))
  {
    var t := Next(st, slot);
    var st' := st.With(slot, Started(st.At(slot))).Put(t, b);
    forall s: Slot ensures LimiterOk(u, s, st'.At(s), st'.stage) {
      assert LimiterOk(u, s, st.At(s), st.stage);
      if s == slot {
        MoveStart(u, s, st.At(s), st.stage, b);
      } else {
        MoveNeutral(u, s, st.At(s), st.stage, t, b);
      }
    }
  }

  lemma LimitersAfterEnter(u: Setup, st: State, slot: Slot, t: Task, b: Stage)
    requires LimitersOk(u, st) && t in st.stage && OnlyAt(slot, st.stage, t, b)
    requires !Waits(slot, t, st.stage[t]) && Waits(slot, t, b) && !Holds(slot, t, st.stage[t]) && !Holds(slot, t, b)
    ensures LimitersOk(u, st.With(slot, Submit(st.At(slot), t)).Put(t, b))
  {
    var st' := st.With(slot, Submit(st.At(slot), t)).Put(t, b);
    forall s: Slot ensures LimiterOk(u, s, st'.At(s), st'.stage) {
      assert LimiterOk(u, s, st.At(s), st.stage);
      if s == slot {
        MoveEnter(u, s, st.At(s), st.stage, t, b);
      } else {
        MoveNeutral(u, s, st.At(s), st.stage, t, b);
      }
    }
  }

  lemma LimitersAfterRelease(u: Setup, st: State, slot: Slot, t: Task, b: Stage)
    requires LimitersOk(u, st) && t in st.stage && OnlyAt(slot, st.stage, t, b)
    requires !Waits(slot, t, st.stage[t]) && !Waits(slot, t, b) && Holds(slot, t, st.stage[t]) && !Holds(slot, t, b)
    ensures LimitersOk(u, st.With(slot, Released(st.At(slot))).Put(t, b))
  {
    var st' := st.With(slot, Released(st.At(slot))).Put(t, b);
    forall s: Slot ensures LimiterOk(u, s, st'.At(s), st'.stage) {
      assert LimiterOk(u, s, st.At(s), st.stage);
      if s == slot {
        MoveRelease(u, s, st.At(s), st.stage, t, b);
      } else {
        MoveNeutral(u, s, st.At(s), st.stage, t, b);
      }
    }
  }

  /** A move that no slot notices. */
  lemma LimitersAfterQuiet(u: Setup, st: State, t: Task, b: Stage)
    requires LimitersOk(u, st) && t in st.stage
    requires forall s: Slot :: Waits(s, t, st.stage[t]) == Waits(s, t, b) && Holds(s, t, st.stage[t]) == Holds(s, t, b)
    ensures LimitersOk(u, st.Put(t, b))
  {
    forall s: Slot ensures LimiterOk(u, s, st.Put(t, b).At(s), st.Put(t, b).stage) {
      assert LimiterOk(u, s, st.At(s), st.stage);
      MoveNeutral(u, s, st.At(s), st.stage, t, b);
    }
  }

  /** An address leaves the queue of its domain and joins the station-wide queue. */
  lemma InnerStartKeepsInv(u: Setup, oracle: Email -> Outcome, st: State, g: nat)
    requires Inv(u, st) && Enabled(u, st, InnerStart(g))
    ensures Inv(u, Step(u, oracle, st, InnerStart(g)))
  {
    var t := Next(st, InnerSlot(g));
    HeadWaits(u, st, InnerSlot(g));
    StagesAfterMove(u, st.stage, t, WaitVerify);
    var st' := Step(u, oracle, st, InnerStart(g));
    forall s: Slot ensures LimiterOk(u, s, st'.At(s), st'.stage) {
      assert LimiterOk(u, s, st.At(s), st.stage);
      if s == InnerSlot(g) {
        MoveStart(u, s, st.At(s), st.stage, WaitVerify);
      } else if s == VerifySlot {
        MoveEnter(u, s, st.At(s), st.stage, t, WaitVerify);
      } else {
        MoveNeutral(u, s, st.At(s), st.stage, t, WaitVerify);
      }
    }
  }

  lemma EnterStepKeepsInv(u: Setup, oracle: Email -> Outcome, st: State, e: Event)
    requires Inv(u, st) && Enabled(u, st, e) && (e.Arrive? || e.NeedSmtp?)
    ensures Inv(u, Step(u, oracle, st, e))
  {
    match e
    case Arrive(n) =>
      LimitersAfterEnter(u, st, VerifySlot, Other(n), WaitVerify);
      StagesAfterMove(u, st.stage, Other(n), WaitVerify);
    case NeedSmtp(t, p) =>
      LimitersAfterEnter(u, st, SmtpSlot(p), t, WaitSmtp(p));
      StagesAfterMove(u, st.stage, t, WaitSmtp(p));
  }

  lemma StartStepKeepsInv(u: Setup, oracle: Email -> Outcome, st: State, e: Event)
    requires Inv(u, st) && Enabled(u, st, e) && (e.VerifyStart? || e.SmtpStart?)
    ensures Inv(u, Step(u, oracle, st, e))
  {
    match e
    case VerifyStart =>
      HeadWaits(u, st, VerifySlot);
      LimitersAfterStart(u, st, VerifySlot, Verifying);
      StagesAfterMove(u, st.stage, Next(st, VerifySlot), Verifying);
    case SmtpStart(p) =>
      HeadWaits(u, st, SmtpSlot(p));
      LimitersAfterStart(u, st, SmtpSlot(p), Probing(p));
      StagesAfterMove(u, st.stage, Next(st, SmtpSlot(p)), Probing(p));
  }

  lemma VerifyDoneKeepsInv(u: Setup, oracle: Email -> Outcome, st: State, t: Task)
    requires Inv(u, st) && Enabled(u, st, VerifyDone(t))
    ensures Inv(u, Step(u, oracle, st, VerifyDone(t)))
  {
    assert KindOk(t, st.stage[t]);
    if t.Job? {
      LimitersAfterQuiet(u, st, t, Settled);
    } else {
      LimitersAfterRelease(u, st, VerifySlot, t, AfterVerify(t));
    }
    StagesAfterMove(u, st.stage, t, AfterVerify(t));
  }

  lemma JobStartKeepsInv(u: Setup, oracle: Email -> Outcome, st: State, n: nat)
    requires Inv(u, st) && Enabled(u, st, JobStart(n))
    ensures Inv(u, Step(u, oracle, st, JobStart(n)))
  {
    LimitersAfterQuiet(u, st, Job(n), Verifying);
    StagesAfterMove(u, st.stage, Job(n), Verifying);
  }

  lemma ReleaseStepKeepsInv(u: Setup, oracle: Email -> Outcome, st: State, e: Event)
    requires Inv(u, st) && Enabled(u, st, e) && (e.SmtpDone? || e.InnerDone?)
    ensures Inv(u, Step(u, oracle, st, e))
  {
    match e
    case SmtpDone(t) =>
      LimitersAfterRelease(u, st, SmtpSlot(st.stage[t].p), t, Probed);
      StagesAfterMove(u, st.stage, t, Probed);
    case InnerDone(g, i) =>
      LimitersAfterRelease(u, st, InnerSlot(g), Item(g, i), Settled);
      StagesAfterMove(u, st.stage, Item(g, i), Settled);
  }

  lemma StepKeepsInv(u: Setup, oracle: Email -> Outcome, st: State, e: Event)
    requires Inv(u, st) && Enabled(u, st, e)
    ensures Inv(u, Step(u, oracle, st, e))
  {
    match e
    case GroupStart => GroupStartKeepsInv(u, oracle, st);
    case GroupThrow => GroupThrowKeepsInv(u, oracle, st);
    case InnerStart(g) => InnerStartKeepsInv(u, oracle, st, g);
    case Arrive(_) => EnterStepKeepsInv(u, oracle, st, e);
    case JobStart(n) => JobStartKeepsInv(u, oracle, st, n);
    case VerifyStart => StartStepKeepsInv(u, oracle, st, e);
    case NeedSmtp(_, _) => EnterStepKeepsInv(u, oracle, st, e);
    case SmtpStart(_) => StartStepKeepsInv(u, oracle, st, e);
    case SmtpDone(_) => ReleaseStepKeepsInv(u, oracle, st, e);
    case VerifyDone(t) => VerifyDoneKeepsInv(u, oracle, st, t);
    case InnerDone(_, _) => ReleaseStepKeepsInv(u, oracle, st, e);
    case GroupEnd(g, k) => GroupEndKeepsInv(u, oracle, st, g, k);
  }

  lemma {:induction false} RunKeepsInv(u: Setup, oracle: Email -> Outcome, st: State, run: seq<Event>)
    requires Inv(u, st) && Feasible(u, oracle, st, run)
    ensures Inv(u, Exec(u, oracle, st, run))
    decreases |run|
  {
    if run != [] {
      StepKeepsInv(u, oracle, st, run[0]);
      RunKeepsInv(u, oracle, Step(u, oracle, st, run[0]), run[1..]);
    }
  }
}
