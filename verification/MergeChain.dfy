/** Overlapping merge requests: each run waits for the one before it to settle. */
module MergeChain {
  import opened Results
  import opened DisposableFile

  /** What the outside decided for one run: the fetched lists and the day, or a failure before anything is written. */
  datatype Attempt = Fetched(results: seq<Fetched>, today: Line) | Failed

  /** Where one request stands: its run is an asynchronous function with a pause at each of these points. */
  datatype Phase =
    | Waiting
    | Fetching
    | Comparing(results: seq<Fetched>, today: Line)
    | Writing(results: seq<Fetched>, today: Line)
    | Done(attempt: Attempt, report: Option<Report>)

  datatype State = State(file: Option<string>, calls: seq<Phase>)

  datatype Event =
    | Request
    | Start(i: nat)
    | FetchFails(i: nat)
    | FetchEnds(i: nat, results: seq<Fetched>, today: Line)
    | Compare(i: nat)
    | WriteFails(i: nat)
    | Write(i: nat)

  /** What a run computes from its fetched lists: the text of the file, its digest, and the report. */
  datatype Env = Env(text: (seq<Fetched>, Line) -> string, digest: string -> string, report: (bool, seq<Fetched>) -> Report)

  /** `mergeChain.then(run)`: a run starts when the promise before it has settled, fulfilled or rejected. */
  predicate Enabled(st: State, e: Event) {
    match e
    case Request => true
    case Start(i) => i < |st.calls| && st.calls[i] == Waiting && (i == 0 || st.calls[i - 1].Done?)
    case FetchFails(i) => i < |st.calls| && st.calls[i] == Fetching
    case FetchEnds(i, _, _) => i < |st.calls| && st.calls[i] == Fetching
    case Compare(i) => i < |st.calls| && st.calls[i].Comparing?
    case WriteFails(i) => i < |st.calls| && st.calls[i].Writing?
    case Write(i) => i < |st.calls| && st.calls[i].Writing?
  }

  /** Where a step leaves the request it belongs to. */
  function Next(st: State, e: Event, env: Env): Phase
    requires Enabled(st, e) && e != Request
  {
    var c := st.calls[e.i];
    match e
    case Start(_) => Fetching
    case FetchFails(_) => Done(Failed, None)
    case FetchEnds(_, results, today) => Comparing(results, today)
    case Compare(_) =>
      if UpToDate(st.file, env.text(c.results, c.today), env.digest) then
        Done(Attempt.Fetched(c.results, c.today), Some(env.report(false, c.results)))
      else Writing(c.results, c.today)
    case WriteFails(_) => Done(Failed, None)
    case Write(_) => Done(Attempt.Fetched(c.results, c.today), Some(env.report(true, c.results)))
  }

  function Step(st: State, e: Event, env: Env): State
    requires Enabled(st, e)
  {
    if e == Request then st.(calls := st.calls + [Waiting])
    else
      var c := st.calls[e.i];
      State(if e.Write? then Some(env.text(c.results, c.today)) else st.file, st.calls[e.i := Next(st, e, env)])
  }

  predicate Feasible(st: State, run: seq<Event>, env: Env)
    decreases |run|
  {
    run == [] || (Enabled(st, run[0]) && Feasible(Step(st, run[0], env), run[1..], env))
  }

  function Exec(st: State, run: seq<Event>, env: Env): State
    requires Feasible(st, run, env)
    decreases |run|
  {
    if run == [] then st else Exec(Step(st, run[0], env), run[1..], env)
  }

  // ----- one after the other -----

  /** One attempt on its own. */
  function Alone(file: Option<string>, a: Attempt, env: Env): (Option<string>, Option<Report>) {
    match a
    case Failed => (file, None)
    case Fetched(results, today) =>
      var body := env.text(results, today);
      if UpToDate(file, body, env.digest) then (file, Some(env.report(false, results)))
      else (Some(body), Some(env.report(true, results)))
  }

  /** The runs of the source. */
  function Merging(p: Prose, digest: string -> string): Env {
    Env((results: seq<Fetched>, today: Line) => Body(results, today, p), digest,
        (changed: bool, results: seq<Fetched>) => Report(changed, |DisposableList.Merged(Texts(results))|, Counts(results)))
  }

  /** One run on its own is one merge. */
  lemma AloneIsMerge(file: Option<string>, results: seq<Fetched>, today: Line, p: Prose, digest: string -> string)
    ensures var (file', report) := Merge(file, results, today, p, digest);
            Alone(file, Attempt.Fetched(results, today), Merging(p, digest)) == (file', Some(report))
  {
  }

  /** How many requests have settled before the first that has not. */
  function Settled(calls: seq<Phase>): (n: nat)
    ensures n <= |calls|
    ensures forall i :: 0 <= i < n ==> calls[i].Done?
    ensures n < |calls| ==> !calls[n].Done?
  {
    if calls == [] || !calls[0].Done? then 0 else 1 + Settled(calls[1..])
  }

  /** The file after the settled runs, one after the other, and whether each reported what it would on its own. */
  function FileAfter(file: Option<string>, calls: seq<Phase>, n: nat, env: Env): Option<string>
    requires n <= |calls| && forall i :: 0 <= i < n ==> calls[i].Done?
  {
    if n == 0 then file else Alone(FileAfter(file, calls, n - 1, env), calls[n - 1].attempt, env).0
  }

  predicate ReportsAlone(file: Option<string>, calls: seq<Phase>, n: nat, env: Env)
    requires n <= |calls| && forall i :: 0 <= i < n ==> calls[i].Done?
  {
    n == 0 || (ReportsAlone(file, calls, n - 1, env) &&
               calls[n - 1].report == Alone(FileAfter(file, calls, n - 1, env), calls[n - 1].attempt, env).1)
  }

  predicate Active(c: Phase) {
    !c.Waiting? && !c.Done?
  }

  /** Behind the first unsettled request nothing has started. */
  predicate InOrder(calls: seq<Phase>) {
    forall i :: Settled(calls) < i < |calls| ==> calls[i] == Waiting
  }

  /** A run about to write has found the file out of date, and the file is still the one it read. */
  predicate MayWrite(st: State, env: Env) {
    var n := Settled(st.calls);
    n < |st.calls| && st.calls[n].Writing? ==>
      !UpToDate(st.file, env.text(st.calls[n].results, st.calls[n].today), env.digest)
  }

  predicate Inv(file0: Option<string>, st: State, env: Env) {
    && InOrder(st.calls)
    && st.file == FileAfter(file0, st.calls, Settled(st.calls), env)
    && ReportsAlone(file0, st.calls, Settled(st.calls), env)
    && MayWrite(st, env)
  }

  lemma InitialInv(file0: Option<string>, env: Env)
    ensures Inv(file0, State(file0, []), env)
  {
  }

  /** A request that is running, or may start, is the first unsettled one. */
  lemma RunsAtSettled(st: State, i: nat)
    requires InOrder(st.calls) && i < |st.calls|
    requires Active(st.calls[i]) || Enabled(st, Start(i))
    ensures i == Settled(st.calls)
  {
  }

  lemma {:induction false} SettledAppend(calls: seq<Phase>)
    ensures Settled(calls + [Waiting]) == Settled(calls)
  {
    if calls != [] && calls[0].Done? {
      SettledAppend(calls[1..]);
      assert (calls + [Waiting])[1..] == calls[1..] + [Waiting];
    }
  }

  /** The first request that has not settled, by its description. */
  lemma {:induction false} SettledIs(calls: seq<Phase>, n: nat)
    requires n <= |calls| && forall i :: 0 <= i < n ==> calls[i].Done?
    requires n < |calls| ==> !calls[n].Done?
    ensures Settled(calls) == n
  {
    if n > 0 {
      SettledIs(calls[1..], n - 1);
    }
  }

  lemma {:induction false} AfterSame(file: Option<string>, a: seq<Phase>, b: seq<Phase>, n: nat, env: Env)
    requires n <= |a| && n <= |b| && a[..n] == b[..n] && forall i :: 0 <= i < n ==> a[i].Done?
    ensures forall i :: 0 <= i < n ==> b[i].Done?
    ensures FileAfter(file, a, n, env) == FileAfter(file, b, n, env)
    ensures ReportsAlone(file, a, n, env) == ReportsAlone(file, b, n, env)
  {
    forall i | 0 <= i < n ensures a[i] == b[i] {
      assert a[i] == a[..n][i] == b[..n][i];
    }
    if n > 0 {
      assert a[..n - 1] == a[..n][..n - 1] == b[..n][..n - 1] == b[..n - 1];
      AfterSame(file, a, b, n - 1, env);
    }
  }

  /** A step that moves the first unsettled request on without settling it. */
  lemma Advance(file0: Option<string>, st: State, c: Phase, env: Env)
    requires Inv(file0, st, env) && Settled(st.calls) < |st.calls| && !c.Done?
    requires c.Writing? ==> !UpToDate(st.file, env.text(c.results, c.today), env.digest)
    ensures Inv(file0, st.(calls := st.calls[Settled(st.calls) := c]), env)
  {
    var n := Settled(st.calls);
    var calls' := st.calls[n := c];
    SettledIs(calls', n);
    AfterSame(file0, st.calls, calls', n, env);
  }

  /** A step that settles it. */
  lemma Settle(file0: Option<string>, st: State, attempt: Attempt, env: Env)
    requires Inv(file0, st, env) && Settled(st.calls) < |st.calls|
    ensures var (file, report) := Alone(st.file, attempt, env);
            Inv(file0, State(file, st.calls[Settled(st.calls) := Done(attempt, report)]), env)
  {
    var n := Settled(st.calls);
    var (file, report) := Alone(st.file, attempt, env);
    var calls' := st.calls[n := Done(attempt, report)];
    SettledIs(calls', n + 1);
    AfterSame(file0, st.calls, calls', n, env);
    AfterNext(file0, calls', n, env);
  }

  lemma AfterNext(file: Option<string>, calls: seq<Phase>, n: nat, env: Env)
    requires n < |calls| && forall i :: 0 <= i <= n ==> calls[i].Done?
    ensures var (file', report) := Alone(FileAfter(file, calls, n, env), calls[n].attempt, env);
            && FileAfter(file, calls, n + 1, env) == file'
            && (ReportsAlone(file, calls, n + 1, env) <==> ReportsAlone(file, calls, n, env) && calls[n].report == report)
  {
  }

  lemma StepKeepsInv(file0: Option<string>, st: State, e: Event, env: Env)
    requires Inv(file0, st, env) && Enabled(st, e)
    ensures Inv(file0, Step(st, e, env), env)
  {
    match e
    case Request =>
      SettledAppend(st.calls);
      AfterSame(file0, st.calls, st.calls + [Waiting], Settled(st.calls), env);
    case Start(i) =>
      RunsAtSettled(st, i);
      Advance(file0, st, Fetching, env);
    case FetchFails(i) =>
      RunsAtSettled(st, i);
      Settle(file0, st, Failed, env);
    case FetchEnds(i, results, today) =>
      RunsAtSettled(st, i);
      Advance(file0, st, Comparing(results, today), env);
    case Compare(i) =>
      RunsAtSettled(st, i);
      var c := st.calls[i];
      if UpToDate(st.file, env.text(c.results, c.today), env.digest) {
        Settle(file0, st, Attempt.Fetched(c.results, c.today), env);
      } else {
        Advance(file0, st, Writing(c.results, c.today), env);
      }
    case WriteFails(i) =>
      RunsAtSettled(st, i);
      Settle(file0, st, Failed, env);
    case Write(i) =>
      RunsAtSettled(st, i);
      Settle(file0, st, Attempt.Fetched(st.calls[i].results, st.calls[i].today), env);
  }

  lemma {:induction false} RunKeepsInv(file0: Option<string>, st: State, run: seq<Event>, env: Env)
    requires Inv(file0, st, env) && Feasible(st, run, env)
    ensures Inv(file0, Exec(st, run, env), env)
    decreases |run|
  {
    if run != [] {
      StepKeepsInv(file0, st, run[0], env);
      RunKeepsInv(file0, Step(st, run[0], env), run[1..], env);
    }
  }

  /**
   * However requests, fetches, comparisons, writes and failures interleave: at most one
   * run is under way, the file is what the settled runs leave one after the other in the
   * order of the requests, and each settled request reports what it would have on its own. A
   * new request is always taken, behind the others.
   */
  lemma MergesAreSerial(file0: Option<string>, run: seq<Event>, env: Env)
    requires Feasible(State(file0, []), run, env)
    ensures var st := Exec(State(file0, []), run, env);
            var n := Settled(st.calls);
            && (forall i, k :: 0 <= i < |st.calls| && 0 <= k < |st.calls| && Active(st.calls[i]) && Active(st.calls[k]) ==> i == k)
            && st.file == FileAfter(file0, st.calls, n, env)
            && ReportsAlone(file0, st.calls, n, env)
            && Enabled(st, Request) && Step(st, Request, env) == State(st.file, st.calls + [Waiting])
  {
    InitialInv(file0, env);
    RunKeepsInv(file0, State(file0, []), run, env);
    var st := Exec(State(file0, []), run, env);
    forall i | 0 <= i < |st.calls| && Active(st.calls[i]) ensures i == Settled(st.calls) {
      RunsAtSettled(st, i);
    }
  }

  /** A failed merge stops nobody: while a request is unsettled, some step of a run can be taken. */
  lemma AlwaysProceeds(file0: Option<string>, st: State, env: Env)
    requires Inv(file0, st, env) && Settled(st.calls) < |st.calls|
    ensures var n := Settled(st.calls);
            Enabled(st, Start(n)) || Enabled(st, FetchFails(n)) || Enabled(st, Compare(n)) || Enabled(st, Write(n))
  {
  }

  /** What remains to be done, four steps a request at most. */
  function Remaining(calls: seq<Phase>): nat {
    if calls == [] then 0 else Remaining(calls[..|calls| - 1]) + StepsLeft(calls[|calls| - 1])
  }

  function StepsLeft(c: Phase): nat {
    match c
    case Waiting => 4
    case Fetching => 3
    case Comparing(_, _) => 2
    case Writing(_, _) => 1
    case Done(_, _) => 0
  }

  lemma {:induction false} RemainingUpdate(calls: seq<Phase>, i: nat, c: Phase)
    requires i < |calls|
    ensures Remaining(calls[i := c]) == Remaining(calls) - StepsLeft(calls[i]) + StepsLeft(c)
  {
    var front, last := calls[..|calls| - 1], calls[|calls| - 1];
    if i == |calls| - 1 {
      assert calls[i := c][..|calls| - 1] == front;
    } else {
      RemainingUpdate(front, i, c);
      assert calls[i := c][..|calls| - 1] == front[i := c];
    }
  }

  lemma NextIsNearer(st: State, e: Event, env: Env)
    requires Enabled(st, e) && e != Request
    ensures StepsLeft(Next(st, e, env)) < StepsLeft(st.calls[e.i])
  {
    var c, c' := st.calls[e.i], Next(st, e, env);
    match e
    case Start(_) => assert c.Waiting? && c'.Fetching?;
    case FetchFails(_) => assert c.Fetching? && c'.Done?;
    case FetchEnds(_, _, _) => assert c.Fetching? && c'.Comparing?;
    case Compare(_) => assert c.Comparing? && (c'.Done? || c'.Writing?);
    case WriteFails(_) => assert c.Writing? && c'.Done?;
    case Write(_) => assert c.Writing? && c'.Done?;
  }

  /** Every step but a new request brings the end nearer. */
  lemma StepsRunOut(st: State, e: Event, env: Env)
    requires Enabled(st, e) && e != Request
    ensures Remaining(Step(st, e, env).calls) < Remaining(st.calls)
  {
    NextIsNearer(st, e, env);
    RemainingUpdate(st.calls, e.i, Next(st, e, env));
  }

  /** So a run without new requests is no longer than what remained at its start. */
  lemma {:induction false} QuietRunsAreBounded(st: State, run: seq<Event>, env: Env)
    requires Feasible(st, run, env) && forall e :: e in run ==> e != Request
    ensures |run| + Remaining(Exec(st, run, env).calls) <= Remaining(st.calls)
    decreases |run|
  {
    if run != [] {
      assert run[0] in run && forall e :: e in run[1..] ==> e in run;
      StepsRunOut(st, run[0], env);
      QuietRunsAreBounded(Step(st, run[0], env), run[1..], env);
    }
  }

  /** And a run that only a new request could continue has settled every request. */
  lemma QuietRunsSettleAll(file0: Option<string>, st: State, run: seq<Event>, env: Env)
    requires Inv(file0, st, env) && Feasible(st, run, env)
    requires forall e :: Enabled(Exec(st, run, env), e) ==> e == Request
    ensures forall i :: 0 <= i < |Exec(st, run, env).calls| ==> Exec(st, run, env).calls[i].Done?
  {
    RunKeepsInv(file0, st, run, env);
    var end := Exec(st, run, env);
    if Settled(end.calls) < |end.calls| {
      AlwaysProceeds(file0, end, env);
      assert false;
    }
  }
}
