/** A whole batch: what the rows receive when the run is over, compared with verifying row by row. */
module BatchVerify {
  import opened Results
  import opened BatchScheduler
  import opened BatchSafety
  import opened BatchProgress
  import opened Plan = BatchPlan

  ghost predicate DistinctEmails(groups: seq<seq<string>>) {
    forall g, i, h, k ::
      0 <= g < |groups| && 0 <= i < |groups[g]| && 0 <= h < |groups| && 0 <= k < |groups[h]| && groups[g][i] == groups[h][k] ==>
        g == h && i == k
  }

  // ----- the result map during the run -----

  /** How many addresses of a group have their result in the map. */
  function RecordedOf(stage: map<Task, Stage>, g: nat): nat {
    if Group(g) in stage && stage[Group(g)].Closed? then stage[Group(g)].recorded else 0
  }

  /** The map holds exactly the recorded addresses, each with its own outcome. */
  ghost predicate ResultsOk(u: Setup, oracle: Email -> Outcome, st: State) {
    forall g, i :: 0 <= g < |u.groups| && 0 <= i < |u.groups[g]| ==>
      var e := u.groups[g][i];
      && (e in st.results <==> i < RecordedOf(st.stage, g))
      && (e in st.results ==> st.results[e] == ItemResult(e, oracle(e)))
  }

  lemma {:induction false} RecordedLaw(results: map<Email, VerificationResult>, emails: seq<Email>, k: nat, oracle: Email -> Outcome)
    requires k <= |emails|
    ensures forall e :: e in Recorded(results, emails, k, oracle) <==> e in results || e in emails[..k]
    ensures forall e :: e in Recorded(results, emails, k, oracle) ==>
                          Recorded(results, emails, k, oracle)[e] == if e in emails[..k] then ItemResult(e, oracle(e)) else results[e]
  {
    if k > 0 {
      RecordedLaw(results, emails, k - 1, oracle);
      assert emails[..k] == emails[..k - 1] + [emails[k - 1]];
    }
  }

  lemma GroupEndKeepsResults(u: Setup, oracle: Email -> Outcome, st: State, g: nat, k: nat)
    requires Inv(u, st) && ResultsOk(u, oracle, st) && DistinctEmails(u.groups) && Enabled(u, st, GroupEnd(g, k))
    ensures ResultsOk(u, oracle, Step(u, oracle, st, GroupEnd(g, k)))
  {
    var st' := Step(u, oracle, st, GroupEnd(g, k));
    RecordedLaw(st.results, u.groups[g], k, oracle);
    forall h, i | 0 <= h < |u.groups| && 0 <= i < |u.groups[h]|
      ensures var e := u.groups[h][i];
              && (e in st'.results <==> i < RecordedOf(st'.stage, h))
              && (e in st'.results ==> st'.results[e] == ItemResult(e, oracle(e)))
    {
      var e := u.groups[h][i];
      assert e in u.groups[g][..k] <==> h == g && i < k;
    }
  }

  lemma StepKeepsResults(u: Setup, oracle: Email -> Outcome, st: State, e: Event)
    requires Inv(u, st) && ResultsOk(u, oracle, st) && DistinctEmails(u.groups) && Enabled(u, st, e)
    ensures ResultsOk(u, oracle, Step(u, oracle, st, e))
  {
    if e.GroupEnd? {
      GroupEndKeepsResults(u, oracle, st, e.g, e.recorded);
    } else {
      OtherStepsKeepRecorded(u, oracle, st, e);
    }
  }

  lemma OtherStepsKeepRecorded(u: Setup, oracle: Email -> Outcome, st: State, e: Event)
    requires Inv(u, st) && Enabled(u, st, e) && !e.GroupEnd?
    ensures Step(u, oracle, st, e).results == st.results
    ensures forall g :: 0 <= g < |u.groups| ==> RecordedOf(Step(u, oracle, st, e).stage, g) == RecordedOf(st.stage, g)
  {
    StepMovesSubject(u, oracle, st, e);
    SubjectIsBehind(u, st, e);
    if e == GroupStart {
      ItemsOf(u, Next(st, GroupSlot).g);
    }
  }

  lemma {:induction false} RunKeepsResults(u: Setup, oracle: Email -> Outcome, st: State, run: seq<Event>)
    requires Inv(u, st) && ResultsOk(u, oracle, st) && DistinctEmails(u.groups) && Feasible(u, oracle, st, run)
    ensures Inv(u, Exec(u, oracle, st, run)) && ResultsOk(u, oracle, Exec(u, oracle, st, run))
    decreases |run|
  {
    if run != [] {
      StepKeepsInv(u, oracle, st, run[0]);
      StepKeepsResults(u, oracle, st, run[0]);
      RunKeepsResults(u, oracle, Step(u, oracle, st, run[0]), run[1..]);
    }
  }

  // ----- after the groups have settled -----

  function GroupError(email: Email, reason: string): VerificationResult {
    VerificationResult(email, SystemError, reason, SystemErrorReason)
  }

  /** A rejected group: every address without a result gets the reason of the group. */
  function FillGroup(results: map<Email, VerificationResult>, emails: seq<Email>, k: nat, reason: string): map<Email, VerificationResult>
    requires k <= |emails|
  {
    if k == 0 then results
    else
      var r := FillGroup(results, emails, k - 1, reason);
      if emails[k - 1] in r then r else r[emails[k - 1] := GroupError(emails[k - 1], reason)]
  }

  /** The loop over the settled groups; `rejected` carries the reason of each rejected one. */
  function FillAll(results: map<Email, VerificationResult>, groups: seq<seq<Email>>, rejected: seq<Option<string>>, n: nat):
    map<Email, VerificationResult>
    requires n <= |groups| == |rejected|
  {
    if n == 0 then results
    else
      var r := FillAll(results, groups, rejected, n - 1);
      if rejected[n - 1].Some? then FillGroup(r, groups[n - 1], |groups[n - 1]|, rejected[n - 1].value) else r
  }

  method FillRejected(results: map<Email, VerificationResult>, groups: seq<seq<Email>>, rejected: seq<Option<string>>)
    returns (resultsByEmail: map<Email, VerificationResult>)
    requires |groups| == |rejected|
    ensures resultsByEmail == FillAll(results, groups, rejected, |groups|)
  {
    resultsByEmail := results;
    for gi := 0 to |groups|
      invariant resultsByEmail == FillAll(results, groups, rejected, gi)
    {
      if rejected[gi].Some? {
        ghost var before := resultsByEmail;
        for i := 0 to |groups[gi]|
          invariant resultsByEmail == FillGroup(before, groups[gi], i, rejected[gi].value)
        {
          var email := groups[gi][i];
          if email !in resultsByEmail {
            resultsByEmail := resultsByEmail[email := GroupError(email, rejected[gi].value)];
          }
        }
      }
    }
  }

  lemma {:induction false} FillGroupLaw(results: map<Email, VerificationResult>, emails: seq<Email>, k: nat, reason: string)
    requires k <= |emails|
    ensures forall e :: e in FillGroup(results, emails, k, reason) <==> e in results || e in emails[..k]
    ensures forall e :: e in FillGroup(results, emails, k, reason) ==>
                          FillGroup(results, emails, k, reason)[e] == if e in results then results[e] else GroupError(e, reason)
  {
    if k > 0 {
      FillGroupLaw(results, emails, k - 1, reason);
      assert emails[..k] == emails[..k - 1] + [emails[k - 1]];
    }
  }

  /** What the fill leaves for one address of one group. */
  lemma {:induction false} FillAllLaw(results: map<Email, VerificationResult>, groups: seq<seq<Email>>,
                                      rejected: seq<Option<string>>, n: nat, g: nat, i: nat)
    requires n <= |groups| == |rejected| && DistinctEmails(groups) && g < |groups| && i < |groups[g]|
    ensures var e, r := groups[g][i], FillAll(results, groups, rejected, n);
            && (e in r <==> e in results || (g < n && rejected[g].Some?))
            && (e in r ==> r[e] == if e in results then results[e] else GroupError(e, rejected[g].value))
  {
    if n > 0 {
      FillAllLaw(results, groups, rejected, n - 1, g, i);
      if rejected[n - 1].Some? {
        var e := groups[g][i];
        FillGroupLaw(FillAll(results, groups, rejected, n - 1), groups[n - 1], |groups[n - 1]|, rejected[n - 1].value);
        assert e in groups[n - 1] <==> g == n - 1;
      }
    }
  }

  /** One output row: the result of its address under the row's own spelling. */
  function RowResult(row: Row, results: map<Email, VerificationResult>): VerificationResult {
    if row.email in results then results[row.email].(email := row.email)
    else VerificationResult(row.email, SystemError, "missing result after batch (internal)", SystemErrorReason)
  }

  /** The row mapping that ends the batch. */
  function RowResults(rows: seq<Row>, results: map<Email, VerificationResult>): seq<VerificationResult> {
    seq(|rows|, j requires 0 <= j < |rows| => RowResult(rows[j], results))
  }

  // ----- refinement -----

  function EmailsOf(entries: seq<Entry>): seq<seq<Email>> {
    if entries == [] then [] else EmailsOf(entries[..|entries| - 1]) + [entries[|entries| - 1].emails]
  }

  lemma {:induction false} EmailsOfLaw(entries: seq<Entry>)
    ensures |EmailsOf(entries)| == |entries|
    ensures forall n :: 0 <= n < |entries| ==> EmailsOf(entries)[n] == entries[n].emails
  {
    if entries != [] {
      EmailsOfLaw(entries[..|entries| - 1]);
    }
  }

  /** The domain groups of a batch. */
  function GroupsOfRows(rows: seq<Row>, key: Email -> string): seq<seq<Email>> {
    EmailsOf(GroupsOf(Unique(Emails(rows)), key))
  }

  lemma GroupsAre(rows: seq<Row>, key: Email -> string)
    ensures var unique, groups := Unique(Emails(rows)), GroupsOfRows(rows, key);
            var keys := Unique(KeysOf(unique, key));
            |groups| == |keys| && forall g :: 0 <= g < |groups| ==> groups[g] == WithKey(unique, key, keys[g])
  {
    GroupsPartition(Unique(Emails(rows)), key);
    EmailsOfLaw(GroupsOf(Unique(Emails(rows)), key));
  }

  /** No address is in two places of the groups. */
  lemma GroupsHaveDistinctEmails(rows: seq<Row>, key: Email -> string)
    ensures DistinctEmails(GroupsOfRows(rows, key))
  {
    var unique, groups := Unique(Emails(rows)), GroupsOfRows(rows, key);
    var keys := Unique(KeysOf(unique, key));
    GroupsAre(rows, key);
    UniqueLaw(Emails(rows));
    UniqueLaw(KeysOf(unique, key));
    forall g, i, h, k | 0 <= g < |groups| && 0 <= i < |groups[g]| && 0 <= h < |groups| && 0 <= k < |groups[h]|
                          && groups[g][i] == groups[h][k]
      ensures g == h && i == k
    {
      var e := groups[g][i];
      WithKeyLaw(unique, key, keys[g]);
      WithKeyLaw(unique, key, keys[h]);
      assert e in groups[g] && e in groups[h];
      assert keys[g] == keys[h];
    }
  }

  /** Every row's address is in some group. */
  lemma Located(rows: seq<Row>, key: Email -> string, j: nat) returns (g: nat, i: nat)
    requires j < |rows|
    ensures g < |GroupsOfRows(rows, key)| && i < |GroupsOfRows(rows, key)[g]|
    ensures GroupsOfRows(rows, key)[g][i] == rows[j].email
  {
    var e, unique, groups := rows[j].email, Unique(Emails(rows)), GroupsOfRows(rows, key);
    var keys := Unique(KeysOf(unique, key));
    EmailsLaw(rows);
    UniqueLaw(Emails(rows));
    assert Emails(rows)[j] in unique;
    KeysOfMembers(unique, key);
    UniqueLaw(KeysOf(unique, key));
    GroupsAre(rows, key);
    g := FirstIndex(keys, key(e));
    WithKeyLaw(unique, key, keys[g]);
    i := FirstIndex(groups[g], e);
  }

  /** The reasons belong to the groups that did not record everything. */
  ghost predicate ReasonsMatch(u: Setup, st: State, rejected: seq<Option<string>>) {
    && |rejected| == |u.groups|
    && forall g :: 0 <= g < |u.groups| ==> (rejected[g].None? ==> RecordedOf(st.stage, g) == |u.groups[g]|)
  }

  /** The row of an address whose verification ended so: its result, or its rejection, under the row's own spelling. */
  predicate RowHas(out: VerificationResult, email: Email, o: Outcome) {
    match o
    case Fulfilled(r) => out == VerificationResult(email, r.code, r.message, r.reason)
    case Rejected(reason) => out == VerificationResult(email, SystemError, reason, SystemErrorReason)
  }

  lemma ItemResultIs(email: Email, o: Outcome)
    ensures RowHas(ItemResult(email, o).(email := email), email, o)
  {
  }

  lemma InitialResults(u: Setup, oracle: Email -> Outcome)
    ensures ResultsOk(u, oracle, Initial(u))
  {
  }

  /**
   * The batch refines the row-by-row specification under every interleaving and
   * every rejection: when all groups have settled, row `j` carries the outcome of its
   * own address, verified under the options `o`, each of which is that of the first row `f`
   * with this address where that row gives it, and otherwise that of the batch; except that
   * an address its rejected group did not record carries the reason of the group. The
   * missing-result branch is never taken.
   */
  lemma BatchRefinesRows(rows: seq<Row>, batch: Opts, key: Email -> string, verify: (Email, Opts) -> Outcome,
                         firstSeen: map<Email, Opts>, u: Setup, oracle: Email -> Outcome, run: seq<Event>,
                         rejected: seq<Option<string>>, j: nat)
    returns (g: nat, i: nat, f: nat, o: Opts)
    requires FirstRowWins(rows, batch, firstSeen) && u.groups == GroupsOfRows(rows, key)
    requires forall e :: e in firstSeen ==> oracle(e) == verify(e, firstSeen[e])
    requires Feasible(u, oracle, Initial(u), run)
    requires var end := Exec(u, oracle, Initial(u), run); BatchDone(u, end) && ReasonsMatch(u, end, rejected)
    requires j < |rows|
    ensures g < |u.groups| && i < |u.groups[g]| && u.groups[g][i] == rows[j].email
    ensures f <= j && rows[f].email == rows[j].email && FirstToName(rows, f) && RowOverBatch(o, rows[f].opts, batch)
    ensures var end := Exec(u, oracle, Initial(u), run);
            var out := RowResults(rows, FillAll(end.results, u.groups, rejected, |u.groups|));
            && |out| == |rows|
            && (i >= RecordedOf(end.stage, g) ==> rejected[g].Some?)
            && (if i < RecordedOf(end.stage, g) then RowHas(out[j], rows[j].email, verify(rows[j].email, o))
                else out[j] == VerificationResult(rows[j].email, SystemError, rejected[g].value, SystemErrorReason))
  {
    GroupsHaveDistinctEmails(rows, key);
    InitialInv(u);
    InitialResults(u, oracle);
    RunKeepsResults(u, oracle, Initial(u), run);
    f := FirstRowOf(rows, j);
    o := firstSeen[rows[j].email];
    g, i := Located(rows, key, j);
    var end := Exec(u, oracle, Initial(u), run);
    FillAllLaw(end.results, u.groups, rejected, |u.groups|, g, i);
    ItemResultIs(rows[j].email, verify(rows[j].email, o));
  }

  /** With no rejected group every run gives the same answer: the row-by-row one. */
  lemma BatchIsRowByRow(rows: seq<Row>, batch: Opts, key: Email -> string, verify: (Email, Opts) -> Outcome,
                        firstSeen: map<Email, Opts>, u: Setup, oracle: Email -> Outcome, run: seq<Event>, j: nat)
    returns (f: nat, o: Opts)
    requires FirstRowWins(rows, batch, firstSeen) && u.groups == GroupsOfRows(rows, key)
    requires forall e :: e in firstSeen ==> oracle(e) == verify(e, firstSeen[e])
    requires Feasible(u, oracle, Initial(u), run)
    requires var end := Exec(u, oracle, Initial(u), run);
             BatchDone(u, end) && forall g :: 0 <= g < |u.groups| ==> RecordedOf(end.stage, g) == |u.groups[g]|
    requires j < |rows|
    ensures f <= j && rows[f].email == rows[j].email && FirstToName(rows, f) && RowOverBatch(o, rows[f].opts, batch)
    ensures var end := Exec(u, oracle, Initial(u), run);
            RowHas(RowResults(rows, end.results)[j], rows[j].email, verify(rows[j].email, o))
  {
    var none := seq(|u.groups|, n => None);
    var g, i;
    g, i, f, o := BatchRefinesRows(rows, batch, key, verify, firstSeen, u, oracle, run, none, j);
    var end := Exec(u, oracle, Initial(u), run);
    GroupsHaveDistinctEmails(rows, key);
    FillAllLaw(end.results, u.groups, none, |u.groups|, g, i);
  }
}
