/** Which of the server's replies the verdict about the recipient is made from. */
module SmtpDecision {
  import opened Results
  import opened SmtpReply
  import LineReading
  import opened ReplyReading
  import opened SmtpVerdict
  import opened SmtpDialogue
  import opened SmtpReadings

  /** The readings of a session over a run: what has been returned so far, and then a read that waits. */
  function Readings(got: seq<Response>): nat -> Response {
    (k: nat) => if k < |got| then got[k] else Blocked
  }

  predicate Accepts(x: Response) {
    x.Reply? && 200 <= x.code < 300
  }

  /** The reading that follows the RCPT command: the fourth, or the fifth when EHLO was answered with a refusal. */
  function RcptReading(read: nat -> Response): nat {
    if Accepts(read(1)) then 3 else 4
  }

  /** The session gets as far as the RCPT command and reads a reply behind it. */
  predicate ReachesRcpt(read: nat -> Response) {
    && read(0).Reply? && read(0).code == 220
    && (Accepts(read(1)) || (read(1) != Blocked && Accepts(read(2))))
    && Accepts(read(RcptReading(read) - 1)) && read(RcptReading(read)).Reply?
  }

  lemma SessionDecides(read: nat -> Response, w: Wording)
    requires ReachesRcpt(read)
    ensures var x := read(RcptReading(read)); Session(read, w) == Ended(RcptOf(x.code, x.lines, w))
  {
  }

  /**
   * The last reading a session makes: the banner unless it is a 220; the EHLO answer when it
   * never comes, or that to HELO when both refuse; then the answer to MAIL unless it is a 2xx,
   * and otherwise the one to RCPT.
   */
  function LastReading(read: nat -> Response): nat {
    if !(read(0).Reply? && read(0).code == 220) then 0
    else if read(1) == Blocked then 1
    else if !Accepts(read(1)) && !Accepts(read(2)) then 2
    else if !Accepts(read(RcptReading(read) - 1)) then RcptReading(read) - 1
    else RcptReading(read)
  }

  /**
   * A session is decided by its last reading: it times out when that is still waiting, the
   * recipient is judged by it when it is a reply to MAIL or RCPT, and otherwise the exchanger
   * has failed.
   */
  lemma SessionByLastReading(read: nat -> Response, w: Wording)
    ensures var last, outcome := LastReading(read), Session(read, w);
            var x := read(last);
            && (outcome.TimedOut? <==> x == Blocked)
            && (x.Reply? && last >= RcptReading(read) - 1 ==> outcome == Ended(RcptOf(x.code, x.lines, w)))
            && (x != Blocked && !(x.Reply? && last >= RcptReading(read) - 1) ==>
                  outcome.Ended? && outcome.result.MxFail? && outcome.result.error == Protocol && outcome.result.errno == None)
  {
  }

  /** Whatever a reading returns of a reply carries the code of that reply. */
  lemma CodeOfReply(r: ServerReply, marks: seq<bool>)
    requires Sendable(r) && |marks| == |r.texts|
    ensures forall k :: 0 <= k < |Of(r, marks)| && Of(r, marks)[k].Reply? ==> Of(r, marks)[k].code == r.code
  {
    OfIsFinish(r, marks);
    MoreLinesLaw(r.code, r.texts[..|r.texts| - 1]);
    ExpandUnfinished(Body(r), marks[..|marks| - 1]);
    NoReplyYet(NOTHING, Expand(Body(r), marks[..|marks| - 1]));
  }

  lemma {:induction false} NoReplyYet(h: Heard, lines: seq<string>)
    requires Unfinished(lines) && forall k :: 0 <= k < |h.got| ==> !h.got[k].Reply?
    ensures forall k :: 0 <= k < |TakeAll(h, lines).got| ==> !TakeAll(h, lines).got[k].Reply?
    decreases |lines|
  {
    if lines != [] {
      assert forall i :: 0 <= i < |lines[1..]| ==> lines[1..][i] == lines[i + 1];
      NoReplyYet(Take(h, lines[0]), lines[1..]);
    }
  }

  lemma {:induction false} CodeOfOrigin(rs: seq<ServerReply>, marks: seq<bool>, k: nat)
    requires AllSendable(rs) && |marks| == LineCount(rs) && k < |Responses(rs, marks)|
    ensures Origin(rs, marks, k) < |rs|
    ensures Responses(rs, marks)[k].Reply? ==> Responses(rs, marks)[k].code == rs[Origin(rs, marks, k)].code
    decreases |rs|
  {
    var own := Of(rs[0], marks[..|rs[0].texts|]);
    CodeOfReply(rs[0], marks[..|rs[0].texts|]);
    if k >= |own| {
      CodeOfOrigin(rs[1..], marks[|rs[0].texts|..], k - |own|);
    }
  }

  /**
   * Over any run of pushes, cut anywhere, and reads one at a time, against a server that
   * answers each command with one reply of any number of lines: when the session gets to
   * the reply behind its RCPT command, the verdict is made from the reply that this reading
   * returns, which is never a later one than the answer to RCPT; and it is the answer to
   * RCPT if and only if every reply before it fits and had its last line queued, not handed
   * to a waiting read.
   */
  lemma VerdictFromRcptExactly(ops: seq<LineReading.Op>, rs: seq<ServerReply>, more: string, wd: Wording)
    requires AllSendable(rs) && OneAtATime(LineReading.START, ops)
    requires LineReading.Exec(LineReading.START, ops).input + more == Wire(StreamLines(rs))
    requires ReachesRcpt(Readings(Got(LineReading.Exec(LineReading.START, ops))))
    ensures var w := LineReading.Exec(LineReading.START, ops);
            var read := Readings(Got(w));
            var v := RcptReading(read);
            && |w.marks| <= LineCount(rs)
            && var marks := Padded(w, LineCount(rs));
               && v < |Responses(rs, marks)| && read(v) == Responses(rs, marks)[v]
               && Session(read, wd) == Ended(RcptOf(read(v).code, read(v).lines, wd))
               && Origin(rs, marks, v) <= v && Origin(rs, marks, v) < |rs|
               && read(v).code == rs[Origin(rs, marks, v)].code
               && (Origin(rs, marks, v) == v <==> forall j: nat :: j < v ==> ReadOnce(rs, marks, j))
  {
    var w := LineReading.Exec(LineReading.START, ops);
    var read := Readings(Got(w));
    var v := RcptReading(read);
    var n := ResponsesOfRun(ops, rs, more);
    var marks := Padded(w, LineCount(rs));
    assert v < n && Got(w)[..n][v] == Got(w)[v];
    SessionDecides(read, wd);
    InStepExactly(rs, marks, v);
    CodeOfOrigin(rs, marks, v);
  }

  // ----- an accepted dialogue, case by case -----

  /** The last line of the j-th reply was handed to a waiting read. */
  predicate Again(rs: seq<ServerReply>, marks: seq<bool>, j: nat)
    requires j < |rs| && |marks| == LineCount(rs)
  {
    rs[j].texts != [] && LastHanded(rs[j], MarksOf(rs, marks, j))
  }

  predicate AllFit(rs: seq<ServerReply>, marks: seq<bool>, n: nat)
    requires n <= |rs| && |marks| == LineCount(rs)
  {
    forall j :: 0 <= j < n ==> rs[j].texts != [] && Fits(rs[j], MarksOf(rs, marks, j))
  }

  /** What the readings return of the first reply, and of the rest. */
  lemma FirstReply(rs: seq<ServerReply>, marks: seq<bool>)
    requires AllSendable(rs) && rs != [] && |marks| == LineCount(rs) && AllFit(rs, marks, 1)
    ensures var m := marks[..|rs[0].texts|];
            && |Of(rs[0], m)| == (if Again(rs, marks, 0) then 2 else 1)
            && forall k :: 0 <= k < |Of(rs[0], m)| ==> Of(rs[0], m)[k].Reply?
  {
    OfLaw(rs[0], marks[..|rs[0].texts|]);
    assert Fits(rs[0], MarksOf(rs, marks, 0));
  }

  lemma AfterFirst(rs: seq<ServerReply>, marks: seq<bool>, n: nat)
    requires AllSendable(rs) && 0 < n <= |rs| && |marks| == LineCount(rs) && AllFit(rs, marks, n)
    ensures AllSendable(rs[1..]) && AllFit(rs[1..], marks[|rs[0].texts|..], n - 1)
    ensures forall j: nat :: j + 1 < n ==> Again(rs[1..], marks[|rs[0].texts|..], j) == Again(rs, marks, j + 1)
  {
    forall j | 0 <= j < n - 1 ensures rs[1..][j].texts != [] && Fits(rs[1..][j], MarksOf(rs[1..], marks[|rs[0].texts|..], j)) {
      assert Fits(rs[j + 1], MarksOf(rs, marks, j + 1));
    }
  }

  /** With replies that fit, the k-th reading returns a reply, and each reply takes one reading, or two when it is read again. */
  lemma {:induction false} OriginByCounting(rs: seq<ServerReply>, marks: seq<bool>, k: nat, n: nat)
    requires AllSendable(rs) && n <= |rs| && |marks| == LineCount(rs) && AllFit(rs, marks, n)
    requires k < n && k < |Responses(rs, marks)|
    ensures Responses(rs, marks)[k].Reply?
    ensures Origin(rs, marks, k) == Counted(rs, marks, k, n)
    decreases |rs|
  {
    FirstReply(rs, marks);
    AfterFirst(rs, marks, n);
    var own := |Of(rs[0], marks[..|rs[0].texts|])|;
    if k >= own {
      OriginByCounting(rs[1..], marks[|rs[0].texts|..], k - own, n - 1);
    }
  }

  /** A reading is at most half the readings behind, and never ahead. */
  lemma {:induction false} OriginBounds(rs: seq<ServerReply>, marks: seq<bool>, k: nat, n: nat)
    requires AllSendable(rs) && n <= |rs| && |marks| == LineCount(rs) && AllFit(rs, marks, n)
    requires k < n && k < |Responses(rs, marks)|
    ensures Responses(rs, marks)[k].Reply?
    ensures Origin(rs, marks, k) <= k <= 2 * Origin(rs, marks, k) + 1
    decreases |rs|
  {
    FirstReply(rs, marks);
    AfterFirst(rs, marks, n);
    var own := |Of(rs[0], marks[..|rs[0].texts|])|;
    if k >= own {
      OriginBounds(rs[1..], marks[|rs[0].texts|..], k - own, n - 1);
    }
  }

  /** The reply at the k-th place when every reply that is read again takes two places. */
  function Counted(rs: seq<ServerReply>, marks: seq<bool>, k: nat, n: nat): nat
    requires k < n <= |rs| && |marks| == LineCount(rs)
    decreases |rs|
  {
    var own := if Again(rs, marks, 0) then 2 else 1;
    if k < own then 0 else 1 + Counted(rs[1..], marks[|rs[0].texts|..], k - own, n - 1)
  }

  /** The reply that the fourth reading returns, by which of the first three are read again. */
  function FourthReading(a0: bool, a1: bool, a2: bool): nat {
    if a0 && a1 then 1 else if a0 || a1 || a2 then 2 else 3
  }

  lemma CountFour(rs: seq<ServerReply>, marks: seq<bool>)
    requires AllSendable(rs) && |rs| >= 4 && |marks| == LineCount(rs) && AllFit(rs, marks, 4)
    ensures Counted(rs, marks, 3, 4) == FourthReading(Again(rs, marks, 0), Again(rs, marks, 1), Again(rs, marks, 2))
  {
    var rs1, m1 := rs[1..], marks[|rs[0].texts|..];
    AfterFirst(rs, marks, 4);
    AfterFirst(rs1, m1, 3);
    assert Again(rs1, m1, 0) == Again(rs, marks, 1) && Again(rs1, m1, 1) == Again(rs, marks, 2);
    CountThree(rs1, m1);
  }

  lemma CountThree(rs: seq<ServerReply>, marks: seq<bool>)
    requires AllSendable(rs) && |rs| >= 3 && |marks| == LineCount(rs) && AllFit(rs, marks, 3)
    ensures Counted(rs, marks, 1, 3) == if Again(rs, marks, 0) then 0 else 1
    ensures Counted(rs, marks, 2, 3) == if Again(rs, marks, 0) || Again(rs, marks, 1) then 1 else 2
  {
    AfterFirst(rs, marks, 3);
    var rs1, m1 := rs[1..], marks[|rs[0].texts|..];
    assert Again(rs1, m1, 0) == Again(rs, marks, 1);
    assert Counted(rs1, m1, 0, 2) == 0;
    assert Counted(rs1, m1, 1, 2) == if Again(rs1, m1, 0) then 0 else 1;
  }

  /** Four readings that returned something, in a dialogue the server accepts up to the recipient. */
  ghost predicate Accepted(ops: seq<LineReading.Op>, rs: seq<ServerReply>, more: string) {
    && AllSendable(rs) && |rs| >= 4 && OneAtATime(LineReading.START, ops)
    && rs[0].code == 220 && 200 <= rs[1].code < 300 && 200 <= rs[2].code < 300
    && var w := LineReading.Exec(LineReading.START, ops);
       && w.input + more == Wire(StreamLines(rs))
       && |Got(w)| >= 4 && Got(w)[3] != ConnectionClosed
       && |w.marks| <= LineCount(rs) && AllFit(rs, Padded(w, LineCount(rs)), 4)
  }

  /**
   * In a dialogue whose banner, EHLO answer and MAIL answer the client accepts, of any
   * number of lines that fit and cut anywhere, the verdict carries the code of the RCPT
   * answer if none of the three has its last line handed to a waiting read; of the EHLO
   * answer if banner and EHLO answer have; and of the MAIL answer otherwise. In the last
   * two cases the address is valid whatever the server says about it, unless that code is 252.
   */
  lemma DialogueVerdict(ops: seq<LineReading.Op>, rs: seq<ServerReply>, more: string, wd: Wording)
    requires Accepted(ops, rs, more)
    ensures var w := LineReading.Exec(LineReading.START, ops);
            var marks := Padded(w, LineCount(rs));
            var j := FourthReading(Again(rs, marks, 0), Again(rs, marks, 1), Again(rs, marks, 2));
            var outcome := Session(Readings(Got(w)), wd);
            && Got(w)[3].Reply?
            && outcome == Ended(RcptOf(rs[j].code, Got(w)[3].lines, wd))
            && (j < 3 && rs[j].code != 252 ==> MapSmtpToResult("", outcome.result, wd).0.code == Valid)
  {
    var w := LineReading.Exec(LineReading.START, ops);
    var n := ResponsesOfRun(ops, rs, more);
    var marks := Padded(w, LineCount(rs));
    assert n >= 4;
    FirstFour(rs, marks, Got(w)[..n]);
    assert forall k :: 0 <= k < 4 ==> Got(w)[..n][k] == Got(w)[k];
    DecidedByFourth(Got(w), wd);
  }

  lemma FirstFour(rs: seq<ServerReply>, marks: seq<bool>, got: seq<Response>)
    requires AllSendable(rs) && |rs| >= 4 && |marks| == LineCount(rs) && AllFit(rs, marks, 4)
    requires rs[0].code == 220 && 200 <= rs[1].code < 300 && 200 <= rs[2].code < 300
    requires |got| >= 4 && got <= Responses(rs, marks)
    ensures got[0].Reply? && got[0].code == 220 && Accepts(got[1]) && Accepts(got[2]) && got[3].Reply?
    ensures got[3].code == rs[FourthReading(Again(rs, marks, 0), Again(rs, marks, 1), Again(rs, marks, 2))].code
  {
    EarlyReadings(rs, marks, got);
    FourthOfRun(rs, marks, got);
  }

  lemma FourthOfRun(rs: seq<ServerReply>, marks: seq<bool>, got: seq<Response>)
    requires AllSendable(rs) && |rs| >= 4 && |marks| == LineCount(rs) && AllFit(rs, marks, 4)
    requires |got| >= 4 && got <= Responses(rs, marks)
    ensures got[3].Reply?
    ensures got[3].code == rs[FourthReading(Again(rs, marks, 0), Again(rs, marks, 1), Again(rs, marks, 2))].code
  {
    CountFour(rs, marks);
    assert got[3] == Responses(rs, marks)[3];
    OriginByCounting(rs, marks, 3, 4);
    CodeOfOrigin(rs, marks, 3);
  }

  lemma EarlyReadings(rs: seq<ServerReply>, marks: seq<bool>, got: seq<Response>)
    requires AllSendable(rs) && |rs| >= 4 && |marks| == LineCount(rs) && AllFit(rs, marks, 4)
    requires |got| >= 4 && got <= Responses(rs, marks)
    ensures got[0].Reply? && got[0].code == rs[0].code
    ensures got[1].Reply? && (got[1].code == rs[0].code || got[1].code == rs[1].code)
    ensures got[2].Reply? && (got[2].code == rs[1].code || got[2].code == rs[2].code)
  {
    var j0 := WhichReply(rs, marks, got, 0);
    var j1 := WhichReply(rs, marks, got, 1);
    var j2 := WhichReply(rs, marks, got, 2);
    assert j0 == 0 && (j1 == 0 || j1 == 1) && (j2 == 1 || j2 == 2);
  }

  lemma WhichReply(rs: seq<ServerReply>, marks: seq<bool>, got: seq<Response>, k: nat) returns (j: nat)
    requires AllSendable(rs) && |rs| >= 4 && |marks| == LineCount(rs) && AllFit(rs, marks, 4)
    requires k < 4 <= |got| && got <= Responses(rs, marks)
    ensures j < |rs| && j <= k <= 2 * j + 1 && got[k].Reply? && got[k].code == rs[j].code
  {
    assert got[k] == Responses(rs, marks)[k];
    OriginBounds(rs, marks, k, 4);
    CodeOfOrigin(rs, marks, k);
    j := Origin(rs, marks, k);
  }

  lemma DecidedByFourth(got: seq<Response>, wd: Wording)
    requires |got| >= 4 && got[0].Reply? && got[0].code == 220 && Accepts(got[1]) && Accepts(got[2]) && got[3].Reply?
    ensures var outcome := Session(Readings(got), wd);
            && outcome == Ended(RcptOf(got[3].code, got[3].lines, wd))
            && (200 <= got[3].code < 300 && got[3].code != 252 ==> MapSmtpToResult("", outcome.result, wd).0.code == Valid)
  {
    SessionDecides(Readings(got), wd);
    VerdictSafety(got[3].code, got[3].lines, wd);
    SameVerdict(got[3].code, got[3].lines, wd);
  }

  lemma SameVerdict(code: nat, lines: seq<string>, wd: Wording)
    ensures MapSmtpToResult("", RcptOf(code, lines, wd), wd).0.code == CodeOf(code, lines, wd)
  {
  }

  /** When the last lines of banner and EHLO answer arrive while their reads wait, the EHLO answer decides. */
  lemma LockStepVerdict(ops: seq<LineReading.Op>, rs: seq<ServerReply>, more: string, wd: Wording)
    requires Accepted(ops, rs, more)
    requires var marks := Padded(LineReading.Exec(LineReading.START, ops), LineCount(rs));
             Again(rs, marks, 0) && Again(rs, marks, 1)
    ensures var w := LineReading.Exec(LineReading.START, ops);
            Got(w)[3].Reply? && Session(Readings(Got(w)), wd) == Ended(RcptOf(rs[1].code, Got(w)[3].lines, wd))
  {
    DialogueVerdict(ops, rs, more, wd);
  }

  /** When no last line does, the answer to RCPT decides. */
  lemma DeliveredOnceVerdict(ops: seq<LineReading.Op>, rs: seq<ServerReply>, more: string, wd: Wording)
    requires Accepted(ops, rs, more)
    requires var marks := Padded(LineReading.Exec(LineReading.START, ops), LineCount(rs));
             !Again(rs, marks, 0) && !Again(rs, marks, 1) && !Again(rs, marks, 2)
    ensures var w := LineReading.Exec(LineReading.START, ops);
            Got(w)[3].Reply? && Session(Readings(Got(w)), wd) == Ended(RcptOf(rs[3].code, Got(w)[3].lines, wd))
  {
    DialogueVerdict(ops, rs, more, wd);
  }
}
