/** Which of the server's replies each reading returns, and which one decides about the recipient. */
module SmtpReadings {
  import opened Results
  import opened Sequences
  import opened Text
  import opened SmtpReply
  import LineReading
  import opened ReplyReading
  import opened SmtpVerdict
  import opened SmtpDialogue

  // ----- one reply -----

  /** The lines of a reply before its last. */
  function MoreLines(code: nat, texts: seq<string>): seq<string>
    requires code < 1000
  {
    if texts == [] then [] else [PrintStatusLine(StatusLine(code, true, texts[0]))] + MoreLines(code, texts[1..])
  }

  function LastLine(r: ServerReply): string
    requires r.code < 1000 && r.texts != []
  {
    PrintStatusLine(StatusLine(r.code, false, r.texts[|r.texts| - 1]))
  }

  function Body(r: ServerReply): seq<string>
    requires r.code < 1000 && r.texts != []
  {
    MoreLines(r.code, r.texts[..|r.texts| - 1])
  }

  /** The last line of a reply, read alone. */
  function Echo(r: ServerReply): Response
    requires r.code < 1000 && r.texts != []
  {
    Reply(r.code, [LastLine(r)], LastLine(r))
  }

  lemma {:induction false} MoreLinesLaw(code: nat, texts: seq<string>)
    requires code < 1000 && forall i :: 0 <= i < |texts| ==> NoTerminators(texts[i])
    ensures |MoreLines(code, texts)| == |texts|
    ensures forall i :: 0 <= i < |texts| ==> ParseStatusLine(MoreLines(code, texts)[i]).more
  {
    if texts != [] {
      MoreLinesLaw(code, texts[1..]);
      StatusLineRoundTrip(StatusLine(code, true, texts[0]));
    }
  }

  lemma {:induction false} ReplyLinesSplit(code: nat, texts: seq<string>)
    requires code < 1000 && texts != []
    ensures ReplyLines(code, texts) == Body(ServerReply(code, texts)) + [LastLine(ServerReply(code, texts))]
  {
    if |texts| == 1 {
      assert ReplyLines(code, texts[1..]) == [];
    } else {
      ReplyLinesSplit(code, texts[1..]);
      assert texts[..|texts| - 1][1..] == texts[1..][..|texts| - 2];
    }
  }

  function Count(marks: seq<bool>): nat {
    if marks == [] then 0 else (if marks[0] then 1 else 0) + Count(marks[1..])
  }

  lemma {:induction false} ExpandLength(lines: seq<string>, marks: seq<bool>)
    requires |lines| == |marks|
    ensures |Expand(lines, marks)| == |lines| + Count(marks)
    decreases |lines|
  {
    if lines != [] {
      ExpandLength(lines[1..], marks[1..]);
    }
  }

  /** Lines that end no reply. */
  predicate Unfinished(lines: seq<string>) {
    forall i :: 0 <= i < |lines| ==> ParseStatusLine(lines[i]).more
  }

  lemma {:induction false} ExpandUnfinished(lines: seq<string>, marks: seq<bool>)
    requires |lines| == |marks| && Unfinished(lines)
    ensures Unfinished(Expand(lines, marks))
    decreases |lines|
  {
    if lines != [] {
      assert forall i :: 0 <= i < |lines[1..]| ==> lines[1..][i] == lines[i + 1];
      ExpandUnfinished(lines[1..], marks[1..]);
    }
  }

  /** Unfinished lines are collected while they fit, and otherwise end a reading as too large. */
  lemma {:induction false} CollectUnfinished(h: Heard, lines: seq<string>)
    requires Unfinished(lines) && |h.lines| <= MAX_SMTP_MULTILINE_LINES
    ensures |h.lines| + |lines| <= MAX_SMTP_MULTILINE_LINES ==> TakeAll(h, lines) == Heard(h.got, h.lines + lines)
    ensures |h.lines| + |lines| > MAX_SMTP_MULTILINE_LINES ==> |TakeAll(h, lines).got| > |h.got|
    ensures |TakeAll(h, lines).got| >= |h.got|
    decreases |lines|
  {
    if lines == [] {
      assert h.lines + [] == h.lines;
    } else {
      assert forall i :: 0 <= i < |lines[1..]| ==> lines[1..][i] == lines[i + 1];
      CollectUnfinished(Take(h, lines[0]), lines[1..]);
      assert h.lines + [lines[0]] + lines[1..] == h.lines + lines;
    }
  }

  /** How many lines of a reply its reading collects before the last: each once, and again when it was handed over. */
  function Collected(r: ServerReply, marks: seq<bool>): nat
    requires |marks| == |r.texts| && r.texts != []
  {
    |r.texts| - 1 + Count(marks[..|marks| - 1])
  }

  predicate Fits(r: ServerReply, marks: seq<bool>)
    requires |marks| == |r.texts| && r.texts != []
  {
    Collected(r, marks) <= MAX_SMTP_MULTILINE_LINES
  }

  /** The last line of the reply was handed to a read that waited for it. */
  predicate LastHanded(r: ServerReply, marks: seq<bool>)
    requires |marks| == |r.texts| && r.texts != []
  {
    marks[|marks| - 1]
  }

  lemma ReplyLinesLength(r: ServerReply)
    requires Sendable(r)
    ensures |ReplyLines(r.code, r.texts)| == |r.texts|
  {
    ReplyLinesAreWireLines(r.code, r.texts);
  }

  /** What reading the lines of one reply returns. */
  ghost function Of(r: ServerReply, marks: seq<bool>): seq<Response>
    requires Sendable(r) && |marks| == |r.texts|
  {
    ReplyLinesLength(r);
    TakeAll(NOTHING, Expand(ReplyLines(r.code, r.texts), marks)).got
  }

  /** The lines of a reply as they are read: those before the last, then the last, then the last again if it was handed over. */
  lemma ReadInOrder(r: ServerReply, marks: seq<bool>)
    requires Sendable(r) && |marks| == |r.texts|
    ensures |ReplyLines(r.code, r.texts)| == |marks| && |Body(r)| == |marks| - 1
    ensures var last := if LastHanded(r, marks) then [LastLine(r), LastLine(r)] else [LastLine(r)];
            Expand(ReplyLines(r.code, r.texts), marks) == Expand(Body(r), marks[..|marks| - 1]) + last
  {
    var k := |marks| - 1;
    ReplyLinesLength(r);
    ReplyLinesSplit(r.code, r.texts);
    assert marks == marks[..k] + [marks[k]];
    ExpandConcat(Body(r), marks[..k], [LastLine(r)], [marks[k]]);
    assert Expand([LastLine(r)], [marks[k]]) == [LastLine(r)] + ((if marks[k] then [LastLine(r)] else []) + []);
  }

  lemma TakeLast(h: Heard, r: ServerReply)
    requires Sendable(r)
    ensures Take(h, LastLine(r)) ==
            Heard(h.got + [Reply(r.code, h.lines + [LastLine(r)], Join(h.lines + [LastLine(r)], "\n"))], [])
  {
    StatusLineRoundTrip(StatusLine(r.code, false, r.texts[|r.texts| - 1]));
  }

  lemma TakeEcho(h: Heard, r: ServerReply)
    requires Sendable(r) && h.lines == []
    ensures Take(h, LastLine(r)) == Heard(h.got + [Echo(r)], [])
  {
    TakeLast(h, r);
    assert [] + [LastLine(r)] == [LastLine(r)];
  }

  /** Reading a reply is collecting all but its last line, and then taking the last. */
  lemma OfIsFinish(r: ServerReply, marks: seq<bool>)
    requires Sendable(r) && |marks| == |r.texts|
    ensures |ReplyLines(r.code, r.texts)| == |marks| && |Body(r)| == |marks| - 1
    ensures var h := TakeAll(NOTHING, Expand(Body(r), marks[..|marks| - 1]));
            && Of(r, marks) == h.got + [Reply(r.code, h.lines + [LastLine(r)], Join(h.lines + [LastLine(r)], "\n"))]
                                    + (if LastHanded(r, marks) then [Echo(r)] else [])
            && TakeAll(NOTHING, Expand(ReplyLines(r.code, r.texts), marks)) == Heard(Of(r, marks), [])
  {
    MoreLinesLaw(r.code, r.texts[..|r.texts| - 1]);
    ReadInOrder(r, marks);
    var body := Expand(Body(r), marks[..|marks| - 1]);
    FinishReply(TakeAll(NOTHING, body), r, LastHanded(r, marks));
    TakeAllConcat(NOTHING, body, if LastHanded(r, marks) then [LastLine(r), LastLine(r)] else [LastLine(r)]);
  }

  lemma CollectBody(r: ServerReply, marks: seq<bool>)
    requires Sendable(r) && |marks| == |r.texts|
    ensures |Body(r)| == |marks| - 1
    ensures var body := Expand(Body(r), marks[..|marks| - 1]);
            if Fits(r, marks) then TakeAll(NOTHING, body) == Heard([], body) else |TakeAll(NOTHING, body).got| > 0
  {
    MoreLinesLaw(r.code, r.texts[..|r.texts| - 1]);
    ExpandUnfinished(Body(r), marks[..|marks| - 1]);
    ExpandLength(Body(r), marks[..|marks| - 1]);
    var body := Expand(Body(r), marks[..|marks| - 1]);
    CollectUnfinished(NOTHING, body);
    assert [] + body == body;
  }

  /**
   * A reply is read as one reply, with the handed lines before its last doubled, when
   * it fits; its last line is read again as a reply of its own exactly when it was handed
   * to a waiting read; and nothing of it is left for the next reading.
   */
  lemma OfLaw(r: ServerReply, marks: seq<bool>)
    requires Sendable(r) && |marks| == |r.texts|
    ensures |ReplyLines(r.code, r.texts)| == |marks| && |Body(r)| == |marks| - 1
    ensures TakeAll(NOTHING, Expand(ReplyLines(r.code, r.texts), marks)) == Heard(Of(r, marks), [])
    ensures Fits(r, marks) ==>
              var all := Expand(Body(r), marks[..|marks| - 1]) + [LastLine(r)];
              Of(r, marks) == [Reply(r.code, all, Join(all, "\n"))] + if LastHanded(r, marks) then [Echo(r)] else []
    ensures |Of(r, marks)| >= 1
    ensures |Of(r, marks)| == 1 <==> Fits(r, marks) && !LastHanded(r, marks)
    ensures LastHanded(r, marks) ==> Of(r, marks)[|Of(r, marks)| - 1] == Echo(r)
  {
    OfIsFinish(r, marks);
    CollectBody(r, marks);
  }

  lemma FinishReply(h: Heard, r: ServerReply, again: bool)
    requires Sendable(r)
    ensures var all := h.lines + [LastLine(r)];
            TakeAll(h, if again then [LastLine(r), LastLine(r)] else [LastLine(r)]) ==
            Heard(h.got + [Reply(r.code, all, Join(all, "\n"))] + (if again then [Echo(r)] else []), [])
  {
    TakeLast(h, r);
    TakeOne(h, LastLine(r));
    if again {
      TakeEcho(Take(h, LastLine(r)), r);
      TakeAllConcat(h, [LastLine(r)], [LastLine(r)]);
      TakeOne(Take(h, LastLine(r)), LastLine(r));
      assert [LastLine(r)] + [LastLine(r)] == [LastLine(r), LastLine(r)];
    }
  }

  // ----- a stream of replies -----

  function LineCount(rs: seq<ServerReply>): nat {
    if rs == [] then 0 else |rs[0].texts| + LineCount(rs[1..])
  }

  lemma {:induction false} StreamLength(rs: seq<ServerReply>)
    requires AllSendable(rs)
    ensures |StreamLines(rs)| == LineCount(rs)
  {
    if rs != [] {
      ReplyLinesLength(rs[0]);
      StreamLength(rs[1..]);
    }
  }

  /** What the readings return, reply after reply, when the marked lines were handed over. */
  ghost function Responses(rs: seq<ServerReply>, marks: seq<bool>): seq<Response>
    requires AllSendable(rs) && |marks| == LineCount(rs)
    decreases |rs|
  {
    if rs == [] then []
    else Of(rs[0], marks[..|rs[0].texts|]) + Responses(rs[1..], marks[|rs[0].texts|..])
  }

  /** The marks of the k-th reply. */
  function MarksOf(rs: seq<ServerReply>, marks: seq<bool>, k: nat): (m: seq<bool>)
    requires k < |rs| && |marks| == LineCount(rs)
    ensures |m| == |rs[k].texts|
    decreases |rs|
  {
    if k == 0 then marks[..|rs[0].texts|] else MarksOf(rs[1..], marks[|rs[0].texts|..], k - 1)
  }

  lemma {:induction false} TakeAllFrame(g: seq<Response>, h: Heard, lines: seq<string>)
    ensures TakeAll(Heard(g + h.got, h.lines), lines) == Heard(g + TakeAll(h, lines).got, TakeAll(h, lines).lines)
    decreases |lines|
  {
    if lines != [] {
      TakeFrame(g, h, lines[0]);
      TakeAllFrame(g, Take(h, lines[0]), lines[1..]);
    }
  }

  lemma TakeFrame(g: seq<Response>, h: Heard, line: string)
    ensures Take(Heard(g + h.got, h.lines), line) == Heard(g + Take(h, line).got, Take(h, line).lines)
  {
    var lines, p := h.lines + [line], ParseStatusLine(line);
    Assoc(g, h.got, [Reply(p.code, lines, Join(lines, "\n"))]);
    Assoc(g, h.got, [TooLarge]);
  }

  lemma {:induction false} StreamIsRead(rs: seq<ServerReply>, marks: seq<bool>)
    requires AllSendable(rs) && |marks| == LineCount(rs)
    ensures |StreamLines(rs)| == |marks|
    ensures TakeAll(NOTHING, Expand(StreamLines(rs), marks)) == Heard(Responses(rs, marks), [])
    decreases |rs|
  {
    StreamLength(rs);
    if rs != [] {
      StreamIsRead(rs[1..], marks[|rs[0].texts|..]);
      FirstIsRead(rs, marks[..|rs[0].texts|], marks[|rs[0].texts|..], marks);
    }
  }

  lemma FirstIsRead(rs: seq<ServerReply>, m: seq<bool>, rest: seq<bool>, marks: seq<bool>)
    requires AllSendable(rs) && rs != [] && |m| == |rs[0].texts| && |rest| == |StreamLines(rs[1..])|
    requires |m| <= |marks| && m == marks[..|m|] && rest == marks[|m|..]
    ensures |StreamLines(rs)| == |marks|
    ensures var after := TakeAll(NOTHING, Expand(StreamLines(rs[1..]), rest));
            TakeAll(NOTHING, Expand(StreamLines(rs), marks)) == Heard(Of(rs[0], m) + after.got, after.lines)
  {
    OfLaw(rs[0], m);
    assert marks == m + rest;
    ThenRead(ReplyLines(rs[0].code, rs[0].texts), m, StreamLines(rs[1..]), rest);
  }

  /** Lines that end with a whole reply do not touch what follows. */
  lemma ThenRead(a: seq<string>, ma: seq<bool>, b: seq<string>, mb: seq<bool>)
    requires |a| == |ma| && |b| == |mb| && TakeAll(NOTHING, Expand(a, ma)).lines == []
    ensures var first, second := TakeAll(NOTHING, Expand(a, ma)).got, TakeAll(NOTHING, Expand(b, mb));
            TakeAll(NOTHING, Expand(a + b, ma + mb)) == Heard(first + second.got, second.lines)
  {
    ExpandConcat(a, ma, b, mb);
    TakeAllConcat(NOTHING, Expand(a, ma), Expand(b, mb));
    var first := TakeAll(NOTHING, Expand(a, ma)).got;
    assert first + [] == first;
    TakeAllFrame(first, NOTHING, Expand(b, mb));
  }

  // ----- which reply a reading returns -----

  /** The reply that the k-th reading returns, or the end of which it returns. */
  ghost function Origin(rs: seq<ServerReply>, marks: seq<bool>, k: nat): nat
    requires AllSendable(rs) && |marks| == LineCount(rs) && k < |Responses(rs, marks)|
    decreases |rs|
  {
    var own := |Of(rs[0], marks[..|rs[0].texts|])|;
    if k < own then 0 else 1 + Origin(rs[1..], marks[|rs[0].texts|..], k - own)
  }

  /** The reply is read by one reading: it fits, and its last line was not handed to a waiting read. */
  predicate ReadOnce(rs: seq<ServerReply>, marks: seq<bool>, j: nat)
    requires |marks| == LineCount(rs)
  {
    j < |rs| && rs[j].texts != [] && Fits(rs[j], MarksOf(rs, marks, j)) && !LastHanded(rs[j], MarksOf(rs, marks, j))
  }

  lemma {:induction false} OriginBehind(rs: seq<ServerReply>, marks: seq<bool>, k: nat)
    requires AllSendable(rs) && |marks| == LineCount(rs) && k < |Responses(rs, marks)|
    ensures Origin(rs, marks, k) <= k && Origin(rs, marks, k) < |rs|
    decreases |rs|
  {
    var m := marks[..|rs[0].texts|];
    OfLaw(rs[0], m);
    if k >= |Of(rs[0], m)| {
      OriginBehind(rs[1..], marks[|rs[0].texts|..], k - |Of(rs[0], m)|);
    }
  }

  /**
   * A reading never runs ahead of the server's replies, and the k-th reading returns the
   * k-th reply exactly when every reply before it was read by one reading.
   */
  lemma {:induction false} InStepExactly(rs: seq<ServerReply>, marks: seq<bool>, k: nat)
    requires AllSendable(rs) && |marks| == LineCount(rs) && k < |Responses(rs, marks)|
    ensures Origin(rs, marks, k) <= k && Origin(rs, marks, k) < |rs|
    ensures Origin(rs, marks, k) == k <==> forall j: nat :: j < k ==> ReadOnce(rs, marks, j)
    decreases |rs|
  {
    OriginBehind(rs, marks, k);
    FirstOnce(rs, marks);
    if k > 0 {
      Shifted(rs, marks, k);
      if ReadOnce(rs, marks, 0) {
        InStepExactly(rs[1..], marks[|rs[0].texts|..], k - 1);
      } else if k >= |Of(rs[0], marks[..|rs[0].texts|])| {
        OriginBehind(rs[1..], marks[|rs[0].texts|..], k - |Of(rs[0], marks[..|rs[0].texts|])|);
      }
    }
  }

  lemma FirstOnce(rs: seq<ServerReply>, marks: seq<bool>)
    requires AllSendable(rs) && rs != [] && |marks| == LineCount(rs)
    ensures |Of(rs[0], marks[..|rs[0].texts|])| >= 1
    ensures ReadOnce(rs, marks, 0) <==> |Of(rs[0], marks[..|rs[0].texts|])| == 1
  {
    OfLaw(rs[0], marks[..|rs[0].texts|]);
  }

  lemma Shifted(rs: seq<ServerReply>, marks: seq<bool>, k: nat)
    requires rs != [] && |marks| == LineCount(rs) && k > 0
    ensures (forall j: nat :: j < k ==> ReadOnce(rs, marks, j)) <==>
            ReadOnce(rs, marks, 0) && forall j: nat :: j < k - 1 ==> ReadOnce(rs[1..], marks[|rs[0].texts|..], j)
  {
    forall j: nat ensures ReadOnce(rs, marks, j + 1) <==> ReadOnce(rs[1..], marks[|rs[0].texts|..], j) {
    }
    forall j: nat | 0 < j ensures ReadOnce(rs, marks, j) <==> ReadOnce(rs[1..], marks[|rs[0].texts|..], j - 1) {
      assert j == (j - 1) + 1;
    }
    if forall j: nat :: j < k ==> ReadOnce(rs, marks, j) {
      forall j: nat | j < k - 1 ensures ReadOnce(rs[1..], marks[|rs[0].texts|..], j) {
        assert ReadOnce(rs, marks, j + 1);
      }
    }
  }

  // ----- what a run returns -----

  /** The responses of a run, in order. */
  function Got(w: LineReading.World): seq<Response> {
    HearAll(w.r.settled).got
  }

  lemma StartOfClient()
    ensures ClientInv(LineReading.START)
  {
    assert [] + [] == Expand([], []);
  }

  /** The lines that have not arrived yet were handed to nobody. */
  function Padded(w: LineReading.World, n: nat): seq<bool>
    requires |w.marks| <= n
  {
    w.marks + LineReading.Repeat(false, n - |w.marks|)
  }

  lemma {:induction false} GotGrows(h: Heard, lines: seq<string>)
    ensures h.got <= TakeAll(h, lines).got
    decreases |lines|
  {
    if lines != [] {
      GotGrows(Take(h, lines[0]), lines[1..]);
    }
  }

  /**
   * Over any run of pushes, one read at a time and the end of the stream, in which what the
   * server sent so far is the beginning of a stream of replies, cut anywhere: the readings
   * return, in order, what the replies give with the lines that were handed over, and
   * after the end of the stream nothing but its end. `n` of the readings returned something.
   */
  lemma ResponsesOfRun(ops: seq<LineReading.Op>, rs: seq<ServerReply>, more: string) returns (n: nat)
    requires AllSendable(rs) && OneAtATime(LineReading.START, ops)
    requires LineReading.Exec(LineReading.START, ops).input + more == Wire(StreamLines(rs))
    ensures var w := LineReading.Exec(LineReading.START, ops);
            && |w.marks| <= LineCount(rs)
            && n <= |Got(w)| && Got(w)[..n] <= Responses(rs, Padded(w, LineCount(rs)))
            && forall k :: n <= k < |Got(w)| ==> Got(w)[k] == ConnectionClosed
  {
    var w := LineReading.Exec(LineReading.START, ops);
    StartOfClient();
    RunKeepsClient(LineReading.START, ops);
    var later := StillToCome(w.input, more, rs);
    HeardIsPrefix(w, later, StreamLines(rs));
    StreamLength(rs);
    StreamIsRead(rs, Padded(w, LineCount(rs)));
    n := RespondedOf(w, Responses(rs, Padded(w, LineCount(rs))));
  }

  lemma StillToCome(input: string, more: string, rs: seq<ServerReply>) returns (later: seq<string>)
    requires AllSendable(rs) && input + more == Wire(StreamLines(rs))
    ensures StreamLines(rs) == Lines(input) + later
  {
    StreamLinesAreWireLines(rs);
    CutWire(StreamLines(rs));
    LinesOfConcat(input, more);
    later := Lines(Rest(input) + more);
  }

  lemma RespondedOf(w: LineReading.World, all: seq<Response>) returns (n: nat)
    requires EndIsLast(w) && TakeAll(NOTHING, LineReading.LinesIn(w.r.settled)).got <= all
    ensures n <= |Got(w)| && Got(w)[..n] <= all
    ensures forall k :: n <= k < |Got(w)| ==> Got(w)[k] == ConnectionClosed
  {
    var got := TakeAll(NOTHING, LineReading.LinesIn(w.r.settled)).got;
    var closed := Closed(|w.r.settled| - |LineReading.LinesIn(w.r.settled)|);
    ClosedIsClosed(|w.r.settled| - |LineReading.LinesIn(w.r.settled)|);
    n := |got|;
    assert (got + closed)[..n] == got;
    forall k | n <= k < |got + closed| ensures (got + closed)[k] == ConnectionClosed {
      assert (got + closed)[k] == closed[k - n];
    }
  }

  lemma {:induction false} ClosedIsClosed(n: int)
    ensures forall i :: 0 <= i < |Closed(n)| ==> Closed(n)[i] == ConnectionClosed
  {
    if n > 0 {
      ClosedIsClosed(n - 1);
    }
  }

  lemma HeardIsPrefix(w: LineReading.World, later: seq<string>, all: seq<string>)
    requires Doubling(w) && all == Lines(w.input) + later
    ensures |w.marks| <= |all|
    ensures TakeAll(NOTHING, LineReading.LinesIn(w.r.settled)).got <= TakeAll(NOTHING, Expand(all, Padded(w, |all|))).got
  {
    var heard := LineReading.LinesIn(w.r.settled);
    ExpandConcat(Lines(w.input), w.marks, later, LineReading.Repeat(false, |later|));
    var rest := w.r.q + Expand(later, LineReading.Repeat(false, |later|));
    assert Expand(all, Padded(w, |all|)) == heard + rest by {
      Assoc(heard, w.r.q, Expand(later, LineReading.Repeat(false, |later|)));
    }
    TakeAllConcat(NOTHING, heard, rest);
    GotGrows(TakeAll(NOTHING, heard), rest);
  }
}
