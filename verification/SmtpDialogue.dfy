/** The session driven by the line reader: which reply each reading returns, and which one decides about the recipient. */
module SmtpDialogue {
  import opened Results
  import opened Sequences
  import opened Text
  import opened SmtpReply
  import LineReading
  import opened ReplyReading
  import opened SmtpVerdict

  // ----- what the reply loop hears -----

  /** The replies read so far, and the lines of the one being read. */
  datatype Heard = Heard(got: seq<Response>, lines: seq<string>)

  const NOTHING: Heard := Heard([], [])

  function Take(h: Heard, line: string): Heard {
    var p, lines := ParseStatusLine(line), h.lines + [line];
    if p.code > 0 && !p.more then Heard(h.got + [Reply(p.code, lines, Join(lines, "\n"))], [])
    else if |lines| > MAX_SMTP_MULTILINE_LINES then Heard(h.got + [TooLarge], [])
    else Heard(h.got, lines)
  }

  function TakeAll(h: Heard, lines: seq<string>): Heard
    decreases |lines|
  {
    if lines == [] then h else TakeAll(Take(h, lines[0]), lines[1..])
  }

  /** A settled read: its line, or the end of the stream, which ends the reply being read. */
  function Hear(h: Heard, d: LineReading.Delivery): Heard {
    if d.line.Some? then Take(h, d.line.value) else Heard(h.got + [ConnectionClosed], [])
  }

  function HearAll(ds: seq<LineReading.Delivery>): Heard {
    if ds == [] then NOTHING else Hear(HearAll(ds[..|ds| - 1]), ds[|ds| - 1])
  }

  lemma {:induction false} TakeAllConcat(h: Heard, a: seq<string>, b: seq<string>)
    ensures TakeAll(h, a + b) == TakeAll(TakeAll(h, a), b)
    decreases |a|
  {
    if a == [] {
      assert a + b == b;
    } else {
      TakeAllConcat(Take(h, a[0]), a[1..], b);
      assert (a + b)[1..] == a[1..] + b;
    }
  }

  lemma TakeOne(h: Heard, line: string)
    ensures TakeAll(h, [line]) == Take(h, line)
  {
    assert [line][1..] == [];
    assert TakeAll(Take(h, line), []) == Take(h, line);
  }

  /** Hearing line by line is what the reply loop does with a queue. */
  lemma {:induction false} HearingIsReading(got: seq<Response>, lines: seq<string>, q: seq<string>)
    requires |lines| <= MAX_SMTP_MULTILINE_LINES
    ensures var (response, rest) := ReadReply(q, false, lines);
            && |rest| <= |q| && q[|q| - |rest|..] == rest
            && (if response == Blocked then rest == [] && TakeAll(Heard(got, lines), q) == Heard(got, lines + q)
                else TakeAll(Heard(got, lines), q[..|q| - |rest|]) == Heard(got + [response], []))
    decreases |q|
  {
    if q == [] {
      assert lines + q == lines;
    } else {
      var p, lines' := ParseStatusLine(q[0]), lines + [q[0]];
      TakeOne(Heard(got, lines), q[0]);
      if (p.code > 0 && !p.more) || |lines'| > MAX_SMTP_MULTILINE_LINES {
        assert q[..1] == [q[0]];
      } else {
        HearingIsReading(got, lines', q[1..]);
        var (response, rest) := ReadReply(q[1..], false, lines');
        var n := |q[1..]| - |rest|;
        assert q[1..][n..] == q[n + 1..];
        assert q[..n + 1][1..] == q[1..][..n];
        assert lines' + q[1..] == lines + q;
      }
    }
  }

  // ----- a client that reads one line at a time -----

  /** Reads one after the other, and a stream that brings nothing after its end. */
  predicate OneAtATime(w: LineReading.World, ops: seq<LineReading.Op>)
    decreases |ops|
  {
    ops == [] ||
    ((if ops[0].Read? then w.r.waiting == [] else !w.r.ended) && OneAtATime(LineReading.Step(w, ops[0]), ops[1..]))
  }

  /** Every line once, and a marked line twice. */
  function Expand(lines: seq<string>, marks: seq<bool>): seq<string>
    requires |lines| == |marks|
    decreases |lines|
  {
    if lines == [] then []
    else [lines[0]] + ((if marks[0] then [lines[0]] else []) + Expand(lines[1..], marks[1..]))
  }

  lemma {:induction false} ExpandConcat(a: seq<string>, ma: seq<bool>, b: seq<string>, mb: seq<bool>)
    requires |a| == |ma| && |b| == |mb|
    ensures Expand(a + b, ma + mb) == Expand(a, ma) + Expand(b, mb)
    decreases |a|
  {
    if a == [] {
      assert a + b == b && ma + mb == mb;
      assert [] + Expand(b, mb) == Expand(b, mb);
    } else {
      ExpandConcat(a[1..], ma[1..], b, mb);
      assert (a + b)[1..] == a[1..] + b && (ma + mb)[1..] == ma[1..] + mb;
      Assoc3([a[0]], if ma[0] then [a[0]] else [], Expand(a[1..], ma[1..]), Expand(b, mb));
    }
  }

  lemma Assoc3(a: seq<string>, b: seq<string>, c: seq<string>, d: seq<string>)
    ensures a + (b + (c + d)) == a + (b + c) + d
  {
  }

  lemma {:induction false} ExpandUnmarked(lines: seq<string>)
    ensures Expand(lines, LineReading.Repeat(false, |lines|)) == lines
  {
    if lines != [] {
      ExpandUnmarked(lines[1..]);
      assert LineReading.Repeat(false, |lines|)[1..] == LineReading.Repeat(false, |lines| - 1);
      assert [lines[0]] + ([] + lines[1..]) == lines;
    }
  }

  /**
   * What the client has read, followed by what is queued for it, is the input with every
   * line twice that completed while the client waited for it.
   */
  ghost predicate Doubling(w: LineReading.World) {
    && |w.marks| == |Lines(w.input)|
    && |w.r.waiting| <= 1 && (w.r.waiting != [] ==> w.r.q == [])
    && LineReading.LinesIn(w.r.settled) + w.r.q == Expand(Lines(w.input), w.marks)
  }

  /** Nothing is delivered after the end of the stream was. */
  ghost predicate EndIsLast(w: LineReading.World) {
    && (|LineReading.LinesIn(w.r.settled)| < |w.r.settled| ==> w.r.ended && w.r.q == [])
    && (w.r.ended ==> w.r.waiting == [])
    && HearAll(w.r.settled).got == TakeAll(NOTHING, LineReading.LinesIn(w.r.settled)).got
                                  + Closed(|w.r.settled| - |LineReading.LinesIn(w.r.settled)|)
    && (|LineReading.LinesIn(w.r.settled)| == |w.r.settled| ==>
          HearAll(w.r.settled) == TakeAll(NOTHING, LineReading.LinesIn(w.r.settled)))
  }

  function Closed(n: int): seq<Response> {
    if n <= 0 then [] else Closed(n - 1) + [ConnectionClosed]
  }

  ghost predicate ClientInv(w: LineReading.World) {
    w.r.buf == Rest(w.input) && Doubling(w) && EndIsLast(w)
  }

  lemma PushDoubles(w: LineReading.World, chunk: string)
    requires Doubling(w) && Lines(w.input + chunk) == Lines(w.input) + Lines(w.r.buf + chunk)
    ensures Doubling(LineReading.Step(w, LineReading.Push(chunk)))
  {
    LineReading.PushLaw(w, chunk);
    StillDoubling(w, LineReading.Step(w, LineReading.Push(chunk)), Lines(w.r.buf + chunk));
  }

  lemma StillDoubling(w: LineReading.World, w': LineReading.World, added: seq<string>)
    requires Doubling(w)
    requires var n := |LineReading.HandOvers(w.r.waiting, added)|;
             && n == (if |w.r.waiting| < |added| then |w.r.waiting| else |added|)
             && w'.marks == w.marks + LineReading.Repeat(true, n) + LineReading.Repeat(false, |added| - n)
             && w'.r.waiting == w.r.waiting[n..]
    requires Lines(w'.input) == Lines(w.input) + added && w'.r.q == w.r.q + added
    requires w'.r.settled == w.r.settled + LineReading.HandOvers(w.r.waiting, added)
    ensures Doubling(w')
  {
    var hands := LineReading.HandOvers(w.r.waiting, added);
    LineReading.HandOversLines(w.r.waiting, added);
    LineReading.LinesInConcat(w.r.settled, hands);
    DoubledWhenWaiting(LineReading.LinesIn(w.r.settled), w.r.q, Lines(w.input), w.marks, added, |hands|);
  }

  lemma DoubledWhenWaiting(heard: seq<string>, q: seq<string>, all: seq<string>, marks: seq<bool>, added: seq<string>, n: nat)
    requires |marks| == |all| && heard + q == Expand(all, marks)
    requires n <= |added| && n <= 1 && (n == 1 ==> q == [])
    ensures |marks + LineReading.Repeat(true, n) + LineReading.Repeat(false, |added| - n)| == |all + added|
    ensures heard + added[..n] + (q + added) ==
            Expand(all + added, marks + LineReading.Repeat(true, n) + LineReading.Repeat(false, |added| - n))
  {
    var first, rest := LineReading.Repeat(true, n), LineReading.Repeat(false, |added| - n);
    ExpandNew(added, n);
    ExpandConcat(all, marks, added, first + rest);
    assert marks + (first + rest) == marks + first + rest;
    Rearrange(heard, q, added, n);
  }

  /** Of the lines one push completes, only the first can be doubled. */
  lemma ExpandNew(added: seq<string>, n: nat)
    requires n <= |added| && n <= 1
    ensures Expand(added, LineReading.Repeat(true, n) + LineReading.Repeat(false, |added| - n)) == added[..n] + added
  {
    var marks := LineReading.Repeat(true, n) + LineReading.Repeat(false, |added| - n);
    if n == 0 {
      assert marks == LineReading.Repeat(false, |added|);
      ExpandUnmarked(added);
      NoneFirst(added);
    } else {
      assert marks[0] && marks[1..] == LineReading.Repeat(false, |added| - 1);
      ExpandFirst(added, marks);
    }
  }

  lemma NoneFirst(added: seq<string>)
    ensures added[..0] + added == added
  {
  }

  lemma ExpandFirst(added: seq<string>, marks: seq<bool>)
    requires |added| == |marks| > 0 && marks[0] && marks[1..] == LineReading.Repeat(false, |added| - 1)
    ensures Expand(added, marks) == added[..1] + added
  {
    ExpandUnmarked(added[1..]);
    assert Expand(added, marks) == [added[0]] + ([added[0]] + added[1..]);
    FirstTwice(added);
  }

  lemma FirstTwice(added: seq<string>)
    requires added != []
    ensures [added[0]] + ([added[0]] + added[1..]) == added[..1] + added
  {
  }

  lemma Rearrange(heard: seq<string>, q: seq<string>, added: seq<string>, n: nat)
    requires n <= |added| && (n == 0 || q == [])
    ensures heard + added[..n] + (q + added) == heard + q + (added[..n] + added)
  {
  }

  lemma {:induction false} HearLines(ds: seq<LineReading.Delivery>, more: seq<LineReading.Delivery>)
    requires |LineReading.LinesIn(ds)| == |ds| && |LineReading.LinesIn(more)| == |more|
    requires HearAll(ds) == TakeAll(NOTHING, LineReading.LinesIn(ds))
    ensures |LineReading.LinesIn(ds + more)| == |ds + more|
    ensures HearAll(ds + more) == TakeAll(NOTHING, LineReading.LinesIn(ds + more))
    decreases |more|
  {
    if more == [] {
      assert ds + more == ds;
    } else {
      var k := |more| - 1;
      LinesInFront(more);
      HearLines(ds, more[..k]);
      assert ds + more == ds + more[..k] + [more[k]];
      HearOneMore(ds + more[..k], more[k]);
    }
  }

  lemma {:induction false} LinesInShort(ds: seq<LineReading.Delivery>)
    ensures |LineReading.LinesIn(ds)| <= |ds|
  {
    if ds != [] {
      LinesInShort(ds[..|ds| - 1]);
    }
  }

  lemma LinesInFront(ds: seq<LineReading.Delivery>)
    requires ds != [] && |LineReading.LinesIn(ds)| == |ds|
    ensures |LineReading.LinesIn(ds[..|ds| - 1])| == |ds| - 1 && ds[|ds| - 1].line.Some?
  {
    LinesInShort(ds[..|ds| - 1]);
  }

  lemma HearOneMore(ds: seq<LineReading.Delivery>, d: LineReading.Delivery)
    requires d.line.Some? && HearAll(ds) == TakeAll(NOTHING, LineReading.LinesIn(ds))
    ensures HearAll(ds + [d]) == TakeAll(NOTHING, LineReading.LinesIn(ds + [d]))
    ensures |LineReading.LinesIn(ds + [d])| == |LineReading.LinesIn(ds)| + 1
  {
    assert (ds + [d])[..|ds|] == ds;
    TakeAllConcat(NOTHING, LineReading.LinesIn(ds), [d.line.value]);
    TakeOne(HearAll(ds), d.line.value);
  }

  lemma PushKeepsEnd(w: LineReading.World, chunk: string)
    requires EndIsLast(w) && !w.r.ended
    ensures EndIsLast(LineReading.Step(w, LineReading.Push(chunk)))
  {
    var hands := LineReading.HandOvers(w.r.waiting, Lines(w.r.buf + chunk));
    LineReading.PushLaw(w, chunk);
    LineReading.HandOversLines(w.r.waiting, Lines(w.r.buf + chunk));
    LinesInShort(w.r.settled);
    HearLines(w.r.settled, hands);
    NothingClosed(HearAll(w.r.settled + hands).got);
  }

  lemma PushKeepsClient(w: LineReading.World, chunk: string)
    requires ClientInv(w) && !w.r.ended
    ensures ClientInv(LineReading.Step(w, LineReading.Push(chunk)))
  {
    LinesOfConcat(w.input, chunk);
    PushDoubles(w, chunk);
    PushKeepsEnd(w, chunk);
    LineReading.PushLaw(w, chunk);
  }

  lemma ReadKeepsClient(w: LineReading.World, id: nat)
    requires ClientInv(w) && w.r.waiting == []
    ensures ClientInv(LineReading.Step(w, LineReading.Read(id)))
  {
    LinesInShort(w.r.settled);
    if w.r.q != [] {
      TakeKeepsClient(w, id);
    } else if w.r.ended {
      HearTheEnd(w.r.settled, LineReading.Delivery(id, None));
    }
  }

  lemma TakeKeepsClient(w: LineReading.World, id: nat)
    requires ClientInv(w) && w.r.waiting == [] && w.r.q != []
    ensures ClientInv(LineReading.Step(w, LineReading.Read(id)))
  {
    var ds, d := w.r.settled, LineReading.Delivery(id, Some(w.r.q[0]));
    LinesInShort(ds);
    HearOneMore(ds, d);
    LineReading.LinesInAppend(ds, d);
    MoveHead(LineReading.LinesIn(ds), w.r.q);
    NothingClosed(TakeAll(NOTHING, LineReading.LinesIn(ds + [d])).got);
  }

  lemma MoveHead(a: seq<string>, q: seq<string>)
    requires q != []
    ensures a + [q[0]] + q[1..] == a + q
  {
  }

  lemma NothingClosed(got: seq<Response>)
    ensures got + Closed(0) == got
  {
  }

  lemma HearTheEnd(ds: seq<LineReading.Delivery>, d: LineReading.Delivery)
    requires d.line.None? && |LineReading.LinesIn(ds)| <= |ds|
    requires HearAll(ds).got == TakeAll(NOTHING, LineReading.LinesIn(ds)).got + Closed(|ds| - |LineReading.LinesIn(ds)|)
    ensures LineReading.LinesIn(ds + [d]) == LineReading.LinesIn(ds)
    ensures HearAll(ds + [d]).got == TakeAll(NOTHING, LineReading.LinesIn(ds)).got + Closed(|ds| + 1 - |LineReading.LinesIn(ds)|)
  {
    LineReading.LinesInAppend(ds, d);
    assert (ds + [d])[..|ds|] == ds;
    OneMoreClosed(HearAll(ds).got, TakeAll(NOTHING, LineReading.LinesIn(ds)).got, |ds| - |LineReading.LinesIn(ds)|);
  }

  lemma OneMoreClosed(got: seq<Response>, before: seq<Response>, n: nat)
    requires got == before + Closed(n)
    ensures got + [ConnectionClosed] == before + Closed(n + 1)
  {
  }

  lemma EndKeepsClient(w: LineReading.World)
    requires ClientInv(w)
    ensures ClientInv(LineReading.Step(w, LineReading.End))
  {
    LineReading.EndLaw(w.r);
    LinesInShort(w.r.settled);
    if w.r.waiting == [] {
      assert w.r.settled + LineReading.EndAnswers([]) == w.r.settled;
    } else {
      var d := LineReading.Delivery(w.r.waiting[0], None);
      assert LineReading.EndAnswers(w.r.waiting) == [d];
      HearTheEnd(w.r.settled, d);
    }
  }

  lemma {:induction false} RunKeepsClient(w: LineReading.World, ops: seq<LineReading.Op>)
    requires ClientInv(w) && OneAtATime(w, ops)
    ensures ClientInv(LineReading.Exec(w, ops))
    decreases |ops|
  {
    if ops != [] {
      match ops[0] {
        case Push(chunk) =>
          PushKeepsClient(w, chunk);
        case Read(id) => ReadKeepsClient(w, id);
        case End => EndKeepsClient(w);
      }
      RunKeepsClient(LineReading.Step(w, ops[0]), ops[1..]);
    }
  }
}
