/** The line reader: buffered text, a queue of complete lines, and reads waiting for one. */
module LineReading {
  import opened Results
  import opened SmtpReply

  /** One settled promise: which read, and the line it got, or none at the end of the stream. */
  datatype Delivery = Delivery(reader: nat, line: Option<string>)

  /** `waiting` are the reads whose promise is pending, oldest first; `settled` the promises settled so far. */
  datatype Reader = Reader(buf: string, q: seq<string>, waiting: seq<nat>, ended: bool, settled: seq<Delivery>)

  const FRESH: Reader := Reader("", [], [], false, [])

  /** A complete line goes to the queue, and also to the oldest waiting read if there is one. */
  function Complete(r: Reader, line: string): Reader {
    if r.waiting == [] then r.(q := r.q + [line])
    else r.(q := r.q + [line], waiting := r.waiting[1..], settled := r.settled + [Delivery(r.waiting[0], Some(line))])
  }

  function CompleteAll(r: Reader, lines: seq<string>): Reader
    decreases |lines|
  {
    if lines == [] then r else CompleteAll(Complete(r, lines[0]), lines[1..])
  }

  function DoPush(r: Reader, chunk: string): Reader {
    CompleteAll(r, Lines(r.buf + chunk)).(buf := Rest(r.buf + chunk))
  }

  function DoEnd(r: Reader): Reader
    decreases |r.waiting|
  {
    if r.waiting == [] then r.(ended := true)
    else DoEnd(r.(waiting := r.waiting[1..], settled := r.settled + [Delivery(r.waiting[0], None)]))
  }

  function DoRead(r: Reader, id: nat): Reader {
    if r.q != [] then r.(q := r.q[1..], settled := r.settled + [Delivery(id, Some(r.q[0]))])
    else if r.ended then r.(settled := r.settled + [Delivery(id, None)])
    else r.(waiting := r.waiting + [id])
  }

  class LineReader {
    var buf: string
    var q: seq<string>
    var resolvers: seq<nat>
    var ended: bool
    var settled: seq<Delivery>

    ghost function View(): Reader
      reads this
    {
      Reader(buf, q, resolvers, ended, settled)
    }

    constructor ()
      ensures View() == FRESH
    {
      buf, q, resolvers, ended, settled := "", [], [], false, [];
    }

    method PushData(chunk: string)
      modifies this
      ensures View() == DoPush(old(View()), chunk)
    {
      buf := buf + chunk;
      ghost var result := DoPush(View(), "");
      PushedText(old(View()), chunk);
      var idx := IndexOfNewline(buf);
      while idx >= 0
        invariant idx == IndexOfNewline(buf)
        invariant DoPush(View(), "") == result
        decreases |buf|
      {
        TakeLine(idx);
        idx := IndexOfNewline(buf);
      }
      NothingToPush(View());
    }

    method TakeLine(idx: nat)
      requires idx == IndexOfNewline(buf)
      modifies this
      ensures DoPush(View(), "") == DoPush(old(View()), "")
      ensures |buf| < |old(buf)|
    {
      PushedLine(View());
      var line := buf[..idx];
      buf := buf[idx + 1..];
      Queue(StripReturn(line));
    }

    method Queue(t: string)
      modifies this`q, this`resolvers, this`settled
      ensures View() == Complete(old(View()), t)
    {
      q := q + [t];
      if |resolvers| > 0 {
        var r := resolvers[0];
        resolvers := resolvers[1..];
        settled := settled + [Delivery(r, Some(t))];
      }
    }

    method End()
      modifies this
      ensures View() == DoEnd(old(View()))
    {
      var i := 0;
      while i < |resolvers|
        invariant 0 <= i <= |resolvers| && resolvers == old(resolvers)
        invariant DoEnd(old(View())) == DoEnd(View().(waiting := resolvers[i..]))
        invariant View() == old(View()).(settled := settled)
      {
        assert resolvers[i..][1..] == resolvers[i + 1..];
        settled := settled + [Delivery(resolvers[i], None)];
        i := i + 1;
      }
      ended := true;
      resolvers := [];
    }

    method ReadLine(id: nat)
      modifies this
      ensures View() == DoRead(old(View()), id)
    {
      if |q| > 0 {
        settled := settled + [Delivery(id, Some(q[0]))];
        q := q[1..];
      } else if ended {
        settled := settled + [Delivery(id, None)];
      } else {
        resolvers := resolvers + [id];
      }
    }
  }

  /** Only the text counts, not how much of it was buffered already. */
  lemma PushedText(r: Reader, chunk: string)
    ensures DoPush(r.(buf := r.buf + chunk), "") == DoPush(r, chunk)
  {
    assert r.buf + chunk + "" == r.buf + chunk;
    BufferIsInert(r, r.buf + chunk, Lines(r.buf + chunk));
  }

  lemma {:induction false} BufferIsInert(r: Reader, buf: string, lines: seq<string>)
    ensures CompleteAll(r.(buf := buf), lines) == CompleteAll(r, lines).(buf := buf)
    decreases |lines|
  {
    if lines != [] {
      assert Complete(r.(buf := buf), lines[0]) == Complete(r, lines[0]).(buf := buf);
      BufferIsInert(Complete(r, lines[0]), buf, lines[1..]);
    }
  }

  lemma NothingToPush(r: Reader)
    requires IndexOfNewline(r.buf) == -1
    ensures DoPush(r, "") == r
  {
    assert r.buf + "" == r.buf;
  }

  /** Pushing is completing the first line, then pushing the rest. */
  lemma PushedLine(r: Reader)
    requires IndexOfNewline(r.buf) >= 0
    ensures var i := IndexOfNewline(r.buf);
            DoPush(r, "") == DoPush(Complete(r, StripReturn(r.buf[..i])).(buf := r.buf[i + 1..]), "")
  {
    var i := IndexOfNewline(r.buf);
    var t, rest := StripReturn(r.buf[..i]), r.buf[i + 1..];
    assert r.buf + "" == r.buf && rest + "" == rest;
    assert Lines(r.buf) == [t] + Lines(rest) && Lines(r.buf)[1..] == Lines(rest);
    BufferIsInert(Complete(r, t), rest, Lines(rest));
  }

  // ----- the delivery law over all interleavings -----

  datatype Op = Push(chunk: string) | Read(id: nat) | End

  /**
   * A reader with its history: the text pushed, how many lines reads took off the queue, for
   * each settled read whether its line was handed over on arrival, for each complete line
   * whether it was, and the reads that had to wait, oldest first.
   */
  datatype World = World(r: Reader, input: string, taken: nat, tags: seq<bool>, marks: seq<bool>, asked: seq<nat>)

  /** The lines delivered, in order of delivery. */
  function LinesIn(ds: seq<Delivery>): seq<string> {
    if ds == [] then []
    else
      var d := ds[|ds| - 1];
      if d.line.Some? then LinesIn(ds[..|ds| - 1]) + [d.line.value] else LinesIn(ds[..|ds| - 1])
  }

  /** The settled reads with this tag. */
  function Select(ds: seq<Delivery>, tags: seq<bool>, b: bool): seq<Delivery>
    requires |ds| == |tags|
  {
    if ds == [] then []
    else
      Select(ds[..|ds| - 1], tags[..|ds| - 1], b) + if tags[|ds| - 1] == b then [ds[|ds| - 1]] else []
  }

  /** The marked lines. */
  function Marked(lines: seq<string>, marks: seq<bool>): seq<string>
    requires |lines| == |marks|
  {
    if lines == [] then []
    else
      Marked(lines[..|lines| - 1], marks[..|lines| - 1]) + if marks[|lines| - 1] then [lines[|lines| - 1]] else []
  }

  function Readers(ds: seq<Delivery>): seq<nat> {
    seq(|ds|, i requires 0 <= i < |ds| => ds[i].reader)
  }

  function Served(r: Reader, lines: seq<string>): nat {
    if |r.waiting| < |lines| then |r.waiting| else |lines|
  }

  function Repeat(b: bool, n: nat): seq<bool> {
    seq(n, _ => b)
  }

  function Step(w: World, op: Op): World {
    match op
    case Push(chunk) =>
      var added := Lines(w.r.buf + chunk);
      var n := Served(w.r, added);
      World(DoPush(w.r, chunk), w.input + chunk, w.taken, w.tags + Repeat(true, n),
            w.marks + Repeat(true, n) + Repeat(false, |added| - n), w.asked)
    case Read(id) =>
      if w.r.q != [] then w.(r := DoRead(w.r, id), taken := w.taken + 1, tags := w.tags + [false])
      else if w.r.ended then w.(r := DoRead(w.r, id), tags := w.tags + [false])
      else w.(r := DoRead(w.r, id), asked := w.asked + [id])
    case End => w.(r := DoEnd(w.r), tags := w.tags + Repeat(false, |w.r.waiting|))
  }

  function Exec(w: World, ops: seq<Op>): World
    decreases |ops|
  {
    if ops == [] then w else Exec(Step(w, ops[0]), ops[1..])
  }

  const START: World := World(FRESH, "", 0, [], [], [])

  /**
   * However the text is cut and whoever reads when: the unfinished tail is buffered; the
   * lines taken off the queue are the lines of the input in order, and the queue is the
   * rest of them; the lines handed over on arrival are, on top of that, exactly the marked
   * ones, in order, and they went to the reads that waited, oldest first.
   */
  ghost predicate Inv(w: World) {
    && |w.tags| == |w.r.settled|
    && QueueInOrder(w) && HandedAreMarked(w) && WaitersInOrder(w)
  }

  ghost predicate QueueInOrder(w: World)
    requires |w.tags| == |w.r.settled|
  {
    var all := Lines(w.input);
    && w.r.buf == Rest(w.input)
    && w.taken <= |all| && w.r.q == all[w.taken..]
    && LinesIn(Select(w.r.settled, w.tags, false)) == all[..w.taken]
  }

  ghost predicate HandedAreMarked(w: World)
    requires |w.tags| == |w.r.settled|
  {
    AreMarked(Select(w.r.settled, w.tags, true), Lines(w.input), w.marks)
  }

  /** These reads were handed exactly the marked lines, in order. */
  ghost predicate AreMarked(handed: seq<Delivery>, lines: seq<string>, marks: seq<bool>) {
    |marks| == |lines| && LinesIn(handed) == Marked(lines, marks)
  }

  ghost predicate WaitersInOrder(w: World)
    requires |w.tags| == |w.r.settled|
  {
    var served := Readers(Select(w.r.settled, w.tags, true));
    served <= w.asked && (!w.r.ended ==> served + w.r.waiting == w.asked) && (w.r.ended ==> w.r.waiting == [])
  }

  /** What a push hands over: line by line to the oldest waiting read, while there is one. */
  function HandOvers(waiting: seq<nat>, lines: seq<string>): seq<Delivery> {
    if waiting == [] || lines == [] then []
    else [Delivery(waiting[0], Some(lines[0]))] + HandOvers(waiting[1..], lines[1..])
  }

  lemma {:induction false} HandOversLaw(waiting: seq<nat>, lines: seq<string>)
    ensures |HandOvers(waiting, lines)| == if |waiting| < |lines| then |waiting| else |lines|
    ensures Readers(HandOvers(waiting, lines)) == waiting[..|HandOvers(waiting, lines)|]
  {
    if waiting != [] && lines != [] {
      HandOversLaw(waiting[1..], lines[1..]);
      var rest := HandOvers(waiting[1..], lines[1..]);
      assert Readers([Delivery(waiting[0], Some(lines[0]))] + rest) == [waiting[0]] + Readers(rest);
      assert [waiting[0]] + waiting[1..][..|rest|] == waiting[..|rest| + 1];
    }
  }

  lemma {:induction false} HandOversLines(waiting: seq<nat>, lines: seq<string>)
    ensures |HandOvers(waiting, lines)| <= |lines|
    ensures LinesIn(HandOvers(waiting, lines)) == lines[..|HandOvers(waiting, lines)|]
  {
    if waiting != [] && lines != [] {
      HandOversLines(waiting[1..], lines[1..]);
      var first, rest := Delivery(waiting[0], Some(lines[0])), HandOvers(waiting[1..], lines[1..]);
      LinesInConcat([first], rest);
      LinesInOne(first);
      assert [lines[0]] + lines[1..][..|rest|] == lines[..|rest| + 1];
    }
  }

  lemma LinesInOne(d: Delivery)
    ensures LinesIn([d]) == if d.line.Some? then [d.line.value] else []
  {
    assert [d][..0] == [];
  }

  lemma LinesInAppend(ds: seq<Delivery>, d: Delivery)
    ensures LinesIn(ds + [d]) == LinesIn(ds) + if d.line.Some? then [d.line.value] else []
  {
    assert (ds + [d])[..|ds|] == ds;
  }

  lemma {:induction false} LinesInConcat(a: seq<Delivery>, b: seq<Delivery>)
    ensures LinesIn(a + b) == LinesIn(a) + LinesIn(b)
  {
    if b == [] {
      assert a + b == a;
    } else {
      LinesInConcat(a, b[..|b| - 1]);
      assert a + b == a + b[..|b| - 1] + [b[|b| - 1]];
      LinesInAppend(a + b[..|b| - 1], b[|b| - 1]);
      assert b == b[..|b| - 1] + [b[|b| - 1]];
    }
  }

  /** Deliveries with one tag join those with that tag. */
  lemma {:induction false} SelectConcat(ds: seq<Delivery>, tags: seq<bool>, more: seq<Delivery>, b: bool)
    requires |ds| == |tags|
    ensures Select(ds + more, tags + Repeat(b, |more|), b) == Select(ds, tags, b) + more
    ensures Select(ds + more, tags + Repeat(b, |more|), !b) == Select(ds, tags, !b)
  {
    if more == [] {
      assert ds + more == ds && tags + Repeat(b, 0) == tags;
    } else {
      var k := |more| - 1;
      SelectConcat(ds, tags, more[..k], b);
      assert (ds + more)[..|ds| + k] == ds + more[..k];
      assert (tags + Repeat(b, |more|))[..|ds| + k] == tags + Repeat(b, k);
      assert more == more[..k] + [more[k]];
    }
  }

  lemma {:induction false} SelectCounts(ds: seq<Delivery>, tags: seq<bool>)
    requires |ds| == |tags|
    ensures |LinesIn(ds)| == |LinesIn(Select(ds, tags, false))| + |LinesIn(Select(ds, tags, true))|
  {
    if ds != [] {
      var k := |ds| - 1;
      SelectCounts(ds[..k], tags[..k]);
      LinesInAppend(ds[..k], ds[k]);
      LinesInAppend(Select(ds[..k], tags[..k], tags[k]), ds[k]);
      assert ds == ds[..k] + [ds[k]];
      assert Select(ds, tags, tags[k]) == Select(ds[..k], tags[..k], tags[k]) + [ds[k]];
      assert Select(ds, tags, !tags[k]) == Select(ds[..k], tags[..k], !tags[k]);
    }
  }

  /** When nothing with a line has the tag, the others have all the lines. */
  lemma {:induction false} SelectRest(ds: seq<Delivery>, tags: seq<bool>)
    requires |ds| == |tags| && LinesIn(Select(ds, tags, true)) == []
    ensures LinesIn(ds) == LinesIn(Select(ds, tags, false))
  {
    if ds != [] {
      var k := |ds| - 1;
      LinesInAppend(Select(ds[..k], tags[..k], tags[k]), ds[k]);
      assert Select(ds, tags, tags[k]) == Select(ds[..k], tags[..k], tags[k]) + [ds[k]];
      assert Select(ds, tags, !tags[k]) == Select(ds[..k], tags[..k], !tags[k]);
      SelectRest(ds[..k], tags[..k]);
      LinesInAppend(ds[..k], ds[k]);
      assert ds == ds[..k] + [ds[k]];
    }
  }

  lemma {:induction false} MarkedConcat(lines: seq<string>, marks: seq<bool>, added: seq<string>, n: nat)
    requires |lines| == |marks| && n <= |added|
    ensures Marked(lines + added, marks + Repeat(true, n) + Repeat(false, |added| - n)) == Marked(lines, marks) + added[..n]
    decreases |added|
  {
    var m := marks + Repeat(true, n) + Repeat(false, |added| - n);
    if added == [] {
      assert lines + added == lines && m == marks;
    } else {
      var k := |added| - 1;
      assert (lines + added)[..|lines| + k] == lines + added[..k];
      if n == |added| {
        MarkedConcat(lines, marks, added[..k], k);
        assert m[..|lines| + k] == marks + Repeat(true, k) + Repeat(false, 0);
        assert added[..n] == added[..k][..k] + [added[k]];
      } else {
        MarkedConcat(lines, marks, added[..k], n);
        assert m[..|lines| + k] == marks + Repeat(true, n) + Repeat(false, k - n);
        assert added[..k][..n] == added[..n];
      }
    }
  }

  lemma {:induction false} CompleteAllQueues(r: Reader, lines: seq<string>)
    ensures var r' := CompleteAll(r, lines);
            r'.q == r.q + lines && r'.ended == r.ended && r'.buf == r.buf && r'.waiting == r.waiting[Served(r, lines)..]
    decreases |lines|
  {
    if lines != [] {
      CompleteAllQueues(Complete(r, lines[0]), lines[1..]);
      assert r.q + [lines[0]] + lines[1..] == r.q + lines;
    }
  }

  lemma {:induction false} CompleteAllHands(r: Reader, lines: seq<string>)
    ensures CompleteAll(r, lines).settled == r.settled + HandOvers(r.waiting, lines)
    decreases |lines|
  {
    if lines != [] {
      CompleteAllHands(Complete(r, lines[0]), lines[1..]);
      if r.waiting == [] {
        assert HandOvers(r.waiting, lines) == [];
      } else {
        assert r.settled + ([Delivery(r.waiting[0], Some(lines[0]))] + HandOvers(r.waiting[1..], lines[1..]))
            == r.settled + [Delivery(r.waiting[0], Some(lines[0]))] + HandOvers(r.waiting[1..], lines[1..]);
      }
    }
  }

  lemma Extend(all: seq<string>, added: seq<string>, n: nat)
    requires n <= |all|
    ensures (all + added)[n..] == all[n..] + added && (all + added)[..n] == all[..n]
  {
  }

  /** The end of the stream answers every waiting read with nothing. */
  function EndAnswers(waiting: seq<nat>): seq<Delivery> {
    seq(|waiting|, i requires 0 <= i < |waiting| => Delivery(waiting[i], None))
  }

  lemma {:induction false} EndLaw(r: Reader)
    ensures DoEnd(r) == r.(ended := true, waiting := [], settled := r.settled + EndAnswers(r.waiting))
    decreases |r.waiting|
  {
    if r.waiting == [] {
      assert r.settled + [] == r.settled;
    } else {
      EndLaw(r.(waiting := r.waiting[1..], settled := r.settled + [Delivery(r.waiting[0], None)]));
      assert [Delivery(r.waiting[0], None)] + EndAnswers(r.waiting[1..]) == EndAnswers(r.waiting);
      assert r.settled + [Delivery(r.waiting[0], None)] + EndAnswers(r.waiting[1..]) == r.settled + EndAnswers(r.waiting);
    }
  }

  lemma {:induction false} EndAnswersAreEmpty(waiting: seq<nat>)
    ensures LinesIn(EndAnswers(waiting)) == []
  {
    if waiting != [] {
      var k := |waiting| - 1;
      EndAnswersAreEmpty(waiting[..k]);
      assert EndAnswers(waiting)[..k] == EndAnswers(waiting[..k]);
    }
  }

  /** What a push does to a reader and its history. */
  lemma PushLaw(w: World, chunk: string)
    ensures var w', added := Step(w, Push(chunk)), Lines(w.r.buf + chunk);
            var hands := HandOvers(w.r.waiting, added);
            && |hands| == (if |w.r.waiting| < |added| then |w.r.waiting| else |added|)
            && w'.r.q == w.r.q + added && w'.r.waiting == w.r.waiting[|hands|..]
            && w'.r.settled == w.r.settled + hands && w'.r.ended == w.r.ended && w'.r.buf == Rest(w.r.buf + chunk)
            && w'.marks == w.marks + Repeat(true, |hands|) + Repeat(false, |added| - |hands|)
            && w'.input == w.input + chunk
  {
    var added := Lines(w.r.buf + chunk);
    CompleteAllQueues(w.r, added);
    CompleteAllHands(w.r, added);
    HandOversLaw(w.r.waiting, added);
  }

  lemma PushKeepsInv(w: World, chunk: string)
    requires Inv(w)
    ensures Inv(Step(w, Push(chunk)))
  {
    var added := Lines(w.r.buf + chunk);
    var hands := HandOvers(w.r.waiting, added);
    CompleteAllHands(w.r, added);
    HandOversLaw(w.r.waiting, added);
    SelectConcat(w.r.settled, w.tags, hands, true);
    LinesOfConcat(w.input, chunk);
    PushKeepsQueue(w, chunk);
    PushKeepsMarks(w, chunk);
    PushKeepsWaiters(w, chunk);
  }

  lemma PushKeepsQueue(w: World, chunk: string)
    requires Inv(w)
    requires var w' := Step(w, Push(chunk));
             |w'.tags| == |w'.r.settled| && Select(w'.r.settled, w'.tags, false) == Select(w.r.settled, w.tags, false)
    ensures QueueInOrder(Step(w, Push(chunk)))
  {
    var all, added := Lines(w.input), Lines(w.r.buf + chunk);
    LinesOfConcat(w.input, chunk);
    CompleteAllQueues(w.r, added);
    Extend(all, added, w.taken);
  }

  lemma PushKeepsMarks(w: World, chunk: string)
    requires |w.tags| == |w.r.settled| && HandedAreMarked(w)
    requires var w', hands := Step(w, Push(chunk)), HandOvers(w.r.waiting, Lines(w.r.buf + chunk));
             |w'.tags| == |w'.r.settled| && Select(w'.r.settled, w'.tags, true) == Select(w.r.settled, w.tags, true) + hands
    requires Lines(Step(w, Push(chunk)).input) == Lines(w.input) + Lines(w.r.buf + chunk)
    ensures HandedAreMarked(Step(w, Push(chunk)))
  {
    MarksOfPush(w, chunk);
    MarksAfterPush(Select(w.r.settled, w.tags, true), Lines(w.input), w.marks, w.r.waiting, Lines(w.r.buf + chunk));
  }

  lemma MarksOfPush(w: World, chunk: string)
    ensures var added := Lines(w.r.buf + chunk);
            var n := |HandOvers(w.r.waiting, added)|;
            n <= |added| && Step(w, Push(chunk)).marks == w.marks + Repeat(true, n) + Repeat(false, |added| - n)
  {
    HandOversLaw(w.r.waiting, Lines(w.r.buf + chunk));
  }

  lemma MarksAfterPush(handed: seq<Delivery>, all: seq<string>, marks: seq<bool>, waiting: seq<nat>, added: seq<string>)
    requires AreMarked(handed, all, marks)
    ensures var hands := HandOvers(waiting, added);
            && |hands| <= |added|
            && AreMarked(handed + hands, all + added, marks + Repeat(true, |hands|) + Repeat(false, |added| - |hands|))
  {
    HandOversLines(waiting, added);
    LinesInConcat(handed, HandOvers(waiting, added));
    MarkedConcat(all, marks, added, |HandOvers(waiting, added)|);
  }

  lemma PushKeepsWaiters(w: World, chunk: string)
    requires Inv(w)
    requires var w', hands := Step(w, Push(chunk)), HandOvers(w.r.waiting, Lines(w.r.buf + chunk));
             |w'.tags| == |w'.r.settled| && Select(w'.r.settled, w'.tags, true) == Select(w.r.settled, w.tags, true) + hands
    ensures WaitersInOrder(Step(w, Push(chunk)))
  {
    var added, before := Lines(w.r.buf + chunk), Select(w.r.settled, w.tags, true);
    var hands := HandOvers(w.r.waiting, added);
    CompleteAllQueues(w.r, added);
    HandOversLaw(w.r.waiting, added);
    assert Readers(before + hands) == Readers(before) + Readers(hands);
    WaitersAfterPush(Readers(before), w.r.waiting, |hands|, w.asked);
  }

  lemma WaitersAfterPush(served: seq<nat>, waiting: seq<nat>, n: nat, asked: seq<nat>)
    requires n <= |waiting|
    ensures served + waiting == asked ==> served + waiting[..n] <= asked && served + waiting[..n] + waiting[n..] == asked
    ensures waiting == [] && served <= asked ==> served + waiting[..n] <= asked
  {
    assert waiting[..n] + waiting[n..] == waiting;
    assert served + (waiting[..n] + waiting[n..]) == served + waiting[..n] + waiting[n..];
  }

  lemma ReadKeepsInv(w: World, id: nat)
    requires Inv(w)
    ensures Inv(Step(w, Read(id)))
  {
    if w.r.q != [] {
      TakeKeepsInv(w, id);
    } else if w.r.ended {
      SettledByRead(w, Delivery(id, None));
    } else {
      var served := Readers(Select(w.r.settled, w.tags, true));
      assert served + (w.r.waiting + [id]) == served + w.r.waiting + [id];
    }
  }

  lemma TakeKeepsInv(w: World, id: nat)
    requires Inv(w) && w.r.q != []
    ensures Inv(Step(w, Read(id)))
  {
    var all, d := Lines(w.input), Delivery(id, Some(w.r.q[0]));
    SettledByRead(w, d);
    assert all[..w.taken + 1] == all[..w.taken] + [all[w.taken]];
  }

  /** A read that settles at once counts as one off the queue. */
  lemma SettledByRead(w: World, d: Delivery)
    requires |w.tags| == |w.r.settled|
    ensures var ds, tags := w.r.settled + [d], w.tags + [false];
            && Select(ds, tags, true) == Select(w.r.settled, w.tags, true)
            && LinesIn(Select(ds, tags, false)) ==
               LinesIn(Select(w.r.settled, w.tags, false)) + if d.line.Some? then [d.line.value] else []
  {
    assert Repeat(false, 1) == [false];
    SelectConcat(w.r.settled, w.tags, [d], false);
    LinesInAppend(Select(w.r.settled, w.tags, false), d);
  }

  lemma EndKeepsInv(w: World)
    requires Inv(w)
    ensures Inv(Step(w, End))
  {
    EndLaw(w.r);
    EndAnswersAreEmpty(w.r.waiting);
    SelectConcat(w.r.settled, w.tags, EndAnswers(w.r.waiting), false);
    LinesInConcat(Select(w.r.settled, w.tags, false), EndAnswers(w.r.waiting));
  }

  lemma {:induction false} RunKeepsInv(w: World, ops: seq<Op>)
    requires Inv(w)
    ensures Inv(Exec(w, ops))
    decreases |ops|
  {
    if ops != [] {
      match ops[0] {
        case Push(chunk) => PushKeepsInv(w, chunk);
        case Read(id) => ReadKeepsInv(w, id);
        case End => EndKeepsInv(w);
      }
      RunKeepsInv(Step(w, ops[0]), ops[1..]);
    }
  }

  /**
   * The lines delivered followed by the lines still queued are the lines of the
   * input, each once and in order, exactly on the runs in which no read was
   * waiting when a line completed.
   */
  lemma DeliveryLaw(ops: seq<Op>)
    ensures var w := Exec(START, ops);
            && w.taken <= |Lines(w.input)|
            && w.r.q == Lines(w.input)[w.taken..]
            && |w.marks| == |Lines(w.input)|
            && (LinesIn(w.r.settled) + w.r.q == Lines(w.input) <==> Marked(Lines(w.input), w.marks) == [])
  {
    StartInv();
    RunKeepsInv(START, ops);
    var w := Exec(START, ops);
    SelectCounts(w.r.settled, w.tags);
    if Marked(Lines(w.input), w.marks) == [] {
      SelectRest(w.r.settled, w.tags);
    }
    Exactly(LinesIn(w.r.settled), w.r.q, Lines(w.input), w.taken, |Marked(Lines(w.input), w.marks)|);
  }

  lemma StartInv()
    ensures Inv(START)
  {
    assert Select([], [], false) == [] && Select([], [], true) == [];
    assert Readers([]) == [];
  }

  lemma Exactly(received: seq<string>, q: seq<string>, all: seq<string>, taken: nat, handed: nat)
    requires taken <= |all| && q == all[taken..] && |received| == taken + handed
    requires handed == 0 ==> received == all[..taken]
    ensures received + q == all <==> handed == 0
  {
    assert |received + q| == |all| + handed;
    assert all == all[..taken] + all[taken..];
  }

  /** A reader that asks before each line arrives, as one talking to a server does. */
  function AskFirst(lines: seq<string>): seq<Op> {
    if lines == [] then [] else [Read(0), Push(lines[0] + "\n"), Read(0)] + AskFirst(lines[1..])
  }

  function Doubled(lines: seq<string>): seq<string> {
    if lines == [] then [] else [lines[0], lines[0]] + Doubled(lines[1..])
  }

  ghost predicate Quiet(r: Reader) {
    r.buf == "" && r.q == [] && r.waiting == [] && !r.ended
  }

  /**
   * What the departure from exactly-once means in a dialogue: if every line
   * arrives while its read is waiting, the next read gets the same line again,
   * so the reads see every line twice and fall behind the server.
   */
  lemma {:induction false} EveryLineTwice(w: World, lines: seq<string>)
    requires Quiet(w.r)
    requires forall i :: 0 <= i < |lines| ==> '\n' !in lines[i] && StripReturn(lines[i]) == lines[i]
    ensures Quiet(Exec(w, AskFirst(lines)).r)
    ensures LinesIn(Exec(w, AskFirst(lines)).r.settled) == LinesIn(w.r.settled) + Doubled(lines)
    decreases |lines|
  {
    if lines != [] {
      var w' := AskedOnce(w, lines[0]);
      ExecThree(w, Read(0), Push(lines[0] + "\n"), Read(0), AskFirst(lines[1..]));
      assert forall i :: 0 <= i < |lines[1..]| ==> lines[1..][i] == lines[i + 1];
      EveryLineTwice(w', lines[1..]);
      DoubledFirst(LinesIn(w.r.settled), lines);
    }
  }

  lemma DoubledFirst(a: seq<string>, lines: seq<string>)
    requires lines != []
    ensures a + [lines[0], lines[0]] + Doubled(lines[1..]) == a + Doubled(lines)
  {
  }

  lemma ExecFirst(w: World, op: Op, rest: seq<Op>)
    ensures Exec(w, [op] + rest) == Exec(Step(w, op), rest)
  {
    assert ([op] + rest)[1..] == rest;
  }

  lemma ExecThree(w: World, a: Op, b: Op, c: Op, rest: seq<Op>)
    ensures Exec(w, [a, b, c] + rest) == Exec(Step(Step(Step(w, a), b), c), rest)
  {
    ExecFirst(w, a, [b] + ([c] + rest));
    ExecFirst(Step(w, a), b, [c] + rest);
    ExecFirst(Step(Step(w, a), b), c, rest);
    assert [a, b, c] + rest == [a] + ([b] + ([c] + rest));
  }

  lemma AskedOnce(w: World, line: string) returns (w': World)
    requires Quiet(w.r) && '\n' !in line && StripReturn(line) == line
    ensures w' == Step(Step(Step(w, Read(0)), Push(line + "\n")), Read(0))
    ensures Quiet(w'.r) && LinesIn(w'.r.settled) == LinesIn(w.r.settled) + [line, line]
  {
    var d, s := Delivery(0, Some(line)), w.r.settled;
    OneLine(line);
    assert "" + (line + "\n") == line + "\n";
    var a := Step(w, Read(0));
    assert a.r == Reader("", [], [0], false, s);
    var b := Step(a, Push(line + "\n"));
    assert b.r == Reader("", [line], [], false, s + [d]);
    w' := Step(b, Read(0));
    assert w'.r == Reader("", [], [], false, s + [d] + [d]);
    LinesInAppend(s, d);
    LinesInAppend(s + [d], d);
    assert LinesIn(s) + [line] + [line] == LinesIn(s) + [line, line];
  }

  lemma OneLine(line: string)
    requires '\n' !in line && StripReturn(line) == line
    ensures Lines(line + "\n") == [line] && Rest(line + "\n") == ""
    ensures forall r :: CompleteAll(r, [line]) == Complete(r, line)
  {
    LineThenText(line, "");
    assert line + "\n" + "" == line + "\n";
    assert Lines("") == [] && Rest("") == "";
    forall r ensures CompleteAll(r, [line]) == Complete(r, line) {
      CompleteOne(r, line);
    }
  }

  lemma CompleteOne(r: Reader, line: string)
    ensures CompleteAll(r, [line]) == Complete(r, line)
  {
    assert [line][1..] == [];
    assert CompleteAll(Complete(r, line), []) == Complete(r, line);
  }
}
