/** The loop that collects one reply from the line reader, and the round trip of whole reply streams. */
module ReplyReading {
  import opened Results
  import opened Sequences
  import opened Text
  import opened SmtpReply
  import opened LineReading

  const MAX_SMTP_MULTILINE_LINES := 200

  /** `Blocked` is a reply loop whose last read is still waiting. */
  datatype Response =
    | Reply(code: nat, lines: seq<string>, raw: string)
    | TooLarge
    | ConnectionClosed
    | Blocked

  /** The reply loop over the lines still queued, with `lines` collected so far. */
  function ReadReply(q: seq<string>, ended: bool, lines: seq<string>): (Response, seq<string>)
    decreases |q|
  {
    if |lines| > MAX_SMTP_MULTILINE_LINES then (TooLarge, q)
    else if q == [] then (if ended then ConnectionClosed else Blocked, q)
    else
      var p := ParseStatusLine(q[0]);
      var lines' := lines + [q[0]];
      if p.code > 0 && !p.more then (Reply(p.code, lines', Join(lines', "\n")), q[1..])
      else ReadReply(q[1..], ended, lines')
  }

  method ReadSmtpResponse(reader: LineReader, id: nat) returns (response: Response)
    modifies reader
    ensures (response, reader.q) == ReadReply(old(reader.q), old(reader.ended), [])
    ensures reader.buf == old(reader.buf) && reader.ended == old(reader.ended)
    ensures reader.resolvers == if response == Blocked then old(reader.resolvers) + [id] else old(reader.resolvers)
  {
    var lines: seq<string> := [];
    while true
      invariant ReadReply(reader.q, reader.ended, lines) == ReadReply(old(reader.q), old(reader.ended), [])
      invariant reader.buf == old(reader.buf) && reader.ended == old(reader.ended)
      invariant reader.resolvers == old(reader.resolvers)
      decreases |reader.q|
    {
      if |lines| > MAX_SMTP_MULTILINE_LINES {
        return TooLarge;
      }
      var waits, ended, count := |reader.q| == 0, reader.ended, |reader.settled|;
      reader.ReadLine(id);
      if waits {
        return if ended then ConnectionClosed else Blocked;
      }
      var l := reader.settled[count].line.value;
      lines := lines + [l];
      var p := ParseStatusLine(l);
      if p.code > 0 && !p.more {
        return Reply(p.code, lines, Join(lines, "\n"));
      }
    }
  }

  /** A line that ends a reply: three digits, not all zero, a space, and text without line terminators. */
  predicate EndsReply(line: string) {
    && |line| >= 4 && '0' <= line[0] <= '9' && '0' <= line[1] <= '9' && '0' <= line[2] <= '9' && line[..3] != "000"
    && line[3] == ' ' && Unbroken(line[4..])
  }

  /** How the reply loop goes on: a line that ends a reply does, any other is collected, up to 201 of them. */
  lemma ReplyEndsExactly(q: seq<string>, ended: bool, lines: seq<string>)
    ensures var r := ReadReply(q, ended, lines);
            if |lines| > 200 then r == (TooLarge, q)
            else if q == [] then r == (if ended then ConnectionClosed else Blocked, q)
            else if !EndsReply(q[0]) then r == ReadReply(q[1..], ended, lines + [q[0]])
            else
              && r.0.Reply? && r.1 == q[1..]
              && r.0.lines == lines + [q[0]] && r.0.raw == Join(lines + [q[0]], "\n")
              && r.0.code < 1000 && CodeText(r.0.code) == q[0][..3]
  {
    if q != [] {
      UnparsedExactly(q[0]);
      if IsStatusLine(q[0]) {
        EndingLine(q[0]);
      }
    }
  }

  lemma EndingLine(line: string)
    requires IsStatusLine(line)
    ensures ParseStatusLine(line).code < 1000 && CodeText(ParseStatusLine(line).code) == line[..3]
    ensures EndsReply(line) <==> ParseStatusLine(line).code > 0 && !ParseStatusLine(line).more
  {
    StatusLinePrintsBack(line);
    var p := ParseStatusLine(line);
    assert PrintStatusLine(p)[..3] == CodeText(p.code);
    assert Unbroken(line[4..]);
    assert CodeText(0) == "000";
    if line[..3] == "000" {
      assert line[0] == line[..3][0] && line[1] == line[..3][1] && line[2] == line[..3][2];
    }
  }

  // ----- replies on the wire -----

  /** A reply as a server means it: its code and the text of each of its lines. */
  datatype ServerReply = ServerReply(code: nat, texts: seq<string>)

  ghost predicate Sendable(r: ServerReply) {
    0 < r.code < 1000 && r.texts != [] && forall i :: 0 <= i < |r.texts| ==> NoTerminators(r.texts[i])
  }

  /** Its lines: a hyphen behind the code on all but the last (section 4.2.1 of RFC 5321). */
  function ReplyLines(code: nat, texts: seq<string>): seq<string>
    requires code < 1000
  {
    if texts == [] then []
    else [PrintStatusLine(StatusLine(code, |texts| > 1, texts[0]))] + ReplyLines(code, texts[1..])
  }

  function Wire(lines: seq<string>): string {
    if lines == [] then "" else lines[0] + "\r\n" + Wire(lines[1..])
  }

  ghost predicate AllSendable(rs: seq<ServerReply>) {
    forall i :: 0 <= i < |rs| ==> Sendable(rs[i])
  }

  /** The lines of a sequence of replies. */
  function StreamLines(rs: seq<ServerReply>): seq<string>
    requires forall i :: 0 <= i < |rs| ==> rs[i].code < 1000
  {
    if rs == [] then [] else ReplyLines(rs[0].code, rs[0].texts) + StreamLines(rs[1..])
  }

  // ----- cutting the wire text gives the lines back -----

  ghost predicate WireLine(line: string) {
    forall i :: 0 <= i < |line| ==> line[i] != '\n' && line[i] != '\r'
  }

  lemma {:induction false} CutWire(lines: seq<string>)
    requires forall i :: 0 <= i < |lines| ==> WireLine(lines[i])
    ensures Lines(Wire(lines)) == lines && Rest(Wire(lines)) == ""
  {
    if lines != [] {
      var sent := lines[0] + "\r";
      assert Wire(lines) == sent + "\n" + Wire(lines[1..]);
      LineThenText(sent, Wire(lines[1..]));
      assert StripReturn(sent) == lines[0];
      CutWire(lines[1..]);
    }
  }

  lemma {:induction false} ReplyLinesAreWireLines(code: nat, texts: seq<string>)
    requires code < 1000 && forall i :: 0 <= i < |texts| ==> NoTerminators(texts[i])
    ensures forall i :: 0 <= i < |ReplyLines(code, texts)| ==> WireLine(ReplyLines(code, texts)[i])
    ensures |ReplyLines(code, texts)| == |texts|
  {
    if texts != [] {
      ReplyLinesAreWireLines(code, texts[1..]);
      var s := StatusLine(code, |texts| > 1, texts[0]);
      var line := PrintStatusLine(s);
      assert forall k :: 4 <= k < |line| ==> line[k] == texts[0][k - 4];
    }
  }

  lemma {:induction false} StreamLinesAreWireLines(rs: seq<ServerReply>)
    requires AllSendable(rs)
    ensures forall i :: 0 <= i < |StreamLines(rs)| ==> WireLine(StreamLines(rs)[i])
  {
    if rs != [] {
      ReplyLinesAreWireLines(rs[0].code, rs[0].texts);
      StreamLinesAreWireLines(rs[1..]);
    }
  }

  // ----- pushing chunks -----

  function Concat(chunks: seq<string>): string {
    if chunks == [] then "" else chunks[0] + Concat(chunks[1..])
  }

  function PushAll(r: Reader, chunks: seq<string>): Reader
    decreases |chunks|
  {
    if chunks == [] then r else PushAll(DoPush(r, chunks[0]), chunks[1..])
  }

  /** Between `r` and `after` the queue grew by the lines of `text`, whose unfinished tail is buffered. */
  ghost predicate Filled(r: Reader, after: Reader, text: string) {
    && r.waiting == [] && after.waiting == []
    && after.q == r.q + Lines(text) && after.buf == Rest(text) && after.ended == r.ended
  }

  lemma PushFills(r: Reader, chunk: string)
    requires r.waiting == []
    ensures Filled(r, DoPush(r, chunk), r.buf + chunk)
  {
    CompleteAllQueues(r, Lines(r.buf + chunk));
  }

  lemma FillsCompose(r: Reader, mid: Reader, after: Reader, text: string, more: string)
    requires Filled(r, mid, text) && Filled(mid, after, mid.buf + more)
    ensures Filled(r, after, text + more)
  {
    LinesOfConcat(text, more);
    Assoc(r.q, Lines(text), Lines(mid.buf + more));
  }

  lemma NothingFills(r: Reader)
    requires r.waiting == [] && IndexOfNewline(r.buf) == -1
    ensures Filled(r, r, r.buf + "")
  {
    assert r.buf + "" == r.buf;
    assert r.q + [] == r.q;
  }

  /** Any cutting of a text fills the queue with the lines of the text. */
  lemma {:induction false} ChunksDoNotMatter(r: Reader, chunks: seq<string>)
    requires r.waiting == [] && IndexOfNewline(r.buf) == -1
    ensures Filled(r, PushAll(r, chunks), r.buf + Concat(chunks))
    decreases |chunks|
  {
    if chunks == [] {
      NothingFills(r);
    } else {
      var mid := DoPush(r, chunks[0]);
      PushFills(r, chunks[0]);
      NoNewline(r.buf + chunks[0]);
      ChunksDoNotMatter(mid, chunks[1..]);
      FillsCompose(r, mid, PushAll(mid, chunks[1..]), r.buf + chunks[0], Concat(chunks[1..]));
      Assoc(r.buf, chunks[0], Concat(chunks[1..]));
    }
  }

  // ----- reading the replies back -----

  /** One reply is read exactly when it fits: more than 201 lines are refused. */
  lemma {:induction false} OneReply(code: nat, texts: seq<string>, tail: seq<string>, ended: bool, lines: seq<string>)
    requires Sendable(ServerReply(code, texts))
    ensures var all := lines + ReplyLines(code, texts);
            var (response, rest) := ReadReply(ReplyLines(code, texts) + tail, ended, lines);
            if |lines| + |texts| <= 201
            then response == Reply(code, all, Join(all, "\n")) && rest == tail
            else response == TooLarge
    decreases |texts|
  {
    var first := StatusLine(code, |texts| > 1, texts[0]);
    var printed := ReplyLines(code, texts);
    StatusLineRoundTrip(first);
    assert printed[0] == PrintStatusLine(first);
    var q := printed + tail;
    assert q[0] == printed[0];
    if |lines| <= MAX_SMTP_MULTILINE_LINES {
      if |texts| == 1 {
        assert ReplyLines(code, texts[1..]) == [];
        assert printed == [printed[0]];
        assert q[1..] == tail;
      } else {
        assert q[1..] == ReplyLines(code, texts[1..]) + tail;
        OneReply(code, texts[1..], tail, ended, lines + [printed[0]]);
        assert lines + [printed[0]] + ReplyLines(code, texts[1..]) == lines + printed;
      }
    }
  }

  /** The texts a client finds behind the status codes. */
  function TextsOf(lines: seq<string>): seq<string> {
    if lines == [] then [] else [ParseStatusLine(lines[0]).rest] + TextsOf(lines[1..])
  }

  lemma {:induction false} TextsComeBack(code: nat, texts: seq<string>)
    requires code < 1000 && forall i :: 0 <= i < |texts| ==> NoTerminators(texts[i])
    ensures TextsOf(ReplyLines(code, texts)) == texts
  {
    if texts != [] {
      StatusLineRoundTrip(StatusLine(code, |texts| > 1, texts[0]));
      TextsComeBack(code, texts[1..]);
      assert ReplyLines(code, texts)[1..] == ReplyLines(code, texts[1..]);
    }
  }

  /** Reads one reply after the other; stops at the first that is not a reply. */
  function ReadAll(q: seq<string>, n: nat): (seq<ServerReply>, seq<string>)
    decreases n
  {
    if n == 0 then ([], q)
    else
      var (response, rest) := ReadReply(q, false, []);
      if !response.Reply? then ([], rest)
      else
        var (rs, left) := ReadAll(rest, n - 1);
        ([ServerReply(response.code, TextsOf(response.lines))] + rs, left)
  }

  lemma {:induction false} RepliesComeBack(rs: seq<ServerReply>)
    requires AllSendable(rs) && forall i :: 0 <= i < |rs| ==> |rs[i].texts| <= 201
    ensures ReadAll(StreamLines(rs), |rs|) == (rs, [])
  {
    if rs != [] {
      var printed := ReplyLines(rs[0].code, rs[0].texts);
      OneReply(rs[0].code, rs[0].texts, StreamLines(rs[1..]), false, []);
      TextsComeBack(rs[0].code, rs[0].texts);
      assert [] + printed == printed;
      RepliesComeBack(rs[1..]);
      assert [rs[0]] + rs[1..] == rs;
    }
  }

  /**
   * The reply round trip: the replies printed on the wire, cut anywhere into
   * chunks and pushed into a new reader, are read back one at a time with their
   * codes and texts, and nothing is left over.
   */
  lemma ReplyRoundTrip(rs: seq<ServerReply>, chunks: seq<string>)
    requires AllSendable(rs) && forall i :: 0 <= i < |rs| ==> |rs[i].texts| <= 201
    requires Concat(chunks) == Wire(StreamLines(rs))
    ensures var r := PushAll(FRESH, chunks);
            r.buf == "" && ReadAll(r.q, |rs|) == (rs, [])
  {
    StreamLinesAreWireLines(rs);
    WireFillsQueue(StreamLines(rs), chunks);
    RepliesComeBack(rs);
  }

  lemma WireFillsQueue(lines: seq<string>, chunks: seq<string>)
    requires forall i :: 0 <= i < |lines| ==> WireLine(lines[i])
    requires Concat(chunks) == Wire(lines)
    ensures PushAll(FRESH, chunks).q == lines && PushAll(FRESH, chunks).buf == ""
  {
    ChunksDoNotMatter(FRESH, chunks);
    CutWire(lines);
    assert "" + Concat(chunks) == Concat(chunks);
    assert [] + lines == lines;
  }
}
