/**
 * Reading SMTP replies: the status-line pattern, the reader that cuts incoming
 * chunks into lines and serves waiting readers, and the reply loop (sections
 * 4.2 and 4.2.1 of RFC 5321).
 */
module SmtpReply {
  import opened Results
  import opened Text

  // ----- status lines -----

  datatype StatusLine = StatusLine(code: nat, more: bool, rest: string)

  predicate IsDigit(c: char) { '0' <= c <= '9' }

  function DigitValue(c: char): nat
    requires IsDigit(c)
  {
    c as int - '0' as int
  }

  /** The characters `.` does not match. */
  predicate IsLineTerminator(c: char) {
    c == '\n' || c == '\r' || c == '\U{2028}' || c == '\U{2029}'
  }

  predicate NoTerminators(s: string) {
    forall i :: 0 <= i < |s| ==> !IsLineTerminator(s[i])
  }

  /** Three digits, a hyphen or a space, and a rest without line terminators. */
  predicate IsStatusLine(line: string) {
    && |line| >= 4
    && IsDigit(line[0]) && IsDigit(line[1]) && IsDigit(line[2])
    && (line[3] == '-' || line[3] == ' ')
    && NoTerminators(line[4..])
  }

  function ParseStatusLine(line: string): StatusLine {
    if !IsStatusLine(line) then StatusLine(0, false, line)
    else StatusLine(100 * DigitValue(line[0]) + 10 * DigitValue(line[1]) + DigitValue(line[2]), line[3] == '-', line[4..])
  }

  function Digit(n: nat): char
    requires n < 10
  {
    n as char + '0'
  }

  function CodeText(code: nat): string
    requires code < 1000
  {
    [Digit(code / 100), Digit(code / 10 % 10), Digit(code % 10)]
  }

  function PrintStatusLine(s: StatusLine): string
    requires s.code < 1000
  {
    CodeText(s.code) + [if s.more then '-' else ' '] + s.rest
  }

  /** Parsing inverts printing on every line a server may send. */
  lemma StatusLineRoundTrip(s: StatusLine)
    requires s.code < 1000 && NoTerminators(s.rest)
    ensures ParseStatusLine(PrintStatusLine(s)) == s
  {
    var line := PrintStatusLine(s);
    assert line[4..] == s.rest;
    DigitsOf(s.code);
    assert DigitValue(line[0]) == s.code / 100 && DigitValue(line[1]) == s.code / 10 % 10 && DigitValue(line[2]) == s.code % 10;
  }

  lemma DigitsOf(code: nat)
    ensures code == 100 * (code / 100) + 10 * (code / 10 % 10) + code % 10
  {
    var tens := code / 10;
    assert code == 10 * tens + code % 10;
    assert tens == 10 * (tens / 10) + tens % 10;
    assert tens / 10 == code / 100;
  }

  lemma ThreeDigits(a: nat, b: nat, c: nat)
    requires a < 10 && b < 10 && c < 10
    ensures var code := 100 * a + 10 * b + c; code / 100 == a && code / 10 == 10 * a + b && code / 10 % 10 == b && code % 10 == c
  {
    var code := 100 * a + 10 * b + c;
    assert code == 10 * (10 * a + b) + c;
    assert code / 10 == 10 * a + b;
  }

  /** And printing inverts parsing on the lines the pattern accepts. */
  lemma StatusLinePrintsBack(line: string)
    requires IsStatusLine(line)
    ensures ParseStatusLine(line).code < 1000 && PrintStatusLine(ParseStatusLine(line)) == line
  {
    var a, b, c := DigitValue(line[0]), DigitValue(line[1]), DigitValue(line[2]);
    ThreeDigits(a, b, c);
    assert Digit(a) == line[0] && Digit(b) == line[1] && Digit(c) == line[2];
    assert line == line[..4] + line[4..];
  }

  predicate Unbroken(s: string) {
    '\n' !in s && '\r' !in s && '\U{2028}' !in s && '\U{2029}' !in s
  }

  /**
   * The lines that printing a status gives are exactly those the pattern accepts; any other
   * line is read as text with code zero, which ends no reply.
   */
  lemma UnparsedExactly(line: string)
    ensures IsStatusLine(line) <==>
              exists s: StatusLine :: s.code < 1000 && Unbroken(s.rest) && PrintStatusLine(s) == line
    ensures !IsStatusLine(line) ==> ParseStatusLine(line) == StatusLine(0, false, line)
  {
    if IsStatusLine(line) {
      StatusLinePrintsBack(line);
      assert Unbroken(ParseStatusLine(line).rest);
    }
    if s: StatusLine :| s.code < 1000 && Unbroken(s.rest) && PrintStatusLine(s) == line {
      assert line[4..] == s.rest;
      assert IsDigit(line[0]) && IsDigit(line[1]) && IsDigit(line[2]);
    }
  }

  // ----- cutting the stream into lines -----

  function IndexOfNewline(s: string): (i: int)
    ensures -1 <= i < |s|
    ensures i >= 0 ==> s[i] == '\n' && forall k :: 0 <= k < i ==> s[k] != '\n'
    ensures i == -1 ==> '\n' !in s
  {
    if s == "" then -1
    else if s[0] == '\n' then 0
    else
      var i := IndexOfNewline(s[1..]);
      assert s == [s[0]] + s[1..];
      if i == -1 then -1 else i + 1
  }

  /** A line without one trailing carriage return. */
  function StripReturn(line: string): string {
    if line != "" && line[|line| - 1] == '\r' then line[..|line| - 1] else line
  }

  /** The complete lines of a text. */
  function Lines(s: string): seq<string>
    decreases |s|
  {
    var i := IndexOfNewline(s);
    if i == -1 then [] else [StripReturn(s[..i])] + Lines(s[i + 1..])
  }

  /** What follows the last newline. */
  function Rest(s: string): string
    decreases |s|
  {
    var i := IndexOfNewline(s);
    if i == -1 then s else Rest(s[i + 1..])
  }

  lemma FirstNewline(a: string, b: string)
    requires IndexOfNewline(a) >= 0
    ensures IndexOfNewline(a + b) == IndexOfNewline(a)
  {
    var i, k := IndexOfNewline(a), IndexOfNewline(a + b);
    assert (a + b)[i] == '\n';
    assert k >= 0;
    assert !(k < i) && !(i < k);
  }

  lemma {:induction false} NoNewline(s: string)
    ensures IndexOfNewline(Rest(s)) == -1
    decreases |s|
  {
    if IndexOfNewline(s) != -1 {
      NoNewline(s[IndexOfNewline(s) + 1..]);
    }
  }

  /** Chunking does not matter: cutting `a + b` is cutting `a`, then what it left over followed by `b`. */
  lemma {:induction false} LinesOfConcat(a: string, b: string)
    ensures Lines(a + b) == Lines(a) + Lines(Rest(a) + b)
    ensures Rest(a + b) == Rest(Rest(a) + b)
    decreases |a|
  {
    var i := IndexOfNewline(a);
    if i >= 0 {
      FirstNewline(a, b);
      assert (a + b)[..i] == a[..i];
      assert (a + b)[i + 1..] == a[i + 1..] + b;
      LinesOfConcat(a[i + 1..], b);
    }
  }

  lemma LineThenText(line: string, b: string)
    requires '\n' !in line
    ensures Lines(line + "\n" + b) == [StripReturn(line)] + Lines(b)
    ensures Rest(line + "\n" + b) == Rest(b)
  {
    var s := line + "\n" + b;
    var i := IndexOfNewline(s);
    assert s[|line|] == '\n';
    assert i == |line|;
    assert s[..i] == line && s[i + 1..] == b;
  }

  /** A line is a piece of the text between line breaks, without one carriage return at its end. */
  predicate IsLineOf(line: string, piece: string) {
    if piece != "" && piece[|piece| - 1] == '\r' then piece == line + "\r" else piece == line
  }

  ghost predicate Pieces(lines: seq<string>, rest: string, pieces: seq<string>) {
    && |pieces| == |lines| + 1 && rest == pieces[|lines|]
    && forall k :: 0 <= k < |lines| ==> IsLineOf(lines[k], pieces[k])
  }

  lemma OneMorePiece(line: string, piece: string, lines: seq<string>, rest: string, pieces: seq<string>)
    requires Pieces(lines, rest, pieces) && IsLineOf(line, piece)
    ensures Pieces([line] + lines, rest, [piece] + pieces)
  {
  }

  /** The lines are the pieces between the line breaks, and what is left over is the piece behind the last. */
  lemma {:induction false} LinesArePieces(s: string)
    ensures Pieces(Lines(s), Rest(s), Split(s, '\n'))
    decreases |s|
  {
    var i := IndexOfNewline(s);
    if i == -1 {
      SplitNone(s, '\n');
    } else {
      LinesArePieces(s[i + 1..]);
      SplitFirst(s[..i], s[i + 1..], '\n');
      assert s == s[..i] + ['\n'] + s[i + 1..];
      OneMorePiece(StripReturn(s[..i]), s[..i], Lines(s[i + 1..]), Rest(s[i + 1..]), Split(s[i + 1..], '\n'));
    }
  }
}
