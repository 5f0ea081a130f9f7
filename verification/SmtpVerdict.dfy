/** From SMTP replies to verdicts: classification, the session dialogue, and the mapping to result codes. */
module SmtpVerdict {
  import opened Results
  import opened Text
  import opened SmtpReply
  import opened ReplyReading

  datatype SmtpClass = PermanentReject | Temporary | Accept | ProviderBlock | Unreachable | ProtocolError

  datatype Semantic =
    | MailboxOk | AcceptDeferred | ServiceUnavailable | TempMailbox | TempLocal | InsufficientStorage
    | RejectMailbox | RejectNotLocal | LimitExceeded | RejectInvalid | TransactionFailed | OtherSemantic

  datatype FailKind = Connect | Timeout | Protocol

  datatype RcptResult =
    | Rcpt(class_: SmtpClass, text: string, code: nat, providerBlock: bool, semantic: Semantic)
    | MxFail(error: FailKind, message: string, errno: Option<string>, socketReason: Option<SocketReason>)
    | AllMxFailed

  /** The regular expressions on reply text, as predicates. */
  datatype Wording = Wording(blocked: string -> bool, userUnknown: string -> bool, routing: string -> bool, full: string -> bool)

  // ----- classification -----

  function StripCode(line: string): string {
    if |line| >= 3 && IsDigit(line[0]) && IsDigit(line[1]) && IsDigit(line[2]) then
      if |line| >= 4 && (line[3] == '-' || line[3] == ' ') then line[4..] else line[3..]
    else line
  }

  function StripCodes(lines: seq<string>): seq<string> {
    if lines == [] then [] else [StripCode(lines[0])] + StripCodes(lines[1..])
  }

  function JoinSmtpText(lines: seq<string>): string {
    Trim(Join(StripCodes(lines), " "))
  }

  /** Behind a three-digit code one separator goes with it, and nothing else; any other line stays as it is. */
  lemma StripCodeLaw(code: nat, s: string, other: string)
    requires code < 1000
    ensures StripCode(CodeText(code) + s) == if s != "" && (s[0] == '-' || s[0] == ' ') then s[1..] else s
    ensures |other| < 3 || !(IsDigit(other[0]) && IsDigit(other[1]) && IsDigit(other[2])) ==> StripCode(other) == other
  {
    var line := CodeText(code) + s;
    assert line[3..] == s;
    assert |line| >= 4 ==> line[4..] == s[1..];
  }

  lemma {:induction false} StripPrinted(code: nat, texts: seq<string>)
    requires code < 1000
    ensures StripCodes(ReplyLines(code, texts)) == texts
  {
    if texts != [] {
      var line := PrintStatusLine(StatusLine(code, |texts| > 1, texts[0]));
      var s := [if |texts| > 1 then '-' else ' '] + texts[0];
      assert line == CodeText(code) + s && s[1..] == texts[0];
      StripCodeLaw(code, s, "");
      StripPrinted(code, texts[1..]);
      assert ReplyLines(code, texts)[1..] == ReplyLines(code, texts[1..]);
    }
  }

  /** The text of a reply is what the server wrote behind the codes, joined by single spaces and trimmed. */
  lemma TextOfReply(code: nat, texts: seq<string>)
    requires code < 1000
    ensures JoinSmtpText(ReplyLines(code, texts)) == Trim(Join(texts, " "))
  {
    StripPrinted(code, texts);
  }

  function CategorizeSmtpReply(code: nat): Semantic {
    if code == 250 || code == 251 then MailboxOk
    else if code == 252 then AcceptDeferred
    else if code == 421 then ServiceUnavailable
    else if code == 450 then TempMailbox
    else if code == 451 then TempLocal
    else if code == 452 then InsufficientStorage
    else if code == 550 then RejectMailbox
    else if code == 551 then RejectNotLocal
    else if code == 552 then LimitExceeded
    else if code == 553 then RejectInvalid
    else if code == 554 then TransactionFailed
    else OtherSemantic
  }

  datatype Classified = Classified(class_: SmtpClass, line: string, providerBlockHint: bool)

  function ClassifySmtp(code: nat, lines: seq<string>, w: Wording): Classified {
    ClassifyText(code, JoinSmtpText(lines), w)
  }

  function ClassifyText(code: nat, text: string, w: Wording): Classified {
    if code == 250 || code == 251 then Classified(Accept, text, false)
    else if code == 252 then Classified(Temporary, text, w.blocked(text))
    else if code == 552 then Classified(Temporary, text, w.blocked(text))
    else if 500 <= code < 600 then
      if w.blocked(text) then Classified(ProviderBlock, text, true)
      else if code == 550 || code == 551 || code == 553 then Classified(PermanentReject, text, false)
      else if code == 554 then Classified(PermanentReject, text, false)
      else Classified(PermanentReject, text, w.blocked(text))
    else if code == 421 then Classified(Temporary, text, w.blocked(text))
    else if 400 <= code < 500 then
      if w.blocked(text) && (code == 450 || code == 451) then Classified(ProviderBlock, text, true)
      else Classified(Temporary, text, w.blocked(text))
    else if 200 <= code < 300 then Classified(Accept, text, false)
    else Classified(ProtocolError, text, false)
  }

  function ToRcpt(cl: Classified, code: nat): RcptResult {
    if cl.class_ == ProtocolError || cl.class_ == Unreachable then MxFail(Protocol, cl.line, None, None)
    else Rcpt(cl.class_, cl.line, code, cl.providerBlockHint, CategorizeSmtpReply(code))
  }

  function MapSmtpSocketErrno(error: FailKind, errno: Option<string>): SocketReason {
    if error == Timeout then SmtpTimeout
    else if error == Protocol then SmtpConnectFailed
    else if errno.None? || errno.value == "" then SmtpConnectFailed
    else if errno.value == "ECONNREFUSED" then SmtpConnectFailed
    else if errno.value == "ETIMEDOUT" then SmtpTimeout
    else if errno.value == "ECONNRESET" || errno.value == "EPIPE" || errno.value == "ECONNABORTED" then SmtpConnectionReset
    else if errno.value == "EHOSTUNREACH" || errno.value == "ENETUNREACH" then MxUnreachableReason
    else SmtpConnectFailed
  }

  // ----- the mapping to verdicts -----

  /** What a verdict does to the failure count of its domain. */
  datatype PathEffect = NoEffect | CountFailure | ClearFailures

  function Verdict(email: string, code: Code, message: string, reason: Reason): VerificationResult {
    VerificationResult(email, code, message, reason)
  }

  /** `mapSmtpToResult` before the persistent-failure escalation, which PathEffect asks for. */
  function MapSmtpToResult(email: string, r: RcptResult, w: Wording): (VerificationResult, PathEffect) {
    match r
    case AllMxFailed => (Verdict(email, RetryLater, "No MX completed SMTP; retry later", OfSocket(SmtpConnectFailed)), CountFailure)
    case MxFail(error, message, errno, socketReason) =>
      var sk := if socketReason.Some? then socketReason.value else MapSmtpSocketErrno(error, errno);
      if error == Timeout || sk == SmtpTimeout then (Verdict(email, RetryLater, message, OfSocket(sk)), NoEffect)
      else if error == Connect then (Verdict(email, RetryLater, message, OfSocket(sk)), CountFailure)
      else (Verdict(email, RetryLater, message, SmtpProtocol), CountFailure)
    case Rcpt(_, _, _, _, _) =>
      if BlockedReply(r) then (Verdict(email, RetryLater, r.text, ProviderSmtp), NoEffect)
      else if r.semantic == MailboxOk || r.class_ == Accept then (Verdict(email, Valid, "RCPT accept", NoReason), ClearFailures)
      else (MapRefusal(email, r, w), NoEffect)
  }

  predicate BlockedReply(r: RcptResult)
    requires r.Rcpt?
  {
    r.class_ == ProviderBlock || (r.class_ == Temporary && r.providerBlock)
  }

  /** The branches for replies that neither block nor accept, in source order. */
  function MapRefusal(email: string, r: RcptResult, w: Wording): VerificationResult
    requires r.Rcpt?
  {
    if r.semantic == AcceptDeferred then Verdict(email, Unknown, r.text, Smtp252)
    else if r.semantic == ServiceUnavailable then Verdict(email, RetryLater, r.text, Smtp421)
    else if r.semantic == InsufficientStorage then Verdict(email, RetryLater, r.text, Smtp452)
    else if r.semantic == TempMailbox || r.semantic == TempLocal then Verdict(email, Greylisted, r.text, Smtp4xxTemporary)
    else if r.semantic == RejectMailbox || r.semantic == RejectInvalid then Verdict(email, Undeliverable, r.text, Smtp550Or553)
    else if r.semantic == RejectNotLocal then
      if w.userUnknown(Lower(r.text)) then Verdict(email, Undeliverable, r.text, NotLocal)
      else if w.routing(Lower(r.text)) then Verdict(email, Unknown, r.text, Smtp551)
      else Verdict(email, Undeliverable, r.text, NotLocal)
    else if r.semantic == LimitExceeded then
      if w.full(Lower(r.text)) then Verdict(email, RetryLater, r.text, Smtp552Full)
      else Verdict(email, Unknown, r.text, SmtpRisky)
    else if r.semantic == TransactionFailed then Verdict(email, Undeliverable, r.text, Smtp554)
    else if r.class_ == PermanentReject then Verdict(email, Undeliverable, r.text, Smtp5xx)
    else if r.class_ == Temporary then Verdict(email, Greylisted, r.text, NoReason)
    else if r.class_ == ProtocolError then Verdict(email, RetryLater, r.text, NoReason)
    else Verdict(email, RetryLater, r.text, NoReason)
  }

  // ----- verdicts of replies -----

  function RcptOf(code: nat, lines: seq<string>, w: Wording): RcptResult {
    ToRcpt(ClassifySmtp(code, lines, w), code)
  }

  function CodeOf(code: nat, lines: seq<string>, w: Wording): Code {
    MapSmtpToResult("", RcptOf(code, lines, w), w).0.code
  }

  /** The policy in one table: what each reply code, with or without block-listed text, may become. */
  function Policy(code: nat, blocked: bool, userUnknown: bool, routing: bool, full: bool): Code {
    if 200 <= code < 300 && code != 252 then Valid
    else if code < 200 || code >= 600 || 300 <= code < 400 then RetryLater
    else if blocked then RetryLater
    else if code == 252 then Unknown
    else if code < 500 then if code == 421 || code == 452 then RetryLater else Greylisted
    else if code == 552 then if full then RetryLater else Unknown
    else if code == 551 && !userUnknown && routing then Unknown
    else Undeliverable
  }

  /** What the mapping makes of a reply, against the table. */
  predicate Follows(email: string, code: nat, text: string, w: Wording) {
    var (result, _) := MapSmtpToResult(email, ToRcpt(ClassifyText(code, text, w), code), w);
    && result.email == email
    && result.code == Policy(code, w.blocked(text), w.userUnknown(Lower(text)), w.routing(Lower(text)), w.full(Lower(text)))
  }

  lemma TemporaryFollows(email: string, code: nat, text: string, w: Wording)
    requires 400 <= code < 500
    ensures Follows(email, code, text, w)
  {
  }

  lemma PermanentFollows(email: string, code: nat, text: string, w: Wording)
    requires 500 <= code < 600
    ensures Follows(email, code, text, w)
  {
  }

  lemma OthersFollow(email: string, code: nat, text: string, w: Wording)
    requires code < 400 || 600 <= code
    ensures Follows(email, code, text, w)
  {
  }

  /** The class of an answer, by code and text. */
  function ClassFor(code: nat, blocked: bool): SmtpClass {
    if code < 300 && code != 252 then Accept
    else if blocked && (code == 450 || code == 451 || (code >= 500 && code != 552)) then ProviderBlock
    else if code >= 500 && code != 552 then PermanentReject
    else Temporary
  }

  /** The semantic of an answer, by code. */
  predicate HasSemantic(code: nat, s: Semantic) {
    match s
    case MailboxOk => code == 250 || code == 251
    case AcceptDeferred => code == 252
    case ServiceUnavailable => code == 421
    case TempMailbox => code == 450
    case TempLocal => code == 451
    case InsufficientStorage => code == 452
    case RejectMailbox => code == 550
    case RejectNotLocal => code == 551
    case LimitExceeded => code == 552
    case RejectInvalid => code == 553
    case TransactionFailed => code == 554
    case OtherSemantic => code !in {250, 251, 252, 421, 450, 451, 452, 550, 551, 552, 553, 554}
  }

  /**
   * What a reply becomes before the verdict: an answer for the recipient for 2xx, 4xx and 5xx,
   * with its own code and text, the block hint exactly when its text is block-listed and it
   * is no plain acceptance, its class and its semantic; and a protocol failure otherwise.
   */
  lemma AnswerOfReply(code: nat, lines: seq<string>, w: Wording)
    ensures var r, text := RcptOf(code, lines, w), JoinSmtpText(lines);
            if 200 <= code < 300 || 400 <= code < 600 then
              && r.Rcpt? && r.code == code && r.text == text && HasSemantic(code, r.semantic)
              && r.class_ == ClassFor(code, w.blocked(text))
              && r.providerBlock == (w.blocked(text) && !(200 <= code < 300 && code != 252))
            else r == MxFail(Protocol, text, None, None)
  {
  }

  /** Classification, narrowing and the twenty-odd mapping branches together implement the table. */
  lemma VerdictFollowsPolicy(email: string, code: nat, lines: seq<string>, w: Wording)
    ensures var text := JoinSmtpText(lines);
            var (result, _) := MapSmtpToResult(email, RcptOf(code, lines, w), w);
            && result.email == email
            && result.code == Policy(code, w.blocked(text), w.userUnknown(Lower(text)), w.routing(Lower(text)), w.full(Lower(text)))
  {
    if 400 <= code < 500 {
      TemporaryFollows(email, code, JoinSmtpText(lines), w);
    } else if 500 <= code < 600 {
      PermanentFollows(email, code, JoinSmtpText(lines), w);
    } else {
      OthersFollow(email, code, JoinSmtpText(lines), w);
    }
  }

  /**
   * The verdict for every code and every text: `valid` is a 2xx other than 252 and nothing
   * else; a 4xx never decides about the mailbox, and is greylisting unless it is a 421, a
   * 452 or block-listed; `undeliverable` is an unblocked 5xx, but neither a 552 nor a 551 that
   * only speaks of routing; `unknown` is an unblocked 252, such a 551, or a 552 that is not
   * about space; and everything else means retry, block-listed text in particular.
   */
  lemma VerdictSafety(code: nat, lines: seq<string>, w: Wording)
    ensures var v, text := CodeOf(code, lines, w), JoinSmtpText(lines);
            var blocked, routed := w.blocked(text), code == 551 && w.routing(Lower(text)) && !w.userUnknown(Lower(text));
            && (v == Valid <==> 200 <= code < 300 && code != 252)
            && (v == Greylisted <==> 400 <= code < 500 && code != 421 && code != 452 && !blocked)
            && (v == Undeliverable <==> 500 <= code < 600 && code != 552 && !blocked && !routed)
            && (v == Unknown <==> !blocked && (code == 252 || routed || (code == 552 && !w.full(Lower(text)))))
            && (v == RetryLater <==> v !in {Valid, Greylisted, Undeliverable, Unknown})
  {
    VerdictFollowsPolicy("", code, lines, w);
  }

  /** The reason and the message that go with the verdict on a reply. */
  predicate Explained(r: VerificationResult, code: nat, text: string, w: Wording) {
    && r.message == (if 200 <= code < 300 && code != 252 then "RCPT accept" else text)
    && r.reason == if code < 200 || 300 <= code < 400 || code >= 600 then SmtpProtocol
                   else if code < 300 && code != 252 then NoReason
                   else if w.blocked(text) then ProviderSmtp
                   else match code
                        case 252 => Smtp252
                        case 421 => Smtp421
                        case 450 => Smtp4xxTemporary
                        case 451 => Smtp4xxTemporary
                        case 452 => Smtp452
                        case 550 => Smtp550Or553
                        case 551 => if w.routing(Lower(text)) && !w.userUnknown(Lower(text)) then Smtp551 else NotLocal
                        case 552 => if w.full(Lower(text)) then Smtp552Full else SmtpRisky
                        case 553 => Smtp550Or553
                        case 554 => Smtp554
                        case _ => if code < 500 then NoReason else Smtp5xx
  }

  lemma TemporaryIsExplained(email: string, code: nat, text: string, w: Wording)
    requires 400 <= code < 500
    ensures Explained(MapSmtpToResult(email, ToRcpt(ClassifyText(code, text, w), code), w).0, code, text, w)
  {
  }

  lemma PermanentIsExplained(email: string, code: nat, text: string, w: Wording)
    requires 500 <= code < 600
    ensures Explained(MapSmtpToResult(email, ToRcpt(ClassifyText(code, text, w), code), w).0, code, text, w)
  {
  }

  /** The reason and the message that go with a verdict, for every code and every text. */
  lemma ReasonOfReply(email: string, code: nat, lines: seq<string>, w: Wording)
    ensures Explained(MapSmtpToResult(email, RcptOf(code, lines, w), w).0, code, JoinSmtpText(lines), w)
  {
    if 400 <= code < 500 {
      TemporaryIsExplained(email, code, JoinSmtpText(lines), w);
    } else if 500 <= code < 600 {
      PermanentIsExplained(email, code, JoinSmtpText(lines), w);
    }
  }

  /** Only transport and protocol failures count against a domain, only acceptance clears it. */
  lemma EffectsOfReplies(email: string, code: nat, lines: seq<string>, w: Wording)
    ensures var (result, effect) := MapSmtpToResult(email, RcptOf(code, lines, w), w);
            && (effect == ClearFailures <==> result.code == Valid)
            && (effect == CountFailure <==> code < 200 || 300 <= code < 400 || code >= 600)
            && (effect == CountFailure ==> result.code == RetryLater)
  {
  }

  /** A reply never carries the class that the last two mapping branches and the unknown-burst counter look for. */
  lemma NoProtocolErrorReply(code: nat, lines: seq<string>, w: Wording)
    ensures var r := RcptOf(code, lines, w);
            r.Rcpt? ==> r.class_ == Accept || r.class_ == Temporary || r.class_ == PermanentReject || r.class_ == ProviderBlock
  {
  }

  // ----- the session dialogue -----

  /** How one session ended: with a result, by a timeout, or by a socket error. */
  datatype SessionOutcome = Ended(result: RcptResult) | TimedOut(message: string) | Threw(errno: Option<string>, message: string)

  function Failed(message: string): SessionOutcome {
    Ended(MxFail(Protocol, message, None, Some(SmtpConnectFailed)))
  }

  /** `runSmtpSession` as a function of the replies its reads return; `Blocked` is a read that times out. */
  function Session(read: nat -> Response, w: Wording): SessionOutcome {
    var banner := read(0);
    if banner == Blocked then TimedOut("smtp banner")
    else if banner == ConnectionClosed then Failed("connection closed")
    else if banner == TooLarge then Failed("multiline smtp response too large")
    else if banner.code != 220 then Failed("banner")
    else
      var ehlo := read(1);
      if ehlo == Blocked then TimedOut("smtp read")
      else if ehlo.Reply? && 200 <= ehlo.code < 300 then MailAndRcpt(read, 2, w)
      else
        var helo := read(2);
        if helo == Blocked then TimedOut("smtp read")
        else if !helo.Reply? || helo.code < 200 || helo.code >= 300 then Failed("HELO")
        else MailAndRcpt(read, 3, w)
  }

  function MailAndRcpt(read: nat -> Response, k: nat, w: Wording): SessionOutcome {
    var mail := read(k);
    if mail == Blocked then TimedOut("smtp read")
    else if !mail.Reply? then Failed("MAIL")
    else if mail.code < 200 || mail.code >= 300 then Ended(RcptOf(mail.code, mail.lines, w))
    else
      var rcpt := read(k + 1);
      if rcpt == Blocked then TimedOut("smtp read")
      else if !rcpt.Reply? then Failed("RCPT")
      else Ended(RcptOf(rcpt.code, rcpt.lines, w))
  }
}
