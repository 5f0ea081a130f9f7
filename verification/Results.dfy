/** Values shared by the components: optional values and the verification payload. */
module Results {
  datatype Option<+T> = None | Some(value: T)

  /** The discriminating `code` of a verification result. */
  datatype Code =
    | Valid
    | Invalid
    | Dead
    | Undeliverable
    | Unknown
    | RetryLater
    | Greylisted
    | MxUnreachable
    | ProviderBlocked
    | Disposable
    | RoleAccount
    | CatchAll
    | SystemError

  /** The stable reasons of socket failures. */
  datatype SocketReason = SmtpConnectFailed | SmtpTimeout | SmtpConnectionReset | MxUnreachableReason

  /** The `reason` of a verification result, where it has one. */
  datatype Reason =
    | NoReason
    | OfSocket(socket: SocketReason)
    | SmtpProtocol
    | ProviderSmtp
    | Smtp252
    | Smtp421
    | Smtp452
    | Smtp4xxTemporary
    | Smtp550Or553
    | NotLocal
    | Smtp551
    | Smtp552Full
    | SmtpRisky
    | Smtp554
    | Smtp5xx
    | MxUnreachablePersistent
    | DomainInvalid
    | NoMxRecords
    | MxLookupReason
    | SystemErrorReason

  /** The payload fields the modelled code reads or writes; scores and explanations are not part of it. */
  datatype VerificationResult = VerificationResult(email: string, code: Code, message: string, reason: Reason)
}
