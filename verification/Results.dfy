/** Option and Result, lists without repeats, and the rejection reasons of the command fabric. */
module Results {

  datatype Option<+T> = None | Some(value: T)

  datatype Result<+T, +E> = Ok(value: T) | Err(error: E)

  datatype Reason =
    | UnsupportedVersion
    | MalformedEnvelope
    | MalformedParams
    | UnknownType
    | BadLifetime
    | UnknownKey
    | KeyExpired
    | BadSignature
    | BadDeviceId
    | ClockUnsynced
    | NotYetValid
    | Expired
    | BadPayloadType
    | WrongDevice
    | InsufficientSignatures
    | WrongTenant
    | MalformedStatement
    | StaleEpoch
    | EpochSkipped
    | ThresholdNotMet
    | SignerNotRoot
    | PinRequired
    | ChainIncomplete
    | KeyNotInChain
    | Backdated

  predicate NoRepeats<T(==)>(xs: seq<T>) {
    forall i, j | 0 <= i < j < |xs| :: xs[i] != xs[j]
  }
}
