/** The provider error type and the machine arithmetic its bound checks share. */
module ProviderErrors {
  import opened Wrappers

  const USIZE_MAX: nat := 0xFFFF_FFFF_FFFF_FFFF

  type Usize = n: nat | n <= USIZE_MAX

  /** A bound violation is named by its field. */
  datatype ProviderError =
    | Configuration
    | Serialization
    | Exceeded(field: string)
    | Timeout
    | Connection
    | Transport
    | HttpStatus(status: nat)
    | MalformedResponse
    | EmptyResponse
    | RejectedResponse
    | IncompleteResponse
    | UnsupportedResponse

  function CheckedAdd(a: nat, b: nat): Option<Usize> {
    if a + b > USIZE_MAX then None else Some(a + b)
  }
}
