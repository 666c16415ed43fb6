/** The message types shared by client and server (src/lib.rs), and the values a
    caller can get back. */
module Rpc {

  type byte = x: nat | x < 256

  type Bytes = seq<byte>

  const U64_MODULUS: nat := 0x1_0000_0000_0000_0000

  type u64 = x: nat | x < U64_MODULUS

  datatype Option<+T> = None | Some(value: T)

  datatype Request = Request(id: u64, methodName: string, payload: Bytes)

  datatype Response = Response(id: u64, payload: Option<Bytes>, error: Option<string>)

  /** What `Client::call` returns: the reply bytes, or one of the errors it can return. */
  datatype Outcome =
    | Answer(bytes: Bytes)
    | RpcFailed(text: string)
    | ConnectionClosed
    | Timeout
    | WebTransportError
    | EncodingError
    | DecodingError

  /** How the response handler turns a response into the value it sends to the caller. */
  function ValueOf(response: Response): Outcome {
    match response.error
    case Some(text) => RpcFailed(text)
    case None =>
      match response.payload
      case Some(bytes) => Answer(bytes)
      case None => Answer([])
  }
}
