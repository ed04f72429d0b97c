/** The request and response values that the worker sees. */
module Http {

  /** The request mode the host assigns; only `Navigate` changes the routing. */
  datatype Mode = Navigate | SameOrigin | NoCors | Cors

  /** A request, identified by its already-normalised URL. */
  datatype Request = Request(url: string, mode: Mode)

  /**
   * A response is treated as a plain value. `NetworkError` stands for
   * `Response.error()`; `Received` is anything the network or a store produced,
   * including error statuses and the unreadable responses of no-cors
   * cross-origin requests (`noCors`, status 0). A network fetch never
   * yields `NetworkError`: a failed fetch is the absence of a response.
   */
  datatype Response =
    | NetworkError
    | Received(status: nat, noCors: bool, body: string)
}
