/** The JSON-RPC packets that pass through the batching layer of src/batching.rs. */
module JsonRpc {

  datatype Id = Number(n: nat) | Text(s: string) | NoId

  datatype Request = Request(id: Id, body: string)

  datatype Response = Response(id: Id, payload: string)

  datatype RequestPacket = Single(request: Request) | Batch(requests: seq<Request>) {
    function Requests(): seq<Request> {
      match this
      case Single(request) => [request]
      case Batch(requests) => requests
    }
  }

  datatype ResponsePacket = SingleResponse(response: Response) | BatchResponse(responses: seq<Response>) {
    function Responses(): seq<Response> {
      match this
      case SingleResponse(response) => [response]
      case BatchResponse(responses) => responses
    }
  }

  datatype Error = DuplicateId | BatchFailed(cause: Error) | BackendGone | Inner(code: nat)

  datatype Answer = Ok(packet: ResponsePacket) | Err(error: Error)

  /** A queued request; the slot stands for the one-shot channel its caller waits on. */
  datatype Pending = Pending(request: Request, slot: nat)

  /** An answer sent through the channel of a slot. */
  datatype Resolution = Resolution(slot: nat, answer: Answer)

  /** The answer is a batch of exactly these responses, or the only one of them. */
  ghost predicate Carries(answer: Answer, rs: seq<Response>) {
    answer == Ok(BatchResponse(rs)) || (|rs| == 1 && answer == Ok(SingleResponse(rs[0])))
  }

  /** What a packet carries is unique. */
  lemma CarriesExactly(packet: ResponsePacket, rs: seq<Response>)
    ensures Carries(Ok(packet), rs) <==> rs == packet.Responses()
  {
    if packet.SingleResponse? && |rs| == 1 {
      assert rs == [rs[0]];
    }
  }
}
