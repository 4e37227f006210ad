/**
 * The HTTP exchange as the filter and the controllers see it: the request
 * method, the Content-Type and Authorization headers, the request body
 * (already parsed, or absent when it is not a JSON object), the attributes
 * the filter attaches, and every reply the handlers send, in order.
 */
module Http {
  import opened Model

  /** The JSON document `completeOperation` answers with. */
  datatype Completion = Completion(operationNumber: int, operationName: string, username: string, result: string)

  datatype ReplyBody = NoBody | ErrorMessage(text: string) | CompletionJson(completion: Completion)

  datatype Reply = Reply(status: int, body: ReplyBody)

  /** Values the filter attaches to an exchange. */
  datatype Attribute = UserAttr(user: User) | UserIdAttr(id: int)

  /** The JSON error reply with a status and a message. */
  function ErrorReply(status: int, message: string): Reply
  {
    Reply(status, ErrorMessage(message))
  }

  class Exchange {
    const requestMethod: string
    const contentType: Option<string>
    const authorization: Option<string>
    /** The request body's top-level members; None when it cannot be read as a JSON object. */
    const body: Option<Payload>
    var attributes: map<string, Attribute>
    var replies: seq<Reply>
    /** How many times the filter chain passed the exchange on. */
    var forwarded: nat

    constructor (requestMethod: string, contentType: Option<string>, authorization: Option<string>,
                 body: Option<Payload>)
      ensures this.requestMethod == requestMethod && this.contentType == contentType
      ensures this.authorization == authorization && this.body == body
      ensures attributes == map[] && replies == [] && forwarded == 0
    {
      this.requestMethod := requestMethod;
      this.contentType := contentType;
      this.authorization := authorization;
      this.body := body;
      attributes := map[];
      replies := [];
      forwarded := 0;
    }

    method Send(reply: Reply)
      modifies this
      ensures replies == old(replies) + [reply]
      ensures attributes == old(attributes) && forwarded == old(forwarded)
    {
      replies := replies + [reply];
    }

    method SetAttribute(name: string, value: Attribute)
      modifies this
      ensures attributes == old(attributes)[name := value]
      ensures replies == old(replies) && forwarded == old(forwarded)
    {
      attributes := attributes[name := value];
    }

    /** The filter chain hands the exchange to the next stage. */
    method Forward()
      modifies this
      ensures forwarded == old(forwarded) + 1
      ensures attributes == old(attributes) && replies == old(replies)
    {
      forwarded := forwarded + 1;
    }
  }
}
