/** The records the talker manager service works on: what a request carries,
    what the talker file holds and what a handler answers. */
module Types {

  datatype Option<+T> = None | Some(value: T)

  /** The `talk` object of a request body. A sub-field that the JSON body does
      not carry is `None` (JavaScript's `undefined`). */
  datatype TalkField = TalkField(watchedAt: Option<string>, rate: Option<int>)

  /** The JSON body of a request. A field the body does not carry is `None`. */
  datatype Body = Body(
    name: Option<string>,
    age: Option<int>,
    talk: Option<TalkField>,
    email: Option<string>,
    password: Option<string>)

  /** A request as the middleware sees it: the `authorization` header and the body. */
  datatype Request = Request(authorization: Option<string>, body: Body)

  /** A stored talk: when it was watched and how it was rated. */
  datatype Talk = Talk(watchedAt: string, rate: int)

  /** One entry of the talker file. */
  datatype Talker = Talker(id: int, name: string, age: int, talk: Talk)

  /** What one middleware decides: hand over to the next one, answer with a
      client error, or throw (which Express answers with a 500). */
  datatype Check = Pass | Reject(status: int, message: string) | Crash

  /** The body of a reply. `InternalError` stands for Express's default error
      page, whose text is not modelled. */
  datatype Payload =
    | Message(text: string)
    | OneTalker(talker: Talker)
    | Talkers(list: seq<Talker>)
    | TokenBody(token: string)
    | NoBody
    | InternalError

  datatype Reply = Reply(status: int, payload: Payload)

  /** JavaScript's `!x` on a string field: true for `undefined` and for "". */
  predicate MissingText(o: Option<string>)
  {
    o == None || o == Some("")
  }

  /** JavaScript's `!x` on a number field: true for `undefined` and for 0. */
  predicate MissingNumber(o: Option<int>)
  {
    o == None || o == Some(0)
  }

  /** The reply a middleware sends when it stops the chain. */
  function Refusal(c: Check): (r: Reply)
    requires !c.Pass?
    ensures c.Reject? ==> r.status == c.status && r.payload == Message(c.message)
    ensures c.Crash? ==> r == Reply(500, InternalError)
  {
    match c
    case Reject(status, message) => Reply(status, Message(message))
    case Crash => Reply(500, InternalError)
  }
}
