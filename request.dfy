/** The request envelope: its enum discriminants, its defaults, and the
    fixed-order array of seven values handed to the value serializer. */
module Envelope {
  import opened Bytes

  /** HTTP-like verb. Head = 4 and Options = 6 are not used. */
  datatype RequestType = Delete | Get | Post | Put | Patch

  /** `request_type as i32`. */
  function RequestTypeCode(t: RequestType): (r: i32)
    ensures 0 <= r <= 5 && r != 4
  {
    match t
    case Delete => 0
    case Get => 1
    case Post => 2
    case Put => 3
    case Patch => 5
  }

  /** Distinct verbs have distinct discriminants. */
  lemma RequestTypeCodeInjective(a: RequestType, b: RequestType)
    requires RequestTypeCode(a) == RequestTypeCode(b)
    ensures a == b
  {
  }

  /** Kind of message; FinalResponse is the last response for a message id,
      Response announces that more will follow. */
  datatype MessageType = Request | FinalResponse | Response | Authentication

  /** `message_type as i32`. */
  function MessageTypeCode(t: MessageType): (r: i32)
    ensures 1 <= r <= 3 || r == 1000
  {
    match t
    case Request => 1
    case FinalResponse => 2
    case Response => 3
    case Authentication => 1000
  }

  /** Distinct message kinds have distinct discriminants. */
  lemma MessageTypeCodeInjective(a: MessageType, b: MessageType)
    requires MessageTypeCode(a) == MessageTypeCode(b)
    ensures a == b
  {
  }

  /** `RequestMessage`. The two string maps are kept abstract: nothing here
      depends on their iteration order. */
  datatype RequestMessage = RequestMessage(
    version: u32,
    messageType: MessageType,
    database: string,
    requestType: RequestType,
    requestPath: string,
    parameters: map<string, string>,
    meta: map<string, string>)

  /** One value handed to the serializer, tagged with the type it has there. */
  datatype Value =
    | UInt(u: u32)                          // a u32 field
    | Int(i: i32)                           // an enum cast to i32
    | Text(s: string)                       // a String field
    | Table(entries: map<string, string>)   // a HashMap<String, String> field

  /** The array `to_bytes` builds: seven values in a fixed order. */
  function EnvelopeValues(m: RequestMessage): (r: seq<Value>)
    ensures |r| == 7
    ensures r[0] == UInt(m.version)
    ensures r[1] == Int(MessageTypeCode(m.messageType))
    ensures r[2] == Text(m.database)
    ensures r[3] == Int(RequestTypeCode(m.requestType))
    ensures r[4] == Text(m.requestPath)
    ensures r[5] == Table(m.parameters)
    ensures r[6] == Table(m.meta)
  {
    [UInt(m.version), Int(MessageTypeCode(m.messageType)), Text(m.database),
     Int(RequestTypeCode(m.requestType)), Text(m.requestPath),
     Table(m.parameters), Table(m.meta)]
  }

  /** The array determines the message, so a receiver can decode it by
      position: no two messages hand the serializer the same values. */
  lemma EnvelopeValuesInjective(a: RequestMessage, b: RequestMessage)
    requires EnvelopeValues(a) == EnvelopeValues(b)
    ensures a == b
  {
  }

  /** `Default::default`. */
  function Default(): (m: RequestMessage)
    ensures EnvelopeValues(m) == [UInt(1), Int(1), Text("_system"), Int(1),
                                  Text("/_admin/echo"), Table(map[]), Table(map[])]
  {
    RequestMessage(1, Request, "_system", Get, "/_admin/echo", map[], map[])
  }

  /** `RequestMessage::to_bytes`: pushes the seven values onto an array and
      hands it to the serializer, here the parameter `serialize`, whose
      result (bytes or an error) is returned unchanged. */
  method ToBytes<R>(m: RequestMessage, serialize: seq<Value> -> R) returns (r: R)
    ensures r == serialize(EnvelopeValues(m))
  {
    var arr: seq<Value> := [];
    arr := arr + [UInt(m.version)];
    arr := arr + [Int(MessageTypeCode(m.messageType))];
    arr := arr + [Text(m.database)];
    arr := arr + [Int(RequestTypeCode(m.requestType))];
    arr := arr + [Text(m.requestPath)];
    arr := arr + [Table(m.parameters)];
    arr := arr + [Table(m.meta)];
    assert arr == EnvelopeValues(m);
    r := serialize(arr);
  }
}
