/**
 Decoded MessagePack object trees, the four message packers and the message parser.

 Messages are handled as decoded object trees; the byte encoding belongs to the
 MessagePack library. Message roles follow the sections "Request Message", "Response
 Message" and "Notification Message" of the MessagePack-RPC specification.
 */
module Wire {

  datatype Option<+T> = None | Some(value: T)

  type Byte = b: int | 0 <= b < 0x100

  const MSGID_MODULUS := 0x1_0000_0000

  /** A message ID: an unsigned 32-bit integer. */
  type Msgid = n: int | 0 <= n < MSGID_MODULUS

  /** A decoded object. A floating point number carries the text the formatter prints for it. */
  datatype Obj =
    | Nil
    | Bool(b: bool)
    | Int(n: int)
    | Float(text: string)
    | Str(s: string)
    | Bin(bytes: seq<Byte>)
    | Ext(payload: seq<Byte>)
    | Arr(items: seq<Obj>)
    | Map(pairs: seq<(Obj, Obj)>)

  const REQUEST := 0
  const RESPONSE := 1
  const NOTIFICATION := 2

  const UNEXPECTED_ERROR := 1
  const PARSE_ERROR := 100
  const INVALID_MESSAGE := 101

  /** An error description; NoError is the empty one, which converts to false. */
  datatype ErrorInfo = NoError | Failure(code: int, data: Option<Obj>)

  /** The fields of a parsed message; absent ones are null pointers in the parsed data. */
  datatype MessageFields = Message(
    mtype: int,
    msgid: Msgid,
    methodName: string,
    params: Option<Obj>,
    error: Option<Obj>,
    result: Option<Obj>,
    tree: Obj)

  /** A message as its constructors leave it: a response always has its error and result. */
  type Message = m: MessageFields | m.mtype == RESPONSE ==> m.error.Some? && m.result.Some?
    witness Message(-1, 0, "", None, None, None, Nil)

  /** The message no parse has filled: its type is none of the three valid ones. */
  const DEFAULT_MESSAGE: Message := Message(-1, 0, "", None, None, None, Nil)

  /** What constructing a message leads to: the message, an exception of this library, or one of
      the MessagePack library that nothing here handles. */
  datatype Parsed = Ok(msg: Message) | Err(error: ErrorInfo) | Unhandled

  function PackRequest(id: Msgid, name: string, params: Obj): Obj {
    Arr([Int(REQUEST), Int(id), Str(name), params])
  }

  function PackResponse(id: Msgid, result: Obj): Obj {
    Arr([Int(RESPONSE), Int(id), Nil, result])
  }

  function PackErrorResponse(id: Msgid, error: Obj): Obj {
    Arr([Int(RESPONSE), Int(id), error, Nil])
  }

  function PackNotification(name: string, params: Obj): Obj {
    Arr([Int(NOTIFICATION), Str(name), params])
  }

  function Invalid(o: Obj): Parsed {
    Err(Failure(INVALID_MESSAGE, Some(o)))
  }

  /** Conversion of an object to a 32-bit signed integer, the type below the message type. */
  function AsInt32(o: Obj): Option<int> {
    if o.Int? && -0x8000_0000 <= o.n < 0x8000_0000 then Some(o.n) else None
  }

  function AsMsgid(o: Obj): Option<Msgid> {
    if o.Int? && 0 <= o.n < MSGID_MODULUS then Some(o.n) else None
  }

  /** Conversion of an object to a string, which the library allows for binaries as well. */
  function AsString(o: Obj): Option<string> {
    match o
    case Str(s) => Some(s)
    case Bin(bytes) => Some(seq(|bytes|, i requires 0 <= i < |bytes| => bytes[i] as char))
    case _ => None
  }

  function Parse(o: Obj): Parsed {
    if !o.Arr? || |o.items| < 3 then Invalid(o)
    else match AsInt32(o.items[0])
      case None => Invalid(o)
      case Some(t) =>
        if t == REQUEST then ParseRequest(o)
        else if t == RESPONSE then ParseResponse(o)
        else if t == NOTIFICATION then ParseNotification(o)
        else Invalid(o)
  }

  function ParseRequest(o: Obj): Parsed
    requires o.Arr? && |o.items| >= 3
  {
    if |o.items| != 4 then Invalid(o)
    else match (AsMsgid(o.items[1]), AsString(o.items[2]))
      case (Some(id), Some(name)) =>
        if !o.items[3].Arr? then Invalid(o)
        else Ok(Message(REQUEST, id, name, Some(o.items[3]), None, None, o))
      case _ => Invalid(o)
  }

  function ParseResponse(o: Obj): Parsed
    requires o.Arr? && |o.items| >= 3
  {
    if |o.items| != 4 then Invalid(o)
    else match AsMsgid(o.items[1])
      case None => Invalid(o)
      case Some(id) => Ok(Message(RESPONSE, id, "", None, Some(o.items[2]), Some(o.items[3]), o))
  }

  function ParseNotification(o: Obj): Parsed
    requires o.Arr? && |o.items| >= 3
  {
    if |o.items| != 3 then Invalid(o)
    else match AsString(o.items[1])
      case None => Invalid(o)
      case Some(name) =>
        if !o.items[2].Arr? then Invalid(o)
        else Ok(Message(NOTIFICATION, 0, name, Some(o.items[2]), None, None, o))
  }

  /** Received data as the decoder sees it: it begins with an object, or with something that is
      none, or ends before its object does. */
  datatype Data = Decoded(tree: Obj) | Malformed | Truncated

  /** The message constructor turns the decoder's parse errors into its own. The exception for
      missing bytes is no parse error and passes through. */
  function ParseData(d: Data): Parsed {
    match d
    case Decoded(o) => Parse(o)
    case Malformed => Err(Failure(PARSE_ERROR, None))
    case Truncated => Unhandled
  }

  /** Packed requests parse back to what was packed, exactly when the parameters are an array. */
  lemma RequestRoundTrip(id: Msgid, name: string, params: Obj)
    ensures Parse(PackRequest(id, name, params)).Ok? <==> params.Arr?
    ensures params.Arr? ==>
      Parse(PackRequest(id, name, params)).msg
      == Message(REQUEST, id, name, Some(params), None, None, PackRequest(id, name, params))
  {
    assert PackRequest(id, name, params).items[0] == Int(REQUEST);
  }

  lemma NotificationRoundTrip(name: string, params: Obj)
    ensures Parse(PackNotification(name, params)).Ok? <==> params.Arr?
    ensures params.Arr? ==>
      Parse(PackNotification(name, params)).msg
      == Message(NOTIFICATION, 0, name, Some(params), None, None, PackNotification(name, params))
  {
    assert PackNotification(name, params).items[0] == Int(NOTIFICATION);
  }

  /** A tree of the response shape. */
  ghost predicate IsResponse(o: Obj, id: Msgid, error: Obj, result: Obj) {
    o == Arr([Int(RESPONSE), Int(id), error, result])
  }

  /** A response to this message ID. */
  ghost predicate IsReply(o: Obj, id: Msgid) {
    exists error, result :: IsResponse(o, id, error, result)
  }

  /** Exactly the four-element response trees are read as responses, with those very fields. */
  lemma ResponsesAreExactlyResponseTrees(d: Data, id: Msgid, error: Obj, result: Obj)
    ensures d.Decoded? && IsResponse(d.tree, id, error, result)
      <==> (ParseData(d).Ok? && ParseData(d).msg.mtype == RESPONSE && ParseData(d).msg.msgid == id
            && ParseData(d).msg.error == Some(error) && ParseData(d).msg.result == Some(result))
  {
    if d.Decoded? && d.tree.Arr? && |d.tree.items| == 4 {
      assert d.tree.items == [d.tree.items[0], d.tree.items[1], d.tree.items[2], d.tree.items[3]];
    }
  }

  /** A parsed message of any kind determines the tree it came from, up to a binary method name. */
  lemma ParseIsInjectiveOnPacked(o: Obj)
    requires Parse(o).Ok?
    ensures var m := Parse(o).msg;
            && (m.mtype == RESPONSE ==> IsResponse(o, m.msgid, m.error.value, m.result.value))
            && (m.mtype == REQUEST ==>
                  (o == PackRequest(m.msgid, m.methodName, m.params.value) <==> o.items[2].Str?))
            && (m.mtype == NOTIFICATION ==>
                  (o == PackNotification(m.methodName, m.params.value) <==> o.items[1].Str?))
            && m.mtype in {REQUEST, RESPONSE, NOTIFICATION}
  {
    if |o.items| == 4 {
      assert o.items == [o.items[0], o.items[1], o.items[2], o.items[3]];
      assert PackRequest(Parse(o).msg.msgid, Parse(o).msg.methodName, o.items[3]).items[2].Str?;
    } else {
      assert o.items == [o.items[0], o.items[1], o.items[2]];
      assert PackNotification(Parse(o).msg.methodName, o.items[2]).items[1].Str?;
    }
  }

  /** A method name as the parser takes it: a string, or a binary read as one. */
  ghost predicate IsName(o: Obj, name: string) {
    o == Str(name)
    || (o.Bin? && |o.bytes| == |name| && forall i :: 0 <= i < |name| ==> name[i] as int == o.bytes[i])
  }

  ghost predicate IsRequest(o: Obj, id: Msgid, name: string, params: seq<Obj>) {
    exists n: Obj :: o == Arr([Int(REQUEST), Int(id), n, Arr(params)]) && IsName(n, name)
  }

  ghost predicate IsNotification(o: Obj, name: string, params: seq<Obj>) {
    exists n: Obj :: o == Arr([Int(NOTIFICATION), n, Arr(params)]) && IsName(n, name)
  }

  /** Exactly the trees of the three message kinds are accepted, and a request or notification is read
      with exactly its fields. */
  lemma ParsesExactlyMessages(o: Obj)
    ensures Parse(o).Ok? <==>
      || (exists id: Msgid, name, params :: IsRequest(o, id, name, params))
      || (exists id: Msgid :: IsReply(o, id))
      || (exists name, params :: IsNotification(o, name, params))
    ensures forall id: Msgid, name, params :: IsRequest(o, id, name, params) ==>
      Parse(o) == Ok(Message(REQUEST, id, name, Some(Arr(params)), None, None, o))
    ensures forall name, params :: IsNotification(o, name, params) ==>
      Parse(o) == Ok(Message(NOTIFICATION, 0, name, Some(Arr(params)), None, None, o))
    ensures Parse(o).Err? ==> Parse(o).error == Failure(INVALID_MESSAGE, Some(o))
  {
    forall id: Msgid, name, params | IsRequest(o, id, name, params)
      ensures Parse(o) == Ok(Message(REQUEST, id, name, Some(Arr(params)), None, None, o))
    {
      var n :| o == Arr([Int(REQUEST), Int(id), n, Arr(params)]) && IsName(n, name);
      NameIsRead(n, name);
    }
    forall name, params | IsNotification(o, name, params)
      ensures Parse(o) == Ok(Message(NOTIFICATION, 0, name, Some(Arr(params)), None, None, o))
    {
      var n :| o == Arr([Int(NOTIFICATION), n, Arr(params)]) && IsName(n, name);
      NameIsRead(n, name);
    }
    if Parse(o).Ok? {
      AcceptedIsMessage(o);
    }
  }

  lemma NameIsRead(n: Obj, name: string)
    requires IsName(n, name)
    ensures AsString(n) == Some(name)
  {
    if n.Bin? {
      assert AsString(n).value == name;
    }
  }

  lemma AcceptedIsMessage(o: Obj)
    requires Parse(o).Ok?
    ensures var m := Parse(o).msg;
      || (m.params.Some? && m.params.value.Arr? && IsRequest(o, m.msgid, m.methodName, m.params.value.items))
      || IsReply(o, m.msgid)
      || (m.params.Some? && m.params.value.Arr? && IsNotification(o, m.methodName, m.params.value.items))
  {
    var m := Parse(o).msg;
    if |o.items| == 4 {
      assert o.items == [o.items[0], o.items[1], o.items[2], o.items[3]];
      if m.mtype == REQUEST {
        assert IsName(o.items[2], m.methodName);
      } else {
        assert IsResponse(o, m.msgid, o.items[2], o.items[3]);
      }
    } else {
      assert o.items == [o.items[0], o.items[1], o.items[2]];
      assert IsName(o.items[1], m.methodName);
    }
  }

  /** Whether a response reports an error; other messages make the accessor throw. */
  function HasError(m: Message): Option<bool> {
    if m.mtype != RESPONSE then None else Some(m.error.value != Nil)
  }

  /** Packed responses parse back to their message ID and content. Only an error of nil is lost: it
      cannot be told from a success. */
  lemma ResponseRoundTrip(id: Msgid, content: Obj)
    ensures var ok, failed := Parse(PackResponse(id, content)), Parse(PackErrorResponse(id, content));
      && ok.Ok? && ok.msg.msgid == id && ok.msg.result == Some(content) && HasError(ok.msg) == Some(false)
      && failed.Ok? && failed.msg.msgid == id && failed.msg.error == Some(content)
      && HasError(failed.msg) == Some(content != Nil)
  {
    ResponsesAreExactlyResponseTrees(Decoded(PackResponse(id, content)), id, Nil, content);
    ResponsesAreExactlyResponseTrees(Decoded(PackErrorResponse(id, content)), id, content, Nil);
  }
}
