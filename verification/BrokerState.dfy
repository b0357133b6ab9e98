/** The values the browser command broker handles, and what each of its critical sections does to
    the fields guarded by the mutex. */
module BrokerState {
  import opened Options

  type RequestId = string
  type ConnId = nat
  type Time = int

  datatype CommandError = CommandError(code: string, message: string)

  /** The raw `result` member of a wire message: absent, the literal null, a JSON text that decodes
      or one that does not. */
  datatype RawResult = Missing | Null | Json(text: string) | Malformed

  /** A message of type "result" read from a runtime connection. */
  datatype Message = Message(id: RequestId, ok: bool, error: Option<CommandError>, result: RawResult)

  datatype Body = Value(json: string) | Rejected(error: CommandError) | Undecodable

  /** What is put into a result channel: the unavailable error of `failPending`, or the decoded body
      of the message with id `from`. */
  datatype Reply = Unavailable | Answer(from: RequestId, body: Body)

  /** The fields guarded by `Broker.mu`; `Ch` stands for the result channels. */
  datatype Core<Ch> = Core(conn: Option<ConnId>, connectedAt: Option<Time>, pending: map<RequestId, Ch>)

  const DEFAULT_ERROR := CommandError("BROWSER_COMMAND_FAILED", "Browser command failed")

  function Decode(m: Message): Body {
    if !m.ok then Rejected(if m.error.None? then DEFAULT_ERROR else m.error.value)
    else match m.result
      case Missing => Value("{}")
      case Null => Value("{}")
      case Json(text) => Value(text)
      case Malformed => Undecodable
  }

  /** What a caller learns from a message: its result if it is ok, an absent one read as the empty
      object, and else the error it carries or the default one. */
  predicate Tells(m: Message, b: Body) {
    && (m.ok && m.result.Json? ==> b == Value(m.result.text))
    && (m.ok && (m.result.Missing? || m.result.Null?) ==> b == Value("{}"))
    && (m.ok && m.result.Malformed? ==> b == Undecodable)
    && (!m.ok && m.error.Some? ==> b == Rejected(m.error.value))
    && (!m.ok && m.error.None? ==> b == Rejected(DEFAULT_ERROR))
  }

  function NoRuntime<Ch>(): Core<Ch> {
    Core(None, None, map[])
  }

  function Registered<Ch>(c: Core<Ch>, id: RequestId, ch: Ch): Core<Ch> {
    if c.conn.None? then c else c.(pending := c.pending[id := ch])
  }

  function Removed<Ch>(c: Core<Ch>, id: RequestId): Core<Ch> {
    c.(pending := c.pending - {id})
  }

  function Replaced<Ch>(k: ConnId, now: Time): Core<Ch> {
    Core(Some(k), Some(now), map[])
  }

  function Disconnected<Ch>(c: Core<Ch>, k: ConnId): Core<Ch> {
    if c.conn == Some(k) then NoRuntime() else c
  }

  /** The channels a `disconnect(k)` takes out of `pending`. */
  function TakenByDisconnect<Ch>(c: Core<Ch>, k: ConnId): map<RequestId, Ch> {
    if c.conn == Some(k) then c.pending else map[]
  }

  /** The channel a `resolve` of `id` takes out of `pending`. */
  function TakenByResolve<Ch>(c: Core<Ch>, id: RequestId): map<RequestId, Ch> {
    if id in c.pending then map[id := c.pending[id]] else map[]
  }
}
