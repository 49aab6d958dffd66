/** Records and constants shared by the router: requests, responses, the
    reserved lifecycle commands and the default messages. */
module Types {

  datatype Option<T> = None | Some(value: T)

  newtype byte = x: int | 0 <= x < 256

  /** The router's `interface{}` payload. Only the distinctions the router
      itself makes are modelled: nil, the empty struct `struct{}{}` that
      stands for "no data", and some opaque values a handler may supply. */
  datatype Value = Nil | EmptyStruct | Str(s: string) | Int(i: int) | Opaque(tag: nat)

  /** A message delivered by a transport adapter. */
  datatype Request = Request(cmd: string, seqno: string, rawData: seq<byte>)

  /** The reply being built for a request; `req` is the originating request. */
  datatype Response = Response(req: Request, cmd: string, seqno: string, code: int, msg: string, data: Value)

  const CmdConnected: string := "__cmdsrv_connected__"
  const CmdClosed: string := "__cmdsrv_closed__"
  const CmdHeartbeat: string := "__cmdsrv_heartbeat__"

  const MsgOk: string := "ok"
  const MsgUnsupportCmd: string := "unsupport cmd"

  /** The three internal commands that never receive a response. */
  predicate IsLifecycle(cmd: string)
  {
    cmd == CmdConnected || cmd == CmdClosed || cmd == CmdHeartbeat
  }
}
