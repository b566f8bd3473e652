/**
 * What the server sends back: the returnData object every handler fills in step by step
 * (src/types.ts's ReturnData), and the socket.io emits that carry it, as values.
 */
module Messages {
  import opened Options
  import opened Tables

  /** The reply object; a field that is None was never set (it is absent from the JSON). */
  datatype Reply = Reply(
    success: bool, error: Option<string>, playerKey: Option<int>, playerSecret: Option<string>,
    roomData: Option<RoomData>, playerList: Option<seq<PlayerData>>, card: Option<int>,
    questions: Option<seq<string>>, questionIndex: Option<int>, currentPlayerIndex: Option<int>)

  /** `{success: false}`, the reply every handler starts from. */
  const Blank: Reply := Reply(false, None, None, None, None, None, None, None, None, None)

  /**
   * Who receives an emit: the sending socket (socket.emit), the room without the sender
   * (socket.to(room) and socket.broadcast.to(room)), or the whole room (io.in(room)).
   */
  datatype Audience = Sender | Others(room: string) | Everyone(room: string)

  datatype Emit = Emit(event: string, audience: Audience, reply: Reply)

  /** The error path every handler shares: the reply so far, with its error set, to the sender only. */
  function Fail(event: string, reply: Reply, msg: string): (emits: seq<Emit>)
    ensures |emits| == 1 && emits[0].audience == Sender && emits[0].reply.error == Some(msg)
  {
    [Emit(event, Sender, reply.(error := Some(msg)))]
  }
}
