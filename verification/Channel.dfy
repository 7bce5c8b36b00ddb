/** One established channel of xwords4/common/comms.c as seen from one of its ends, on values. */
module Channel {

  type Payload = seq<int>

  /** What goes over the wire: the message ID (0 for a bare acknowledgement), the highest ID the sender
      has durably received, and the content. */
  datatype Msg = Msg(id: nat, ack: nat, payload: Payload)

  /** The counters of an AddressRecord, the messages kept for resending, and the save token. */
  datatype End = End(nextMsgID: nat, lastMsgRcd: nat, lastMsgSaved: nat, queue: seq<Msg>, lastSaveToken: nat)

  function Unacked(q: seq<Msg>, id: nat): (r: seq<Msg>)
    ensures forall m :: m in r ==> m in q && id < m.id
    ensures forall m :: m in q && id < m.id ==> m in r
  {
    if q == [] then []
    else (if q[0].id <= id then [] else [q[0]]) + Unacked(q[1..], id)
  }

  function NextMsg(e: End, payload: Payload): Msg {
    Msg(e.nextMsgID + 1, e.lastMsgSaved, payload)
  }

  function Send(e: End, payload: Payload): End {
    e.(nextMsgID := e.nextMsgID + 1, queue := e.queue + [NextMsg(e, payload)])
  }

  function AckMsg(e: End): Msg {
    Msg(0, e.lastMsgSaved, [])
  }

  /** The message is the next in sequence and has something in it. */
  predicate Accepts(e: End, m: Msg) {
    m.id == e.lastMsgRcd + 1 && m.payload != []
  }

  /** Receive a message and, when it is the expected one, process it. The acknowledgement it carries is
      used whether or not it is. */
  function Receive(e: End, m: Msg): End {
    var e1 := e.(queue := Unacked(e.queue, m.ack));
    if m.id != e.lastMsgRcd + 1 then e1
    else e1.(lastSaveToken := 0, lastMsgRcd := if m.payload == [] then e.lastMsgRcd else m.id)
  }

  /** Write the state out for saving. */
  function Write(e: End, token: nat): End {
    e.(lastSaveToken := token)
  }

  /** The caller reports that the save begun with this token is on disk. */
  function SaveSucceeded(e: End, token: nat): End {
    if token == e.lastSaveToken then e.(lastMsgSaved := e.lastMsgRcd) else e
  }

  /** Read back what `Write` wrote. */
  function Restore(e: End): End {
    e.(lastMsgSaved := e.lastMsgRcd, lastSaveToken := 0)
  }
}
