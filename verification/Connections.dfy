/**
 * The objects a layer is handed: the server's end of a connection, and the send callable, which is either the
 * server's own or the closure the logging middleware puts around it.
 */
module Connections {
  import opened Prelude
  import opened Asgi

  const REQUEST_ID_HEADER := "x-request-id"
  const CONTENT_TYPE_OPTIONS_HEADER := "x-content-type-options"
  const NOSNIFF := "nosniff"

  /** What `send_with_request_id` makes of a message. */
  function Stamp(id: string, m: OutMsg): OutMsg {
    match m
    case Start(status, headers) =>
      Start(status, headers + [(REQUEST_ID_HEADER, id), (CONTENT_TYPE_OPTIONS_HEADER, NOSNIFF)])
    case Body(body) => m
  }

  /** What a send callable with this closure, or none, puts on the wire. */
  function Passed(id: Option<string>, m: OutMsg): OutMsg {
    if id.Some? then Stamp(id.value, m) else m
  }

  function PassedAll(id: Option<string>, wire: seq<OutMsg>): seq<OutMsg> {
    seq(|wire|, i requires 0 <= i < |wire| => Passed(id, wire[i]))
  }

  lemma PassedSnoc(id: Option<string>, wire: seq<OutMsg>, m: OutMsg)
    ensures PassedAll(id, wire + [m]) == PassedAll(id, wire) + [Passed(id, m)]
    ensures PassedAll(None, wire) == wire
  {
  }

  /** The status variable after these messages went by. */
  function LastStatus(wire: seq<OutMsg>): Option<nat> {
    if wire == [] then None
    else if wire[|wire| - 1].Start? then Some(wire[|wire| - 1].status)
    else LastStatus(wire[..|wire| - 1])
  }

  lemma LastStatusSnoc(wire: seq<OutMsg>, m: OutMsg)
    ensures LastStatus(wire + [m]) == if m.Start? then Some(m.status) else LastStatus(wire)
  {
    assert (wire + [m])[..|wire|] == wire;
  }

  /** The server's end of a connection, as receive and send change it, and the logging context. */
  class Connection {
    var inbox: seq<InMsg>
    var wire: seq<OutMsg>
    var context: map<string, string>

    function State(): World
      reads this
    {
      World(inbox, wire, context)
    }

    constructor (w: World)
      ensures State() == w
    {
      inbox, wire, context := w.inbox, w.wire, w.context;
    }

    method Receive() returns (m: InMsg)
      modifies this
      ensures m == Next(old(inbox)) && State() == old(State()).(inbox := Rest(old(inbox)))
    {
      m := Next(inbox);
      inbox := Rest(inbox);
    }
  }

  /** A send callable, with the status variable its closure keeps. `sent` is everything it was called with. */
  class SendCallable {
    const c: Connection
    const requestId: Option<string>
    var statusCode: Option<nat>
    ghost const before: seq<OutMsg>
    ghost var sent: seq<OutMsg>

    /** Every message has gone out as it was sent, stamped by the closure if there is one. */
    ghost predicate Valid()
      reads this, c
    {
      && c.wire == before + PassedAll(requestId, sent)
      && (requestId.Some? ==> statusCode == LastStatus(sent))
    }

    /** The connection as the layer that holds this callable sees it. */
    ghost function Seen(): World
      reads this, c
    {
      World(c.inbox, sent, c.context)
    }

    /** The server's own callable. */
    constructor Direct(c: Connection)
      ensures Valid() && this.c == c && requestId == None && before == [] && Seen() == c.State()
    {
      this.c, requestId, statusCode := c, None, None;
      before, sent := [], c.wire;
      new;
      PassedSnoc(None, c.wire, Body(""));
    }

    /** `send_with_request_id` around it. */
    constructor Stamping(c: Connection, id: string)
      ensures Valid() && this.c == c && requestId == Some(id) && before == c.wire && sent == []
    {
      this.c, requestId, statusCode := c, Some(id), None;
      before, sent := c.wire, [];
    }

    method Send(m: OutMsg)
      requires Valid()
      modifies this, c
      ensures Valid() && sent == old(sent) + [m]
      ensures c.inbox == old(c.inbox) && c.context == old(c.context)
      ensures c.wire == old(c.wire)
              + [if requestId.Some? && m.Start? then
                   Start(m.status, m.headers + [("x-request-id", requestId.value), ("x-content-type-options", "nosniff")])
                 else m]
      ensures statusCode == if requestId.Some? && m.Start? then Some(m.status) else old(statusCode)
    {
      var message := m;
      if requestId.Some? && m.Start? {
        statusCode := Some(m.status);
        message := m.(headers := m.headers
                        + [(REQUEST_ID_HEADER, requestId.value), (CONTENT_TYPE_OPTIONS_HEADER, NOSNIFF)]);
      }
      PassedSnoc(requestId, sent, m);
      LastStatusSnoc(sent, m);
      c.wire := c.wire + [message];
      sent := sent + [m];
    }
  }
}
