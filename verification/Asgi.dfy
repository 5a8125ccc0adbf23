/**
 * One ASGI connection: what the client delivers, what goes out, and the application in between. An application
 * is any strategy at all, a function from what it has observed so far to what it does next, so a statement
 * about every App is one about every application, well-behaved or not.
 */
module Asgi {
  import opened Prelude

  type Header = (string, string)

  datatype InMsg = Request(body: Bytes, more: bool) | Disconnect

  datatype OutMsg = Start(status: nat, headers: seq<Header>) | Body(body: string)

  /** Overrun is `_BodyTooLarge` and Cancelled any other exception that is no Exception; Error is an ordinary one. */
  datatype Exn = Overrun | Cancelled | Error

  datatype Obs = Got(m: InMsg) | Overran | Sent | Bound

  datatype Act = Receive | Send(m: OutMsg) | Bind(key: string, value: string) | Return | Raise(e: Exn)

  type App = seq<Obs> -> Act

  datatype End = Running | Returned | Raised(e: Exn)

  /** The server's side of a connection, and the logging context bound while it is handled. */
  datatype World = World(inbox: seq<InMsg>, wire: seq<OutMsg>, context: map<string, string>)

  datatype Scope = Scope(kind: string, headers: seq<Header>, requestId: Option<string>)

  function Next(inbox: seq<InMsg>): InMsg {
    if inbox == [] then Disconnect else inbox[0]
  }

  function Rest(inbox: seq<InMsg>): seq<InMsg> {
    if inbox == [] then [] else inbox[1..]
  }

  /** The application as far as it has run. */
  datatype Run = Run(world: World, seen: seq<Obs>, end: End)

  /** One step of an application with nothing in front of it. */
  function BareStep(app: App, r: Run): Run {
    if r.end != Running then r
    else
      match app(r.seen)
      case Receive => Run(r.world.(inbox := Rest(r.world.inbox)), r.seen + [Got(Next(r.world.inbox))], Running)
      case Send(m) => Run(r.world.(wire := r.world.wire + [m]), r.seen + [Sent], Running)
      case Bind(k, v) => Run(r.world.(context := r.world.context[k := v]), r.seen + [Bound], Running)
      case Return => r.(end := Returned)
      case Raise(e) => r.(end := Raised(e))
  }

  function Bare(app: App, w: World, n: nat): Run {
    if n == 0 then Run(w, [], Running) else BareStep(app, Bare(app, w, n - 1))
  }

  function CountStarts(wire: seq<OutMsg>): nat {
    if wire == [] then 0
    else CountStarts(wire[..|wire| - 1]) + if wire[|wire| - 1].Start? then 1 else 0
  }

  lemma CountStartsSnoc(wire: seq<OutMsg>, m: OutMsg)
    ensures CountStarts(wire + [m]) == CountStarts(wire) + if m.Start? then 1 else 0
  {
    assert (wire + [m])[..|wire|] == wire;
  }

  /** ASCII lower case, byte by byte. */
  function Lower(s: string): string {
    seq(|s|, i requires 0 <= i < |s| =>
      if 'A' <= s[i] <= 'Z' then ((s[i] as int) + 32) as char else s[i])
  }

  /** `_read_header`: the first header of this name, whatever its case. */
  function ReadHeader(headers: seq<Header>, name: string): Option<string> {
    if headers == [] then None
    else if Lower(headers[0].0) == name then Some(headers[0].1)
    else ReadHeader(headers[1..], name)
  }

  /** Only the letters A to Z change, each to its small letter. */
  lemma LowerExactly(s: string, i: nat)
    requires i < |s|
    ensures |Lower(s)| == |s|
    ensures 'A' <= s[i] <= 'Z' ==>
      'a' <= Lower(s)[i] <= 'z' && (Lower(s)[i] as int) - ('a' as int) == (s[i] as int) - ('A' as int)
    ensures !('A' <= s[i] <= 'Z') ==> Lower(s)[i] == s[i]
  {
  }

  /** The i-th header is the first of this name, whatever its case. */
  ghost predicate IsFirst(headers: seq<Header>, name: string, i: int) {
    0 <= i < |headers| && Lower(headers[i].0) == name && forall j :: 0 <= j < i ==> Lower(headers[j].0) != name
  }

  lemma {:induction false} ReadHeaderFirst(headers: seq<Header>, name: string)
    ensures forall i :: IsFirst(headers, name, i) ==> ReadHeader(headers, name) == Some(headers[i].1)
    ensures (forall i :: 0 <= i < |headers| ==> Lower(headers[i].0) != name) ==> ReadHeader(headers, name) == None
    ensures ReadHeader(headers, name).Some? ==> exists i :: IsFirst(headers, name, i)
  {
    if headers == [] {
    } else if Lower(headers[0].0) == name {
      assert IsFirst(headers, name, 0);
    } else {
      var rest := headers[1..];
      ReadHeaderFirst(rest, name);
      forall i | IsFirst(headers, name, i)
        ensures ReadHeader(headers, name) == Some(headers[i].1)
      {
        assert rest[i - 1] == headers[i];
        assert forall j :: 0 <= j < i - 1 ==> rest[j] == headers[j + 1];
        assert IsFirst(rest, name, i - 1);
      }
      if ReadHeader(rest, name).Some? {
        var i :| IsFirst(rest, name, i);
        assert headers[i + 1] == rest[i];
        assert forall j :: 0 < j < i + 1 ==> headers[j] == rest[j - 1];
        assert IsFirst(headers, name, i + 1);
      }
    }
  }

  // ---------- what a run observes and does ----------

  /** The k-th message the client's side delivers; after the last it is gone. */
  function Delivery(inbox: seq<InMsg>, k: nat): InMsg {
    if k < |inbox| then inbox[k] else Disconnect
  }

  /** The body bytes in the first k messages. */
  function BodyUpTo(inbox: seq<InMsg>, k: nat): nat {
    if k == 0 then 0
    else
      var m := Delivery(inbox, k - 1);
      BodyUpTo(inbox, k - 1) + if m.Request? then |m.body| else 0
  }

  /** How often the application has received. */
  function Receives(seen: seq<Obs>): nat {
    if seen == [] then 0
    else Receives(seen[..|seen| - 1]) + if seen[|seen| - 1].Got? || seen[|seen| - 1].Overran? then 1 else 0
  }

  /** What the application has sent, and bound in the logging context, to have observed this. */
  function SentBy(app: App, seen: seq<Obs>): seq<OutMsg> {
    if seen == [] then []
    else
      var k := |seen| - 1;
      SentBy(app, seen[..k]) + if app(seen[..k]).Send? then [app(seen[..k]).m] else []
  }

  function BoundBy(app: App, seen: seq<Obs>, context: map<string, string>): map<string, string> {
    if seen == [] then context
    else
      var k := |seen| - 1;
      var sofar := BoundBy(app, seen[..k], context);
      if app(seen[..k]).Bind? then sofar[app(seen[..k]).key := app(seen[..k]).value] else sofar
  }

  /** What answers an act: the k-th receive gets the k-th message, or the signal once the body outgrows the ceiling. */
  function Answered(max: Option<nat>, inbox: seq<InMsg>, act: Act, k: nat): Option<Obs> {
    match act
    case Receive =>
      var m := Delivery(inbox, k);
      Some(if max.Some? && m.Request? && BodyUpTo(inbox, k + 1) > max.value then Overran else Got(m))
    case Send(m) => Some(Sent)
    case Bind(k', v) => Some(Bound)
    case _ => None
  }

  /** Every observation answers what the application did. */
  predicate Answers(max: Option<nat>, app: App, inbox: seq<InMsg>, seen: seq<Obs>) {
    seen == [] ||
      var k := |seen| - 1;
      Answers(max, app, inbox, seen[..k]) && Answered(max, inbox, app(seen[..k]), Receives(seen[..k])) == Some(seen[k])
  }

  /** A run of an application for n steps that loses, adds and reorders nothing in either direction. */
  ghost predicate Plays(max: Option<nat>, app: App, w: World, r: Run, n: nat) {
    && Answers(max, app, w.inbox, r.seen)
    && r.world.inbox == w.inbox[if Receives(r.seen) < |w.inbox| then Receives(r.seen) else |w.inbox|..]
    && r.world.wire == w.wire + SentBy(app, r.seen)
    && r.world.context == BoundBy(app, r.seen, w.context)
    && (match r.end
        case Running => |r.seen| == n
        case Returned => |r.seen| < n && app(r.seen) == Return
        case Raised(e) => |r.seen| < n && app(r.seen) == Raise(e))
  }

  /** One more observation. */
  lemma AnswersSnoc(max: Option<nat>, app: App, inbox: seq<InMsg>, seen: seq<Obs>, o: Obs)
    requires Answers(max, app, inbox, seen) && Answered(max, inbox, app(seen), Receives(seen)) == Some(o)
    ensures Answers(max, app, inbox, seen + [o])
  {
    assert (seen + [o])[..|seen|] == seen;
  }

  lemma TracesSnoc(app: App, seen: seq<Obs>, o: Obs, context: map<string, string>)
    ensures Receives(seen + [o]) == Receives(seen) + if o.Got? || o.Overran? then 1 else 0
    ensures SentBy(app, seen + [o]) == SentBy(app, seen) + if app(seen).Send? then [app(seen).m] else []
    ensures BoundBy(app, seen + [o], context)
         == if app(seen).Bind? then BoundBy(app, seen, context)[app(seen).key := app(seen).value]
            else BoundBy(app, seen, context)
  {
    assert (seen + [o])[..|seen|] == seen;
  }

  lemma RestOf(inbox: seq<InMsg>, k: nat)
    ensures var left := inbox[if k < |inbox| then k else |inbox|..];
            && Next(left) == Delivery(inbox, k)
            && Rest(left) == inbox[if k + 1 < |inbox| then k + 1 else |inbox|..]
  {
  }

  lemma SentAfter(before: seq<OutMsg>, sent: seq<OutMsg>, more: seq<OutMsg>)
    ensures (before + sent) + more == before + (sent + more)
  {
  }

  /** A step that answers the application keeps the run in play. */
  lemma PlaysOn(max: Option<nat>, app: App, w: World, r: Run, r': Run, o: Obs, n: nat)
    requires Plays(max, app, w, r, n) && r.end == Running && r'.end == Running
    requires Answered(max, w.inbox, app(r.seen), Receives(r.seen)) == Some(o) && r'.seen == r.seen + [o]
    requires r'.world.inbox == if app(r.seen).Receive? then Rest(r.world.inbox) else r.world.inbox
    requires r'.world.wire == r.world.wire + if app(r.seen).Send? then [app(r.seen).m] else []
    requires r'.world.context
          == if app(r.seen).Bind? then r.world.context[app(r.seen).key := app(r.seen).value] else r.world.context
    ensures Plays(max, app, w, r', n + 1)
  {
    AnswersSnoc(max, app, w.inbox, r.seen, o);
    TracesSnoc(app, r.seen, o, w.context);
    RestOf(w.inbox, Receives(r.seen));
    SentAfter(w.wire, SentBy(app, r.seen), if app(r.seen).Send? then [app(r.seen).m] else []);
  }

  lemma BareStepPlays(app: App, w: World, r: Run, n: nat)
    requires Plays(None, app, w, r, n)
    ensures Plays(None, app, w, BareStep(app, r), n + 1)
  {
    if r.end == Running {
      RestOf(w.inbox, Receives(r.seen));
      match app(r.seen)
      case Receive => PlaysOn(None, app, w, r, BareStep(app, r), Got(Next(r.world.inbox)), n);
      case Send(m) => PlaysOn(None, app, w, r, BareStep(app, r), Sent, n);
      case Bind(k, v) => PlaysOn(None, app, w, r, BareStep(app, r), Bound, n);
      case _ =>
    }
  }

  lemma NothingSeen(app: App, w: World)
    ensures Receives([]) == 0 && SentBy(app, []) == [] && BoundBy(app, [], w.context) == w.context
    ensures w.inbox[if 0 < |w.inbox| then 0 else |w.inbox|..] == w.inbox
    ensures w.wire + SentBy(app, []) == w.wire
  {
  }

  lemma PlaysFromStart(max: Option<nat>, app: App, w: World)
    ensures Plays(max, app, w, Run(w, [], Running), 0)
  {
    NothingSeen(app, w);
    assert Answers(max, app, w.inbox, []);
  }

  /** An application with nothing in front of it gets the client's messages in order, and what it sends goes out in order. */
  lemma {:induction false} BarePlays(app: App, w: World, n: nat)
    ensures Plays(None, app, w, Bare(app, w, n), n)
  {
    if n == 0 {
      PlaysFromStart(None, app, w);
    } else {
      BarePlays(app, w, n - 1);
      BareStepPlays(app, w, Bare(app, w, n - 1), n - 1);
    }
  }
}
