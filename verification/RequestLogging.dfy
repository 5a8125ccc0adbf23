/** `RequestLoggingMiddleware`, wrapped around the body ceiling as the application stacks them. */
module RequestLogging {
  import opened Prelude
  import opened Asgi
  import opened Connections
  import opened BodyCeiling

  const REQUEST_ID_KEY := "request_id"
  const MAX_REQUEST_ID := 128

  predicate IsSafeChar(c: char) {
    'A' <= c <= 'Z' || 'a' <= c <= 'z' || '0' <= c <= '9' || c in {'.', '_', '-'}
  }

  predicate IsSafeRequestId(s: string) {
    1 <= |s| <= MAX_REQUEST_ID && forall i :: 0 <= i < |s| ==> IsSafeChar(s[i])
  }

  /** `_resolve_request_id`; `drawn` is the uuid generated if one is needed. */
  function ResolveRequestId(headers: seq<Header>, drawn: string): string {
    match ReadHeader(headers, REQUEST_ID_HEADER)
    case Some(inbound) => if IsSafeRequestId(inbound) then inbound else drawn
    case None => drawn
  }

  /** One to 128 letters, digits, dots, underscores and dashes. */
  predicate IsPlainText(s: string) {
    1 <= |s| <= 128
    && forall i :: 0 <= i < |s| ==>
         'A' <= s[i] <= 'Z' || 'a' <= s[i] <= 'z' || '0' <= s[i] <= '9' || s[i] == '.' || s[i] == '_' || s[i] == '-'
  }

  /** The client's id is reused exactly when the first such header is safe in full; the id is safe either way. */
  lemma RequestIdIsSafe(headers: seq<Header>, drawn: string)
    requires IsPlainText(drawn)
    ensures IsPlainText(ResolveRequestId(headers, drawn))
    ensures forall i :: IsFirst(headers, "x-request-id", i) ==>
      ResolveRequestId(headers, drawn) == if IsPlainText(headers[i].1) then headers[i].1 else drawn
    ensures (forall i :: 0 <= i < |headers| ==> Lower(headers[i].0) != "x-request-id") ==>
      ResolveRequestId(headers, drawn) == drawn
  {
    ReadHeaderFirst(headers, "x-request-id");
    if ReadHeader(headers, "x-request-id").Some? {
      var i :| IsFirst(headers, "x-request-id", i);
    }
  }

  /** The two records of a request, each with the id the logging context held when it was written. */
  datatype Record =
    | HttpRequestFailed(requestId: Option<string>)
    | HttpRequest(status: Option<nat>, requestId: Option<string>)

  /** What a logged call leaves: how it ended, what it logged, and the id it put in the scope's state. */
  datatype Logged = Logged(run: Run, records: seq<Record>, requestId: Option<string>)

  function BoundId(context: map<string, string>): Option<string> {
    if REQUEST_ID_KEY in context then Some(context[REQUEST_ID_KEY]) else None
  }

  /** `reset_contextvars`: the key gets back the value it had, or none; other keys are as the application left them. */
  function Reset(context: map<string, string>, prior: map<string, string>): map<string, string> {
    if REQUEST_ID_KEY in prior then context[REQUEST_ID_KEY := prior[REQUEST_ID_KEY]] else context - {REQUEST_ID_KEY}
  }

  // ---------- the two layers, step by step ----------

  /** A call in progress inside both layers: the ceiling's state, on the real wire, and the logging layer's status. */
  datatype Layers = Layers(guard: Guard, statusCode: Option<nat>)

  /** `send_with_request_id`, on one message. */
  function SendWithRequestId(id: string, l: Layers, m: OutMsg): Layers {
    var world := l.guard.run.world;
    l.(guard := l.guard.(run := l.guard.run.(world := world.(wire := world.wire + [Stamp(id, m)]))),
       statusCode := if m.Start? then Some(m.status) else l.statusCode)
  }

  /** One step of the application: what it sends passes the ceiling's closure and then the logging layer's. */
  function LayersStep(max: nat, id: string, app: App, l: Layers): Layers {
    if l.guard.run.end != Running then l
    else
      match app(l.guard.run.seen)
      case Send(m) =>
        var l' := SendWithRequestId(id, l, m);
        l'.(guard := l'.guard.(run := l'.guard.run.(seen := l.guard.run.seen + [Sent]),
                               responseStarted := l.guard.responseStarted || m.Start?))
      case _ => l.(guard := GuardStep(max, app, l.guard))
  }

  /** The application inside both layers after n of its steps. */
  function Layered(max: nat, id: string, app: App, w: World, n: nat): Layers {
    if n == 0 then Layers(Guard(Run(w, [], Running), 0, false), None)
    else LayersStep(max, id, app, Layered(max, id, app, w, n - 1))
  }

  /** `_reject` through the logging layer's closure. */
  function SendRejection(id: string, l: Layers): Layers {
    var messages := Rejection(Some(id));
    var l' := SendWithRequestId(id, SendWithRequestId(id, l, messages[0]), messages[1]);
    l'.(guard := l'.guard.(run := l'.guard.run.(end := Returned)))
  }

  /** The ceiling's `__call__`, called with the logging layer's closure. */
  function ServeLayers(max: nat, parse: ParseInt, scope: Scope, id: string, app: App, w: World, n: nat): Layers {
    if DeclaresTooMuch(max, parse, scope) then SendRejection(id, Layered(max, id, app, w, 0))
    else
      var l := Layered(max, id, app, w, n);
      if l.guard.run.end == Raised(Overrun) && !l.guard.responseStarted then SendRejection(id, l) else l
  }

  /** `except Exception`: what escapes before any start is a 500, and is recorded before it is raised again. */
  function Except(l: Layers): (Option<nat>, seq<Record>) {
    if l.guard.run.end == Raised(Error) then
      (if l.statusCode == None then Some(500) else l.statusCode,
       [HttpRequestFailed(BoundId(l.guard.run.world.context))])
    else (l.statusCode, [])
  }

  /** `finally`: the summary is written while the id is still bound, and then the binding is undone. */
  function Finally(id: string, prior: map<string, string>, l: Layers): Logged {
    var (run, (status, failed)) := (l.guard.run, Except(l));
    if run.end == Running then Logged(run, [], Some(id))
    else
      Logged(run.(world := run.world.(context := Reset(run.world.context, prior))),
             failed + [HttpRequest(status, BoundId(run.world.context))],
             Some(id))
  }

  /** The world with the request's id bound. */
  function WithId(id: string, w: World): World {
    w.(context := w.context[REQUEST_ID_KEY := id])
  }

  /** `asgi_app`: logging around the ceiling around the application. */
  function ServeLogged(max: nat, parse: ParseInt, scope: Scope, drawn: string, app: App, w: World, n: nat): Logged {
    if scope.kind != "http" then Logged(Serve(max, parse, scope, app, w, n), [], scope.requestId)
    else
      var id := ResolveRequestId(scope.headers, drawn);
      Finally(id, w.context, ServeLayers(max, parse, scope.(requestId := Some(id)), id, app, WithId(id, w), n))
  }

  // ---------- the ceiling inside is the ceiling alone ----------

  /** What the ceiling would do by itself, on a wire of its own and with the id bound. */
  function Alone(max: nat, parse: ParseInt, scope: Scope, drawn: string, app: App, w: World, n: nat): Run {
    var id := ResolveRequestId(scope.headers, drawn);
    Serve(max, parse, scope.(requestId := Some(id)), app, WithId(id, w).(wire := []), n)
  }

  /** The layered call is where the lone one is; its wire has a stamped copy, its status variable the last status sent. */
  ghost predicate Mirrors(id: string, w: World, l: Layers, inner: Run) {
    && l.guard.run == inner.(world := inner.world.(wire := w.wire + PassedAll(Some(id), inner.world.wire)))
    && l.statusCode == LastStatus(inner.world.wire)
  }

  lemma SendMirrors(id: string, w: World, l: Layers, inner: Run, m: OutMsg)
    requires Mirrors(id, w, l, inner)
    ensures Mirrors(id, w, SendWithRequestId(id, l, m), inner.(world := inner.world.(wire := inner.world.wire + [m])))
  {
    PassedSnoc(Some(id), inner.world.wire, m);
    LastStatusSnoc(inner.world.wire, m);
  }

  lemma StepMirrors(max: nat, id: string, app: App, w: World, l: Layers, g: Guard)
    requires Mirrors(id, w, l, g.run) && l.guard.received == g.received && l.guard.responseStarted == g.responseStarted
    ensures var (l', g') := (LayersStep(max, id, app, l), GuardStep(max, app, g));
            Mirrors(id, w, l', g'.run) && l'.guard.received == g'.received && l'.guard.responseStarted == g'.responseStarted
  {
    if g.run.end == Running && app(g.run.seen).Send? {
      SendMirrors(id, w, l, g.run, app(g.run.seen).m);
    }
  }

  lemma {:induction false} LayersMirror(max: nat, id: string, app: App, w: World, n: nat)
    ensures var (l, g) := (Layered(max, id, app, w, n), Guarded(max, app, w.(wire := []), n));
            Mirrors(id, w, l, g.run) && l.guard.received == g.received && l.guard.responseStarted == g.responseStarted
  {
    if n > 0 {
      LayersMirror(max, id, app, w, n - 1);
      StepMirrors(max, id, app, w, Layered(max, id, app, w, n - 1), Guarded(max, app, w.(wire := []), n - 1));
    }
  }

  lemma RejectionMirrors(id: string, w: World, l: Layers, inner: Run)
    requires Mirrors(id, w, l, inner)
    ensures Mirrors(id, w, SendRejection(id, l),
                    inner.(world := inner.world.(wire := inner.world.wire + Rejection(Some(id))), end := Returned))
  {
    var m := Rejection(Some(id));
    SendMirrors(id, w, l, inner, m[0]);
    var once := inner.(world := inner.world.(wire := inner.world.wire + [m[0]]));
    SendMirrors(id, w, SendWithRequestId(id, l, m[0]), once, m[1]);
    assert inner.world.wire + [m[0]] + [m[1]] == inner.world.wire + m;
  }

  /**
   * At every moment of every call, the application, the ceiling and the client's messages are where they
   * would be without the logging layer; only the wire is stamped.
   */
  lemma ServeMirrors(max: nat, parse: ParseInt, scope: Scope, drawn: string, app: App, w: World, n: nat)
    requires scope.kind == "http"
    ensures var id := ResolveRequestId(scope.headers, drawn);
            Mirrors(id, w, ServeLayers(max, parse, scope.(requestId := Some(id)), id, app, WithId(id, w), n),
                    Alone(max, parse, scope, drawn, app, w, n))
  {
    var id := ResolveRequestId(scope.headers, drawn);
    var w' := WithId(id, w);
    if DeclaresTooMuch(max, parse, scope.(requestId := Some(id))) {
      LayersMirror(max, id, app, w', 0);
      RejectionMirrors(id, w', Layered(max, id, app, w', 0), Run(w'.(wire := []), [], Running));
    } else {
      LayersMirror(max, id, app, w', n);
      RejectionMirrors(id, w', Layered(max, id, app, w', n), Guarded(max, app, w'.(wire := []), n).run);
    }
  }

  // ---------- correlation ----------

  function Summaries(records: seq<Record>): nat {
    if records == [] then 0
    else Summaries(records[..|records| - 1]) + if records[|records| - 1].HttpRequest? then 1 else 0
  }

  /** The last start among these messages. */
  ghost predicate IsLastStart(wire: seq<OutMsg>, i: int) {
    0 <= i < |wire| && wire[i].Start? && forall j :: i < j < |wire| ==> !wire[j].Start?
  }

  lemma {:induction false} LastStatusOnWire(wire: seq<OutMsg>)
    ensures LastStatus(wire) == None <==> CountStarts(wire) == 0
    ensures forall i :: IsLastStart(wire, i) ==> LastStatus(wire) == Some(wire[i].status)
    ensures CountStarts(wire) == 0 ==> forall i :: 0 <= i < |wire| ==> !wire[i].Start?
  {
    if wire != [] {
      var k := |wire| - 1;
      LastStatusOnWire(wire[..k]);
      forall i | IsLastStart(wire, i)
        ensures LastStatus(wire) == Some(wire[i].status)
      {
        assert i == k || IsLastStart(wire[..k], i);
      }
    }
  }

  lemma {:induction false} StampKeepsStarts(id: string, wire: seq<OutMsg>)
    ensures CountStarts(PassedAll(Some(id), wire)) == CountStarts(wire)
  {
    if wire != [] {
      var k := |wire| - 1;
      StampKeepsStarts(id, wire[..k]);
      assert PassedAll(Some(id), wire)[..k] == PassedAll(Some(id), wire[..k]);
    }
  }

  /** One summary record, last, after a failure record exactly when an ordinary exception escapes. */
  predicate OneSummary(end: End, records: seq<Record>) {
    && |records| == (if end == Raised(Error) then 2 else 1)
    && Summaries(records) == 1
    && records[|records| - 1].HttpRequest?
  }

  /** The status logged is the last one on the wire, or 500 for an ordinary exception before any start. */
  ghost predicate StatusOnWire(end: End, wire: seq<OutMsg>, status: Option<nat>) {
    && (forall i :: IsLastStart(wire, i) ==> status == Some(wire[i].status))
    && (CountStarts(wire) == 0 ==> status == if end == Raised(Error) then Some(500) else None)
  }

  /** The same messages, with the two fixed headers after each start's own. */
  predicate StampedCopy(id: string, wire: seq<OutMsg>, inner: seq<OutMsg>) {
    && |wire| == |inner|
    && forall i :: 0 <= i < |wire| ==>
         wire[i] == if inner[i].Start?
                    then Start(inner[i].status,
                               inner[i].headers + [("x-request-id", id), ("x-content-type-options", "nosniff")])
                    else inner[i]
  }

  /** The id's key is as it was before, and every other key as it was left. */
  ghost predicate Restored(prior: map<string, string>, left: map<string, string>, now: map<string, string>) {
    && ("request_id" in now <==> "request_id" in prior)
    && ("request_id" in now ==> now["request_id"] == prior["request_id"])
    && forall k :: k != "request_id" ==> (k in now <==> k in left) && (k in now ==> now[k] == left[k])
  }

  /** What a logged call comes to, for the run of the ceiling alone: at every moment, and once it has ended. */
  ghost predicate Correlated(id: string, app: App, w: World, inner: Run, out: Logged) {
    var left := BoundBy(app, out.run.seen, w.context["request_id" := id]);
    && out.requestId == Some(id)
    && out.run.end == inner.end && out.run.seen == inner.seen && out.run.world.inbox == inner.world.inbox
    && StampedCopy(id, out.run.world.wire, inner.world.wire)
    && (inner.end == Running ==> out.records == [] && out.run.world.context == left)
    && (inner.end != Running ==>
          && OneSummary(inner.end, out.records)
          && StatusOnWire(inner.end, out.run.world.wire, out.records[|out.records| - 1].status)
          && Restored(w.context, left, out.run.world.context))
  }

  lemma RecordsOfOne(end: End, failed: Record, summary: Record)
    requires failed.HttpRequestFailed? && summary.HttpRequest?
    ensures OneSummary(end, (if end == Raised(Error) then [failed] else []) + [summary])
  {
    assert [failed, summary][..1] == [failed];
    assert Summaries([failed]) == 0 && Summaries([]) == 0;
  }

  lemma StatusOfStamped(id: string, inner: seq<OutMsg>, end: End)
    ensures var status := LastStatus(inner);
            StatusOnWire(end, PassedAll(Some(id), inner),
                         if end == Raised(Error) && status == None then Some(500) else status)
  {
    var wire := PassedAll(Some(id), inner);
    LastStatusOnWire(inner);
    StampKeepsStarts(id, inner);
    forall i | IsLastStart(wire, i)
      ensures LastStatus(inner) == Some(wire[i].status)
    {
      assert forall j :: 0 <= j < |inner| ==> inner[j].Start? == wire[j].Start?;
      assert IsLastStart(inner, i);
    }
  }

  lemma StampCopies(id: string, inner: seq<OutMsg>)
    ensures StampedCopy(id, PassedAll(Some(id), inner), inner)
  {
  }

  /** Resetting undoes the binding of the id and nothing else. */
  lemma ResetRestores(context: map<string, string>, prior: map<string, string>)
    ensures Restored(prior, context, Reset(context, prior))
  {
  }

  /** The records written on the way out. */
  lemma FinallyRecords(id: string, w: World, l: Layers, inner: Run)
    requires w.wire == [] && Mirrors(id, w, l, inner) && inner.end != Running
    ensures var out := Finally(id, w.context, l);
            && OneSummary(inner.end, out.records)
            && StatusOnWire(inner.end, out.run.world.wire, out.records[|out.records| - 1].status)
  {
    assert [] + PassedAll(Some(id), inner.world.wire) == PassedAll(Some(id), inner.world.wire);
    var bound := BoundId(inner.world.context);
    var (status, failed) := Except(l);
    StatusOfStamped(id, inner.world.wire, inner.end);
    RecordsOfOne(inner.end, HttpRequestFailed(bound), HttpRequest(status, bound));
    assert (failed + [HttpRequest(status, bound)])[|failed|] == HttpRequest(status, bound);
  }

  /** The ceiling leaves the logging context to the application, and tells it what the client sent. */
  lemma ServeContext(max: nat, parse: ParseInt, scope: Scope, app: App, w: World, n: nat)
    requires scope.kind == "http"
    ensures var served := Serve(max, parse, scope, app, w, n);
            served.world.context == BoundBy(app, served.seen, w.context) && Answers(Some(max), app, w.inbox, served.seen)
  {
    GuardedPlays(max, app, w, n);
    NothingSeen(app, w);
  }

  /**
   * Stacked correlation. At every step of every HTTP call, every start that has gone out carries the id that
   * is in the scope's state, application, ceiling and client are where they would be without logging, and the
   * application has been told what the client sent, up to the ceiling. On every way the call can end it has
   * logged exactly one summary, last, preceded by a failure record exactly when an ordinary exception escapes,
   * which it still does; the context has its prior id back, and else what it held and the application bound;
   * and the status logged is the last on the wire, or 500 when such an exception escaped before any start.
   */
  lemma StackedCorrelation(max: nat, parse: ParseInt, scope: Scope, drawn: string, app: App, w: World, n: nat)
    requires scope.kind == "http" && w.wire == []
    ensures Correlated(ResolveRequestId(scope.headers, drawn), app, w, Alone(max, parse, scope, drawn, app, w, n),
                       ServeLogged(max, parse, scope, drawn, app, w, n))
    ensures Answers(Some(max), app, w.inbox, ServeLogged(max, parse, scope, drawn, app, w, n).run.seen)
  {
    var id := ResolveRequestId(scope.headers, drawn);
    var l := ServeLayers(max, parse, scope.(requestId := Some(id)), id, app, WithId(id, w), n);
    var inner := Alone(max, parse, scope, drawn, app, w, n);
    ServeMirrors(max, parse, scope, drawn, app, w, n);
    assert [] + PassedAll(Some(id), inner.world.wire) == PassedAll(Some(id), inner.world.wire);
    StampCopies(id, inner.world.wire);
    ServeContext(max, parse, scope.(requestId := Some(id)), app, WithId(id, w).(wire := []), n);
    ResetRestores(inner.world.context, w.context);
    if inner.end != Running {
      FinallyRecords(id, w, l, inner);
    }
  }

  /** An application that leaves the id binding to the middleware. */
  ghost predicate NeverRebinds(app: App) {
    forall seen, v :: app(seen) != Bind(REQUEST_ID_KEY, v)
  }

  lemma {:induction false} BindingStays(max: nat, app: App, w: World, n: nat)
    requires NeverRebinds(app)
    ensures BoundId(Guarded(max, app, w, n).run.world.context) == BoundId(w.context)
  {
    if n > 0 {
      BindingStays(max, app, w, n - 1);
    }
  }

  /** Every record carries the request's id, provided the application does not bind another. */
  lemma RecordsCarryTheId(max: nat, parse: ParseInt, scope: Scope, drawn: string, app: App, w: World, n: nat)
    requires scope.kind == "http" && NeverRebinds(app)
    ensures var out := ServeLogged(max, parse, scope, drawn, app, w, n);
            forall i :: 0 <= i < |out.records| ==> out.records[i].requestId == out.requestId
  {
    var id := ResolveRequestId(scope.headers, drawn);
    ServeMirrors(max, parse, scope, drawn, app, w, n);
    BindingStays(max, app, WithId(id, w).(wire := []), n);
  }

  lemma RejectedStatus(id: Option<string>)
    ensures LastStatus(Rejection(id)) == Some(413)
  {
    var r := Rejection(id);
    assert r[..1] == [r[0]];
    assert LastStatus([r[0]]) == Some(413);
  }

  lemma RejectionStamped(id: string)
    ensures var length := Decimal(|RefusalText(Some(id))|);
            && [] + PassedAll(Some(id), Rejection(Some(id)))
               == [Start(413, [("content-type", "application/json"), ("content-length", length), ("connection", "close"),
                               ("x-request-id", id), ("x-content-type-options", "nosniff")]),
                   Body(RefusalText(Some(id)))]
            && IsNumeral(length, |RefusalText(Some(id))|)
  {
    BodyIsRefusalText(Some(id));
    DecimalIsNumeral(|RefusalText(Some(id))|);
    var m := Rejection(Some(id));
    assert m[0].headers + [("x-request-id", id), ("x-content-type-options", "nosniff")]
        == [m[0].headers[0], m[0].headers[1], m[0].headers[2], ("x-request-id", id), ("x-content-type-options", "nosniff")];
    assert PassedAll(Some(id), m) == [Stamp(id, m[0]), Stamp(id, m[1])];
  }

  /** The ceiling's own answer when it refuses. */
  lemma RefusedAlone(max: nat, parse: ParseInt, scope: Scope, app: App, w: World, n: nat)
    requires scope.kind == "http" && w.wire == []
    requires
      var g := Guarded(max, app, w, n);
      DeclaresBeyond(max, parse, scope.headers)
      || (g.run.end == Raised(Overrun) && CountStarts(g.run.world.wire) == 0 && OpensFirst(g.run.world.wire))
    ensures var served := Serve(max, parse, scope, app, w, n);
            served.world.wire == Rejection(scope.requestId) && served.end == Returned
  {
    DeclaresExactly(max, parse, scope);
    StartedTracksWire(max, app, w, n);
    var sent := Guarded(max, app, w, n).run;
    if sent.world.wire != [] && sent.world.wire[0].Start? {
      StartsFirst(sent.world.wire);
    }
  }

  /**
   * A refused upload is still a traceable request: whether it declared too much or outgrew the ceiling before
   * its response began, the wire is exactly a 413 whose header and body name the id of the scope's state, and
   * the one record is a summary of status 413.
   */
  lemma RejectionIsCorrelated(max: nat, parse: ParseInt, scope: Scope, drawn: string, app: App, w: World, n: nat)
    requires scope.kind == "http" && w.wire == []
    requires
      var g := Guarded(max, app, WithId(ResolveRequestId(scope.headers, drawn), w), n);
      DeclaresBeyond(max, parse, scope.headers)
      || (g.run.end == Raised(Overrun) && CountStarts(g.run.world.wire) == 0 && OpensFirst(g.run.world.wire))
    ensures
      var id := ResolveRequestId(scope.headers, drawn);
      var out := ServeLogged(max, parse, scope, drawn, app, w, n);
      var length := Decimal(|RefusalText(Some(id))|);
      && out.run.end == Returned
      && out.run.world.wire == [Start(413, [("content-type", "application/json"), ("content-length", length),
                                            ("connection", "close"),
                                            ("x-request-id", id), ("x-content-type-options", "nosniff")]),
                                Body(RefusalText(Some(id)))]
      && IsNumeral(length, |RefusalText(Some(id))|)
      && out.requestId == Some(id)
      && |out.records| == 1 && out.records[0].HttpRequest? && out.records[0].status == Some(413)
  {
    var id := ResolveRequestId(scope.headers, drawn);
    var scope' := scope.(requestId := Some(id));
    assert WithId(id, w).(wire := []) == WithId(id, w);
    RefusedAlone(max, parse, scope', app, WithId(id, w), n);
    ServeMirrors(max, parse, scope, drawn, app, w, n);
    RejectedStatus(Some(id));
    RejectionStamped(id);
  }

  /** Anything but HTTP is played through both layers as it is, and leaves no record. */
  lemma OtherScopesPlay(max: nat, parse: ParseInt, scope: Scope, drawn: string, app: App, w: World, n: nat)
    requires scope.kind != "http"
    ensures var out := ServeLogged(max, parse, scope, drawn, app, w, n);
            Plays(None, app, w, out.run, n) && out.records == [] && out.requestId == scope.requestId
  {
    BarePlays(app, w, n);
  }

  // ---------- the middleware object ----------

  class RequestLoggingMiddleware {
    const inner: MaxBodySizeMiddleware
    var log: seq<Record>

    constructor (inner: MaxBodySizeMiddleware)
      ensures this.inner == inner && log == []
    {
      this.inner := inner;
      log := [];
    }

    /** `__call__`. The wrapped layer is handed a closure that stamps each message as it is sent. */
    method Call(parse: ParseInt, scope: Scope, drawn: string, app: App, c: Connection, n: nat)
        returns (seen: seq<Obs>, end: End, requestId: Option<string>)
      modifies this, c
      ensures var out := ServeLogged(inner.maxBytes, parse, scope, drawn, app, old(c.State()), n);
              && Run(c.State(), seen, end) == out.run
              && log == old(log) + out.records
              && requestId == out.requestId
    {
      ghost var w := c.State();
      if scope.kind != "http" {
        var direct := new SendCallable.Direct(c);
        seen, end := inner.Call(parse, scope, app, direct, n);
        PassedSnoc(None, direct.sent, Body(""));
        return seen, end, scope.requestId;
      }
      var id := ResolveRequestId(scope.headers, drawn);
      requestId := Some(id);
      var prior := c.context;
      c.context := c.context[REQUEST_ID_KEY := id];
      var sendWithRequestId := new SendCallable.Stamping(c, id);
      assert sendWithRequestId.Seen() == World(w.inbox, [], c.context);
      seen, end := inner.Call(parse, scope.(requestId := requestId), app, sendWithRequestId, n);
      ServeMirrors(inner.maxBytes, parse, scope, drawn, app, w, n);
      if end == Running {
        return;
      }
      var statusCode := sendWithRequestId.statusCode;
      if end == Raised(Error) {
        if statusCode == None {
          statusCode := Some(500);
        }
        log := log + [HttpRequestFailed(BoundId(c.context))];
      }
      log := log + [HttpRequest(statusCode, BoundId(c.context))];
      c.context := Reset(c.context, prior);
    }
  }
}
