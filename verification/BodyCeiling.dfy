/** `MaxBodySizeMiddleware`: a byte-counting trace transformer, for every application and every client. */
module BodyCeiling {
  import opened Prelude
  import opened Asgi
  import opened Connections

  const CONTENT_LENGTH_HEADER := "content-length"
  const TOO_LARGE_STATUS := 413
  const TOO_LARGE_CODE := "payload_too_large"
  const TOO_LARGE_MESSAGE := "Request body exceeds the maximum accepted size"

  /** Python's int() on a header value, left abstract: a number, possibly negative, or no parse. */
  type ParseInt = string -> Option<int>

  /** `_rejection_body`: the JSON text; request ids are of characters JSON does not escape. */
  function RejectionBody(requestId: Option<string>): string {
    "{\"code\": \"" + TOO_LARGE_CODE + "\", \"message\": \"" + TOO_LARGE_MESSAGE + "\", \"request_id\": "
    + (if requestId.Some? then "\"" + requestId.value + "\"" else "null") + "}"
  }

  function Decimal(n: nat): string {
    if n < 10 then [((n + 48) as char)] else Decimal(n / 10) + [((n % 10 + 48) as char)]
  }

  /** `_reject`: the two messages of a 413. */
  function Rejection(requestId: Option<string>): seq<OutMsg> {
    var body := RejectionBody(requestId);
    [Start(TOO_LARGE_STATUS,
           [("content-type", "application/json"), ("content-length", Decimal(|body|)), ("connection", "close")]),
     Body(body)]
  }

  /** `_declared_body_size` */
  function DeclaredBodySize(parse: ParseInt, scope: Scope): Option<int> {
    match ReadHeader(scope.headers, CONTENT_LENGTH_HEADER)
    case None => None
    case Some(value) => parse(value)
  }

  // ---------- the wrapped application ----------

  /** The call's state: the application as far as it has run, and the two variables the closures share. */
  datatype Guard = Guard(run: Run, received: nat, responseStarted: bool)

  /** `receive_counting_body` */
  function ReceiveCounting(max: nat, g: Guard): Guard {
    var m := Next(g.run.world.inbox);
    var received := g.received + if m.Request? then |m.body| else 0;
    var obs := if m.Request? && received > max then Overran else Got(m);
    Guard(Run(g.run.world.(inbox := Rest(g.run.world.inbox)), g.run.seen + [obs], Running), received, g.responseStarted)
  }

  /** `send_tracking_response_start` */
  function SendTracking(g: Guard, m: OutMsg): Guard {
    Guard(Run(g.run.world.(wire := g.run.world.wire + [m]), g.run.seen + [Sent], Running),
          g.received, g.responseStarted || m.Start?)
  }

  function GuardStep(max: nat, app: App, g: Guard): Guard {
    if g.run.end != Running then g
    else
      match app(g.run.seen)
      case Receive => ReceiveCounting(max, g)
      case Send(m) => SendTracking(g, m)
      case _ => g.(run := BareStep(app, g.run))
  }

  /** The wrapped application after n of its steps. */
  function Guarded(max: nat, app: App, w: World, n: nat): Guard {
    if n == 0 then Guard(Run(w, [], Running), 0, false) else GuardStep(max, app, Guarded(max, app, w, n - 1))
  }

  /** What the middleware does when the application is left: turn an overrun into a 413 if it still can. */
  function Settle(scope: Scope, g: Guard): Run {
    if g.run.end == Raised(Overrun) && !g.responseStarted then
      g.run.(world := g.run.world.(wire := g.run.world.wire + Rejection(scope.requestId)), end := Returned)
    else g.run
  }

  predicate DeclaresTooMuch(max: nat, parse: ParseInt, scope: Scope) {
    var declared := DeclaredBodySize(parse, scope);
    declared.Some? && declared.value > max
  }

  /** `__call__`, with the application given n steps. */
  function Serve(max: nat, parse: ParseInt, scope: Scope, app: App, w: World, n: nat): Run {
    if scope.kind != "http" then Bare(app, w, n)
    else if DeclaresTooMuch(max, parse, scope) then Run(w.(wire := w.wire + Rejection(scope.requestId)), [], Returned)
    else Settle(scope, Guarded(max, app, w, n))
  }

  // ---------- what the middleware decides and answers, written out ----------

  /** The first content-length header, whatever its case, declares more than the ceiling. */
  ghost predicate DeclaresBeyond(max: nat, parse: ParseInt, headers: seq<Header>) {
    exists i :: IsFirst(headers, "content-length", i) && parse(headers[i].1).Some? && parse(headers[i].1).value > max
  }

  lemma DeclaresExactly(max: nat, parse: ParseInt, scope: Scope)
    ensures DeclaresTooMuch(max, parse, scope) <==> DeclaresBeyond(max, parse, scope.headers)
  {
    ReadHeaderFirst(scope.headers, "content-length");
    if DeclaresTooMuch(max, parse, scope) {
      var i :| IsFirst(scope.headers, "content-length", i);
    }
  }

  function DecimalValue(s: string): nat {
    if s == "" then 0
    else
      var c := s[|s| - 1];
      10 * DecimalValue(s[..|s| - 1]) + if '0' <= c <= '9' then (c as int) - ('0' as int) else 0
  }

  /** The decimal numeral of n, without leading zeros. */
  predicate IsNumeral(s: string, n: nat) {
    && s != "" && (forall i :: 0 <= i < |s| ==> '0' <= s[i] <= '9')
    && (s[0] == '0' ==> |s| == 1)
    && DecimalValue(s) == n
  }

  lemma PositiveNumeral(s: string, n: nat)
    requires IsNumeral(s, n) && n > 0
    ensures s[0] != '0'
  {
    assert s[..0] == "" && DecimalValue("") == 0;
  }

  lemma {:induction false} DecimalIsNumeral(n: nat)
    ensures IsNumeral(Decimal(n), n)
  {
    if n < 10 {
      assert Decimal(n)[..0] == "";
    } else {
      DecimalIsNumeral(n / 10);
      var init := Decimal(n / 10);
      assert Decimal(n)[..|init|] == init;
      PositiveNumeral(init, n / 10);
    }
  }

  /** The text of a refusal. */
  function RefusalText(id: Option<string>): string {
    "{\"code\": \"" + "payload_too_large" + "\", \"message\": \"" + "Request body exceeds the maximum accepted size"
    + "\", \"request_id\": " + (if id.Some? then "\"" + id.value + "\"" else "null") + "}"
  }

  /** A 413 in the API's error shape, naming this request's id, that closes the connection. */
  ghost predicate IsRefusal(id: Option<string>, messages: seq<OutMsg>) {
    && |messages| == 2 && messages[0].Start? && messages[1] == Body(RefusalText(id))
    && messages[0].status == 413
    && |messages[0].headers| == 3
    && messages[0].headers[0] == ("content-type", "application/json")
    && messages[0].headers[1].0 == "content-length" && IsNumeral(messages[0].headers[1].1, |RefusalText(id)|)
    && messages[0].headers[2] == ("connection", "close")
  }

  lemma BodyIsRefusalText(id: Option<string>)
    ensures RejectionBody(id) == RefusalText(id)
  {
  }

  lemma RejectionIsRefusal(id: Option<string>)
    ensures IsRefusal(id, Rejection(id))
  {
    BodyIsRefusalText(id);
    DecimalIsNumeral(|RejectionBody(id)|);
  }

  // ---------- what the application is told ----------

  /** The application has been told what the client sent, up to the ceiling, and the counter is the body so far. */
  ghost predicate Told(max: nat, app: App, w: World, g: Guard, n: nat) {
    Plays(Some(max), app, w, g.run, n) && g.received == BodyUpTo(w.inbox, Receives(g.run.seen))
  }

  lemma ToldFromStart(max: nat, app: App, w: World)
    ensures Told(max, app, w, Guard(Run(w, [], Running), 0, false), 0)
  {
    PlaysFromStart(Some(max), app, w);
  }

  lemma ReceivePlays(max: nat, app: App, w: World, g: Guard, n: nat)
    requires Told(max, app, w, g, n)
    requires g.run.end == Running && app(g.run.seen) == Receive
    ensures Told(max, app, w, ReceiveCounting(max, g), n + 1)
  {
    var g', k := ReceiveCounting(max, g), Receives(g.run.seen);
    var m := Delivery(w.inbox, k);
    RestOf(w.inbox, k);
    assert BodyUpTo(w.inbox, k + 1) == g.received + if m.Request? then |m.body| else 0;
    var o := if m.Request? && BodyUpTo(w.inbox, k + 1) > max then Overran else Got(m);
    TracesSnoc(app, g.run.seen, o, w.context);
    PlaysOn(Some(max), app, w, g.run, g'.run, o, n);
  }

  lemma SendPlays(max: nat, app: App, w: World, g: Guard, m: OutMsg, n: nat)
    requires Plays(Some(max), app, w, g.run, n) && g.run.end == Running && app(g.run.seen) == Send(m)
    ensures var g' := SendTracking(g, m);
            Plays(Some(max), app, w, g'.run, n + 1) && Receives(g'.run.seen) == Receives(g.run.seen)
  {
    TracesSnoc(app, g.run.seen, Sent, w.context);
    PlaysOn(Some(max), app, w, g.run, SendTracking(g, m).run, Sent, n);
  }

  lemma BindPlays(max: nat, app: App, w: World, r: Run, key: string, value: string, n: nat)
    requires Plays(Some(max), app, w, r, n) && r.end == Running && app(r.seen) == Bind(key, value)
    ensures Plays(Some(max), app, w, BareStep(app, r), n + 1) && Receives(BareStep(app, r).seen) == Receives(r.seen)
  {
    TracesSnoc(app, r.seen, Bound, w.context);
    PlaysOn(Some(max), app, w, r, BareStep(app, r), Bound, n);
  }

  lemma GuardStepPlays(max: nat, app: App, w: World, g: Guard, n: nat)
    requires Told(max, app, w, g, n)
    ensures Told(max, app, w, GuardStep(max, app, g), n + 1)
  {
    if g.run.end == Running {
      match app(g.run.seen)
      case Receive => ReceivePlays(max, app, w, g, n);
      case Send(m) => SendPlays(max, app, w, g, m, n);
      case Bind(k, v) => BindPlays(max, app, w, g.run, k, v, n);
      case _ =>
    }
  }

  /**
   * What the wrapped application is told, exactly: its k-th receive is answered by the client's k-th message,
   * unless the body in the first k messages is beyond the ceiling, and then by the signal. What it sends goes
   * out in order and unchanged.
   */
  lemma {:induction false} GuardedPlays(max: nat, app: App, w: World, n: nat)
    ensures Told(max, app, w, Guarded(max, app, w, n), n)
  {
    if n == 0 {
      ToldFromStart(max, app, w);
    } else {
      var g := Guarded(max, app, w, n - 1);
      GuardedPlays(max, app, w, n - 1);
      GuardStepPlays(max, app, w, g, n - 1);
      assert Guarded(max, app, w, n) == GuardStep(max, app, g);
    }
  }

  // ---------- body bound ----------

  /** The body bytes handed to the application. */
  function Handed(seen: seq<Obs>): nat {
    if seen == [] then 0
    else
      var o := seen[|seen| - 1];
      Handed(seen[..|seen| - 1]) + if o.Got? && o.m.Request? then |o.m.body| else 0
  }

  lemma HandedSnoc(seen: seq<Obs>, o: Obs)
    ensures Handed(seen + [o]) == Handed(seen) + if o.Got? && o.m.Request? then |o.m.body| else 0
  {
    assert (seen + [o])[..|seen|] == seen;
  }

  ghost predicate Tracks(max: nat, g: Guard) {
    Handed(g.run.seen) <= max && (g.received <= max ==> Handed(g.run.seen) == g.received)
  }

  lemma StepTracks(max: nat, app: App, g: Guard)
    requires Tracks(max, g)
    ensures Tracks(max, GuardStep(max, app, g))
  {
    if g.run.end == Running {
      match app(g.run.seen)
      case Receive =>
        var seen' := ReceiveCounting(max, g).run.seen;
        HandedSnoc(g.run.seen, seen'[|g.run.seen|]);
      case Send(m) => HandedSnoc(g.run.seen, Sent);
      case Bind(k, v) => HandedSnoc(g.run.seen, Bound);
      case _ =>
    }
  }

  lemma {:induction false} HandedTracksReceived(max: nat, app: App, w: World, n: nat)
    ensures Tracks(max, Guarded(max, app, w, n))
  {
    if n > 0 {
      HandedTracksReceived(max, app, w, n - 1);
      StepTracks(max, app, Guarded(max, app, w, n - 1));
    }
  }

  /**
   * Body bound. However the client chunks its body and whatever the application does, catching the overrun
   * signal and receiving on included, it is never handed more than the ceiling in all; and a declaration
   * beyond the ceiling hands it nothing.
   */
  lemma BodyBound(max: nat, parse: ParseInt, scope: Scope, app: App, w: World, n: nat)
    requires scope.kind == "http"
    ensures Handed(Serve(max, parse, scope, app, w, n).seen) <= max
    ensures DeclaresBeyond(max, parse, scope.headers) ==> Serve(max, parse, scope, app, w, n).seen == []
  {
    DeclaresExactly(max, parse, scope);
    HandedTracksReceived(max, app, w, n);
  }

  // ---------- wire safety ----------

  lemma {:induction false} StartedTracksWire(max: nat, app: App, w: World, n: nat)
    requires w.wire == []
    ensures var g := Guarded(max, app, w, n);
            g.responseStarted <==> CountStarts(g.run.world.wire) > 0
  {
    if n > 0 {
      StartedTracksWire(max, app, w, n - 1);
      var g := Guarded(max, app, w, n - 1);
      if g.run.end == Running && app(g.run.seen).Send? {
        CountStartsSnoc(g.run.world.wire, app(g.run.seen).m);
      }
    }
  }

  /** An application that opens its response before sending anything else. */
  predicate OpensFirst(wire: seq<OutMsg>) {
    wire != [] ==> wire[0].Start?
  }

  lemma RejectionStartsOnce(wire: seq<OutMsg>, requestId: Option<string>)
    ensures CountStarts(wire + Rejection(requestId)) == CountStarts(wire) + 1
  {
    var r := Rejection(requestId);
    CountStartsSnoc(wire, r[0]);
    CountStartsSnoc(wire + [r[0]], r[1]);
    assert wire + [r[0]] + [r[1]] == wire + r;
  }

  lemma {:induction false} StartsFirst(wire: seq<OutMsg>)
    requires wire != [] && wire[0].Start?
    ensures CountStarts(wire) > 0
  {
    if |wire| > 1 {
      StartsFirst(wire[..|wire| - 1]);
    }
  }

  /** The wire after is the wire before and a refusal. */
  ghost predicate RefusedAfter(id: Option<string>, before: seq<OutMsg>, after: seq<OutMsg>) {
    |before| <= |after| && after[..|before|] == before && IsRefusal(id, after[|before|..])
  }

  lemma RejectionRefuses(id: Option<string>, before: seq<OutMsg>)
    ensures RefusedAfter(id, before, before + Rejection(id))
  {
    RejectionIsRefusal(id);
    assert (before + Rejection(id))[|before|..] == Rejection(id);
  }

  /**
   * Wire safety, for every HTTP call. A declaration beyond the ceiling is answered by exactly the 413, with the
   * application not run and nothing read. Otherwise, if the overrun reaches the middleware before any start,
   * exactly the 413's two messages are added, and for an application that opens its response first they are
   * the whole wire; after a start nothing is added and the signal escapes. In no case does the middleware make
   * two starts out of at most one.
   */
  lemma WireSafety(max: nat, parse: ParseInt, scope: Scope, app: App, w: World, n: nat)
    requires scope.kind == "http" && w.wire == []
    ensures
      var declared := DeclaresBeyond(max, parse, scope.headers);
      var sent := Guarded(max, app, w, n).run;
      var served := Serve(max, parse, scope, app, w, n);
      var overran := !declared && sent.end == Raised(Overrun);
      && (declared ==>
            && served.end == Returned && served.seen == [] && RefusedAfter(scope.requestId, [], served.world.wire)
            && served.world.inbox == w.inbox && served.world.context == w.context)
      && (!declared && !overran ==> served == sent)
      && (overran && CountStarts(sent.world.wire) == 0 ==>
            served.end == Returned && RefusedAfter(scope.requestId, sent.world.wire, served.world.wire))
      && (overran && CountStarts(sent.world.wire) == 0 && OpensFirst(sent.world.wire) ==>
            RefusedAfter(scope.requestId, [], served.world.wire))
      && (overran && CountStarts(sent.world.wire) > 0 ==> served == sent)
      && (declared || CountStarts(sent.world.wire) <= 1 ==> CountStarts(served.world.wire) <= 1)
  {
    DeclaresExactly(max, parse, scope);
    StartedTracksWire(max, app, w, n);
    var sent := Guarded(max, app, w, n).run;
    RejectionRefuses(scope.requestId, []);
    RejectionRefuses(scope.requestId, sent.world.wire);
    RejectionStartsOnce([], scope.requestId);
    RejectionStartsOnce(sent.world.wire, scope.requestId);
    if sent.world.wire != [] && sent.world.wire[0].Start? {
      StartsFirst(sent.world.wire);
    }
  }

  // ---------- transparency ----------

  function TotalBody(inbox: seq<InMsg>): nat {
    if inbox == [] then 0
    else (if inbox[0].Request? then |inbox[0].body| else 0) + TotalBody(inbox[1..])
  }

  /** Only an application that was given the overrun signal can raise it. */
  ghost predicate Honest(app: App) {
    forall seen :: app(seen) == Raise(Overrun) ==> Overran in seen
  }

  lemma {:induction false} GuardedIsBare(max: nat, app: App, w: World, n: nat)
    requires TotalBody(w.inbox) <= max
    ensures var g := Guarded(max, app, w, n);
            && g.run == Bare(app, w, n)
            && g.received + TotalBody(g.run.world.inbox) == TotalBody(w.inbox)
            && Overran !in g.run.seen
  {
    if n > 0 {
      GuardedIsBare(max, app, w, n - 1);
    }
  }

  lemma {:induction false} OverrunNeedsSignal(app: App, w: World, n: nat)
    requires Honest(app)
    ensures Bare(app, w, n).end == Raised(Overrun) ==> Overran in Bare(app, w, n).seen
  {
    if n > 0 {
      OverrunNeedsSignal(app, w, n - 1);
    }
  }

  /**
   * Transparency. When the declared size is absent, unparseable or within the ceiling and the body is within
   * it, the middleware is not there: at every step of every application the traces on both sides, and how it
   * ends, are those of the application alone.
   */
  lemma Transparency(max: nat, parse: ParseInt, scope: Scope, app: App, w: World, n: nat)
    requires !DeclaresBeyond(max, parse, scope.headers) && TotalBody(w.inbox) <= max && Honest(app)
    ensures Serve(max, parse, scope, app, w, n) == Bare(app, w, n)
  {
    DeclaresExactly(max, parse, scope);
    GuardedIsBare(max, app, w, n);
    OverrunNeedsSignal(app, w, n);
  }

  // ---------- the verdict does not depend on the chunking ----------

  /** A body as the server delivers it in these chunks. */
  function Chunked(chunks: seq<Bytes>): seq<InMsg> {
    seq(|chunks|, i requires 0 <= i < |chunks| => Request(chunks[i], i < |chunks| - 1))
  }

  /** The application has been handed these chunks, and nothing else happened. */
  function Taken(chunks: seq<Bytes>, k: nat): seq<Obs>
    requires k <= |chunks|
  {
    seq(k, i requires 0 <= i < k => Got(Request(chunks[i], i < |chunks| - 1)))
  }

  /** Reads its body to the end before doing anything else, and lets the overrun signal through. */
  ghost predicate Drains(app: App) {
    && (forall chunks: seq<Bytes>, k: nat :: k < |chunks| ==> app(Taken(chunks, k)) == Receive)
    && (forall chunks: seq<Bytes>, k: nat :: k < |chunks| ==> app(Taken(chunks, k) + [Overran]) == Raise(Overrun))
  }

  /** Such as the application that reads its body and then answers 200. */
  function BodyReadingApp(): App {
    (seen: seq<Obs>) =>
      if seen == [] then Receive
      else
        match seen[|seen| - 1]
        case Got(Request(_, more)) => if more then Receive else Send(Start(200, []))
        case Got(Disconnect) => Send(Start(200, []))
        case Overran => Raise(Overrun)
        case Sent => if |seen| >= 2 && seen[|seen| - 2] == Sent then Return else Send(Body("ok"))
        case Bound => Return
  }

  lemma BodyReadingAppDrains()
    ensures Drains(BodyReadingApp()) && Honest(BodyReadingApp())
  {
  }

  lemma FlattenPrefixLonger(chunks: seq<Bytes>, k: nat)
    requires k < |chunks|
    ensures |Flatten(chunks[..k + 1])| == |Flatten(chunks[..k])| + |chunks[k]|
  {
    FlattenSnoc(chunks[..k], chunks[k]);
    assert chunks[..k] + [chunks[k]] == chunks[..k + 1];
  }

  /** As long as the chunks fit, the application has taken them one by one. */
  lemma {:induction false} TakesWhatFits(max: nat, app: App, w: World, chunks: seq<Bytes>, k: nat)
    requires Drains(app) && w.inbox == Chunked(chunks) && k <= |chunks|
    requires |Flatten(chunks[..k])| <= max
    ensures Guarded(max, app, w, k)
         == Guard(Run(w.(inbox := Chunked(chunks)[k..]), Taken(chunks, k), Running), |Flatten(chunks[..k])|, false)
  {
    if k > 0 {
      FlattenPrefixLonger(chunks, k - 1);
      TakesWhatFits(max, app, w, chunks, k - 1);
      assert app(Taken(chunks, k - 1)) == Receive;
      assert Chunked(chunks)[k - 1..][0] == Chunked(chunks)[k - 1];
      assert Chunked(chunks)[k - 1..][1..] == Chunked(chunks)[k..];
      assert Taken(chunks, k) == Taken(chunks, k - 1) + [Got(Chunked(chunks)[k - 1])];
    } else {
      assert Chunked(chunks)[0..] == Chunked(chunks);
      assert Taken(chunks, 0) == [];
    }
  }

  lemma {:induction false} EndedStays(max: nat, app: App, w: World, k: nat, n: nat)
    requires k <= n && Guarded(max, app, w, k).run.end != Running
    ensures Guarded(max, app, w, n) == Guarded(max, app, w, k)
  {
    if n > k {
      EndedStays(max, app, w, k, n - 1);
    }
  }

  /** The chunk that crosses the ceiling is answered with the signal. */
  lemma CrossingSignals(max: nat, app: App, w: World, chunks: seq<Bytes>, k: nat)
    requires Drains(app) && w.inbox == Chunked(chunks) && k < |chunks|
    requires |Flatten(chunks[..k])| <= max < |Flatten(chunks[..k + 1])|
    ensures var g := Guarded(max, app, w, k + 1);
            && g.run.end == Running && !g.responseStarted
            && g.run.world.wire == w.wire && g.run.seen == Taken(chunks, k) + [Overran]
  {
    FlattenPrefixLonger(chunks, k);
    TakesWhatFits(max, app, w, chunks, k);
    assert app(Taken(chunks, k)) == Receive;
    assert Chunked(chunks)[k..][0] == Chunked(chunks)[k];
  }

  lemma {:induction false} OverrunsAtCrossing(max: nat, app: App, w: World, chunks: seq<Bytes>, k: nat, n: nat)
    requires Drains(app) && w.inbox == Chunked(chunks) && w.wire == []
    requires k <= |chunks| && |Flatten(chunks[..k])| > max && n >= k + 1
    ensures var g := Guarded(max, app, w, n);
            g.run.end == Raised(Overrun) && !g.responseStarted && g.run.world.wire == []
  {
    if |Flatten(chunks[..k - 1])| > max {
      OverrunsAtCrossing(max, app, w, chunks, k - 1, n);
    } else {
      CrossingSignals(max, app, w, chunks, k - 1);
      assert app(Taken(chunks, k - 1) + [Overran]) == Raise(Overrun);
      EndedStays(max, app, w, k + 1, n);
    }
  }

  lemma {:induction false} TotalOfChunked(chunks: seq<Bytes>, k: nat)
    requires k <= |chunks|
    ensures TotalBody(Chunked(chunks)[k..]) + |Flatten(chunks[..k])| == |Flatten(chunks)|
    decreases |chunks| - k
  {
    if k == |chunks| {
      assert chunks[..k] == chunks;
    } else {
      FlattenPrefixLonger(chunks, k);
      TotalOfChunked(chunks, k + 1);
      assert Chunked(chunks)[k..][1..] == Chunked(chunks)[k + 1..];
    }
  }

  /**
   * Chunking independence. For an application that drains its body before responding, the 413 verdict depends
   * on the total alone: beyond the ceiling the wire is exactly the 413, and within it the application is left
   * to take every chunk.
   */
  lemma DrainVerdict(max: nat, parse: ParseInt, scope: Scope, app: App, w: World, chunks: seq<Bytes>, n: nat)
    requires scope.kind == "http" && !DeclaresBeyond(max, parse, scope.headers)
    requires Drains(app) && w.inbox == Chunked(chunks) && w.wire == [] && n > |chunks|
    ensures |Flatten(chunks)| > max ==>
              RefusedAfter(scope.requestId, [], Serve(max, parse, scope, app, w, n).world.wire)
              && Serve(max, parse, scope, app, w, n).end == Returned
    ensures |Flatten(chunks)| <= max ==>
              Guarded(max, app, w, |chunks|).run.seen == Taken(chunks, |chunks|)
              && (Honest(app) ==> Serve(max, parse, scope, app, w, n) == Bare(app, w, n))
  {
    assert chunks[..|chunks|] == chunks;
    DeclaresExactly(max, parse, scope);
    RejectionRefuses(scope.requestId, []);
    if |Flatten(chunks)| > max {
      OverrunsAtCrossing(max, app, w, chunks, |chunks|, n);
    } else {
      TakesWhatFits(max, app, w, chunks, |chunks|);
      TotalOfChunked(chunks, 0);
      assert Chunked(chunks)[0..] == Chunked(chunks);
      if Honest(app) {
        Transparency(max, parse, scope, app, w, n);
      }
    }
  }

  // ---------- the middleware object ----------

  /** One call's closures around receive and send, and the variables they share. */
  class Closures {
    const maxBytes: nat
    const send: SendCallable
    var received: nat
    var responseStarted: bool

    constructor (maxBytes: nat, send: SendCallable)
      ensures this.maxBytes == maxBytes && this.send == send && received == 0 && !responseStarted
    {
      this.maxBytes, this.send := maxBytes, send;
      received, responseStarted := 0, false;
    }

    ghost function State(seen: seq<Obs>): Guard
      reads this, send, send.c
    {
      Guard(Run(send.Seen(), seen, Running), received, responseStarted)
    }

    method ReceiveCountingBody(ghost seen: seq<Obs>) returns (obs: Obs)
      requires send.Valid()
      modifies this, send.c
      ensures send.Valid()
      ensures State(seen + [obs]) == ReceiveCounting(maxBytes, old(State(seen)))
    {
      var message := send.c.Receive();
      obs := Got(message);
      if message.Request? {
        received := received + |message.body|;
        if received > maxBytes {
          obs := Overran;
        }
      }
    }

    method SendTrackingResponseStart(ghost seen: seq<Obs>, message: OutMsg)
      requires send.Valid()
      modifies this, send, send.c
      ensures send.Valid()
      ensures State(seen + [Sent]) == SendTracking(old(State(seen)), message)
    {
      if message.Start? {
        responseStarted := true;
      }
      send.Send(message);
    }
  }

  class MaxBodySizeMiddleware {
    const maxBytes: nat

    constructor (maxBytes: nat)
      ensures this.maxBytes == maxBytes
    {
      this.maxBytes := maxBytes;
    }

    method Reject(scope: Scope, send: SendCallable)
      requires send.Valid()
      modifies send, send.c
      ensures send.Valid()
      ensures send.Seen() == old(send.Seen()).(wire := old(send.sent) + Rejection(scope.requestId))
    {
      var messages := Rejection(scope.requestId);
      send.Send(messages[0]);
      send.Send(messages[1]);
      assert old(send.sent) + [messages[0]] + [messages[1]] == old(send.sent) + messages;
    }

    /** The application, called with the two closures and given n steps. */
    method CallWrapped(app: App, send: SendCallable, n: nat) returns (seen: seq<Obs>, end: End, responseStarted: bool)
      requires send.Valid()
      modifies send, send.c
      ensures send.Valid()
      ensures var g := Guarded(maxBytes, app, old(send.Seen()), n);
              Run(send.Seen(), seen, end) == g.run && responseStarted == g.responseStarted
    {
      ghost var w := send.Seen();
      var closures := new Closures(maxBytes, send);
      seen, end := [], Running;
      for i := 0 to n
        invariant fresh(closures) && closures.send == send && closures.maxBytes == maxBytes && send.Valid()
        invariant closures.State(seen).(run := Run(send.Seen(), seen, end)) == Guarded(maxBytes, app, w, i)
      {
        if end == Running {
          match app(seen)
          case Receive =>
            var obs := closures.ReceiveCountingBody(seen);
            seen := seen + [obs];
          case Send(m) =>
            closures.SendTrackingResponseStart(seen, m);
            seen := seen + [Sent];
          case Bind(k, v) =>
            send.c.context := send.c.context[k := v];
            seen := seen + [Bound];
          case Return => end := Returned;
          case Raise(e) => end := Raised(e);
        }
      }
      responseStarted := closures.responseStarted;
    }

    /** The application, called with the server's receive and send. */
    method CallBare(app: App, send: SendCallable, n: nat) returns (seen: seq<Obs>, end: End)
      requires send.Valid()
      modifies send, send.c
      ensures send.Valid()
      ensures Run(send.Seen(), seen, end) == Bare(app, old(send.Seen()), n)
    {
      ghost var w := send.Seen();
      seen, end := [], Running;
      for i := 0 to n
        invariant send.Valid()
        invariant Run(send.Seen(), seen, end) == Bare(app, w, i)
      {
        if end == Running {
          match app(seen)
          case Receive =>
            var message := send.c.Receive();
            seen := seen + [Got(message)];
          case Send(m) =>
            send.Send(m);
            seen := seen + [Sent];
          case Bind(k, v) =>
            send.c.context := send.c.context[k := v];
            seen := seen + [Bound];
          case Return => end := Returned;
          case Raise(e) => end := Raised(e);
        }
      }
    }

    /** `__call__`. What is sent goes through the callable it was given, message by message. */
    method Call(parse: ParseInt, scope: Scope, app: App, send: SendCallable, n: nat) returns (seen: seq<Obs>, end: End)
      requires send.Valid()
      modifies send, send.c
      ensures send.Valid()
      ensures Run(send.Seen(), seen, end) == Serve(maxBytes, parse, scope, app, old(send.Seen()), n)
    {
      if scope.kind != "http" {
        seen, end := CallBare(app, send, n);
        return;
      }
      var declared := DeclaredBodySize(parse, scope);
      if declared.Some? && declared.value > maxBytes {
        Reject(scope, send);
        return [], Returned;
      }
      var responseStarted;
      seen, end, responseStarted := CallWrapped(app, send, n);
      if end == Raised(Overrun) && !responseStarted {
        Reject(scope, send);
        end := Returned;
      }
    }
  }
}
