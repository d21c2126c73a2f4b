/**
 The chat gateway of server.js: it mirrors the connection state of an external
 messaging client (whether the session is ready, and the last pairing code),
 answers the `/qr`, `/status` and `/enviar` HTTP requests from that state, and
 replies to the `/id` chat command.

 Client events are processed one at a time by a pure transition function. The
 pairing-code image encoder and the client's send operation are parameters;
 timers and client start-ups are emitted as effects.
 */
module WhatsappService {
  import opened Wrappers
  import JsText

  /** How long after a disconnection the client is started again. */
  const ReinitDelayMs: nat := 3000

  const MissingFieldsError: string := "group_id e mensagem são obrigatórios"

  const IdCommand: string := "/id"

  // ---------------------------------------------------------------------------
  // Connection lifecycle
  // ---------------------------------------------------------------------------

  datatype Session = Session(
    ready: bool,          // the client reported an authenticated session
    qr: Option<string>,   // data URL of the last pairing code, if any
    pendingReinits: nat)  // restarts scheduled and not yet run

  /** The state when the process starts: not ready, no pairing code. */
  function Boot(): (s: Session)
    ensures !s.ready && s.qr.None? && s.pendingReinits == 0
    ensures PairingConsistent(s)
  {
    Session(false, None, 0)
  }

  datatype ClientEvent =
    | PairingCode(code: string)     // the client asks for a code to be scanned
    | Ready                         // the session is authenticated
    | AuthFailure(message: string)  // authentication was refused
    | Disconnected(reason: string)  // the session was lost
    | ReinitTimer                   // a scheduled restart is due

  datatype ClientEffect =
    | ScheduleReinit(delayMs: nat)  // arm a one-shot restart timer
    | InitializeClient              // start the client again

  datatype Transition = Transition(session: Session, effects: seq<ClientEffect>)

  /** A pairing code is held only while the session is not ready. */
  predicate PairingConsistent(s: Session) {
    s.ready ==> s.qr.None?
  }

  /**
   Handles one client event. `encode` renders a pairing code as an image data
   URL and yields `None` where the encoder throws.
   */
  function OnEvent(s: Session, e: ClientEvent, encode: string -> Option<string>): (t: Transition)
    ensures e.Ready? ==> t.session.ready && t.session.qr.None? && t.effects == []
    ensures e.PairingCode? && encode(e.code).Some? ==>
      && !t.session.ready && t.session.qr == encode(e.code) && t.session.pendingReinits == s.pendingReinits
      && t.effects == []
    ensures e.PairingCode? && encode(e.code).None? ==> t == Transition(s, [])
    ensures e.AuthFailure? ==> t == Transition(s, [])
    ensures e.Disconnected? ==>
      && !t.session.ready && t.session.qr == s.qr
      && t.session.pendingReinits == s.pendingReinits + 1
      && t.effects == [ScheduleReinit(ReinitDelayMs)]
    ensures e.ReinitTimer? ==>
      && t.session.ready == s.ready && t.session.qr == s.qr
      && (s.pendingReinits > 0 ==> t.session.pendingReinits == s.pendingReinits - 1 && t.effects == [InitializeClient])
      && (s.pendingReinits == 0 ==> t == Transition(s, []))
    ensures PairingConsistent(s) ==> PairingConsistent(t.session)
  {
    match e
    case PairingCode(code) =>
      (match encode(code)
       case Some(url) => Transition(s.(qr := Some(url), ready := false), [])
       case None => Transition(s, []))
    case Ready => Transition(s.(ready := true, qr := None), [])
    case AuthFailure(_) => Transition(s, [])
    case Disconnected(_) =>
      Transition(s.(ready := false, pendingReinits := s.pendingReinits + 1), [ScheduleReinit(ReinitDelayMs)])
    case ReinitTimer =>
      if s.pendingReinits > 0 then Transition(s.(pendingReinits := s.pendingReinits - 1), [InitializeClient])
      else Transition(s, [])
  }

  /** Handles the events in order, collecting the effects. */
  function Run(s: Session, events: seq<ClientEvent>, encode: string -> Option<string>): (t: Transition)
    ensures |t.effects| <= |events|
    decreases |events|
  {
    if |events| == 0 then Transition(s, [])
    else
      var t := OnEvent(s, events[0], encode);
      var rest := Run(t.session, events[1..], encode);
      Transition(rest.session, t.effects + rest.effects)
  }

  function CountDisconnects(events: seq<ClientEvent>): nat {
    if |events| == 0 then 0
    else (if events[0].Disconnected? then 1 else 0) + CountDisconnects(events[1..])
  }

  function CountSchedules(effects: seq<ClientEffect>): nat {
    if |effects| == 0 then 0
    else (if effects[0].ScheduleReinit? then 1 else 0) + CountSchedules(effects[1..])
  }

  function CountRestarts(effects: seq<ClientEffect>): nat {
    if |effects| == 0 then 0
    else (if effects[0] == InitializeClient then 1 else 0) + CountRestarts(effects[1..])
  }

  lemma {:induction false} CountsAppend(a: seq<ClientEffect>, b: seq<ClientEffect>)
    ensures CountSchedules(a + b) == CountSchedules(a) + CountSchedules(b)
    ensures CountRestarts(a + b) == CountRestarts(a) + CountRestarts(b)
    decreases |a|
  {
    if |a| > 0 {
      assert (a + b)[1..] == a[1..] + b;
      CountsAppend(a[1..], b);
    } else {
      assert a + b == b;
    }
  }

  /**
   Over any run, each disconnection schedules exactly one restart, and every
   scheduled restart has either run or is still pending.
   */
  lemma {:induction false} OneRestartPerDisconnect(s: Session, events: seq<ClientEvent>, encode: string -> Option<string>)
    ensures var t := Run(s, events, encode);
      && CountSchedules(t.effects) == CountDisconnects(events)
      && CountRestarts(t.effects) + t.session.pendingReinits == s.pendingReinits + CountDisconnects(events)
    decreases |events|
  {
    if |events| > 0 {
      var t := OnEvent(s, events[0], encode);
      OneRestartPerDisconnect(t.session, events[1..], encode);
      CountsAppend(t.effects, Run(t.session, events[1..], encode).effects);
    }
  }

  /** However the events interleave, a ready session never shows a pairing code. */
  lemma {:induction false} RunKeepsPairingConsistent(s: Session, events: seq<ClientEvent>, encode: string -> Option<string>)
    requires PairingConsistent(s)
    ensures PairingConsistent(Run(s, events, encode).session)
    decreases |events|
  {
    if |events| > 0 {
      RunKeepsPairingConsistent(OnEvent(s, events[0], encode).session, events[1..], encode);
    }
  }

  // ---------------------------------------------------------------------------
  // HTTP handlers
  // ---------------------------------------------------------------------------

  /** The body of `GET /qr`. */
  datatype QrReply = QrReply(ready: bool, qr: Option<string>)

  /** The body of `GET /status`. */
  datatype StatusReply = StatusReply(ready: bool)

  function GetQr(s: Session): (r: QrReply)
    ensures PairingConsistent(s) ==> (r.ready ==> r.qr.None?)
  {
    QrReply(s.ready, s.qr)
  }

  function GetStatus(s: Session): (r: StatusReply)
    ensures r.ready == GetQr(s).ready
  {
    StatusReply(s.ready)
  }

  /**
   A successfully rendered pairing code is served with `ready: false`; once
   the session is ready, `/qr` reports `ready: true` and no code.
   */
  lemma PairingThenReady(s: Session, code: string, encode: string -> Option<string>)
    requires encode(code).Some?
    ensures var paired := OnEvent(s, PairingCode(code), encode).session;
      && GetQr(paired) == QrReply(false, encode(code))
      && GetQr(OnEvent(paired, Ready, encode).session) == QrReply(true, None)
  {
  }

  /** After a disconnection `/status` reports not ready. */
  lemma DisconnectedIsNotReady(s: Session, reason: string, encode: string -> Option<string>)
    ensures GetStatus(OnEvent(s, Disconnected(reason), encode).session) == StatusReply(false)
  {
  }

  /** A JSON value of the request body, as JavaScript sees it. */
  datatype JsValue =
    | Undefined          // the field is absent
    | Null
    | Bool(b: bool)
    | Num(n: real)
    | Str(s: string)
    | Composite          // an array or object

  /** JavaScript truthiness of a parsed JSON value. */
  predicate Truthy(v: JsValue) {
    match v
    case Undefined => false
    case Null => false
    case Bool(b) => b
    case Num(n) => n != 0.0
    case Str(s) => s != ""
    case Composite => true
  }

  /** Reading a property of the parsed body; absent properties are `undefined`. */
  function Field(body: map<string, JsValue>, name: string): JsValue {
    if name in body then body[name] else Undefined
  }

  /** How the client's send operation settled; `cause` is the rejection, stringified. */
  datatype SendOutcome = Delivered | Rejected(cause: string)

  datatype ReplyBody = OkTrue | Erro(message: string)

  datatype Reply = Reply(status: nat, body: ReplyBody)

  /** The call made to the client's send operation. */
  datatype SendCall = SendCall(to: JsValue, text: JsValue)

  datatype Handled = Handled(reply: Reply, call: Option<SendCall>)

  /**
   `POST /enviar`: both `group_id` and `mensagem` must be truthy, otherwise the
   request is refused with 400 before anything is sent. The reply is
   `{ok: true}` exactly when the send succeeds, and 500 with the stringified
   cause when it is rejected.
   */
  function PostEnviar(body: map<string, JsValue>, send: (JsValue, JsValue) -> SendOutcome): (h: Handled)
    ensures var to, text := Field(body, "group_id"), Field(body, "mensagem");
      && (h.call.None? <==> !Truthy(to) || !Truthy(text))
      && (h.call.None? ==> h.reply == Reply(400, Erro(MissingFieldsError)))
      && (h.call.Some? ==> h.call.value == SendCall(to, text))
      && (h.reply.body == OkTrue <==> h.call.Some? && send(to, text) == Delivered)
      && (h.reply.body == OkTrue <==> h.reply.status == 200)
      && (h.call.Some? && send(to, text).Rejected? ==> h.reply == Reply(500, Erro(send(to, text).cause)))
  {
    var to, text := Field(body, "group_id"), Field(body, "mensagem");
    if !Truthy(to) || !Truthy(text) then Handled(Reply(400, Erro(MissingFieldsError)), None)
    else
      match send(to, text)
      case Delivered => Handled(Reply(200, OkTrue), Some(SendCall(to, text)))
      case Rejected(cause) => Handled(Reply(500, Erro(cause)), Some(SendCall(to, text)))
  }

  /** An empty string counts as missing, like an absent field. */
  lemma EmptyTextIsRefused(groupId: string, send: (JsValue, JsValue) -> SendOutcome)
    ensures PostEnviar(map["group_id" := Str(groupId), "mensagem" := Str("")], send)
         == Handled(Reply(400, Erro(MissingFieldsError)), None)
  {
  }

  /** A request without a JSON body reaches the handler as `{}` and is refused. */
  lemma EmptyBodyIsRefused(send: (JsValue, JsValue) -> SendOutcome)
    ensures PostEnviar(map[], send) == Handled(Reply(400, Erro(MissingFieldsError)), None)
  {
  }

  // ---------------------------------------------------------------------------
  // The /id chat command
  // ---------------------------------------------------------------------------

  /** An incoming chat message: its text and the chat it came from. */
  datatype Inbound = Inbound(body: string, from: string)

  function IdReply(chat: string): string {
    "\U{1F511} *ID do chat:* " + chat
  }

  /** `/id` in any mix of letter case. */
  predicate IsIdToken(w: string) {
    |w| == 3 && w[0] == '/' && (w[1] == 'i' || w[1] == 'I') && (w[2] == 'd' || w[2] == 'D')
  }

  /** The message is `/id`, in any case, with only white space around it. */
  predicate IdCommandShape(body: string) {
    exists i | 0 <= i <= |body| - 3 ::
      AllBlank(body[..i]) && IsIdToken(body[i..i + 3]) && AllBlank(body[i + 3..])
  }

  predicate AllBlank(s: string) {
    JsText.AllTrimmable(s)
  }

  /** The matcher as the handler writes it: trim, lower-case, compare. */
  predicate IsIdCommand(body: string)
    ensures IsIdCommand(body) ==> |JsText.Trim(body)| == |IdCommand|
  {
    JsText.ToLower(JsText.Trim(body)) == IdCommand
  }

  lemma IdCommandMeansShape(body: string)
    ensures IsIdCommand(body) <==> IdCommandShape(body)
  {
    if IsIdCommand(body) {
      IdCommandHasShape(body);
    }
    if IdCommandShape(body) {
      ShapeIsIdCommand(body);
    }
  }

  /** Only `/`, `i`/`I` and `d`/`D` lower-case to the characters of `/id`. */
  lemma LowerOfIdToken(w: string)
    requires JsText.ToLower(w) == IdCommand
    ensures IsIdToken(w)
  {
    assert JsText.Lower(w[0]) == '/' && JsText.Lower(w[1]) == 'i' && JsText.Lower(w[2]) == 'd';
  }

  lemma IdCommandHasShape(body: string)
    requires IsIdCommand(body)
    ensures IdCommandShape(body)
  {
    var start := JsText.TrimStart(body);
    var t := JsText.TrimEnd(start);
    var i := |body| - |start|;
    LowerOfIdToken(t);
    assert start == body[i..];
    assert t == start[..3];
    assert AllBlank(start[3..]);
    SuffixSlices(body, i);
    assert AllBlank(body[..i]) && IsIdToken(body[i..i + 3]) && AllBlank(body[i + 3..]);
  }

  lemma SplitThree(s: string, i: nat, j: nat)
    requires i <= j <= |s|
    ensures s == s[..i] + s[i..j] + s[j..]
  {
    assert s[..j] == s[..i] + s[i..j];
  }

  /** Cutting three characters off a suffix of `s`, in terms of `s` itself. */
  lemma SuffixSlices(s: string, i: nat)
    requires i + 3 <= |s|
    ensures s[i..][..3] == s[i..i + 3]
    ensures s[i..][3..] == s[i + 3..]
  {
  }

  lemma ShapeIsIdCommand(body: string)
    requires IdCommandShape(body)
    ensures IsIdCommand(body)
  {
    var i :| 0 <= i <= |body| - 3 && AllBlank(body[..i]) && IsIdToken(body[i..i + 3]) && AllBlank(body[i + 3..]);
    var before, token, after := body[..i], body[i..i + 3], body[i + 3..];
    SplitThree(body, i, i + 3);
    TokenAtIsIdCommand(before, token, after);
  }

  lemma TokenAtIsIdCommand(before: string, token: string, after: string)
    requires AllBlank(before) && IsIdToken(token) && AllBlank(after)
    ensures IsIdCommand(before + token + after)
  {
    TrimAroundToken(before, token, after);
    LowerOfToken(token);
  }

  lemma TrimAroundToken(before: string, token: string, after: string)
    requires AllBlank(before) && IsIdToken(token) && AllBlank(after)
    ensures JsText.Trim(before + token + after) == token
  {
    LeadingBlankDropped(before, token, after);
    TrailingBlankDropped(token, after);
  }

  lemma LeadingBlankDropped(before: string, token: string, after: string)
    requires AllBlank(before) && IsIdToken(token)
    ensures JsText.TrimStart(before + token + after) == token + after
  {
    var rest := token + after;
    assert before + token + after == before + rest;
    assert rest[0] == '/';
    JsText.TrimStartSkips(before, rest);
  }

  lemma TrailingBlankDropped(token: string, after: string)
    requires IsIdToken(token) && AllBlank(after)
    ensures JsText.TrimEnd(token + after) == token
  {
    assert token[|token| - 1] == 'd' || token[|token| - 1] == 'D';
    JsText.TrimEndSkips(token, after);
  }

  lemma LowerOfToken(token: string)
    requires IsIdToken(token)
    ensures JsText.ToLower(token) == IdCommand
  {
  }

  /**
   The reply to an incoming message: the chat's identifier, sent exactly when
   the message is the `/id` command.
   */
  function OnMessage(m: Inbound): (reply: Option<string>)
    ensures reply.Some? <==> IdCommandShape(m.body)
    ensures reply.Some? ==> |m.from| <= |reply.value| && reply.value[|reply.value| - |m.from|..] == m.from
  {
    IdCommandMeansShape(m.body);
    if IsIdCommand(m.body) then Some(IdReply(m.from)) else None
  }
}
