/** The receiving side of ZSMTP: one session per connection. */
module ZsmtpServer {
  import opened Utf8
  import opened Text
  import opened Framing
  import opened Codec
  import opened Handshake

  datatype SessionState = Greeting | AwaitingAuth | Authenticated

  datatype DeliveryOutcome = Accepted(messageId: string) | Rejected(reason: string) | RetryLater(reason: string)

  /** One call of the delivery sink. */
  datatype SinkCall = SinkCall(
    senderMailbox: string, messageId: string, recipientMailbox: string, payload: Payload, body: Bytes)

  datatype Reply = Plain(code: nat, text: string) | WithBlob(code: nat, text: string, blob: Bytes)

  /** A handler either replies or reports that the command is not allowed now. */
  datatype Handling = Replied(reply: Reply) | OutOfState

  const OK: nat := 250
  const CLOSING: nat := 221
  const TRY_LATER: nat := 450
  const SYNTAX: nat := 500
  const BAD_SEQUENCE: nat := 503
  const NOT_AUTHED: nat := 530
  const PERM_REJECT: nat := 550

  /** What a session is created with. */
  datatype Config = Config(p: Primitives, domain: string, key: Bytes)

  /** What the world answers while one command is handled: whether a sink and a user directory are
      attached, who is registered at that time, what the sink says, and which address is minted. */
  datatype Env = Env(hasSink: bool, directory: Option<set<string>>, outcome: DeliveryOutcome,
                     address: string, pubkey: string)

  /** The mutable part of a session. */
  datatype Server = Server(state: SessionState, peerDomain: Option<string>, addrUser: Option<string>)

  const FRESH: Server := Server(Greeting, None, None)

  /** A handled command: the session after it, the answer, and the sink call it made, if any. */
  datatype Handled = Handled(server: Server, answer: Handling, call: Option<SinkCall>)

  function Refuse(s: Server, code: nat, text: string): Handled {
    Handled(s, Replied(Plain(code, text)), None)
  }

  function OnHello(s: Server, domain: string): Handled {
    if s.state != Greeting then Handled(s, OutOfState, None)
    else if domain == "" then Refuse(s, SYNTAX, "HELLO requires a domain")
    else Handled(s.(state := AwaitingAuth), Replied(Plain(OK, "Hello " + domain)), None)
  }

  /** The challenge of an AUTH command, if it is well-formed. */
  function ChallengeIn(wire: Bytes): (r: Option<Challenge>)
    ensures r.Some? ==> r.value.Valid()
  {
    match FromWire(Lossy(wire))
    case None => None
    case Some(c) => if c.Valid() then Some(c) else None
  }

  function AuthBlob(cfg: Config, c: Challenge): Bytes
    requires c.Valid()
  {
    Encode(AuthReplyText(c, cfg.p.sign(cfg.key, cfg.p.hash(ChallengePreimage(c)))))
  }

  function OnAuth(cfg: Config, s: Server, wire: Bytes): Handled {
    if s.state != AwaitingAuth then Refuse(s, BAD_SEQUENCE, "AUTH not expected now")
    else
      match ChallengeIn(wire)
      case None => Refuse(s, SYNTAX, "malformed challenge")
      case Some(c) =>
        Handled(s.(state := Authenticated, peerDomain := Some(c.senderDomain)),
                Replied(WithBlob(OK, "authenticated", AuthBlob(cfg, c))), None)
  }

  predicate Known(env: Env, user: string) {
    env.directory.Some? ==> user in env.directory.value
  }

  function AddrBlob(cfg: Config, mode: AddrMode, user: string, env: Env): Bytes {
    Encode(cfg.p.toJson(SignAttestation(cfg.p, cfg.key, cfg.domain, user, mode, env.address, env.pubkey)))
  }

  function OnAddr(cfg: Config, s: Server, mode: AddrMode, user: string, env: Env): Handled {
    if s.state != Authenticated then Refuse(s, NOT_AUTHED, "authenticate first")
    else if user == "" then Refuse(s, SYNTAX, "ADDR requires a user")
    else if !Known(env, user) then Refuse(s, PERM_REJECT, "no such user: " + user)
    else
      Handled(s.(addrUser := Some(user)),
              Replied(WithBlob(OK, "address attestation", AddrBlob(cfg, mode, user, env))), None)
  }

  function OutcomeReply(o: DeliveryOutcome): Reply {
    match o
    case Accepted(messageId) => Plain(OK, AcceptedText(messageId))
    case Rejected(reason) => Plain(PERM_REJECT, reason)
    case RetryLater(reason) => Plain(TRY_LATER, reason)
  }

  function AcceptedText(messageId: string): string {
    "accepted into inbox (" + messageId + ")"
  }

  function OnInvoice(cfg: Config, s: Server, sender: string, messageId: string, payload: Payload, body: Bytes,
                     env: Env): Handled
  {
    if s.state != Authenticated then Refuse(s, NOT_AUTHED, "authenticate first")
    else if messageId == "" then Refuse(s, SYNTAX, "INVOICE requires a message id")
    else if s.addrUser.None? then Refuse(s, BAD_SEQUENCE, "INVOICE requires a prior ADDR")
    else if s.peerDomain.None? then Refuse(s, BAD_SEQUENCE, "INVOICE requires a sender")
    else if !env.hasSink then Refuse(s, OK, AcceptedText(messageId))
    else
      var call := SinkCall(sender + "@" + s.peerDomain.value, messageId, s.addrUser.value + "@" + cfg.domain, payload, body);
      Handled(s, Replied(OutcomeReply(env.outcome)), Some(call))
  }

  function Handle(cfg: Config, s: Server, cmd: Command, env: Env): Handled {
    match cmd
    case Hello(domain) => OnHello(s, domain)
    case Auth(challenge) => OnAuth(cfg, s, challenge)
    case Addr(mode, user) => OnAddr(cfg, s, mode, user, env)
    case Invoice(sender, messageId, payload, body) => OnInvoice(cfg, s, sender, messageId, payload, body, env)
    case Status(_, _) => Handled(s, OutOfState, None)
    case Quit => Refuse(s, CLOSING, cfg.domain + " closing connection")
  }

  // ------------------------------------------------------------- on the wire

  function StatusLine(code: nat, text: string): string {
    Sp(ToDecimal(code), text)
  }

  /** What `write_reply` puts on the wire; none when a line or blob is over its limit. */
  function ReplyBytes(r: Reply): Option<Bytes> {
    if !Writable(StatusLine(r.code, r.text)) then None
    else
      match r
      case Plain(code, text) => Some(LineBytes(StatusLine(code, text)))
      case WithBlob(code, text, blob) =>
        if |blob| > MAX_BLOB then None else Some(LineBytes(StatusLine(code, text)) + BlobBytes(blob))
  }

  /** One turn of the read/dispatch loop. */
  datatype Turn =
    | Answered(server: Server, rest: Bytes, output: Bytes, call: Option<SinkCall>, quit: bool)
    | HungUp(afterServer: Server, afterCall: Option<SinkCall>, said: Bytes)

  function AnswerBytes(h: Handling): Option<Bytes> {
    match h
    case OutOfState => ReplyBytes(Plain(BAD_SEQUENCE, "command not allowed now"))
    case Replied(r) => ReplyBytes(r)
  }

  /** What is written of an answer that cannot be written whole: the status line, when only the blob is too large. */
  function Begun(h: Handling): Bytes {
    if h.Replied? && Writable(StatusLine(h.reply.code, h.reply.text)) then LineBytes(StatusLine(h.reply.code, h.reply.text)) else []
  }

  function Dispatch(cfg: Config, s: Server, cmd: Command, rest: Bytes, env: Env): Turn {
    var h := Handle(cfg, s, cmd, env);
    match AnswerBytes(h.answer)
    case None => HungUp(h.server, h.call, Begun(h.answer))
    case Some(out) => Answered(h.server, rest, out, h.call, cmd.Quit?)
  }

  function ServeTurn(cfg: Config, s: Server, input: Bytes, env: Env): Turn {
    match TakeLine(input)
    case Refused(_) => HungUp(s, None, [])
    case Took(line, rest) =>
      match DecodeLine(cfg.p.b64, line)
      case Ok(Invoice(sender, messageId, payload, _)) => (
        match TakeBlob(rest)
        case Refused(_) => HungUp(s, None, [])
        case Took(body, rest') => Dispatch(cfg, s, Invoice(sender, messageId, payload, body), rest', env))
      case Ok(cmd) => Dispatch(cfg, s, cmd, rest, env)
      case _ => Answered(s, rest, LineBytes(StatusLine(SYNTAX, "unknown command")), None, false)
  }

  /** The session object: its fields change as commands are handled. */
  class ZsmptSession {
    const cfg: Config
    var state: SessionState
    var peerDomain: Option<string>
    var addrUser: Option<string>
    /** Every call made to the sink, in order. */
    var calls: seq<SinkCall>

    constructor (cfg: Config)
      ensures this.cfg == cfg && Model() == FRESH && calls == []
    {
      this.cfg := cfg;
      state, peerDomain, addrUser, calls := Greeting, None, None, [];
    }

    function Model(): Server
      reads this
    {
      Server(state, peerDomain, addrUser)
    }

    method HandleHello(domain: string) returns (answer: Handling)
      modifies this
      ensures Handled(Model(), answer, None) == OnHello(old(Model()), domain) && calls == old(calls)
    {
      if state != Greeting {
        return OutOfState;
      }
      if domain == "" {
        return Replied(Plain(SYNTAX, "HELLO requires a domain"));
      }
      state := AwaitingAuth;
      return Replied(Plain(OK, "Hello " + domain));
    }

    method HandleAuth(wire: Bytes) returns (answer: Handling)
      modifies this
      ensures Handled(Model(), answer, None) == OnAuth(cfg, old(Model()), wire) && calls == old(calls)
    {
      hide AuthBlob;
      if state != AwaitingAuth {
        return Replied(Plain(BAD_SEQUENCE, "AUTH not expected now"));
      }
      var challenge := ChallengeIn(wire);
      if challenge.None? {
        return Replied(Plain(SYNTAX, "malformed challenge"));
      }
      var blob := AuthBlob(cfg, challenge.value);
      state := Authenticated;
      peerDomain := Some(challenge.value.senderDomain);
      return Replied(WithBlob(OK, "authenticated", blob));
    }

    method HandleAddr(mode: AddrMode, user: string, env: Env) returns (answer: Handling)
      modifies this
      ensures Handled(Model(), answer, None) == OnAddr(cfg, old(Model()), mode, user, env) && calls == old(calls)
    {
      hide AddrBlob;
      if state != Authenticated {
        return Replied(Plain(NOT_AUTHED, "authenticate first"));
      }
      if user == "" {
        return Replied(Plain(SYNTAX, "ADDR requires a user"));
      }
      if env.directory.Some? && user !in env.directory.value {
        return Replied(Plain(PERM_REJECT, "no such user: " + user));
      }
      var blob := AddrBlob(cfg, mode, user, env);
      addrUser := Some(user);
      return Replied(WithBlob(OK, "address attestation", blob));
    }

    method HandleInvoice(sender: string, messageId: string, payload: Payload, body: Bytes, env: Env)
      returns (answer: Handling)
      modifies this
      ensures var h := OnInvoice(cfg, old(Model()), sender, messageId, payload, body, env);
              && Model() == h.server && answer == h.answer
              && calls == old(calls) + if h.call.Some? then [h.call.value] else []
    {
      if state != Authenticated {
        return Replied(Plain(NOT_AUTHED, "authenticate first"));
      }
      if messageId == "" {
        return Replied(Plain(SYNTAX, "INVOICE requires a message id"));
      }
      if addrUser.None? {
        return Replied(Plain(BAD_SEQUENCE, "INVOICE requires a prior ADDR"));
      }
      if peerDomain.None? {
        return Replied(Plain(BAD_SEQUENCE, "INVOICE requires a sender"));
      }
      if !env.hasSink {
        return Replied(Plain(OK, AcceptedText(messageId)));
      }
      var mailbox := addrUser.value + "@" + cfg.domain;
      var senderMailbox := sender + "@" + peerDomain.value;
      calls := calls + [SinkCall(senderMailbox, messageId, mailbox, payload, body)];
      return Replied(OutcomeReply(env.outcome));
    }

    method HandleCommand(cmd: Command, env: Env) returns (answer: Handling)
      modifies this
      ensures var h := Handle(cfg, old(Model()), cmd, env);
              && Model() == h.server && answer == h.answer
              && calls == old(calls) + if h.call.Some? then [h.call.value] else []
    {
      match cmd
      case Hello(domain) => answer := HandleHello(domain);
      case Auth(challenge) => answer := HandleAuth(challenge);
      case Addr(mode, user) => answer := HandleAddr(mode, user, env);
      case Invoice(sender, messageId, payload, body) =>
        answer := HandleInvoice(sender, messageId, payload, body, env);
      case Status(_, _) => answer := OutOfState;
      case Quit => answer := Replied(Plain(CLOSING, cfg.domain + " closing connection"));
    }
  }

  // ------------------------------------- safety for arbitrary command sequences

  datatype Input = Input(cmd: Command, env: Env)

  /** A command that was handled, what was answered, and the sink call it made. */
  datatype Event = Event(cmd: Command, env: Env, answer: Handling, call: Option<SinkCall>)

  /** The session and the history after a sequence of commands. */
  function Run(cfg: Config, inputs: seq<Input>): (Server, seq<Event>) {
    if inputs == [] then (FRESH, [])
    else
      var (s, past) := Run(cfg, inputs[..|inputs| - 1]);
      var last := inputs[|inputs| - 1];
      var h := Handle(cfg, s, last.cmd, last.env);
      (h.server, past + [Event(last.cmd, last.env, h.answer, h.call)])
  }

  predicate Agreed(e: Event) {
    e.answer.Replied? && e.answer.reply.code == OK
  }

  /** The last ADDR of the history that was answered 250. */
  function LatestAddr(past: seq<Event>): (r: Option<Event>)
    ensures r.Some? ==> r.value in past && r.value.cmd.Addr? && Agreed(r.value)
  {
    if past == [] then None
    else
      var e := past[|past| - 1];
      if e.cmd.Addr? && Agreed(e) then Some(e) else LatestAddr(past[..|past| - 1])
  }

  /** The AUTH commands of the history that were answered 250. */
  function AgreedAuths(past: seq<Event>): seq<Event> {
    if past == [] then []
    else
      var e := past[|past| - 1];
      AgreedAuths(past[..|past| - 1]) + if e.cmd.Auth? && Agreed(e) then [e] else []
  }

  function AgreedHellos(past: seq<Event>): nat {
    if past == [] then 0
    else
      var e := past[|past| - 1];
      AgreedHellos(past[..|past| - 1]) + if e.cmd.Hello? && Agreed(e) then 1 else 0
  }

  /** The domain an accepted AUTH announced. */
  function AnnouncedDomain(e: Event): Option<string>
    requires e.cmd.Auth?
  {
    match ChallengeIn(e.cmd.challenge)
    case None => None
    case Some(c) => Some(c.senderDomain)
  }

  /** What the history says the session must be: no field is mentioned but through events. */
  ghost predicate Reflects(s: Server, past: seq<Event>) {
    && |AgreedAuths(past)| <= 1 && AgreedHellos(past) <= 1
    && (s.state == Greeting <==> AgreedHellos(past) == 0)
    && (s.state == Authenticated <==> |AgreedAuths(past)| == 1)
    && (s.state == Authenticated ==>
          AgreedAuths(past)[0].cmd.Auth? && s.peerDomain == AnnouncedDomain(AgreedAuths(past)[0]) && s.peerDomain.Some?)
    && (s.state != Authenticated ==> s.peerDomain == None)
    && s.addrUser == (if LatestAddr(past).Some? then Some(LatestAddr(past).value.cmd.user) else None)
  }

  /** Which sink call, if any, the history allows its last event to have made: to the user of the latest
      agreed ADDR, from the domain of the one agreed AUTH, with what the INVOICE carried. */
  ghost predicate Justified(cfg: Config, past: seq<Event>, e: Event) {
    e.call.Some? ==>
      && e.cmd.Invoice? && e.env.hasSink
      && LatestAddr(past).Some? && |AgreedAuths(past)| == 1 && AgreedAuths(past)[0].cmd.Auth?
      && var addr := LatestAddr(past).value;
      && var from := AnnouncedDomain(AgreedAuths(past)[0]);
      && Known(addr.env, addr.cmd.user) && addr.cmd.user != ""
      && from.Some?
      && e.call.value == SinkCall(e.cmd.sender + "@" + from.value, e.cmd.messageId,
                                  addr.cmd.user + "@" + cfg.domain, e.cmd.payload, e.cmd.body)
  }

  /** What one handled command does, by kind: when it is agreed to, what it changes, what it delivers. */
  ghost predicate Effect(cfg: Config, s: Server, e: Event, t: Server) {
    match e.cmd
    case Hello(domain) =>
      && (Agreed(e) <==> s.state == Greeting && domain != "")
      && t == (if Agreed(e) then s.(state := AwaitingAuth) else s) && e.call == None
    case Auth(wire) =>
      && (Agreed(e) <==> s.state == AwaitingAuth && ChallengeIn(wire).Some?)
      && t == (if Agreed(e) then s.(state := Authenticated, peerDomain := AnnouncedDomain(e)) else s) && e.call == None
    case Addr(_, user) =>
      && (Agreed(e) <==> s.state == Authenticated && user != "" && Known(e.env, user))
      && t == (if Agreed(e) then s.(addrUser := Some(user)) else s) && e.call == None
    case Invoice(sender, messageId, payload, body) =>
      && t == s
      && (Agreed(e) <==> s.state == Authenticated && messageId != "" && s.addrUser.Some? && s.peerDomain.Some?
                         && (e.env.hasSink ==> e.env.outcome.Accepted?))
      && e.call == (if s.state == Authenticated && messageId != "" && s.addrUser.Some? && s.peerDomain.Some? && e.env.hasSink
                    then Some(SinkCall(sender + "@" + s.peerDomain.value, messageId,
                                       s.addrUser.value + "@" + cfg.domain, payload, body))
                    else None)
    case _ => t == s && e.call == None
  }

  lemma HandleEffect(cfg: Config, s: Server, cmd: Command, env: Env)
    ensures var h := Handle(cfg, s, cmd, env);
            Effect(cfg, s, Event(cmd, env, h.answer, h.call), h.server)
  {
    hide AddrBlob, AuthBlob;
  }

  lemma LastEvent(past: seq<Event>, e: Event)
    ensures LatestAddr(past + [e]) == if e.cmd.Addr? && Agreed(e) then Some(e) else LatestAddr(past)
    ensures AgreedAuths(past + [e]) == AgreedAuths(past) + if e.cmd.Auth? && Agreed(e) then [e] else []
    ensures AgreedHellos(past + [e]) == AgreedHellos(past) + if e.cmd.Hello? && Agreed(e) then 1 else 0
  {
    assert (past + [e])[..|past|] == past;
  }

  lemma EffectReflects(cfg: Config, s: Server, past: seq<Event>, e: Event, t: Server)
    requires Reflects(s, past) && Effect(cfg, s, e, t)
    ensures Reflects(t, past + [e])
  {
    LastEvent(past, e);
  }

  predicate AddressesKnown(past: seq<Event>) {
    forall e | e in past && e.cmd.Addr? && Agreed(e) :: Known(e.env, e.cmd.user) && e.cmd.user != ""
  }

  lemma EffectJustified(cfg: Config, s: Server, past: seq<Event>, e: Event, t: Server)
    requires Reflects(s, past) && Effect(cfg, s, e, t) && AddressesKnown(past)
    ensures Justified(cfg, past, e) && AddressesKnown(past + [e])
  {
  }

  /** The run one command longer, in terms of the run before it. */
  lemma RunStep(cfg: Config, inputs: seq<Input>) returns (s: Server, past: seq<Event>, t: Server, e: Event)
    requires inputs != []
    ensures (s, past) == Run(cfg, inputs[..|inputs| - 1]) && Run(cfg, inputs) == (t, past + [e])
    ensures Effect(cfg, s, e, t)
  {
    var before := Run(cfg, inputs[..|inputs| - 1]);
    s, past := before.0, before.1;
    var last := inputs[|inputs| - 1];
    var h := Handle(cfg, s, last.cmd, last.env);
    t, e := h.server, Event(last.cmd, last.env, h.answer, h.call);
    HandleEffect(cfg, s, last.cmd, last.env);
  }

  /** An INVOICE, in any run: the sink is called if and only if a sink is attached, the history has an agreed ADDR and the
      message id is not empty; and the answer is 250 if and only if those two hold of it and the sink, if there is one,
      accepted. */
  lemma InvoiceExactly(cfg: Config, inputs: seq<Input>, cmd: Command, env: Env)
    requires cmd.Invoice?
    ensures var (s, past) := Run(cfg, inputs);
            var h := Handle(cfg, s, cmd, env);
            var ready := LatestAddr(past).Some? && cmd.messageId != "";
            && (h.call.Some? <==> ready && env.hasSink)
            && (h.answer.Replied? && h.answer.reply.code == 250 <==> ready && (env.hasSink ==> env.outcome.Accepted?))
  {
    hide Handle;
    SessionReflectsHistory(cfg, inputs);
    var (s, past) := Run(cfg, inputs);
    HandleEffect(cfg, s, cmd, env);
    AddrNeedsAuth(cfg, inputs);
  }

  /** An ADDR is agreed only after an AUTH was. */
  lemma {:induction false} AddrNeedsAuth(cfg: Config, inputs: seq<Input>)
    ensures var (s, past) := Run(cfg, inputs); LatestAddr(past).Some? ==> s.state == Authenticated
  {
    if inputs != [] {
      AddrNeedsAuth(cfg, inputs[..|inputs| - 1]);
      var s, past, t, e := RunStep(cfg, inputs);
      LastEvent(past, e);
    }
  }

  /** Whatever a peer sends, the session is what its history says it is, and an address is only ever
      agreed for a user the directory knew at that time. */
  lemma {:induction false} SessionReflectsHistory(cfg: Config, inputs: seq<Input>)
    ensures var (s, past) := Run(cfg, inputs);
            |past| == |inputs| && Reflects(s, past) && AddressesKnown(past)
  {
    if inputs != [] {
      SessionReflectsHistory(cfg, inputs[..|inputs| - 1]);
      var s, past, t, e := RunStep(cfg, inputs);
      EffectReflects(cfg, s, past, e, t);
      EffectJustified(cfg, s, past, e, t);
    }
  }

  /** Safety over every run: each sink call ever made is justified by the history before it. */
  lemma {:induction false} SinkCallsJustified(cfg: Config, inputs: seq<Input>)
    ensures var past := Run(cfg, inputs).1;
            |past| == |inputs| && forall k | 0 <= k < |past| :: Justified(cfg, past[..k], past[k])
  {
    if inputs != [] {
      SinkCallsJustified(cfg, inputs[..|inputs| - 1]);
      SessionReflectsHistory(cfg, inputs[..|inputs| - 1]);
      var s, past, t, e := RunStep(cfg, inputs);
      EffectJustified(cfg, s, past, e, t);
      forall k | 0 <= k < |past + [e]| ensures Justified(cfg, (past + [e])[..k], (past + [e])[k]) {
        if k < |past| {
          assert (past + [e])[..k] == past[..k];
        } else {
          assert (past + [e])[..k] == past;
        }
      }
    }
  }

  function Rank(s: SessionState): nat {
    match s case Greeting => 0 case AwaitingAuth => 1 case Authenticated => 2
  }

  /** One step: states only move forward and one at a time, a recorded peer domain stays, and a command that
      is not answered 250 leaves the session as it was; it reaches the sink only as a delivery the sink turned down. */
  lemma HandleStep(cfg: Config, s: Server, cmd: Command, env: Env)
    ensures var h := Handle(cfg, s, cmd, env);
            && Rank(s.state) <= Rank(h.server.state) <= Rank(s.state) + 1
            && (s.state == Authenticated ==> h.server.peerDomain == s.peerDomain)
            && (h.server.peerDomain != s.peerDomain ==> s.state == AwaitingAuth && h.server.state == Authenticated)
            && (!(h.answer.Replied? && h.answer.reply.code == OK) ==> h.server == s && (h.call.Some? ==> !env.outcome.Accepted?))
  {
  }

  lemma EffectKeepsDomain(cfg: Config, s: Server, past: seq<Event>, e: Event, t: Server)
    requires Reflects(s, past) && Effect(cfg, s, e, t) && s.peerDomain.Some?
    ensures t.peerDomain == s.peerDomain
  {
  }

  /** The peer domain, once recorded, is the one every later state of the run holds. */
  lemma {:induction false} PeerDomainSetOnce(cfg: Config, inputs: seq<Input>, k: nat)
    requires k <= |inputs| && Run(cfg, inputs[..k]).0.peerDomain.Some?
    ensures Run(cfg, inputs).0.peerDomain == Run(cfg, inputs[..k]).0.peerDomain
    decreases |inputs|
  {
    hide Handle;
    if k == |inputs| {
      assert inputs[..k] == inputs;
    } else {
      var n := |inputs| - 1;
      var before := inputs[..n];
      assert before[..k] == inputs[..k];
      PeerDomainSetOnce(cfg, before, k);
      SessionReflectsHistory(cfg, before);
      hide Effect, Reflects, Run, AddressesKnown;
      var s, past, t, e := RunStep(cfg, inputs);
      EffectKeepsDomain(cfg, s, past, e, t);
    }
  }
}
