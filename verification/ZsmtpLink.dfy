/** The sending side of ZSMTP, and the two sides in lock-step over a connection. */
module ZsmtpLink {
  import opened Utf8
  import opened Text
  import opened Framing
  import opened Codec
  import opened Handshake
  import S = ZsmtpServer
  import V = ZsmtpServing

  datatype ClientState = Connected | AwaitingAuth | Authenticated | Addressed

  datatype ClientError =
    | FramingFailed(error: FramingError)
    | BadGreeting
    | RejectedBy(line: string)
    | RetryLaterBy(line: string)
    | AuthFailed
    | BadAttestation
    | OutOfOrder

  datatype Client = Client(state: ClientState, senderDomain: string, receiverDomain: string, addrUser: Option<string>)

  /** How many more bytes a connection will carry each way before it breaks; none means it does not break. */
  datatype Budget = Budget(up: Option<nat>, down: Option<nat>)

  const WHOLE: Budget := Budget(None, None)

  /** Both ends of a connection, the bytes in flight each way, the sink calls the server has made, and when the
      connection will break. */
  datatype Link = Link(client: Client, server: S.Server, up: Bytes, down: Bytes, calls: seq<S.SinkCall>, open: bool, budget: Budget)

  /** What gets through of bytes written. */
  function Carried(left: Option<nat>, b: Bytes): (r: Bytes)
    ensures r <= b
    ensures left.None? ==> r == b
  {
    if left.None? || |b| <= left.value then b else b[..left.value]
  }

  function Left(left: Option<nat>, b: Bytes): (r: Option<nat>)
    ensures left.None? ==> r.None?
  {
    if left.None? then None else if |b| <= left.value then Some(left.value - |b|) else Some(0)
  }

  /** A client method either succeeds or reports an error. */
  datatype Outcome = Done | Failed(error: ClientError)

  /** The server's output on its way down. */
  function Receive(l: Link, output: Bytes): Link {
    l.(down := l.down + Carried(l.budget.down, output), budget := l.budget.(down := Left(l.budget.down, output)))
  }

  /** The client's request goes out, as far as the connection carries it; while the client waits, the server loop takes
      one turn, and its answer comes back as far as the connection carries that. A server that finds the request cut
      short meets the end of its stream. */
  function Exchange(cfg: S.Config, l: Link, request: Bytes, env: S.Env): Link {
    var l' := l.(budget := l.budget.(up := Left(l.budget.up, request)));
    match S.ServeTurn(cfg, l.server, l.up + Carried(l.budget.up, request), env)
    case HungUp(server, call, said) =>
      Receive(l'.(server := server, up := [], calls := l.calls + V.CallList(call), open := false), said)
    case Answered(server, rest, output, call, quit) =>
      Receive(l'.(server := server, up := rest, calls := l.calls + V.CallList(call), open := !quit), output)
  }

  /** `status_error`. */
  function StatusError(line: string): ClientError {
    var words := Words(line);
    var code := if words == [] then None else ParseUnsigned(words[0], 0xFFFF);
    if code.Some? && 400 <= code.value < 500 then RetryLaterBy(line) else RejectedBy(line)
  }

  /** Reads a status line: the link after it, and an error unless the line starts as expected. */
  function ReadStatus(l: Link, expected: string): (Link, Outcome) {
    match TakeLine(l.down)
    case Refused(e) => (l.(down := PastLine(l.down)), Failed(FramingFailed(e)))
    case Took(line, rest) =>
      var l' := l.(down := rest);
      if StartsWith(line, expected) then (l', Done) else (l', Failed(StatusError(line)))
  }

  /** `connect`: reads and checks the greeting. */
  function ReadGreeting(l: Link): (Link, Outcome) {
    match TakeLine(l.down)
    case Refused(e) => (l.(down := PastLine(l.down)), Failed(FramingFailed(e)))
    case Took(line, rest) =>
      var l' := l.(down := rest);
      if !StartsWith(line, "ZSMTP 1.0 ") || |line| == 10 then (l', Failed(BadGreeting))
      else (l'.(client := l.client.(receiverDomain := line[10..])), Done)
  }

  /** A fresh connection: the server has written its greeting and nothing else has happened. */
  function Dial(cfg: S.Config, senderDomain: string, budget: Budget): Link {
    Receive(Link(Client(Connected, senderDomain, "", None), S.FRESH, [], [], [], true, budget), LineBytes(V.Greeting(cfg)))
  }

  /** A request line, a status, and the blob that comes with it. */
  function AskForBlob(cfg: S.Config, l: Link, line: string, env: S.Env): (Link, Outcome, Bytes) {
    if !Writable(line) then (l, Failed(FramingFailed(LineTooLong)), [])
    else
      var (l', r) := ReadStatus(Exchange(cfg, l, LineBytes(line), env), "250 ");
      if r.Failed? then (l', r, [])
      else
        match TakeBlob(l'.down)
        case Refused(e) => (l'.(down := PastBlob(l'.down)), Failed(FramingFailed(e)), [])
        case Took(blob, rest) => (l'.(down := rest), Done, blob)
  }

  function Greet(cfg: S.Config, l: Link, env: S.Env): (Link, Outcome) {
    var line := Sp("HELLO", l.client.senderDomain);
    if l.client.state != Connected then (l, Failed(OutOfOrder))
    else if !Writable(line) then (l, Failed(FramingFailed(LineTooLong)))
    else
      var (l', r) := ReadStatus(Exchange(cfg, l, LineBytes(line), env), "250 ");
      if r.Done? then (l'.(client := l.client.(state := AwaitingAuth)), Done) else (l', r)
  }

  /** A challenge as issued, with the randomness and the clock given. */
  function Issue(l: Link, nonce: Bytes, now: int): Challenge {
    Challenge(l.client.senderDomain, l.client.receiverDomain, nonce, now)
  }

  /** What the client makes of the AUTH blob at time `now`. */
  predicate AuthBlobGood(p: Primitives, blob: Bytes, receiverPub: Bytes, now: int) {
    match ParseAuthReply(Lossy(blob))
    case None => false
    case Some((c, sig)) => c.Valid() && VerifyResponse(p, c, sig, receiverPub, now)
  }

  function Authenticate(cfg: S.Config, l: Link, env: S.Env, receiverPub: Bytes, nonce: Bytes, issued: int, now: int)
    : (Link, Outcome)
  {
    if l.client.state != AwaitingAuth then (l, Failed(OutOfOrder))
    else
      var (l', r, blob) := AskForBlob(cfg, l, Sp("AUTH", cfg.p.b64.encode(Encode(ToWire(Issue(l, nonce, issued))))), env);
      if r.Failed? then (l', r)
      else if AuthBlobGood(cfg.p, blob, receiverPub, now) then (l'.(client := l.client.(state := Authenticated)), Done)
      else (l', Failed(AuthFailed))
  }

  predicate AddrBlobGood(p: Primitives, blob: Bytes, receiverPub: Bytes, domain: string) {
    match p.fromJson(Lossy(blob))
    case None => false
    case Some(a) => VerifyAttestation(p, a, receiverPub, domain)
  }

  function RequestAddress(cfg: S.Config, l: Link, env: S.Env, user: string, mode: AddrMode, receiverPub: Bytes)
    : (Link, Outcome)
  {
    if l.client.state != Authenticated then (l, Failed(OutOfOrder))
    else
      var (l', r, blob) := AskForBlob(cfg, l, Sp("ADDR", Sp(ModeWord(mode), user)), env);
      if r.Failed? then (l', r)
      else if AddrBlobGood(cfg.p, blob, receiverPub, l.client.receiverDomain)
      then (l'.(client := l.client.(state := Addressed, addrUser := Some(user))), Done)
      else (l', Failed(BadAttestation))
  }

  function SendInvoice(cfg: S.Config, l: Link, env: S.Env, sender: string, messageId: string, payload: Payload, body: Bytes)
    : (Link, Outcome)
  {
    var line := Sp("INVOICE", Sp(sender, Sp(messageId, PayloadWord(payload))));
    if l.client.state != Addressed then (l, Failed(OutOfOrder))
    else if !Writable(line) then (l, Failed(FramingFailed(LineTooLong)))
    else if |body| > MAX_BLOB then (l.(up := l.up + LineBytes(line)), Failed(FramingFailed(BlobTooLarge)))
    else ReadStatus(Exchange(cfg, l, LineBytes(line) + BlobBytes(body), env), "250 ")
  }

  function QuitSession(cfg: S.Config, l: Link, env: S.Env): (Link, Outcome) {
    ReadStatus(Exchange(cfg, l, LineBytes("QUIT"), env), "221 ")
  }

  /** What an invoice carries and the randomness and clock readings of its handshake. */
  datatype Letter = Letter(sender: string, recipient: string, messageId: string, payload: Payload, body: Bytes,
                           nonce: Bytes, issued: int, now: int)

  /** HELLO, AUTH, ADDR, INVOICE, QUIT; the first error ends it. */
  function SendInvoiceOver(cfg: S.Config, l: Link, env: S.Env, receiverPub: Bytes, m: Letter): (Link, Outcome) {
    var (l1, r1) := Greet(cfg, l, env);
    if r1.Failed? then (l1, r1)
    else
      var (l2, r2) := Authenticate(cfg, l1, env, receiverPub, m.nonce, m.issued, m.now);
      if r2.Failed? then (l2, r2)
      else
        var (l3, r3) := RequestAddress(cfg, l2, env, m.recipient, Ephemeral, receiverPub);
        if r3.Failed? then (l3, r3)
        else
          var (l4, r4) := SendInvoice(cfg, l3, env, m.sender, m.messageId, m.payload, m.body);
          if r4.Failed? then (l4, r4) else (QuitSession(cfg, l4, env).0, Done)
  }

  // --------------------------------------------------------------- lock-step

  /** Nothing in flight, and each end is where the other thinks it is. */
  predicate InStep(cfg: S.Config, l: Link) {
    && l.open && l.up == [] && l.down == [] && l.budget == WHOLE
    && l.client.receiverDomain == cfg.domain
    && match l.client.state
       case Connected => l.server == S.FRESH
       case AwaitingAuth => l.server == S.FRESH.(state := S.AwaitingAuth)
       case Authenticated =>
         l.server.state == S.Authenticated && l.server.peerDomain == Some(l.client.senderDomain)
       case Addressed =>
         && l.server.state == S.Authenticated && l.server.peerDomain == Some(l.client.senderDomain)
         && l.client.addrUser.Some? && l.server.addrUser == l.client.addrUser
  }

  predicate LineFits(line: string) {
    Readable(Line(line))
  }

  lemma StatusCodes()
    ensures ToDecimal(S.OK) == "250" && ToDecimal(S.CLOSING) == "221" && ToDecimal(S.TRY_LATER) == "450"
    ensures ToDecimal(S.SYNTAX) == "500" && ToDecimal(S.PERM_REJECT) == "550"
  {
    assert ToDecimal(2) == "2" && ToDecimal(4) == "4" && ToDecimal(5) == "5";
    assert ToDecimal(25) == "25" && ToDecimal(22) == "22" && ToDecimal(45) == "45";
    assert ToDecimal(50) == "50" && ToDecimal(55) == "55";
  }

  lemma StatusErrorClass(code: nat, text: string)
    requires code <= 0xFFFF
    ensures var line := S.StatusLine(code, text);
            StatusError(line) == if 400 <= code < 500 then RetryLaterBy(line) else RejectedBy(line)
  {
    assert NoWhitespace(ToDecimal(code));
    WordsSp(ToDecimal(code), text);
    ParseDecimal(code, 0xFFFF);
  }

  lemma StatusPrefix(head: string, text: string, expected: string)
    requires |head| == |expected|
    ensures StartsWith(Sp(head, text), Sp(expected, "")) <==> head == expected
  {
    var s, e := Sp(head, text), Sp(expected, "");
    assert s[..|head| + 1] == s[..|head|] + [s[|head|]];
    assert e == expected + [' '];
    if s[..|e|] == e {
      assert head == s[..|e|][..|head|];
    }
  }

  /** A status line of a reply is read off the stream and classified by its code alone. */
  lemma StatusRead(l: Link, code: nat, text: string, rest: Bytes)
    requires code == S.OK || code == S.SYNTAX || code == S.PERM_REJECT || code == S.TRY_LATER
    requires LineFits(S.StatusLine(code, text)) && l.down == LineBytes(S.StatusLine(code, text)) + rest
    ensures ReadStatus(l, "250 ")
         == (l.(down := rest),
             if code == S.OK then Done
             else if code == S.TRY_LATER then Failed(RetryLaterBy(S.StatusLine(code, text)))
             else Failed(RejectedBy(S.StatusLine(code, text))))
  {
    var line := S.StatusLine(code, text);
    LineReadsBack(line, rest);
    StatusCodes();
    assert Sp("250", "") == "250 ";
    StatusPrefix(ToDecimal(code), text, "250");
    StatusErrorClass(code, text);
  }

  /** The link after the server has handled `cmd` and answered. */
  function After(cfg: S.Config, l: Link, cmd: Command, env: S.Env): Link {
    var h := S.Handle(cfg, l.server, cmd, env);
    match S.AnswerBytes(h.answer)
    case None => l.(server := h.server, down := l.down + S.Begun(h.answer), calls := l.calls + V.CallList(h.call), open := false)
    case Some(out) => l.(server := h.server, down := l.down + out, calls := l.calls + V.CallList(h.call), open := !cmd.Quit?)
  }

  /** A command line goes out and its answer comes back, nothing else being in flight. */
  lemma LineExchange(cfg: S.Config, l: Link, line: string, cmd: Command, env: S.Env)
    requires l.up == [] && l.budget == WHOLE && LineFits(line)
    requires DecodeLine(cfg.p.b64, line) == Ok(cmd) && !cmd.Invoice?
    ensures Exchange(cfg, l, LineBytes(line), env) == After(cfg, l, cmd, env)
  {
    hide S.Handle, S.AnswerBytes;
    assert l.up + LineBytes(line) == LineBytes(line) + [];
    LineReadsBack(line, []);
  }

  /** An invoice line and its blob go out and one answer comes back. */
  lemma BlobExchange(cfg: S.Config, l: Link, line: string, cmd: Command, body: Bytes, env: S.Env)
    requires l.up == [] && l.budget == WHOLE && LineFits(line) && |body| <= MAX_BLOB
    requires cmd.Invoice? && DecodeLine(cfg.p.b64, line) == Ok(cmd)
    ensures Exchange(cfg, l, LineBytes(line) + BlobBytes(body), env) == After(cfg, l, cmd.(body := body), env)
  {
    hide S.Handle, S.AnswerBytes, DecodeLine;
    var tail := BlobBytes(body) + [];
    assert l.up + (LineBytes(line) + BlobBytes(body)) == LineBytes(line) + tail;
    LineReadsBack(line, tail);
    BlobReadsBack(body, []);
  }

  /** The bytes of an answer whose status line and blob are within bounds. */
  lemma AnswerIs(r: S.Reply)
    requires LineFits(S.StatusLine(r.code, r.text)) && (r.WithBlob? ==> |r.blob| <= MAX_BLOB)
    ensures S.AnswerBytes(S.Replied(r))
         == Some(LineBytes(S.StatusLine(r.code, r.text)) + if r.WithBlob? then BlobBytes(r.blob) else [])
  {
    var line := LineBytes(S.StatusLine(r.code, r.text));
    assert line + [] == line;
  }

  lemma AnswerRead(l: Link, r: S.Reply)
    requires l.down == []
    requires r.code == S.OK || r.code == S.SYNTAX || r.code == S.PERM_REJECT || r.code == S.TRY_LATER
    requires LineFits(S.StatusLine(r.code, r.text)) && (r.WithBlob? ==> |r.blob| <= MAX_BLOB)
    ensures S.AnswerBytes(S.Replied(r)).Some?
    ensures var (l', o) := ReadStatus(l.(down := l.down + S.AnswerBytes(S.Replied(r)).value), "250 ");
            && l' == l.(down := if r.WithBlob? then BlobBytes(r.blob) else [])
            && o == (if r.code == S.OK then Done
                     else if r.code == S.TRY_LATER then Failed(RetryLaterBy(S.StatusLine(r.code, r.text)))
                     else Failed(RejectedBy(S.StatusLine(r.code, r.text))))
  {
    AnswerIs(r);
    var out := S.AnswerBytes(S.Replied(r)).value;
    assert l.down + out == out;
    StatusRead(l.(down := out), r.code, r.text, if r.WithBlob? then BlobBytes(r.blob) else []);
  }

  lemma ConnectInStep(cfg: S.Config, senderDomain: string)
    requires cfg.domain != "" && LineFits(V.Greeting(cfg))
    ensures var (l, r) := ReadGreeting(Dial(cfg, senderDomain, WHOLE));
            && r.Done? && InStep(cfg, l) && l.calls == []
            && l.client == Client(Connected, senderDomain, cfg.domain, None)
  {
    var line := V.Greeting(cfg);
    assert [] + LineBytes(line) == LineBytes(line) + [];
    LineReadsBack(line, []);
    assert line[..10] == "ZSMTP 1.0 " && line[10..] == cfg.domain;
  }

  predicate HelloFits(domain: string) {
    && domain != "" && ' ' !in domain
    && LineFits(Sp("HELLO", domain)) && LineFits(S.StatusLine(S.OK, "Hello " + domain))
  }

  lemma HelloInStep(cfg: S.Config, l: Link, env: S.Env)
    requires InStep(cfg, l) && l.client.state == Connected && HelloFits(l.client.senderDomain)
    ensures var (l', r) := Greet(cfg, l, env);
            && r.Done? && InStep(cfg, l') && l'.calls == l.calls
            && l'.client == l.client.(state := AwaitingAuth)
  {
    hide Exchange, ReadStatus, S.AnswerBytes, DecodeLine, Readable;
    var domain := l.client.senderDomain;
    var line := Sp("HELLO", domain);
    FitsIsWritable(line);
    HelloDecodes(cfg.p.b64, domain);
    LineExchange(cfg, l, line, Codec.Hello(domain), env);
    assert l.calls + [] == l.calls;
    AnswerRead(l.(server := l.server.(state := S.AwaitingAuth)), S.Plain(S.OK, "Hello " + domain));
  }

  lemma FitsIsWritable(line: string)
    requires LineFits(line)
    ensures Writable(line)
  {
  }

  /** A challenge whose wire form survives: domains without bars, everything within its size bound. */
  predicate AuthSized(cfg: S.Config, c: Challenge) {
    && c.Valid() && '|' !in c.senderDomain && '|' !in c.receiverDomain
    && LineFits(Sp("AUTH", cfg.p.b64.encode(Encode(ToWire(c)))))
    && |S.AuthBlob(cfg, c)| <= MAX_BLOB
  }

  /** The conditions of the property: such a challenge, and a clock that moves less than its lifetime. */
  predicate AuthFits(cfg: S.Config, c: Challenge, now: int) {
    && AuthSized(cfg, c) && c.senderDomain != "" && c.receiverDomain != ""
    && 0 <= now - c.issuedAt <= MAX_CHALLENGE_AGE
  }

  lemma ChallengeArrives(c: Challenge)
    requires c.Valid() && '|' !in c.senderDomain && '|' !in c.receiverDomain
    ensures S.ChallengeIn(Encode(ToWire(c))) == Some(c)
  {
    LossyOfText(ToWire(c));
    WireRoundTrip(c);
  }

  lemma AuthBlobAccepted(cfg: S.Config, c: Challenge, now: int)
    requires cfg.p.Lawful() && AuthFits(cfg, c, now)
    ensures AuthBlobGood(cfg.p, S.AuthBlob(cfg, c), cfg.p.publicKey(cfg.key), now)
  {
    var d := cfg.p.hash(ChallengePreimage(c));
    var sig := cfg.p.sign(cfg.key, d);
    assert |sig| == 64 && cfg.p.verify(cfg.p.publicKey(cfg.key), d, sig);
    LossyOfText(AuthReplyText(c, sig));
    AuthReplyRoundTrip(c, sig);
  }

  lemma AuthStatusFits()
    ensures LineFits(S.StatusLine(S.OK, "authenticated")) && LineFits(S.StatusLine(S.OK, "address attestation"))
    ensures LineFits(S.StatusLine(S.SYNTAX, "ADDR requires a user"))
  {
    hide Readable, S.StatusLine, ToDecimal;
    StatusCodes();
    AsciiStatusFits(S.OK, "authenticated");
    AsciiStatusFits(S.OK, "address attestation");
    AsciiStatusFits(S.SYNTAX, "ADDR requires a user");
  }

  lemma AsciiStatusFits(code: nat, text: string)
    requires IsAscii(text) && LfFree(text) && |ToDecimal(code)| == 3 && |text| <= 4000
    ensures LineFits(S.StatusLine(code, text))
  {
    var line := S.StatusLine(code, text);
    assert forall i | 0 <= i < |line| :: line[i] == if i < 3 then line[..3][i] else if i == 3 then ' ' else line[4..][i - 4];
    EncodeAscii(line);
  }

  /** Whatever key the client holds and whatever its clock says: authentication comes to the verdict on the signed
      challenge, the server has recorded the client's domain, and nothing is left in flight. */
  lemma AuthOutcome(cfg: S.Config, l: Link, env: S.Env, pub: Bytes, nonce: Bytes, issued: int, now: int)
    requires cfg.p.b64.Lawful() && InStep(cfg, l) && l.client.state == AwaitingAuth && AuthSized(cfg, Issue(l, nonce, issued))
    ensures var (l', r) := Authenticate(cfg, l, env, pub, nonce, issued, now);
            var good := AuthBlobGood(cfg.p, S.AuthBlob(cfg, Issue(l, nonce, issued)), pub, now);
            && r == (if good then Done else Failed(AuthFailed))
            && l' == l.(server := l.server.(state := S.Authenticated, peerDomain := Some(l.client.senderDomain)),
                        client := if good then l.client.(state := Authenticated) else l.client)
  {
    hide Exchange, ReadStatus, S.AnswerBytes, DecodeLine, Readable, S.AuthBlob, AuthBlobGood, ToWire, S.ChallengeIn;
    var c := Issue(l, nonce, issued);
    var wire := Encode(ToWire(c));
    var line := Sp("AUTH", cfg.p.b64.encode(wire));
    FitsIsWritable(line);
    AuthDecodes(cfg.p.b64, wire);
    LineExchange(cfg, l, line, Auth(wire), env);
    assert l.calls + [] == l.calls;
    ChallengeArrives(c);
    AuthStatusFits();
    var blob := S.AuthBlob(cfg, c);
    var server := l.server.(state := S.Authenticated, peerDomain := Some(c.senderDomain));
    AnswerRead(l.(server := server), S.WithBlob(S.OK, "authenticated", blob));
    BlobReadsBack(blob, []);
    assert BlobBytes(blob) + [] == BlobBytes(blob);
  }

  lemma AuthInStep(cfg: S.Config, l: Link, env: S.Env, nonce: Bytes, issued: int, now: int)
    requires cfg.p.Lawful() && InStep(cfg, l) && l.client.state == AwaitingAuth
    requires AuthFits(cfg, Issue(l, nonce, issued), now)
    ensures var (l', r) := Authenticate(cfg, l, env, cfg.p.publicKey(cfg.key), nonce, issued, now);
            && r.Done? && InStep(cfg, l') && l'.calls == l.calls
            && l'.client == l.client.(state := Authenticated)
  {
    hide Authenticate, AuthSized, AuthBlobGood, S.AuthBlob;
    AuthOutcome(cfg, l, env, cfg.p.publicKey(cfg.key), nonce, issued, now);
    AuthBlobAccepted(cfg, Issue(l, nonce, issued), now);
  }

  predicate AddrFits(cfg: S.Config, mode: AddrMode, user: string, env: S.Env) {
    && LineFits(Sp("ADDR", Sp(ModeWord(mode), user))) && LineFits(S.StatusLine(S.PERM_REJECT, "no such user: " + user))
    && |S.AddrBlob(cfg, mode, user, env)| <= MAX_BLOB
  }

  lemma AddrBlobAccepted(cfg: S.Config, mode: AddrMode, user: string, env: S.Env)
    requires cfg.p.Lawful()
    ensures AddrBlobGood(cfg.p, S.AddrBlob(cfg, mode, user, env), cfg.p.publicKey(cfg.key), cfg.domain)
  {
    var a := SignAttestation(cfg.p, cfg.key, cfg.domain, user, mode, env.address, env.pubkey);
    var unsigned := a.(signature := []);
    assert AttestationPreimage(a) == AttestationPreimage(unsigned);
    var d := cfg.p.hash(AttestationPreimage(unsigned));
    assert |cfg.p.sign(cfg.key, d)| == 64 && cfg.p.verify(cfg.p.publicKey(cfg.key), d, cfg.p.sign(cfg.key, d));
    LossyOfText(cfg.p.toJson(a));
    assert cfg.p.fromJson(cfg.p.toJson(a)) == Some(a);
  }

  /** What asking for an address comes to: the user must be named and known. */
  function AddrVerdict(user: string, env: S.Env): Outcome {
    if user == "" then Failed(RejectedBy(S.StatusLine(S.SYNTAX, "ADDR requires a user")))
    else if !S.Known(env, user) then Failed(RejectedBy(S.StatusLine(S.PERM_REJECT, "no such user: " + user)))
    else Done
  }

  /** What the client has read of the answer to an ADDR when it looks for the blob. */
  function AddrAnswered(cfg: S.Config, l: Link, env: S.Env, user: string, mode: AddrMode): Link {
    if AddrVerdict(user, env).Done?
    then l.(server := l.server.(addrUser := Some(user)), down := BlobBytes(S.AddrBlob(cfg, mode, user, env)))
    else l
  }

  lemma AddrReply(cfg: S.Config, l: Link, env: S.Env, user: string, mode: AddrMode)
    requires InStep(cfg, l) && l.client.state == Authenticated && AddrFits(cfg, mode, user, env)
    ensures ReadStatus(Exchange(cfg, l, LineBytes(Sp("ADDR", Sp(ModeWord(mode), user))), env), "250 ")
         == (AddrAnswered(cfg, l, env, user, mode), AddrVerdict(user, env))
  {
    hide Exchange, ReadStatus, S.AnswerBytes, DecodeLine, Readable, S.AddrBlob, LineBytes, BlobBytes, S.StatusLine;
    var line := Sp("ADDR", Sp(ModeWord(mode), user));
    AddrDecodes(cfg.p.b64, mode, user);
    LineExchange(cfg, l, line, Addr(mode, user), env);
    assert l.calls + [] == l.calls;
    AuthStatusFits();
    if user == "" {
      AnswerRead(l, S.Plain(S.SYNTAX, "ADDR requires a user"));
    } else if !S.Known(env, user) {
      AnswerRead(l, S.Plain(S.PERM_REJECT, "no such user: " + user));
    } else {
      AnswerRead(l.(server := l.server.(addrUser := Some(user))),
                 S.WithBlob(S.OK, "address attestation", S.AddrBlob(cfg, mode, user, env)));
    }
  }

  /** Whatever key the client holds: the address lookup comes to the verdict on the user and then on the attestation,
      and nothing is left in flight. */
  lemma AddrOutcome(cfg: S.Config, l: Link, env: S.Env, user: string, mode: AddrMode, pub: Bytes)
    requires InStep(cfg, l) && l.client.state == Authenticated && AddrFits(cfg, mode, user, env)
    ensures var (l', r) := RequestAddress(cfg, l, env, user, mode, pub);
            var known := AddrVerdict(user, env).Done?;
            var good := known && AddrBlobGood(cfg.p, S.AddrBlob(cfg, mode, user, env), pub, cfg.domain);
            && r == (if good then Done else if known then Failed(BadAttestation) else AddrVerdict(user, env))
            && l' == l.(server := if known then l.server.(addrUser := Some(user)) else l.server,
                        client := if good then l.client.(state := Addressed, addrUser := Some(user)) else l.client)
  {
    hide Exchange, ReadStatus, DecodeLine, Readable, S.AddrBlob, AddrBlobGood, BlobBytes, TakeBlob, LineBytes, S.StatusLine;
    var line := Sp("ADDR", Sp(ModeWord(mode), user));
    FitsIsWritable(line);
    AddrReply(cfg, l, env, user, mode);
    if AddrVerdict(user, env).Done? {
      var blob := S.AddrBlob(cfg, mode, user, env);
      BlobReadsBack(blob, []);
      assert BlobBytes(blob) + [] == BlobBytes(blob);
    }
  }

  lemma AddrInStep(cfg: S.Config, l: Link, env: S.Env, user: string, mode: AddrMode)
    requires cfg.p.Lawful() && InStep(cfg, l) && l.client.state == Authenticated && AddrFits(cfg, mode, user, env)
    ensures var (l', r) := RequestAddress(cfg, l, env, user, mode, cfg.p.publicKey(cfg.key));
            && r == AddrVerdict(user, env) && InStep(cfg, l') && l'.calls == l.calls
            && l'.client == if r.Done? then l.client.(state := Addressed, addrUser := Some(user)) else l.client
  {
    hide RequestAddress, AddrFits, AddrBlobGood, S.AddrBlob, AddrVerdict;
    AddrOutcome(cfg, l, env, user, mode, cfg.p.publicKey(cfg.key));
    AddrBlobAccepted(cfg, mode, user, env);
  }

  predicate InvoiceFits(sender: string, messageId: string, payload: Payload, body: Bytes, env: S.Env) {
    && IsWord(sender) && IsWord(messageId) && |body| <= MAX_BLOB
    && LineFits(Sp("INVOICE", Sp(sender, Sp(messageId, PayloadWord(payload)))))
    && LineFits(S.StatusLine(S.OK, S.AcceptedText(messageId)))
    && LineFits(S.StatusLine(S.OutcomeReply(env.outcome).code, S.OutcomeReply(env.outcome).text))
  }

  /** What the client must report for what the sink said. */
  function InvoiceVerdict(env: S.Env): Outcome {
    if !env.hasSink then Done
    else
      match env.outcome
      case Accepted(_) => Done
      case Rejected(reason) => Failed(RejectedBy(S.StatusLine(S.PERM_REJECT, reason)))
      case RetryLater(reason) => Failed(RetryLaterBy(S.StatusLine(S.TRY_LATER, reason)))
  }

  function Addressee(c: Client): string {
    if c.addrUser.Some? then c.addrUser.value else ""
  }

  lemma InvoiceInStep(cfg: S.Config, l: Link, env: S.Env, sender: string, messageId: string, payload: Payload, body: Bytes)
    requires InStep(cfg, l) && l.client.state == Addressed && InvoiceFits(sender, messageId, payload, body, env)
    ensures var (l', r) := SendInvoice(cfg, l, env, sender, messageId, payload, body);
            && r == InvoiceVerdict(env) && InStep(cfg, l') && l'.client == l.client
            && l'.calls == l.calls +
                 if env.hasSink
                 then [S.SinkCall(sender + "@" + l.client.senderDomain, messageId,
                                  Addressee(l.client) + "@" + cfg.domain, payload, body)]
                 else []
  {
    hide Exchange, ReadStatus, S.AnswerBytes, DecodeLine, Readable, S.StatusLine, S.AcceptedText;
    var line := Sp("INVOICE", Sp(sender, Sp(messageId, PayloadWord(payload))));
    FitsIsWritable(line);
    InvoiceDecodes(cfg.p.b64, sender, messageId, payload);
    BlobExchange(cfg, l, line, Invoice(sender, messageId, payload, []), body, env);
    if env.hasSink {
      AnswerRead(l.(calls := l.calls + V.CallList(S.Handle(cfg, l.server, Invoice(sender, messageId, payload, body), env).call)),
                 S.OutcomeReply(env.outcome));
    } else {
      AnswerRead(l, S.Plain(S.OK, S.AcceptedText(messageId)));
      assert l.calls + [] == l.calls;
    }
  }

  lemma ClosingRead(l: Link, text: string)
    requires LineFits(S.StatusLine(S.CLOSING, text)) && l.down == LineBytes(S.StatusLine(S.CLOSING, text)) + []
    ensures ReadStatus(l, "221 ") == (l.(down := []), Done)
  {
    LineReadsBack(S.StatusLine(S.CLOSING, text), []);
    StatusCodes();
    assert Sp("221", "") == "221 ";
    StatusPrefix(ToDecimal(S.CLOSING), text, "221");
  }

  lemma QuitLineFits()
    ensures LineFits("QUIT")
  {
    EncodeAscii("QUIT");
  }

  lemma QuitKeepsCalls(cfg: S.Config, l: Link, env: S.Env)
    requires InStep(cfg, l) && LineFits(S.StatusLine(S.CLOSING, cfg.domain + " closing connection"))
    ensures var (l', r) := QuitSession(cfg, l, env);
            r.Done? && l'.up == [] && l'.down == [] && l'.calls == l.calls && l'.client == l.client && l'.server == l.server && !l'.open
  {
    hide Exchange, S.AnswerBytes, DecodeLine, ReadStatus, Readable, LineBytes, S.StatusLine;
    var text := cfg.domain + " closing connection";
    QuitDecodes(cfg.p.b64);
    QuitLineFits();
    LineExchange(cfg, l, "QUIT", Quit, env);
    assert l.calls + [] == l.calls;
    AnswerIs(S.Plain(S.CLOSING, text));
    var out := LineBytes(S.StatusLine(S.CLOSING, text)) + [];
    assert l.down + out == out;
    ClosingRead(l.(down := out, open := false), text);
  }

  /** What the lines and blobs of the whole exchange need of its arguments. */
  predicate LetterSized(cfg: S.Config, senderDomain: string, env: S.Env, m: Letter) {
    && HelloFits(senderDomain)
    && AuthSized(cfg, Challenge(senderDomain, cfg.domain, m.nonce, m.issued))
    && AddrFits(cfg, Ephemeral, m.recipient, env)
    && InvoiceFits(m.sender, m.messageId, m.payload, m.body, env)
  }

  /** Everything the whole exchange needs of its arguments: a fresh clock as well. */
  predicate LetterFits(cfg: S.Config, senderDomain: string, env: S.Env, m: Letter) {
    && LetterSized(cfg, senderDomain, env, m)
    && AuthFits(cfg, Challenge(senderDomain, cfg.domain, m.nonce, m.issued), m.now)
    && LineFits(S.StatusLine(S.CLOSING, cfg.domain + " closing connection"))
  }

  /** The sink call the letter stands for. */
  function LetterCall(cfg: S.Config, senderDomain: string, m: Letter): S.SinkCall {
    S.SinkCall(m.sender + "@" + senderDomain, m.messageId, m.recipient + "@" + cfg.domain, m.payload, m.body)
  }

  /** Sending an invoice over a connection. It reports what the address lookup and then the sink decided; the sink
      is called once, with exactly the letter, if the recipient is known, and not at all otherwise; and whatever
      the verdict, no byte is left in flight in either direction. */
  lemma SendInvoiceInStep(cfg: S.Config, l: Link, env: S.Env, m: Letter)
    requires cfg.p.Lawful() && InStep(cfg, l) && l.client.state == Connected && env.hasSink
    requires LetterFits(cfg, l.client.senderDomain, env, m)
    ensures var (l', r) := SendInvoiceOver(cfg, l, env, cfg.p.publicKey(cfg.key), m);
            && l'.up == [] && l'.down == []
            && r == (if AddrVerdict(m.recipient, env).Failed? then AddrVerdict(m.recipient, env) else InvoiceVerdict(env))
            && l'.calls == l.calls + (if AddrVerdict(m.recipient, env).Done? then [LetterCall(cfg, l.client.senderDomain, m)] else [])
            && (r.Done? ==> S.Known(env, m.recipient) && env.outcome.Accepted?
                            && l'.calls == l.calls + [LetterCall(cfg, l.client.senderDomain, m)])
            && (r.Done? <==> AddrVerdict(m.recipient, env).Done? && env.outcome.Accepted?)
  {
    hide Greet, Authenticate, RequestAddress, SendInvoice, QuitSession, HelloFits, AuthFits, AddrFits, InvoiceFits, S.StatusLine;
    HelloInStep(cfg, l, env);
    var l1 := Greet(cfg, l, env).0;
    AuthInStep(cfg, l1, env, m.nonce, m.issued, m.now);
    var l2 := Authenticate(cfg, l1, env, cfg.p.publicKey(cfg.key), m.nonce, m.issued, m.now).0;
    AddrInStep(cfg, l2, env, m.recipient, Ephemeral);
    var l3 := RequestAddress(cfg, l2, env, m.recipient, Ephemeral, cfg.p.publicKey(cfg.key)).0;
    if AddrVerdict(m.recipient, env).Done? {
      InvoiceInStep(cfg, l3, env, m.sender, m.messageId, m.payload, m.body);
      var l4 := SendInvoice(cfg, l3, env, m.sender, m.messageId, m.payload, m.body).0;
      QuitKeepsCalls(cfg, l4, env);
    }
  }

  // --------------------------------------------------- the client as an object

  /** The client with the stream it owns; the peer is the server at the other end. */
  class ZsmptClient {
    const cfg: S.Config
    var state: ClientState
    const senderDomain: string
    var receiverDomain: string
    var addrUser: Option<string>
    const up: Channel
    const down: Channel
    const peer: S.ZsmptSession
    var open: bool

    ghost predicate Valid()
      reads this, up, down, peer
    {
      up != down && peer.cfg == cfg
    }

    constructor (cfg: S.Config, senderDomain: string, up: Channel, down: Channel, peer: S.ZsmptSession)
      requires up != down && peer.cfg == cfg
      ensures Valid() && this.cfg == cfg && this.up == up && this.down == down && this.peer == peer
      ensures Model() == Link(Client(Connected, senderDomain, "", None), peer.Model(), up.data, down.data, peer.calls, true, WHOLE)
    {
      this.cfg, this.senderDomain, this.up, this.down, this.peer := cfg, senderDomain, up, down, peer;
      state, receiverDomain, addrUser, open := Connected, "", None, true;
    }

    ghost function Model(): Link
      reads this, up, down, peer
    {
      Link(Client(state, senderDomain, receiverDomain, addrUser), peer.Model(), up.data, down.data, peer.calls, open, WHOLE)
    }

    method AwaitGreeting() returns (r: Outcome)
      requires Valid()
      modifies this, down
      ensures r == ReadGreeting(old(Model())).1
      ensures Model() == ReadGreeting(old(Model())).0
    {
      var greeting := down.ReadLine();
      if greeting.Refused? {
        return Failed(FramingFailed(greeting.error));
      }
      if !StartsWith(greeting.value, "ZSMTP 1.0 ") || |greeting.value| == 10 {
        return Failed(BadGreeting);
      }
      receiverDomain := greeting.value[10..];
      return Done;
    }

    /** One turn of the peer's loop: read a command, handle it, answer. */
    method PeerTurn(env: S.Env)
      requires Valid()
      modifies up, down, peer, this`open
      ensures Model() == Exchange(cfg, old(Model()), [], env)
    {
      hide S.ServeTurn;
      assert up.data + [] == up.data;
      var went := V.ServeOnce(peer, up, down, env);
      if went == V.Hangs {
        up.data := [];
      }
      open := went == V.Goes;
    }

    method AwaitStatus(expected: string) returns (r: Outcome)
      requires Valid()
      modifies down
      ensures r == ReadStatus(old(Model()), expected).1
      ensures Model() == ReadStatus(old(Model()), expected).0
    {
      var taken := down.ReadLine();
      if taken.Refused? {
        return Failed(FramingFailed(taken.error));
      }
      if !StartsWith(taken.value, expected) {
        return Failed(StatusError(taken.value));
      }
      return Done;
    }

    /** Writes a request line, lets the peer answer, and reads the status. */
    method Ask(line: string, expected: string, env: S.Env) returns (r: Outcome)
      requires Valid()
      modifies up, down, peer, this`open
      ensures var spec := if Writable(line) then ReadStatus(Exchange(cfg, old(Model()), LineBytes(line), env), expected)
                          else (old(Model()), Failed(FramingFailed(LineTooLong)));
              r == spec.1 && Model() == spec.0
    {
      hide S.ServeTurn, StatusError;
      var wrote := up.WriteLine(line);
      if !wrote {
        return Failed(FramingFailed(LineTooLong));
      }
      assert up.data + [] == old(up.data) + LineBytes(line);
      PeerTurn(env);
      r := AwaitStatus(expected);
    }

    method SayHello(env: S.Env) returns (r: Outcome)
      requires Valid()
      modifies this, up, down, peer
      ensures r == Greet(cfg, old(Model()), env).1
      ensures Model() == Greet(cfg, old(Model()), env).0
    {
      hide Exchange, ReadStatus;
      if state != Connected {
        return Failed(OutOfOrder);
      }
      r := Ask(Sp("HELLO", senderDomain), "250 ", env);
      if r.Done? {
        state := AwaitingAuth;
      }
    }

    method RequireAuth(env: S.Env, receiverPub: Bytes, nonce: Bytes, issued: int, now: int) returns (r: Outcome)
      requires Valid()
      modifies this, up, down, peer
      ensures r == Authenticate(cfg, old(Model()), env, receiverPub, nonce, issued, now).1
      ensures Model() == Authenticate(cfg, old(Model()), env, receiverPub, nonce, issued, now).0
    {
      hide Exchange, ReadStatus, AuthBlobGood;
      if state != AwaitingAuth {
        return Failed(OutOfOrder);
      }
      var challenge := Challenge(senderDomain, receiverDomain, nonce, issued);
      r := Ask(Sp("AUTH", cfg.p.b64.encode(Encode(ToWire(challenge)))), "250 ", env);
      if r.Failed? {
        return;
      }
      var blob := down.ReadBlob();
      if blob.Refused? {
        return Failed(FramingFailed(blob.error));
      }
      if !AuthBlobGood(cfg.p, blob.value, receiverPub, now) {
        return Failed(AuthFailed);
      }
      state := Authenticated;
    }

    method AskAddress(env: S.Env, user: string, mode: AddrMode, receiverPub: Bytes) returns (r: Outcome)
      requires Valid()
      modifies this, up, down, peer
      ensures r == RequestAddress(cfg, old(Model()), env, user, mode, receiverPub).1
      ensures Model() == RequestAddress(cfg, old(Model()), env, user, mode, receiverPub).0
    {
      hide Exchange, ReadStatus, AddrBlobGood;
      if state != Authenticated {
        return Failed(OutOfOrder);
      }
      r := Ask(Sp("ADDR", Sp(ModeWord(mode), user)), "250 ", env);
      if r.Failed? {
        return;
      }
      var blob := down.ReadBlob();
      if blob.Refused? {
        return Failed(FramingFailed(blob.error));
      }
      if !AddrBlobGood(cfg.p, blob.value, receiverPub, receiverDomain) {
        return Failed(BadAttestation);
      }
      addrUser := Some(user);
      state := Addressed;
    }

    method PostInvoice(env: S.Env, sender: string, messageId: string, payload: Payload, body: Bytes) returns (r: Outcome)
      requires Valid()
      modifies this, up, down, peer
      ensures r == SendInvoice(cfg, old(Model()), env, sender, messageId, payload, body).1
      ensures Model() == SendInvoice(cfg, old(Model()), env, sender, messageId, payload, body).0
    {
      hide S.ServeTurn, StatusError, LineBytes, BlobBytes, TakeLine;
      if state != Addressed {
        return Failed(OutOfOrder);
      }
      var line := Sp("INVOICE", Sp(sender, Sp(messageId, PayloadWord(payload))));
      var wrote := up.WriteLine(line);
      if !wrote {
        return Failed(FramingFailed(LineTooLong));
      }
      wrote := up.WriteBlob(body);
      if !wrote {
        return Failed(FramingFailed(BlobTooLarge));
      }
      assert up.data + [] == old(up.data) + (LineBytes(line) + BlobBytes(body));
      PeerTurn(env);
      r := AwaitStatus("250 ");
    }

    /** The whole outbound flow; in step with the peer it does what `SendInvoiceInStep` says. */
    method Send(env: S.Env, receiverPub: Bytes, m: Letter) returns (r: Outcome)
      requires Valid()
      modifies this, up, down, peer
      ensures r == SendInvoiceOver(cfg, old(Model()), env, receiverPub, m).1
      ensures Model() == SendInvoiceOver(cfg, old(Model()), env, receiverPub, m).0
    {
      hide Greet, Authenticate, RequestAddress, SendInvoice, Exchange, ReadStatus, LineFits;
      r := SayHello(env);
      if r.Done? {
        r := RequireAuth(env, receiverPub, m.nonce, m.issued, m.now);
      }
      if r.Done? {
        r := AskAddress(env, m.recipient, Ephemeral, receiverPub);
      }
      if r.Done? {
        r := PostInvoice(env, m.sender, m.messageId, m.payload, m.body);
      }
      if r.Done? {
        QuitLineFits();
        FitsIsWritable("QUIT");
        var farewell := Ask("QUIT", "221 ", env);
      }
    }
  }
}
