/** Connections that break at any byte, in either direction, and what a client that succeeded can rely on. */
module ZsmtpCut {
  import opened Utf8
  import opened Text
  import opened Framing
  import opened Codec
  import opened Handshake
  import opened ZsmtpLink
  import S = ZsmtpServer
  import V = ZsmtpServing

  /** The same link on a connection that does not break. */
  function Mended(l: Link): Link {
    l.(budget := WHOLE)
  }

  /** A turn on the beginning of a stream: it is the turn on the whole stream, or the stream ended too early and the
      server hangs up having done nothing. */
  lemma TurnOfPrefix(cfg: S.Config, s: S.Server, p: Bytes, q: Bytes, env: S.Env)
    ensures var t, u := S.ServeTurn(cfg, s, p, env), S.ServeTurn(cfg, s, p + q, env);
            if t.Answered? then u == t.(rest := t.rest + q) else t == S.HungUp(s, None, []) || u == t
  {
    hide TakeLine, TakeBlob, DecodeLine, S.Handle, S.AnswerBytes, S.Begun, LineBytes, S.StatusLine;
    if TakeLine(p).Took? {
      LineOfPrefix(p, q);
      var rest := TakeLine(p).rest;
      if TakeBlob(rest).Took? { BlobOfPrefix(rest, q); }
    }
  }

  /** What was carried and what was lost. */
  lemma CarriedPart(left: Option<nat>, b: Bytes)
    ensures b == Carried(left, b) + b[|Carried(left, b)|..]
  {
  }

  /** A request and its status over a connection that may break: if the client is satisfied, the request got through
      whole and the status is the one of the unbroken connection; and the sink was called as there, or not at all. */
  lemma AskCut(cfg: S.Config, l: Link, request: Bytes, env: S.Env, expected: string)
    requires l.up == [] && l.down == []
    requires var t := S.ServeTurn(cfg, l.server, request, env); t.Answered? && t.rest == []
    ensures var (c, rc) := ReadStatus(Exchange(cfg, l, request, env), expected);
            var (u, ru) := ReadStatus(Exchange(cfg, Mended(l), request, env), expected);
            && (c.calls == l.calls || c.calls == u.calls) && c.client == l.client
            && (rc.Done? ==> ru.Done? && c.down <= u.down && u == c.(down := u.down, budget := WHOLE))
  {
    hide S.ServeTurn, TakeLine, StatusError, PastLine, StartsWith;
    var sent := Carried(l.budget.up, request);
    var q := request[|sent|..];
    CarriedPart(l.budget.up, request);
    TurnOfPrefix(cfg, l.server, sent, q, env);
    assert [] + sent == sent && [] + request == request && l.calls + [] == l.calls;
    var t := S.ServeTurn(cfg, l.server, sent, env);
    if t.Answered? {
      assert q == [] && sent == request;
      var got := Carried(l.budget.down, t.output);
      var lost := t.output[|got|..];
      CarriedPart(l.budget.down, t.output);
      assert [] + got == got && [] + t.output == t.output;
      if TakeLine(got).Took? { LineOfPrefix(got, lost); }
    } else {
      NothingToTake();
      assert sent + q == request && t == S.HungUp(l.server, None, []);
      var none: Bytes := [];
      assert Carried(l.budget.down, none) == none && none + none == none;
      assert Exchange(cfg, l, request, env).down == none;
    }
  }

  lemma NothingToTake()
    ensures TakeLine([]).Refused? && forall left: Option<nat> :: Carried(left, []) == []
  {
  }

  /** An exchange that leaves the unbroken connection open and used up was one whole turn. */
  lemma OpenIsAnswered(cfg: S.Config, l: Link, request: Bytes, env: S.Env)
    requires l.up == []
    requires var e := Exchange(cfg, Mended(l), request, env); e.open && e.up == []
    ensures var t := S.ServeTurn(cfg, l.server, request, env); t.Answered? && t.rest == []
  {
    hide S.ServeTurn;
    assert [] + request == request;
  }

  /** The blob after a status: taken from what came, it is the blob that was sent, and if that was all, nothing is left. */
  lemma BlobCut(c: Bytes, u: Bytes)
    requires c <= u && TakeBlob(c).Took? && TakeBlob(u).Took? && TakeBlob(u).rest == []
    ensures TakeBlob(c) == TakeBlob(u)
  {
    hide TakeBlob;
    var q := u[|c|..];
    assert u == c + q;
    BlobOfPrefix(c, q);
  }

  lemma BlobThere(c: Bytes, u: Bytes)
    requires c <= u && TakeBlob(c).Took?
    ensures TakeBlob(u).Took?
  {
    hide TakeBlob;
    assert u == c + u[|c|..];
    BlobOfPrefix(c, u[|c|..]);
  }

  // -------------------------------------------------------- the client's steps

  lemma ConnectCut(cfg: S.Config, senderDomain: string, budget: Budget)
    requires cfg.domain != "" && LineFits(V.Greeting(cfg))
    ensures var (c, r) := ReadGreeting(Dial(cfg, senderDomain, budget));
            c.calls == [] && (r.Done? ==> Mended(c) == ReadGreeting(Dial(cfg, senderDomain, WHOLE)).0)
  {
    ConnectInStep(cfg, senderDomain);
    hide TakeLine, LineBytes, V.Greeting, LineFits, PastLine, StartsWith;
    var out := LineBytes(V.Greeting(cfg));
    var got := Carried(budget.down, out);
    CarriedPart(budget.down, out);
    assert [] + got == got && [] + out == out;
    if TakeLine(got).Took? { LineOfPrefix(got, out[|got|..]); }
  }

  lemma HelloCut(cfg: S.Config, l: Link, env: S.Env)
    requires InStep(cfg, Mended(l)) && l.client.state == Connected && HelloFits(l.client.senderDomain)
    ensures var (c, r) := Greet(cfg, l, env);
            c.calls == l.calls && (r.Done? ==> Mended(c) == Greet(cfg, Mended(l), env).0)
  {
    HelloInStep(cfg, Mended(l), env);
    hide Exchange, ReadStatus, HelloFits, LineBytes;
    var line := Sp("HELLO", l.client.senderDomain);
    if Writable(line) {
      KeptByReading(Exchange(cfg, Mended(l), LineBytes(line), env), "250 ");
      OpenIsAnswered(cfg, l, LineBytes(line), env);
      AskCut(cfg, l, LineBytes(line), env, "250 ");
    }
  }

  lemma KeptByReading(l: Link, expected: string)
    ensures var l' := ReadStatus(l, expected).0;
            l'.open == l.open && l'.up == l.up && l'.calls == l.calls && l'.client == l.client && l'.server == l.server
  {
  }

  /** A status and a blob over a connection that may break: if both are read, they are those of the unbroken connection
      and nothing was lost. */
  lemma AskForBlobCut(cfg: S.Config, l: Link, line: string, env: S.Env)
    requires l.up == [] && l.down == [] && Writable(line)
    requires var (u, ru, _) := AskForBlob(cfg, Mended(l), line, env); u.open && u.up == [] && u.down == []
    ensures var (c, rc, bc) := AskForBlob(cfg, l, line, env);
            var (u, ru, bu) := AskForBlob(cfg, Mended(l), line, env);
            && (c.calls == l.calls || c.calls == u.calls) && c.client == l.client
            && (rc.Done? ==> ru.Done? && bc == bu && Mended(c) == u)
  {
    hide Exchange, ReadStatus, TakeBlob, S.ServeTurn, LineBytes, PastBlob;
    var request := LineBytes(line);
    KeptByReading(Exchange(cfg, Mended(l), request, env), "250 ");
    OpenIsAnswered(cfg, l, request, env);
    AskCut(cfg, l, request, env, "250 ");
    var (c, rc) := ReadStatus(Exchange(cfg, l, request, env), "250 ");
    var (u, ru) := ReadStatus(Exchange(cfg, Mended(l), request, env), "250 ");
    if rc.Done? && TakeBlob(c.down).Took? {
      BlobThere(c.down, u.down);
      BlobCut(c.down, u.down);
    }
  }

  lemma AuthCut(cfg: S.Config, l: Link, env: S.Env, pub: Bytes, nonce: Bytes, issued: int, now: int)
    requires cfg.p.b64.Lawful() && InStep(cfg, Mended(l)) && l.client.state == AwaitingAuth && AuthSized(cfg, Issue(l, nonce, issued))
    ensures var (c, r) := Authenticate(cfg, l, env, pub, nonce, issued, now);
            var (u, ru) := Authenticate(cfg, Mended(l), env, pub, nonce, issued, now);
            c.calls == l.calls && (r.Done? ==> ru.Done? && Mended(c) == u)
  {
    hide AskForBlob, AuthBlobGood, ToWire, Encode, AuthSized, Writable, Sp, S.AuthBlob;
    AuthOutcome(cfg, Mended(l), env, pub, nonce, issued, now);
    var c := Issue(l, nonce, issued);
    assert c == Issue(Mended(l), nonce, issued);
    AuthWritable(cfg, c);
    var line := Sp("AUTH", cfg.p.b64.encode(Encode(ToWire(c))));
    AskForBlobCut(cfg, l, line, env);
    var (a, ra, ba) := AskForBlob(cfg, l, line, env);
    assert Authenticate(cfg, l, env, pub, nonce, issued, now).1.Done? ==> ra.Done? && AuthBlobGood(cfg.p, ba, pub, now);
  }

  lemma AuthWritable(cfg: S.Config, c: Challenge)
    requires AuthSized(cfg, c)
    ensures Writable(Sp("AUTH", cfg.p.b64.encode(Encode(ToWire(c)))))
  {
    FitsIsWritable(Sp("AUTH", cfg.p.b64.encode(Encode(ToWire(c)))));
  }

  lemma AddrCut(cfg: S.Config, l: Link, env: S.Env, user: string, mode: AddrMode, pub: Bytes)
    requires InStep(cfg, Mended(l)) && l.client.state == Authenticated && AddrFits(cfg, mode, user, env)
    ensures var (c, r) := RequestAddress(cfg, l, env, user, mode, pub);
            var (u, ru) := RequestAddress(cfg, Mended(l), env, user, mode, pub);
            c.calls == l.calls && (r.Done? ==> ru.Done? && Mended(c) == u)
  {
    hide AskForBlob, AddrBlobGood, AddrFits, Writable, Sp, S.AddrBlob, AddrVerdict, ModeWord;
    AddrOutcome(cfg, Mended(l), env, user, mode, pub);
    AddrWritable(cfg, mode, user, env);
    var line := Sp("ADDR", Sp(ModeWord(mode), user));
    AskForBlobCut(cfg, l, line, env);
    var (a, ra, ba) := AskForBlob(cfg, l, line, env);
    assert RequestAddress(cfg, l, env, user, mode, pub).1.Done? ==> ra.Done? && AddrBlobGood(cfg.p, ba, pub, cfg.domain);
  }

  lemma AddrWritable(cfg: S.Config, mode: AddrMode, user: string, env: S.Env)
    requires AddrFits(cfg, mode, user, env)
    ensures Writable(Sp("ADDR", Sp(ModeWord(mode), user)))
  {
    FitsIsWritable(Sp("ADDR", Sp(ModeWord(mode), user)));
  }

  lemma InvoiceCut(cfg: S.Config, l: Link, env: S.Env, sender: string, messageId: string, payload: Payload, body: Bytes)
    requires InStep(cfg, Mended(l)) && l.client.state == Addressed && InvoiceFits(sender, messageId, payload, body, env)
    ensures var (c, r) := SendInvoice(cfg, l, env, sender, messageId, payload, body);
            var (u, ru) := SendInvoice(cfg, Mended(l), env, sender, messageId, payload, body);
            && (c.calls == l.calls || c.calls == u.calls)
            && (r.Done? ==> ru.Done? && Mended(c) == u)
  {
    hide Exchange, ReadStatus, LineBytes, BlobBytes, InvoiceFits, Writable, Sp, PayloadWord, InvoiceVerdict, S.ServeTurn;
    InvoiceInStep(cfg, Mended(l), env, sender, messageId, payload, body);
    InvoiceWritable(sender, messageId, payload, body, env);
    var line := Sp("INVOICE", Sp(sender, Sp(messageId, PayloadWord(payload))));
    var request := LineBytes(line) + BlobBytes(body);
    KeptByReading(Exchange(cfg, Mended(l), request, env), "250 ");
    OpenIsAnswered(cfg, l, request, env);
    AskCut(cfg, l, request, env, "250 ");
  }

  lemma InvoiceWritable(sender: string, messageId: string, payload: Payload, body: Bytes, env: S.Env)
    requires InvoiceFits(sender, messageId, payload, body, env)
    ensures Writable(Sp("INVOICE", Sp(sender, Sp(messageId, PayloadWord(payload))))) && |body| <= MAX_BLOB
  {
    FitsIsWritable(Sp("INVOICE", Sp(sender, Sp(messageId, PayloadWord(payload)))));
  }

  /** QUIT never delivers, however much of it gets through. */
  lemma QuitCut(cfg: S.Config, l: Link, env: S.Env)
    requires l.up == []
    ensures QuitSession(cfg, l, env).0.calls == l.calls
  {
    hide ReadStatus, S.ServeTurn, LineBytes;
    var request := LineBytes("QUIT");
    var sent := Carried(l.budget.up, request);
    KeptByReading(Exchange(cfg, l, request, env), "221 ");
    CarriedPart(l.budget.up, request);
    QuitTurn(cfg, l.server, env);
    TurnOfPrefix(cfg, l.server, sent, request[|sent|..], env);
    assert [] + sent == sent && l.calls + [] == l.calls;
  }

  lemma QuitTurn(cfg: S.Config, s: S.Server, env: S.Env)
    ensures var t := S.ServeTurn(cfg, s, LineBytes("QUIT"), env);
            if t.Answered? then t.call == None else t.afterCall == None
  {
    hide DecodeLine, LineBytes, S.AnswerBytes, S.Begun, TakeLine;
    QuitLineFits();
    QuitDecodes(cfg.p.b64);
    assert LineBytes("QUIT") == LineBytes("QUIT") + [];
    LineReadsBack("QUIT", []);
  }

  // -------------------------------------------------------------- the property

  /** Sending a letter over a connection that may break at any byte in either direction, with any key and any clock: the
      sink is called with exactly the letter or not at all; and if the client reports success, it was called and it
      accepted. */
  lemma SuccessIsCredible(cfg: S.Config, l: Link, env: S.Env, pub: Bytes, m: Letter)
    requires cfg.p.b64.Lawful() && InStep(cfg, Mended(l)) && l.client.state == Connected && env.hasSink
    requires LetterSized(cfg, l.client.senderDomain, env, m)
    ensures var (c, r) := SendInvoiceOver(cfg, l, env, pub, m);
            var delivered := l.calls + [LetterCall(cfg, l.client.senderDomain, m)];
            && (c.calls == l.calls || c.calls == delivered)
            && (r.Done? ==> c.calls == delivered && env.outcome.Accepted?)
  {
    hide Greet, Authenticate, RequestAddress, SendInvoice, QuitSession, HelloFits, AuthSized, AddrFits, InvoiceFits, AddrVerdict,
         AuthBlobGood, AddrBlobGood, S.AuthBlob, S.AddrBlob, S.StatusLine;
    HelloCut(cfg, l, env);
    HelloInStep(cfg, Mended(l), env);
    var (l1, r1) := Greet(cfg, l, env);
    if r1.Done? {
      AuthCut(cfg, l1, env, pub, m.nonce, m.issued, m.now);
      AuthOutcome(cfg, Mended(l1), env, pub, m.nonce, m.issued, m.now);
      var (l2, r2) := Authenticate(cfg, l1, env, pub, m.nonce, m.issued, m.now);
      if r2.Done? {
        AddrCut(cfg, l2, env, m.recipient, Ephemeral, pub);
        AddrOutcome(cfg, Mended(l2), env, m.recipient, Ephemeral, pub);
        var (l3, r3) := RequestAddress(cfg, l2, env, m.recipient, Ephemeral, pub);
        if r3.Done? {
          InvoiceCut(cfg, l3, env, m.sender, m.messageId, m.payload, m.body);
          InvoiceInStep(cfg, Mended(l3), env, m.sender, m.messageId, m.payload, m.body);
          var (l4, r4) := SendInvoice(cfg, l3, env, m.sender, m.messageId, m.payload, m.body);
          if r4.Done? { QuitCut(cfg, l4, env); }
        }
      }
    }
  }
}
