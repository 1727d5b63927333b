/** Whom a client trusts: what must verify, and under which key, before a letter is sent. */
module ZsmtpTrust {
  import opened Utf8
  import opened Text
  import opened Framing
  import opened Codec
  import opened Handshake
  import opened ZsmtpLink
  import S = ZsmtpServer

  // ---------------------------------------------------------- any peer at all

  /** A connection is greeted if and only if its first line is the protocol's name and a domain, which is then the one the
      client deals with. */
  lemma GreetedExactly(l: Link)
    ensures var (l', r) := ReadGreeting(l);
            && (r.Done? <==> exists domain, rest :: domain != "" && TakeLine(l.down) == Took("ZSMTP 1.0 " + domain, rest))
            && (r.Done? ==> TakeLine(l.down).value == "ZSMTP 1.0 " + l'.client.receiverDomain)
  {
    hide TakeLine, PastLine;
    var taken := TakeLine(l.down);
    if taken.Took? {
      var line := taken.value;
      if StartsWith(line, "ZSMTP 1.0 ") && |line| != 10 {
        assert line == line[..10] + line[10..];
        assert TakeLine(l.down) == Took("ZSMTP 1.0 " + line[10..], taken.rest);
      }
      if domain, rest :| domain != "" && TakeLine(l.down) == Took("ZSMTP 1.0 " + domain, rest) {
        assert line[..10] == "ZSMTP 1.0 ";
      }
    }
  }

  /** The text is a challenge and a signature of it that verifies under the key, sent at most five minutes ago. */
  ghost predicate ProvesKey(p: Primitives, text: string, key: Bytes, now: int) {
    exists c: Challenge, signature: Bytes ::
      && ParseAuthReply(text) == Some((c, signature)) && c.Valid()
      && c.senderDomain != "" && c.receiverDomain != "" && 0 <= now - c.issuedAt <= 300
      && |signature| == 64 && p.verify(key, p.hash(ChallengePreimage(c)), signature)
  }

  /** Whatever is at the other end and however the connection breaks: a client is authenticated if and only if it was
      waiting to be, the request was answered with a blob, and the blob proves the key it was given. */
  lemma AuthenticatedExactly(cfg: S.Config, l: Link, env: S.Env, pub: Bytes, nonce: Bytes, issued: int, now: int)
    ensures var line := Sp("AUTH", cfg.p.b64.encode(Encode(ToWire(Challenge(l.client.senderDomain, l.client.receiverDomain, nonce, issued)))));
            var (_, asked, blob) := AskForBlob(cfg, l, line, env);
            var (l', r) := Authenticate(cfg, l, env, pub, nonce, issued, now);
            && (r.Done? <==> l.client.state == AwaitingAuth && asked.Done? && ProvesKey(cfg.p, Lossy(blob), pub, now))
            && (l'.client.state == Authenticated <==> r.Done? || l.client.state == Authenticated)
  {
    hide AskForBlob, ToWire, Encode, Lossy, ParseAuthReply, ChallengePreimage;
    var line := Sp("AUTH", cfg.p.b64.encode(Encode(ToWire(Issue(l, nonce, issued)))));
    var (l', asked, blob) := AskForBlob(cfg, l, line, env);
    AskKeepsClient(cfg, l, line, env);
  }

  lemma AskKeepsClient(cfg: S.Config, l: Link, line: string, env: S.Env)
    ensures AskForBlob(cfg, l, line, env).0.client == l.client
  {
    hide S.ServeTurn, TakeLine, TakeBlob, Writable, LineBytes, PastLine, PastBlob;
  }

  /** The text is an attestation for the domain whose signature verifies under the key. */
  ghost predicate Attests(p: Primitives, text: string, key: Bytes, domain: string) {
    exists a: Attestation ::
      && p.fromJson(text) == Some(a) && a.domain == domain
      && |a.signature| == 64 && p.verify(key, p.hash(AttestationPreimage(a)), a.signature)
  }

  /** The same for an address: it is taken if and only if the blob attests it for the domain of the greeting. */
  lemma AddressedExactly(cfg: S.Config, l: Link, env: S.Env, user: string, mode: AddrMode, pub: Bytes)
    ensures var (_, asked, blob) := AskForBlob(cfg, l, Sp("ADDR", Sp(ModeWord(mode), user)), env);
            var (l', r) := RequestAddress(cfg, l, env, user, mode, pub);
            && (r.Done? <==> l.client.state == Authenticated && asked.Done? && Attests(cfg.p, Lossy(blob), pub, l.client.receiverDomain))
            && (r.Done? ==> l'.client.state == Addressed && l'.client.addrUser == Some(user))
            && (r.Failed? ==> l'.client == l.client)
  {
    hide AskForBlob, Lossy, AttestationPreimage;
    AskKeepsClient(cfg, l, Sp("ADDR", Sp(ModeWord(mode), user)), env);
  }

  // ------------------------------------------------------------ a server in step

  /** The server's signature of a challenge verifies under the key. */
  predicate SignsFor(cfg: S.Config, key: Bytes, c: Challenge)
    requires c.Valid()
  {
    var digest := cfg.p.hash(ChallengePreimage(c));
    |cfg.p.sign(cfg.key, digest)| == 64 && cfg.p.verify(key, digest, cfg.p.sign(cfg.key, digest))
  }

  predicate AttestsFor(cfg: S.Config, key: Bytes, user: string, mode: AddrMode, env: S.Env) {
    var digest := cfg.p.hash(AttestationPreimage(Attestation(cfg.domain, user, mode, env.address, env.pubkey, [])));
    |cfg.p.sign(cfg.key, digest)| == 64 && cfg.p.verify(key, digest, cfg.p.sign(cfg.key, digest))
  }

  /** With a server in step authentication succeeds if and only if the server's own signature verifies under the client's
      key and the clock is fresh; otherwise the client says that it failed. */
  lemma KeyDecides(cfg: S.Config, l: Link, env: S.Env, pub: Bytes, nonce: Bytes, issued: int, now: int)
    requires cfg.p.Lawful() && InStep(cfg, l) && l.client.state == AwaitingAuth
    requires AuthSized(cfg, Challenge(l.client.senderDomain, cfg.domain, nonce, issued))
    ensures var c := Challenge(l.client.senderDomain, cfg.domain, nonce, issued);
            Authenticate(cfg, l, env, pub, nonce, issued, now).1
            == if c.senderDomain != "" && c.receiverDomain != "" && 0 <= now - issued <= 300 && SignsFor(cfg, pub, c)
               then Done else Failed(AuthFailed)
  {
    hide Authenticate, AuthSized, ChallengePreimage, ParseAuthReply, AuthReplyText, Encode, Lossy;
    var c := Issue(l, nonce, issued);
    AuthValid(cfg, c);
    AuthOutcome(cfg, l, env, pub, nonce, issued, now);
    var sig := cfg.p.sign(cfg.key, cfg.p.hash(ChallengePreimage(c)));
    LossyOfText(AuthReplyText(c, sig));
    AuthReplyRoundTrip(c, sig);
  }

  lemma AuthValid(cfg: S.Config, c: Challenge)
    requires AuthSized(cfg, c)
    ensures c.Valid() && '|' !in c.senderDomain && '|' !in c.receiverDomain
  {
  }

  /** With a server in step an address is taken if and only if the user is named and known and the server's own signature of
      the attestation verifies under the client's key. */
  lemma KeyDecidesAddress(cfg: S.Config, l: Link, env: S.Env, user: string, mode: AddrMode, pub: Bytes)
    requires cfg.p.Lawful() && InStep(cfg, l) && l.client.state == Authenticated && AddrFits(cfg, mode, user, env)
    ensures var r := RequestAddress(cfg, l, env, user, mode, pub).1;
            && (r.Done? <==> user != "" && S.Known(env, user) && AttestsFor(cfg, pub, user, mode, env))
            && (user != "" && S.Known(env, user) && r.Failed? ==> r.error == BadAttestation)
  {
    hide RequestAddress, AddrFits, AttestationPreimage, Encode, Lossy, S.Known;
    AddrOutcome(cfg, l, env, user, mode, pub);
    var unsigned := Attestation(cfg.domain, user, mode, env.address, env.pubkey, []);
    var a := SignAttestation(cfg.p, cfg.key, cfg.domain, user, mode, env.address, env.pubkey);
    SignatureAside(unsigned, a.signature);
    LossyOfText(cfg.p.toJson(a));
    assert cfg.p.fromJson(cfg.p.toJson(a)) == Some(a);
  }

  lemma SignatureAside(a: Attestation, signature: Bytes)
    ensures AttestationPreimage(a.(signature := signature)) == AttestationPreimage(a)
  {
  }

  /** Sending a letter to a server in step, with any key and any clock. It succeeds if and only if the clock is fresh, the
      server's signatures of the challenge and of the address verify under the key, the recipient is known, and the sink
      accepts; and the sink is called, once and with the letter, if and only if all but the last hold. A server that
      signs with another key is never given the letter. */
  lemma LetterNeedsKey(cfg: S.Config, l: Link, env: S.Env, pub: Bytes, m: Letter)
    requires cfg.p.Lawful() && InStep(cfg, l) && l.client.state == Connected && env.hasSink
    requires LetterSized(cfg, l.client.senderDomain, env, m) && LineFits(S.StatusLine(S.CLOSING, cfg.domain + " closing connection"))
    ensures var c := Challenge(l.client.senderDomain, cfg.domain, m.nonce, m.issued);
            var (l', r) := SendInvoiceOver(cfg, l, env, pub, m);
            && c.Valid()
            && var trusted := && c.senderDomain != "" && c.receiverDomain != "" && 0 <= m.now - m.issued <= 300
                              && SignsFor(cfg, pub, c) && m.recipient != "" && S.Known(env, m.recipient)
                              && AttestsFor(cfg, pub, m.recipient, Ephemeral, env);
            && (r.Done? <==> trusted && env.outcome.Accepted?)
            && l'.calls == l.calls + (if trusted then [LetterCall(cfg, l.client.senderDomain, m)] else [])
            && (!(0 <= m.now - m.issued <= 300 && SignsFor(cfg, pub, c)) ==> r == Failed(AuthFailed))
  {
    hide Greet, Authenticate, RequestAddress, SendInvoice, QuitSession, HelloFits, AuthSized, AddrFits, InvoiceFits, S.StatusLine,
         AuthBlobGood, AddrBlobGood, S.AuthBlob, S.AddrBlob, SignsFor, AttestsFor, AddrVerdict;
    var c := Challenge(l.client.senderDomain, cfg.domain, m.nonce, m.issued);
    AuthValid(cfg, c);
    HelloInStep(cfg, l, env);
    var l1 := Greet(cfg, l, env).0;
    AuthOutcome(cfg, l1, env, pub, m.nonce, m.issued, m.now);
    KeyDecides(cfg, l1, env, pub, m.nonce, m.issued, m.now);
    assert l.calls + [] == l.calls;
    var (l2, r2) := Authenticate(cfg, l1, env, pub, m.nonce, m.issued, m.now);
    if r2.Done? {
      AddrOutcome(cfg, l2, env, m.recipient, Ephemeral, pub);
      KeyDecidesAddress(cfg, l2, env, m.recipient, Ephemeral, pub);
      var (l3, r3) := RequestAddress(cfg, l2, env, m.recipient, Ephemeral, pub);
      if r3.Done? {
        InvoiceInStep(cfg, l3, env, m.sender, m.messageId, m.payload, m.body);
        QuitKeepsCalls(cfg, SendInvoice(cfg, l3, env, m.sender, m.messageId, m.payload, m.body).0, env);
      }
    }
  }
}
