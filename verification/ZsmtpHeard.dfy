/** What the server hears of an invoice, and exactly when the client's success can be believed. */
module ZsmtpHeard {
  import opened Utf8
  import opened Text
  import opened Framing
  import opened Codec
  import opened ZsmtpLink
  import S = ZsmtpServer
  import V = ZsmtpServing
  import Cut = ZsmtpCut

  /** The line the client writes. */
  function Said(sender: string, messageId: string, payload: Payload): string {
    Sp("INVOICE", Sp(sender, Sp(messageId, PayloadWord(payload))))
  }

  /** The bytes of an invoice as the client writes them. */
  function Request(sender: string, messageId: string, payload: Payload, body: Bytes): Bytes {
    LineBytes(Said(sender, messageId, payload)) + BlobBytes(body)
  }

  /** The command the server reads first from the client's own bytes, if it reads one. */
  function Heard(cfg: S.Config, sender: string, messageId: string, payload: Payload, body: Bytes): Option<Command> {
    V.CommandOf(cfg, Request(sender, messageId, payload, body))
  }

  /** The bytes of the invoice that are left when the server goes on to its next command. */
  function LeftOver(cfg: S.Config, sender: string, messageId: string, payload: Payload, body: Bytes): Bytes {
    var request := Request(sender, messageId, payload, body);
    if V.Framed(cfg, request) then V.Past(cfg, request) else []
  }

  // ------------------------------------------------- the line as it is taken

  const VERB: string := "INVOICE "

  /** A line taken is what stands before its end, decoded. */
  lemma TakenIs(b: Bytes)
    requires TakeLine(b).Took?
    ensures var n := UntilLf(b);
            && 0 < n <= |b| && b[n - 1] == LF
            && var k := if n >= 2 && b[n - 2] == CR then n - 2 else n - 1; Decode(b[..k]) == Some(TakeLine(b).value)
  {
    hide Decode, UntilLf;
  }

  /** However a line is cut, what is taken of it starts as it does, as far as there is no line end. */
  lemma TakenFrom(e: Bytes, arg: Bytes)
    requires e != [] && LF !in e && e[|e| - 1] != CR
    ensures var t := TakeLine(e + arg); t.Took? ==> exists x :: Decode(e + x) == Some(t.value)
  {
    hide Decode, UntilLf, TakeLine;
    var b := e + arg;
    if TakeLine(b).Took? {
      TakenIs(b);
      var n := UntilLf(b);
      assert n > |e| by { assert forall i | 0 <= i < |e| :: b[i] == e[i]; }
      var k := if n >= 2 && b[n - 2] == CR then n - 2 else n - 1;
      assert k >= |e| by { assert b[|e| - 1] == e[|e| - 1]; }
      assert b[..k] == e + b[|e|..k];
      assert Decode(e + b[|e|..k]) == Some(TakeLine(b).value);
    }
  }

  lemma TakenVerb(arg: Bytes)
    ensures var t := TakeLine(Encode(VERB) + arg); t.Took? ==> exists a :: t.value == Sp("INVOICE", a)
  {
    VerbBytes();
    hide Encode, Decode, TakeLine;
    TakenFrom(Encode(VERB), arg);
    var t := TakeLine(Encode(VERB) + arg);
    if t.Took? {
      var x :| Decode(Encode(VERB) + x) == Some(t.value);
      DecodeAfter(VERB, x);
      var a := Decode(x).value;
      assert VERB + a == Sp("INVOICE", a);
    }
  }

  lemma VerbBytes()
    ensures var e := Encode(VERB); e != [] && LF !in e && e[|e| - 1] != CR
  {
    EncodeAscii(VERB);
  }

  lemma SaidBytes(sender: string, messageId: string, payload: Payload, tail: Bytes)
    ensures var arg := Sp(sender, Sp(messageId, PayloadWord(payload)));
            LineBytes(Said(sender, messageId, payload)) + tail == Encode(VERB) + (Encode(arg) + [CR, LF] + tail)
  {
    var arg := Sp(sender, Sp(messageId, PayloadWord(payload)));
    assert Said(sender, messageId, payload) == VERB + arg;
    hide Encode;
    EncodeConcat(VERB, arg);
  }

  /** The server takes the line for an INVOICE or for nothing. */
  lemma SaidDecodes(cfg: S.Config, sender: string, messageId: string, payload: Payload, tail: Bytes)
    ensures var t := TakeLine(LineBytes(Said(sender, messageId, payload)) + tail);
            t.Took? ==> DecodeLine(cfg.p.b64, t.value) == DecodeInvoice(t.value)
  {
    hide TakeLine, DecodeLine, DecodeInvoice, LineBytes, Encode, Said;
    SaidBytes(sender, messageId, payload, tail);
    var arg := Encode(Sp(sender, Sp(messageId, PayloadWord(payload)))) + [CR, LF] + tail;
    TakenVerb(arg);
    var t := TakeLine(Encode(VERB) + arg);
    if t.Took? {
      var a :| t.value == Sp("INVOICE", a);
      InvoiceVerbDecodes(cfg.p.b64, a);
    }
  }

  /** What is heard is an invoice from a word about a word. */
  lemma HeardIsInvoice(cfg: S.Config, sender: string, messageId: string, payload: Payload, body: Bytes)
    ensures var h := Heard(cfg, sender, messageId, payload, body);
            h.Some? ==> h.value.Invoice? && IsWord(h.value.sender) && IsWord(h.value.messageId)
  {
    hide TakeLine, DecodeLine, DecodeInvoice, LineBytes, BlobBytes, TakeBlob, Said;
    SaidDecodes(cfg, sender, messageId, payload, BlobBytes(body));
    var t := TakeLine(LineBytes(Said(sender, messageId, payload)) + BlobBytes(body));
    if t.Took? && DecodeInvoice(t.value).Ok? { DecodedInvoiceIsClean(t.value); }
  }

  // ------------------------------------------------------- what comes of it

  function CallOf(cfg: S.Config, c: Client, cmd: Command): S.SinkCall
    requires cmd.Invoice?
  {
    S.SinkCall(cmd.sender + "@" + c.senderDomain, cmd.messageId, Addressee(c) + "@" + cfg.domain, cmd.payload, cmd.body)
  }

  /** The turn the server takes on the invoice's bytes. */
  lemma HeardTurn(cfg: S.Config, s: S.Server, env: S.Env, sender: string, messageId: string, payload: Payload, body: Bytes)
    ensures var h := Heard(cfg, sender, messageId, payload, body);
            var left := LeftOver(cfg, sender, messageId, payload, body);
            var t := S.ServeTurn(cfg, s, Request(sender, messageId, payload, body), env);
            if h.Some? then t == S.Dispatch(cfg, s, h.value, left, env)
            else (t == S.HungUp(s, None, []) && left == [])
                 || t == S.Answered(s, left, LineBytes(S.StatusLine(S.SYNTAX, "unknown command")), None, false)
  {
    hide TakeLine, DecodeLine, DecodeInvoice, LineBytes, BlobBytes, TakeBlob, Said, S.Dispatch, S.StatusLine;
    SaidDecodes(cfg, sender, messageId, payload, BlobBytes(body));
    var t := TakeLine(LineBytes(Said(sender, messageId, payload)) + BlobBytes(body));
    if t.Took? && DecodeInvoice(t.value).Ok? { DecodedInvoiceIsClean(t.value); }
  }

  lemma UnknownFits()
    ensures LineFits(S.StatusLine(S.SYNTAX, "unknown command"))
  {
    hide Readable, S.StatusLine, ToDecimal;
    StatusCodes();
    AsciiStatusFits(S.SYNTAX, "unknown command");
  }

  /** What the client learns, and what the sink has been called with by then. */
  lemma FirstAnswer(cfg: S.Config, l: Link, env: S.Env, sender: string, messageId: string, payload: Payload, body: Bytes)
    requires InStep(cfg, l) && l.client.state == Addressed && env.hasSink && env.outcome.Accepted?
    requires Writable(Said(sender, messageId, payload)) && |body| <= MAX_BLOB
    requires LineFits(S.StatusLine(S.OK, S.OutcomeReply(env.outcome).text))
    ensures var h := Heard(cfg, sender, messageId, payload, body);
            var (l', r) := SendInvoice(cfg, l, env, sender, messageId, payload, body);
            && (r.Done? <==> h.Some?)
            && (h.Some? ==> h.value.Invoice?)
            && l'.calls == l.calls + (if h.Some? then [CallOf(cfg, l.client, h.value)] else [])
  {
    hide LineBytes, BlobBytes, Said, S.ServeTurn, Heard, LineFits, S.StatusLine, ReadStatus, Exchange, S.Dispatch, S.OutcomeReply, Writable, CallOf, InStep, LeftOver;
    var request := Request(sender, messageId, payload, body);
    var h := Heard(cfg, sender, messageId, payload, body);
    assert l.calls + [] == l.calls;
    HeardTurn(cfg, l.server, env, sender, messageId, payload, body);
    HeardIsInvoice(cfg, sender, messageId, payload, body);
    SaidIs(sender, messageId, payload);
    if h.Some? {
      HeardReply(cfg, l, request, env, h.value, LeftOver(cfg, sender, messageId, payload, body));
    } else {
      NotHeard(cfg, l, request, env);
    }
  }

  /** The calls the server's loop makes on the invoice's bytes and whatever the client sends after them: one for the
      invoice heard, and then those of the bytes left over, which are run as further commands. */
  lemma HeardServed(cfg: S.Config, l: Link, envs: nat -> S.Env, sender: string, messageId: string, payload: Payload, body: Bytes, tail: Bytes, k: nat)
    requires InStep(cfg, l) && l.client.state == Addressed && envs(k).hasSink
    requires LineFits(S.StatusLine(S.OutcomeReply(envs(k).outcome).code, S.OutcomeReply(envs(k).outcome).text))
    requires Heard(cfg, sender, messageId, payload, body).None? ==> tail == []
    ensures var h := Heard(cfg, sender, messageId, payload, body);
            && (h.Some? ==> h.value.Invoice?)
            && V.Serve(cfg, l.server, Request(sender, messageId, payload, body) + tail, envs, k).calls
               == (if h.Some? then [CallOf(cfg, l.client, h.value)] else [])
                  + V.Serve(cfg, l.server, LeftOver(cfg, sender, messageId, payload, body) + tail, envs, k + 1).calls
  {
    hide Request, S.ServeTurn, Heard, LineFits, S.StatusLine, S.OutcomeReply, LeftOver, LineBytes;
    var request, left := Request(sender, messageId, payload, body), LeftOver(cfg, sender, messageId, payload, body);
    var h := Heard(cfg, sender, messageId, payload, body);
    HeardTurn(cfg, l.server, envs(k), sender, messageId, payload, body);
    HeardIsInvoice(cfg, sender, messageId, payload, body);
    if h.Some? {
      NotEmpty(h.value.messageId);
      PlainReply(envs(k).outcome);
      AnswerIs(S.OutcomeReply(envs(k).outcome));
      Cut.TurnOfPrefix(cfg, l.server, request, tail, envs(k));
    } else {
      assert request + tail == request && left + tail == left;
      NothingServed(cfg, l.server, envs, k + 1);
    }
  }

  lemma PlainReply(outcome: S.DeliveryOutcome)
    ensures S.OutcomeReply(outcome).Plain?
  {
  }

  lemma NothingServed(cfg: S.Config, s: S.Server, envs: nat -> S.Env, k: nat)
    ensures V.Serve(cfg, s, [], envs, k).calls == []
  {
  }

  /** What comes of an invoice, whatever its sender and id. The client is told of success if and only if the server hears
      an invoice; the sink is called for what was heard, and then for whatever the bytes left over, and those the client
      sends later, make of themselves. */
  lemma HeardOutcome(cfg: S.Config, l: Link, envs: nat -> S.Env, sender: string, messageId: string, payload: Payload, body: Bytes, tail: Bytes)
    requires InStep(cfg, l) && l.client.state == Addressed && envs(0).hasSink && envs(0).outcome.Accepted?
    requires Writable(Said(sender, messageId, payload)) && |body| <= MAX_BLOB
    requires LineFits(S.StatusLine(S.OK, S.OutcomeReply(envs(0).outcome).text))
    ensures var h := Heard(cfg, sender, messageId, payload, body);
            var r := SendInvoice(cfg, l, envs(0), sender, messageId, payload, body).1;
            && (r.Done? <==> h.Some?)
            && (h.Some? ==> h.value.Invoice?)
            && (r.Failed? ==> V.Serve(cfg, l.server, Request(sender, messageId, payload, body), envs, 0).calls
                              == V.Serve(cfg, l.server, LeftOver(cfg, sender, messageId, payload, body), envs, 1).calls)
            && (r.Done? ==> V.Serve(cfg, l.server, Request(sender, messageId, payload, body) + tail, envs, 0).calls
                            == [CallOf(cfg, l.client, h.value)] + V.Serve(cfg, l.server, LeftOver(cfg, sender, messageId, payload, body) + tail, envs, 1).calls)
  {
    hide Request, Heard, LineFits, S.StatusLine, LeftOver, SendInvoice, V.Serve, CallOf, InStep, Said, Writable;
    var request, left := Request(sender, messageId, payload, body), LeftOver(cfg, sender, messageId, payload, body);
    FirstAnswer(cfg, l, envs(0), sender, messageId, payload, body);
    if Heard(cfg, sender, messageId, payload, body).Some? {
      HeardServed(cfg, l, envs, sender, messageId, payload, body, tail, 0);
    } else {
      HeardServed(cfg, l, envs, sender, messageId, payload, body, [], 0);
      assert request + [] == request && left + [] == left;
      var calls := V.Serve(cfg, l.server, left, envs, 1).calls;
      assert [] + calls == calls;
    }
  }

  lemma HeardReply(cfg: S.Config, l: Link, request: Bytes, env: S.Env, cmd: Command, rest: Bytes)
    requires InStep(cfg, l) && l.client.state == Addressed && env.hasSink && env.outcome.Accepted?
    requires cmd.Invoice? && IsWord(cmd.messageId) && S.ServeTurn(cfg, l.server, request, env) == S.Dispatch(cfg, l.server, cmd, rest, env)
    requires LineFits(S.StatusLine(S.OK, S.OutcomeReply(env.outcome).text))
    ensures var (l', r) := ReadStatus(Exchange(cfg, l, request, env), "250 ");
            r.Done? && l'.calls == l.calls + [CallOf(cfg, l.client, cmd)]
  {
    hide S.ServeTurn, S.AnswerBytes, LineFits, S.StatusLine, ReadStatus, S.AcceptedText, S.Begun, IsWord;
    assert [] + request == request;
    NotEmpty(cmd.messageId);
    AnswerRead(l.(up := rest, calls := l.calls + [CallOf(cfg, l.client, cmd)]), S.OutcomeReply(env.outcome));
  }

  lemma NotEmpty(w: string)
    requires IsWord(w)
    ensures w != ""
  {
  }

  lemma SaidIs(sender: string, messageId: string, payload: Payload)
    ensures Said(sender, messageId, payload) == Sp("INVOICE", Sp(sender, Sp(messageId, PayloadWord(payload))))
  {
  }

  lemma NotHeard(cfg: S.Config, l: Link, request: Bytes, env: S.Env)
    requires InStep(cfg, l)
    requires var t := S.ServeTurn(cfg, l.server, request, env);
             t == S.HungUp(l.server, None, [])
             || (t.Answered? && t.server == l.server && t.call == None && t.output == LineBytes(S.StatusLine(S.SYNTAX, "unknown command")))
    ensures var (l', r) := ReadStatus(Exchange(cfg, l, request, env), "250 "); r.Failed? && l'.calls == l.calls
  {
    hide LineBytes, S.ServeTurn, S.StatusLine, LineFits, StatusError;
    assert [] + request == request && l.calls + [] == l.calls;
    var t := S.ServeTurn(cfg, l.server, request, env);
    if t.Answered? {
      UnknownFits();
      assert [] + t.output == t.output + [];
      StatusRead(l.(up := t.rest, down := [] + t.output, open := !t.quit), S.SYNTAX, "unknown command", []);
    } else {
      NothingTaken();
    }
  }

  lemma NothingTaken()
    ensures TakeLine([]).Refused?
  {
  }

  /** An invoice heard as itself leaves nothing over. */
  lemma HeardAsItself(cfg: S.Config, sender: string, messageId: string, payload: Payload, body: Bytes)
    requires Heard(cfg, sender, messageId, payload, body) == Some(Invoice(sender, messageId, payload, body)) && |body| <= MAX_BLOB
    ensures LeftOver(cfg, sender, messageId, payload, body) == [] && LineFits(Said(sender, messageId, payload))
  {
    hide Said, LineFits, Heard, LeftOver, LineBytes, BlobBytes, TakeLine, TakeBlob, IsWord;
    HeardIsInvoice(cfg, sender, messageId, payload, body);
    HeardTakes(cfg, sender, messageId, payload, body);
    TakenFits(sender, messageId, payload, BlobBytes(body));
    NothingLeft(cfg, sender, messageId, payload, body);
  }

  lemma HeardTakes(cfg: S.Config, sender: string, messageId: string, payload: Payload, body: Bytes)
    requires Heard(cfg, sender, messageId, payload, body).Some?
    ensures TakeLine(LineBytes(Said(sender, messageId, payload)) + BlobBytes(body)).Took?
  {
    hide TakeLine, LineBytes, BlobBytes, Said;
  }

  /** A line of words that is taken fits. */
  lemma TakenFits(sender: string, messageId: string, payload: Payload, tail: Bytes)
    requires IsWord(sender) && IsWord(messageId) && TakeLine(LineBytes(Said(sender, messageId, payload)) + tail).Took?
    ensures LineFits(Said(sender, messageId, payload))
  {
    WordsOnOneLine(sender, messageId, payload);
    hide TakeLine, Encode, Said;
    NoLineFeed(Said(sender, messageId, payload));
    LineBytesTaken(Encode(Said(sender, messageId, payload)), tail);
  }

  lemma NoLineFeed(s: string)
    requires LfFree(s)
    ensures LF !in Encode(s)
  {
    EncodeAsciiMember(s, '\n');
  }

  lemma WordsOnOneLine(sender: string, messageId: string, payload: Payload)
    requires IsWord(sender) && IsWord(messageId)
    ensures LfFree(Said(sender, messageId, payload))
  {
    KeywordsDecode(Ephemeral, payload);
    SaidIs(sender, messageId, payload);
    WordOnOneLine(sender);
    WordOnOneLine(messageId);
    WordOnOneLine(PayloadWord(payload));
    hide IsWord, LfFree, PayloadWord, Said;
    SpOnOneLine(messageId, PayloadWord(payload));
    SpOnOneLine(sender, Sp(messageId, PayloadWord(payload)));
    assert LfFree("INVOICE") by { VerbIsWord(); WordOnOneLine("INVOICE"); }
    SpOnOneLine("INVOICE", Sp(sender, Sp(messageId, PayloadWord(payload))));
  }

  lemma WordOnOneLine(w: string)
    requires IsWord(w)
    ensures LfFree(w)
  {
    assert IsWhitespace('\n');
  }

  lemma SpOnOneLine(a: string, b: string)
    requires LfFree(a) && LfFree(b)
    ensures LfFree(Sp(a, b))
  {
  }

  /** Of a line that fits the server leaves nothing over when it hears an invoice; otherwise it runs the blob, header and
      body, as commands. */
  lemma NothingLeft(cfg: S.Config, sender: string, messageId: string, payload: Payload, body: Bytes)
    requires LineFits(Said(sender, messageId, payload)) && |body| <= MAX_BLOB
    ensures LeftOver(cfg, sender, messageId, payload, body)
         == if Heard(cfg, sender, messageId, payload, body).Some? then [] else BlobBytes(body)
  {
    hide TakeLine, DecodeLine, DecodeInvoice, LineBytes, BlobBytes, TakeBlob, Said;
    var line, tail := Said(sender, messageId, payload), BlobBytes(body);
    LineReadsBack(line, tail);
    SaidDecodes(cfg, sender, messageId, payload, tail);
    BlobReadsBack(body, []);
    assert tail + [] == tail;
    if DecodeInvoice(line).Ok? { DecodedInvoiceIsClean(line); }
  }

  /** Exactly when success can be believed: a client told of success has had exactly its invoice delivered, and nothing
      but what it sends later, if and only if the server hears of the invoice's own bytes that invoice or nothing. */
  lemma CredibleExactly(cfg: S.Config, l: Link, envs: nat -> S.Env, sender: string, messageId: string, payload: Payload, body: Bytes, tail: Bytes)
    requires InStep(cfg, l) && l.client.state == Addressed && envs(0).hasSink && envs(0).outcome.Accepted?
    requires Writable(Said(sender, messageId, payload)) && |body| <= MAX_BLOB
    requires LineFits(S.StatusLine(S.OK, S.OutcomeReply(envs(0).outcome).text))
    ensures var h := Heard(cfg, sender, messageId, payload, body);
            var mine := Invoice(sender, messageId, payload, body);
            var r := SendInvoice(cfg, l, envs(0), sender, messageId, payload, body).1;
            (r.Done? ==> V.Serve(cfg, l.server, Request(sender, messageId, payload, body) + tail, envs, 0).calls
                         == [CallOf(cfg, l.client, mine)] + V.Serve(cfg, l.server, tail, envs, 1).calls)
            <==> (h.Some? ==> h == Some(mine))
  {
    hide SendInvoice, Heard, InStep, Said, LineFits, Request, LeftOver, V.Serve, CallOf;
    HeardOutcome(cfg, l, envs, sender, messageId, payload, body, tail);
    var h := Heard(cfg, sender, messageId, payload, body);
    var mine := Invoice(sender, messageId, payload, body);
    if h == Some(mine) {
      HeardAsItself(cfg, sender, messageId, payload, body);
      assert [] + tail == tail;
    } else if h.Some? {
      SameCall(cfg, l, h.value, mine);
      var later, left := V.Serve(cfg, l.server, tail, envs, 1).calls, V.Serve(cfg, l.server, LeftOver(cfg, sender, messageId, payload, body) + tail, envs, 1).calls;
      assert ([CallOf(cfg, l.client, h.value)] + left)[0] != ([CallOf(cfg, l.client, mine)] + later)[0];
    }
  }

  /** Exactly when failure can be believed, for a line that fits: a client told of failure has had nothing delivered, if
      and only if sender and id come to two words between them, or the blob, run as commands, delivers nothing. */
  lemma FailureExactly(cfg: S.Config, l: Link, envs: nat -> S.Env, sender: string, messageId: string, payload: Payload, body: Bytes)
    requires InStep(cfg, l) && l.client.state == Addressed && envs(0).hasSink && envs(0).outcome.Accepted?
    requires LineFits(Said(sender, messageId, payload)) && |body| <= MAX_BLOB
    requires LineFits(S.StatusLine(S.OK, S.OutcomeReply(envs(0).outcome).text))
    ensures var r := SendInvoice(cfg, l, envs(0), sender, messageId, payload, body).1;
            (r.Failed? ==> V.Serve(cfg, l.server, Request(sender, messageId, payload, body), envs, 0).calls == [])
            <==> |Words(sender)| + |Words(messageId)| == 2 || V.Serve(cfg, l.server, BlobBytes(body), envs, 1).calls == []
  {
    FitsWritable(Said(sender, messageId, payload));
    hide SendInvoice, Heard, InStep, Said, LineFits, Request, LeftOver, V.Serve, CallOf, Words, DecodeInvoice, BlobBytes, Writable;
    HeardOutcome(cfg, l, envs, sender, messageId, payload, body, []);
    NothingLeft(cfg, sender, messageId, payload, body);
    HeardIfFits(cfg, sender, messageId, payload, body);
    SaidInvoice(sender, messageId, payload);
  }

  lemma FitsWritable(line: string)
    requires LineFits(line)
    ensures Writable(line)
  {
  }

  lemma SameCall(cfg: S.Config, l: Link, x: Command, y: Command)
    requires x.Invoice? && y.Invoice?
    ensures CallOf(cfg, l.client, x) == CallOf(cfg, l.client, y) <==> x == y
  {
    var c, d := CallOf(cfg, l.client, x), CallOf(cfg, l.client, y);
    var tail := "@" + l.client.senderDomain;
    assert x.sender + tail == c.senderMailbox by { assert x.sender + "@" + l.client.senderDomain == x.sender + tail; }
    assert y.sender + tail == d.senderMailbox by { assert y.sender + "@" + l.client.senderDomain == y.sender + tail; }
    if c.senderMailbox == d.senderMailbox {
      assert |x.sender| == |y.sender|;
      assert x.sender == (x.sender + tail)[..|x.sender|] && y.sender == (y.sender + tail)[..|y.sender|];
    }
  }

  // ------------------------------------------------------ for lines that fit

  lemma SpacedWords(a: string, b: string)
    ensures Words(Sp(a, b)) == Words(a) + Words(b)
  {
    WordsAppend(a, " " + b);
    assert a + (" " + b) == Sp(a, b);
    SpaceFirst(b);
  }

  lemma SpaceFirst(b: string)
    ensures Words(" " + b) == Words(b)
  {
    assert (" " + b)[1..] == b;
  }

  lemma SaidWords(sender: string, messageId: string, payload: Payload)
    ensures Words(Said(sender, messageId, payload)) == ["INVOICE"] + Words(sender) + Words(messageId) + [PayloadWord(payload)]
  {
    hide Words;
    SpacedWords("INVOICE", Sp(sender, Sp(messageId, PayloadWord(payload))));
    SpacedWords(sender, Sp(messageId, PayloadWord(payload)));
    SpacedWords(messageId, PayloadWord(payload));
    KeywordsDecode(Ephemeral, payload);
    OneWord("INVOICE");
    OneWord(PayloadWord(payload));
    var s, m, p := Words(sender), Words(messageId), [PayloadWord(payload)];
    assert ["INVOICE"] + (s + (m + p)) == ["INVOICE"] + s + m + p;
  }

  lemma OneWord(w: string)
    requires IsWord(w)
    ensures Words(w) == [w]
  {
    WordsOfWord(w, "");
    assert w + "" == w && Words("") == [];
  }

  /** A line that fits is heard as it decodes, with its own body. */
  lemma HeardIfFits(cfg: S.Config, sender: string, messageId: string, payload: Payload, body: Bytes)
    requires LineFits(Said(sender, messageId, payload)) && |body| <= MAX_BLOB
    ensures var d := DecodeInvoice(Said(sender, messageId, payload));
            Heard(cfg, sender, messageId, payload, body) == if d.Ok? then Some(d.command.(body := body)) else None
  {
    hide TakeLine, DecodeLine, DecodeInvoice, LineBytes, BlobBytes, TakeBlob, Said;
    var line, tail := Said(sender, messageId, payload), BlobBytes(body);
    LineReadsBack(line, tail);
    SaidDecodes(cfg, sender, messageId, payload, tail);
    BlobReadsBack(body, []);
    assert tail + [] == tail;
    if DecodeInvoice(line).Ok? { DecodedInvoiceIsClean(line); }
  }

  /** For a line that fits, success can be believed if and only if sender and id are single words, or the two do not
      come to two words between them: then the server answers that it does not know the command. */
  lemma CredibleWords(cfg: S.Config, sender: string, messageId: string, payload: Payload, body: Bytes)
    requires LineFits(Said(sender, messageId, payload)) && |body| <= MAX_BLOB
    ensures var h := Heard(cfg, sender, messageId, payload, body);
            (h.Some? ==> h == Some(Invoice(sender, messageId, payload, body)))
            <==> (IsWord(sender) && IsWord(messageId)) || |Words(sender)| + |Words(messageId)| != 2
  {
    hide Said, Words, LineFits, Heard, IsWord, DecodeInvoice;
    HeardIfFits(cfg, sender, messageId, payload, body);
    SaidInvoice(sender, messageId, payload);
    var between := Words(sender) + Words(messageId);
    if |between| == 2 {
      WordsOwn(between[0], sender, messageId);
      WordsOwn(between[1], sender, messageId);
      if IsWord(sender) && IsWord(messageId) {
        OneWord(sender);
        OneWord(messageId);
      }
    }
  }

  /** The words of sender and id, taken together, are what the line decodes to. */
  lemma SaidInvoice(sender: string, messageId: string, payload: Payload)
    ensures var between := Words(sender) + Words(messageId);
            DecodeInvoice(Said(sender, messageId, payload))
            == if |between| == 2 then Ok(Invoice(between[0], between[1], payload, [])) else Malformed
  {
    SaidWords(sender, messageId, payload);
    KeywordsDecode(Ephemeral, payload);
    hide Said, Words, PayloadWord, DecodePayload;
    var between := Words(sender) + Words(messageId);
    var tokens := ["INVOICE"] + between + [PayloadWord(payload)];
    assert Words(Said(sender, messageId, payload)) == tokens;
    if |between| == 2 {
      assert tokens[1] == between[0] && tokens[2] == between[1] && tokens[3] == PayloadWord(payload);
    }
  }

  lemma WordsOwn(w: string, a: string, b: string)
    requires w in Words(a) + Words(b)
    ensures IsWord(w)
  {
  }

  // ------------------------------------------------------- ids with a line feed

  /** A line ended by a bare line feed. */
  lemma BareLineTaken(e: Bytes, rest: Bytes)
    requires LF !in e && (e != [] ==> e[|e| - 1] != CR) && |e| < MAX_LINE
    ensures TakeLine(e + [LF] + rest) == DecodedLine(e, rest)
  {
    hide Decode, UntilLf;
    var b := e + [LF] + rest;
    assert forall i | 0 <= i < |e| :: b[i] == e[i];
    UntilLfIs(b, |e| + 1);
    assert b[..|e|] == e && b[|e| + 1..] == rest;
  }

  lemma EmptyBlobTaken(rest: Bytes)
    ensures TakeBlob(Encode("BLOB 0") + [LF] + rest) == Took([], rest)
  {
    hide Encode, Decode, TakeLine, StartsWith, Trim, ParseUnsigned;
    ZeroHeaderBytes();
    DecodeEncode("BLOB 0");
    ZeroHeader();
    BareLineTaken(Encode("BLOB 0"), rest);
    assert rest[..0] == [] && rest[0..] == rest;
  }

  lemma ZeroHeaderBytes()
    ensures var e := Encode("BLOB 0"); LF !in e && e != [] && e[|e| - 1] != CR && |e| < MAX_LINE
  {
    EncodeAscii("BLOB 0");
  }

  lemma ZeroHeader()
    ensures StartsWith("BLOB 0", "BLOB ") && ParseUnsigned(Trim("BLOB 0"[5..]), USIZE_MAX) == Some(0)
  {
    assert "BLOB 0"[5..] == "0" && "BLOB 0"[..5] == "BLOB ";
    ParseDecimal(0, USIZE_MAX);
    assert ToDecimal(0) == "0";
    TrimNothing("0");
  }

  /** A message id that carries the rest of a line, a line feed, and an empty blob's header. */
  function Smuggled(id: string, payload: Payload): string {
    id + " " + PayloadWord(payload) + "\n" + "BLOB 0" + "\n"
  }

  /** What follows the smuggled line and blob: the end of the line, and the client's blob. */
  function LineEnd(payload: Payload, body: Bytes): Bytes {
    Encode(" " + PayloadWord(payload)) + [CR, LF] + BlobBytes(body)
  }

  lemma SmuggledBytes(sender: string, id: string, payload: Payload, tail: Bytes)
    ensures var rest := Encode(" " + PayloadWord(payload)) + [CR, LF] + tail;
            LineBytes(Said(sender, Smuggled(id, payload), payload)) + tail
            == Encode(Said(sender, id, payload)) + [LF] + (Encode("BLOB 0") + [LF] + rest)
  {
    var first, last := Said(sender, id, payload), " " + PayloadWord(payload);
    SmuggledText(sender, id, payload);
    hide Encode, Said;
    EncodeConcat(first + "\n" + "BLOB 0" + "\n", last);
    EncodeConcat(first + "\n" + "BLOB 0", "\n");
    EncodeConcat(first + "\n", "BLOB 0");
    EncodeConcat(first, "\n");
    LineFeedByte();
  }

  lemma LineFeedByte()
    ensures Encode("\n") == [LF]
  {
    EncodeAscii("\n");
  }

  lemma SmuggledText(sender: string, id: string, payload: Payload)
    ensures Said(sender, Smuggled(id, payload), payload) == Said(sender, id, payload) + "\n" + "BLOB 0" + "\n" + (" " + PayloadWord(payload))
  {
    hide PayloadWord;
    SaidIs(sender, id, payload);
    SaidIs(sender, Smuggled(id, payload), payload);
    hide Said;
    Regroup("INVOICE" + " ", sender + " ", id, " " + PayloadWord(payload), "\n", "BLOB 0");
  }

  lemma Regroup(a: string, s: string, i: string, p: string, n: string, b: string)
    ensures a + (s + ((i + p + n + b + n) + p)) == (a + (s + (i + p))) + n + b + n + p
  {
    assert a + (s + ((i + p + n + b + n) + p)) == a + s + i + p + n + b + n + p;
  }

  /** Why ids must be words: an id with line feeds in it is heard as a shorter id with an empty body. The client is
      told of success, and the sink was given another message. */
  lemma LineFeedIdMisheard(cfg: S.Config, sender: string, id: string, payload: Payload, body: Bytes)
    requires IsWord(sender) && IsWord(id) && LineFits(Said(sender, id, payload))
    ensures Heard(cfg, sender, Smuggled(id, payload), payload, body) == Some(Invoice(sender, id, payload, []))
    ensures LeftOver(cfg, sender, Smuggled(id, payload), payload, body) == LineEnd(payload, body)
    ensures Invoice(sender, id, payload, []) != Invoice(sender, Smuggled(id, payload), payload, body)
  {
    hide Smuggled, Encode, Decode, TakeLine, TakeBlob, DecodeLine, BlobBytes, LineBytes, Said, LineFits;
    Longer(id, payload);
    var tail := BlobBytes(body);
    var line := Said(sender, id, payload);
    var rest := Encode(" " + PayloadWord(payload)) + [CR, LF] + tail;
    SaidEnds(sender, id, payload);
    SaidIs(sender, id, payload);
    InvoiceDecodes(cfg.p.b64, sender, id, payload);
    DecodeEncode(line);
    FitsInBytes(line);
    SmuggledBytes(sender, id, payload, tail);
    BareLineTaken(Encode(line), Encode("BLOB 0") + [LF] + rest);
    EmptyBlobTaken(rest);
  }

  lemma FitsInBytes(line: string)
    requires LineFits(line)
    ensures LF !in Encode(line) && |Encode(line)| < MAX_LINE
  {
    EncodeAsciiMember(line, '\n');
  }

  lemma Longer(id: string, payload: Payload)
    ensures Smuggled(id, payload) != id
  {
    assert |Smuggled(id, payload)| > |id|;
  }

  lemma SaidEnds(sender: string, id: string, payload: Payload)
    ensures var e := Encode(Said(sender, id, payload)); e != [] && e[|e| - 1] != CR
  {
    var s, p := Said(sender, id, payload), PayloadWord(payload);
    var init, c := s[..|s| - 1], s[|s| - 1];
    assert s == init + [c] && c == p[|p| - 1];
    assert c == 'd' || c == 't';
    hide Said;
    EncodeConcat(init, [c]);
    OneByte(c);
    hide Encode;
  }

  lemma OneByte(c: char)
    requires c < 128 as char
    ensures Encode([c]) == [c as int]
  {
    EncodeAscii([c]);
  }

  /** The same, as a whole exchange: success, and a call for a message that was never sent; the end of the line and the
      blob are then run as commands. */
  lemma SuccessWithoutDelivery(cfg: S.Config, l: Link, envs: nat -> S.Env, sender: string, id: string, payload: Payload, body: Bytes, tail: Bytes)
    requires InStep(cfg, l) && l.client.state == Addressed && envs(0).hasSink && envs(0).outcome.Accepted?
    requires IsWord(sender) && IsWord(id) && LineFits(Said(sender, id, payload))
    requires Writable(Said(sender, Smuggled(id, payload), payload)) && |body| <= MAX_BLOB
    requires LineFits(S.StatusLine(S.OK, S.OutcomeReply(envs(0).outcome).text))
    ensures SendInvoice(cfg, l, envs(0), sender, Smuggled(id, payload), payload, body).1.Done?
    ensures V.Serve(cfg, l.server, Request(sender, Smuggled(id, payload), payload, body) + tail, envs, 0).calls
         == [CallOf(cfg, l.client, Invoice(sender, id, payload, []))] + V.Serve(cfg, l.server, LineEnd(payload, body) + tail, envs, 1).calls
  {
    hide SendInvoice, Heard, InStep, Said, LineFits, Smuggled, Request, LeftOver, V.Serve, CallOf, LineEnd, Writable;
    LineFeedIdMisheard(cfg, sender, id, payload, body);
    HeardOutcome(cfg, l, envs, sender, Smuggled(id, payload), payload, body, tail);
  }

  // ----------------------------------------------- ids that carry an invoice

  /** An id that ends its line early and begins another invoice. */
  function Carrying(id: string, sender: string, messageId: string): string {
    id + "\n" + Sp("INVOICE", Sp(sender, messageId))
  }

  lemma CarryingText(sender: string, id: string, other: string, messageId: string, payload: Payload)
    ensures Said(sender, Carrying(id, other, messageId), payload) == Sp("INVOICE", Sp(sender, id)) + "\n" + Said(other, messageId, payload)
  {
    hide PayloadWord, Sp;
    SaidIs(sender, Carrying(id, other, messageId), payload);
    SaidIs(other, messageId, payload);
    CarryingSp("INVOICE", sender, id, "\n", other, messageId, PayloadWord(payload));
  }

  lemma CarryingSp(verb: string, sender: string, id: string, end: string, other: string, messageId: string, word: string)
    ensures Sp(verb, Sp(sender, Sp(id + end + Sp(verb, Sp(other, messageId)), word)))
         == Sp(verb, Sp(sender, id)) + end + Sp(verb, Sp(other, Sp(messageId, word)))
  {
    hide Sp;
    var second := Sp(verb, Sp(other, Sp(messageId, word)));
    SpLaws(id + end, verb, Sp(other, messageId), word);
    SpLaws("", other, messageId, word);
    assert Sp(id + end + Sp(verb, Sp(other, messageId)), word) == id + (end + second);
    SpBefore(sender, id, end + second);
    SpBefore(verb, Sp(sender, id), end + second);
  }

  lemma SpLaws(a: string, b: string, c: string, d: string)
    ensures Sp(a + Sp(b, c), d) == a + Sp(b, Sp(c, d)) && Sp(Sp(b, c), d) == Sp(b, Sp(c, d))
  {
    assert b + " " + c + " " + d == b + " " + (c + " " + d);
    assert a + (b + " " + c) + " " + d == a + (b + " " + c + " " + d);
  }

  lemma SpBefore(a: string, b: string, c: string)
    ensures Sp(a, b + c) == Sp(a, b) + c
  {
    assert a + " " + (b + c) == a + " " + b + c;
  }

  lemma CarryingBytes(sender: string, id: string, other: string, messageId: string, payload: Payload, body: Bytes)
    ensures Request(sender, Carrying(id, other, messageId), payload, body)
         == Encode(Sp("INVOICE", Sp(sender, id))) + [LF] + Request(other, messageId, payload, body)
  {
    hide Encode, Said, Carrying, BlobBytes, Sp;
    CarryingText(sender, id, other, messageId, payload);
    EncodeConcat(Sp("INVOICE", Sp(sender, id)) + "\n", Said(other, messageId, payload));
    EncodeConcat(Sp("INVOICE", Sp(sender, id)), "\n");
    LineFeedByte();
  }

  /** The short line is not a command. */
  lemma ShortLine(cfg: S.Config, sender: string, id: string)
    requires IsWord(sender) && IsWord(id)
    ensures DecodeLine(cfg.p.b64, Sp("INVOICE", Sp(sender, id))) == Malformed
    ensures var e := Encode(Sp("INVOICE", Sp(sender, id))); LF !in e && e != [] && e[|e| - 1] != CR
  {
    ShortWords(sender, id);
    hide DecodeLine, Words, Encode, IsWord;
    InvoiceVerbDecodes(cfg.p.b64, Sp(sender, id));
    ShortEnds(sender, id);
  }

  lemma ShortWords(sender: string, id: string)
    requires IsWord(sender) && IsWord(id)
    ensures DecodeInvoice(Sp("INVOICE", Sp(sender, id))) == Malformed
  {
    hide Words, IsWord;
    assert IsWord("INVOICE") by { VerbIsWord(); }
    SpacedWords("INVOICE", Sp(sender, id));
    SpacedWords(sender, id);
    OneWord("INVOICE");
    OneWord(sender);
    OneWord(id);
  }

  lemma VerbIsWord()
    ensures IsWord("INVOICE")
  {
  }

  lemma ShortEnds(sender: string, id: string)
    requires IsWord(sender) && IsWord(id)
    ensures var e := Encode(Sp("INVOICE", Sp(sender, id))); LF !in e && e != [] && e[|e| - 1] != CR
  {
    assert IsWhitespace('\n') && IsWhitespace('\r');
    var s := Sp("INVOICE", Sp(sender, id));
    assert '\n' !in s && s[|s| - 1] == id[|id| - 1];
    hide Encode;
    NoLineFeed(s);
    LastNotCr(s);
  }

  lemma LastNotCr(s: string)
    requires s != "" && s[|s| - 1] != '\r'
    ensures var e := Encode(s); e != [] && e[|e| - 1] != CR
  {
    var init, last := s[..|s| - 1], [s[|s| - 1]];
    assert s == init + last;
    EncodeConcat(init, last);
    EncodeAsciiMember(last, '\r');
    assert '\r' !in last;
    hide Encode;
    LongEnough(last);
  }

  lemma LongEnough(s: string)
    requires s != ""
    ensures Encode(s) != []
  {
    if Encode(s) == [] { DecodeEncode(s); DecodeEncode(""); }
  }

  /** Why failure cannot be believed either: an id with a line feed that carries a second invoice. The server does not know
      the first line, and the client is told so; it hears the second, and its sink gets a letter from another sender. */
  lemma FailureWithDelivery(cfg: S.Config, l: Link, envs: nat -> S.Env, sender: string, id: string, other: string, messageId: string,
                            payload: Payload, body: Bytes)
    requires InStep(cfg, l) && l.client.state == Addressed && (forall k: nat :: envs(k).hasSink && envs(k).outcome.Accepted?)
    requires IsWord(sender) && IsWord(id) && IsWord(other) && IsWord(messageId) && LineFits(Said(other, messageId, payload))
    requires Writable(Said(sender, Carrying(id, other, messageId), payload)) && |body| <= MAX_BLOB
    requires forall k: nat :: LineFits(S.StatusLine(S.OK, S.OutcomeReply(envs(k).outcome).text))
    ensures SendInvoice(cfg, l, envs(0), sender, Carrying(id, other, messageId), payload, body).1.Failed?
    ensures V.Serve(cfg, l.server, Request(sender, Carrying(id, other, messageId), payload, body), envs, 0).calls
         == [CallOf(cfg, l.client, Invoice(other, messageId, payload, body))]
  {
    hide SendInvoice, InStep, Said, LineFits, Carrying, V.Serve, CallOf, IsWord, Writable;
    var long := Carrying(id, other, messageId);
    CarriedLeft(cfg, sender, id, other, messageId, payload, body);
    HeardOutcome(cfg, l, envs, sender, long, payload, body, []);
    CarriedServed(cfg, l, envs, other, messageId, payload, body);
  }

  /** What is left of such an invoice is the second one. */
  lemma CarriedLeft(cfg: S.Config, sender: string, id: string, other: string, messageId: string, payload: Payload, body: Bytes)
    requires IsWord(sender) && IsWord(id) && Writable(Said(sender, Carrying(id, other, messageId), payload))
    ensures Heard(cfg, sender, Carrying(id, other, messageId), payload, body).None?
    ensures LeftOver(cfg, sender, Carrying(id, other, messageId), payload, body) == Request(other, messageId, payload, body)
  {
    hide TakeLine, Said, Carrying, Request, Sp, IsWord, Writable, V.Framed, V.Past, V.CommandOf;
    CarriedTaken(sender, id, other, messageId, payload, body);
    ShortLine(cfg, sender, id);
    UnknownLeaves(cfg, Request(sender, Carrying(id, other, messageId), payload, body), Sp("INVOICE", Sp(sender, id)), Request(other, messageId, payload, body));
  }

  lemma CarriedTaken(sender: string, id: string, other: string, messageId: string, payload: Payload, body: Bytes)
    requires IsWord(sender) && IsWord(id) && Writable(Said(sender, Carrying(id, other, messageId), payload))
    ensures TakeLine(Request(sender, Carrying(id, other, messageId), payload, body))
         == Took(Sp("INVOICE", Sp(sender, id)), Request(other, messageId, payload, body))
  {
    hide Encode, TakeLine, Said, Carrying, Request, Sp, IsWord, Writable;
    ShortEnough(sender, id, other, messageId, payload);
    ShortEnds(sender, id);
    CarryingBytes(sender, id, other, messageId, payload, body);
    BareTextTaken(Sp("INVOICE", Sp(sender, id)), Request(other, messageId, payload, body));
  }

  lemma BareTextTaken(line: string, rest: Bytes)
    requires var e := Encode(line); LF !in e && e != [] && e[|e| - 1] != CR && |e| < MAX_LINE
    ensures TakeLine(Encode(line) + [LF] + rest) == Took(line, rest)
  {
    hide Encode, Decode, TakeLine;
    BareLineTaken(Encode(line), rest);
    DecodeEncode(line);
  }

  /** A line the server does not know is left behind, and no more. */
  lemma UnknownLeaves(cfg: S.Config, input: Bytes, line: string, rest: Bytes)
    requires TakeLine(input) == Took(line, rest) && DecodeLine(cfg.p.b64, line) == Malformed
    ensures V.CommandOf(cfg, input).None? && V.Framed(cfg, input) && V.Past(cfg, input) == rest
  {
    hide TakeLine, DecodeLine;
  }

  lemma ShortEnough(sender: string, id: string, other: string, messageId: string, payload: Payload)
    requires Writable(Said(sender, Carrying(id, other, messageId), payload))
    ensures |Encode(Sp("INVOICE", Sp(sender, id)))| < MAX_LINE
  {
    hide Encode, Said, Carrying, Sp;
    CarryingText(sender, id, other, messageId, payload);
    EncodeConcat(Sp("INVOICE", Sp(sender, id)) + "\n", Said(other, messageId, payload));
    EncodeConcat(Sp("INVOICE", Sp(sender, id)), "\n");
    LineFeedByte();
  }

  /** The second one, met by the server's loop as its second command. */
  lemma CarriedServed(cfg: S.Config, l: Link, envs: nat -> S.Env, sender: string, messageId: string, payload: Payload, body: Bytes)
    requires InStep(cfg, l) && l.client.state == Addressed && envs(1).hasSink && envs(1).outcome.Accepted?
    requires IsWord(sender) && IsWord(messageId) && LineFits(Said(sender, messageId, payload)) && |body| <= MAX_BLOB
    requires LineFits(S.StatusLine(S.OK, S.OutcomeReply(envs(1).outcome).text))
    ensures V.Serve(cfg, l.server, Request(sender, messageId, payload, body), envs, 1).calls == [CallOf(cfg, l.client, Invoice(sender, messageId, payload, body))]
  {
    hide InStep, Said, LineFits, CallOf, IsWord, V.Serve, Request, Heard, LeftOver, DecodeInvoice, Words;
    var request := Request(sender, messageId, payload, body);
    HeardIfFits(cfg, sender, messageId, payload, body);
    OneWord(sender);
    OneWord(messageId);
    SaidInvoice(sender, messageId, payload);
    HeardServed(cfg, l, envs, sender, messageId, payload, body, [], 1);
    NothingLeft(cfg, sender, messageId, payload, body);
    var nothing: Bytes := [];
    assert request + nothing == request && nothing + nothing == nothing;
    NothingServed(cfg, l.server, envs, 2);
  }

  /** The same with an empty blob in the id: the letter delivered is not even the client's, and what is left over is run
      as well. */
  lemma FailureWithForgedDelivery(cfg: S.Config, l: Link, envs: nat -> S.Env, sender: string, id: string, other: string, messageId: string,
                                  payload: Payload, body: Bytes)
    requires InStep(cfg, l) && l.client.state == Addressed && (forall k: nat :: envs(k).hasSink && envs(k).outcome.Accepted?)
    requires IsWord(sender) && IsWord(id) && IsWord(other) && IsWord(messageId) && LineFits(Said(other, messageId, payload))
    requires Writable(Said(sender, Carrying(id, other, Smuggled(messageId, payload)), payload)) && |body| <= MAX_BLOB
    requires forall k: nat :: LineFits(S.StatusLine(S.OK, S.OutcomeReply(envs(k).outcome).text))
    ensures var long := Carrying(id, other, Smuggled(messageId, payload));
            && SendInvoice(cfg, l, envs(0), sender, long, payload, body).1.Failed?
            && V.Serve(cfg, l.server, Request(sender, long, payload, body), envs, 0).calls
               == [CallOf(cfg, l.client, Invoice(other, messageId, payload, []))] + V.Serve(cfg, l.server, LineEnd(payload, body), envs, 2).calls
  {
    hide SendInvoice, InStep, Said, LineFits, Carrying, V.Serve, CallOf, IsWord, Writable, Smuggled, LineEnd, Request, Heard, LeftOver;
    var second := Smuggled(messageId, payload);
    var rest := LineEnd(payload, body);
    CarriedLeft(cfg, sender, id, other, second, payload, body);
    HeardOutcome(cfg, l, envs, sender, Carrying(id, other, second), payload, body, []);
    LineFeedIdMisheard(cfg, other, messageId, payload, body);
    HeardServed(cfg, l, envs, other, second, payload, body, [], 1);
    assert Request(other, second, payload, body) + [] == Request(other, second, payload, body) && rest + [] == rest;
  }
}
