/** Commands sent in pieces: lines that announce literals, the literals, and what stands between them. */
module ImapLiterals {
  import opened Utf8
  import opened Text
  import opened FetchReply
  import T = ImapTokens
  import R = ImapReader

  /** A literal, and the text that follows it on its line. */
  datatype Piece = Piece(literal: Bytes, text: string)

  /** A command as a client sends it: text, and any number of literals with text behind each. */
  datatype Sent = Sent(head: string, pieces: seq<Piece>)

  /** The bytes on the wire: each literal announced at the end of a line by its length in braces. */
  function Stream(head: string, ps: seq<Piece>): Bytes
    decreases |ps|
  {
    if ps == [] then R.LineOf(head)
    else R.LineOf(head + Marker(|ps[0].literal|)) + (ps[0].literal + Stream(ps[0].text, ps[1..]))
  }

  /** What the client means: the texts and literals, one after the other. */
  function Meant(head: string, ps: seq<Piece>): Bytes
    decreases |ps|
  {
    if ps == [] then Encode(head) else Encode(head) + (ps[0].literal + Meant(ps[0].text, ps[1..]))
  }

  /** Texts on one line each, the last announcing nothing, and literals of at most 1 MiB. */
  predicate Sendable(head: string, ps: seq<Piece>)
    decreases |ps|
  {
    && '\n' !in head
    && if ps == [] then R.LiteralCount(Encode(head)) == None
       else |ps[0].literal| <= 0x10_0000 && Sendable(ps[0].text, ps[1..])
  }

  // ------------------------------------------------------------------ the turns

  lemma LineTurn(e: Bytes, pending: Bytes, rest: Bytes)
    requires LF !in e
    ensures var r := R.Reader(e + [CR, LF] + rest, pending, None); R.NextTurn(r) == R.EndLine(r, e, rest)
  {
    hide R.EndLine;
    var b := e + [CR, LF] + rest;
    assert forall i | 0 <= i < |e| :: b[i] == e[i];
    FindIs(b, LF, |e| + 1);
    assert b[..|e|] == e && b[|e| + 2..] == rest;
  }

  lemma MarkerLine(head: string, n: nat)
    requires '\n' !in head && n <= R.MAX_LITERAL
    ensures var e := Encode(head + Marker(n));
            LF !in e && R.LiteralCount(e).Some? && R.LiteralCount(e).value.0 == n && e[..|e| - R.LiteralCount(e).value.1] == Encode(head)
  {
    hide Encode, R.LiteralCount, Marker, ToDecimal, Decode, MarkerCount;
    MarkerOnOneLine(head, n);
    MarkerReadsBack(head, n);
    MarkerBytes(head, n);
    R.LineFeedFree(head + Marker(n));
    var e := Encode(head + Marker(n));
    assert |e| - R.LiteralCount(e).value.1 == |Encode(head)|;
  }

  lemma MarkerOnOneLine(head: string, n: nat)
    requires '\n' !in head
    ensures '\n' !in head + Marker(n)
  {
    assert AllDigits(ToDecimal(n));
  }

  /** The line that announces a literal, and the literal. */
  lemma LiteralTaken(head: string, literal: Bytes, pending: Bytes, rest: Bytes)
    requires '\n' !in head && |literal| <= R.MAX_LITERAL
    ensures R.Drain(R.Reader(R.LineOf(head + Marker(|literal|)) + (literal + rest), pending, None))
         == R.Drain(R.Reader(rest, pending + Encode(head) + literal, None))
  {
    hide Encode, R.LiteralCount, Marker, R.ParseLine, R.NextTurn;
    var n, e := |literal|, Encode(head + Marker(|literal|));
    MarkerLine(head, n);
    LineTurn(e, pending, literal + rest);
    var r := R.Reader(R.LineOf(head + Marker(n)) + (literal + rest), pending, None);
    assert r.buf == e + [CR, LF] + (literal + rest);
    var q := R.Reader(literal + rest, pending + Encode(head), Some(n));
    assert R.NextTurn(r) == R.Pause(q);
    Taken(q, literal, rest);
    TwoTurns(r, q, R.Reader(rest, pending + Encode(head) + literal, None));
  }

  lemma Taken(q: R.Reader, literal: Bytes, rest: Bytes)
    requires q.literal == Some(|literal|) && q.buf == literal + rest
    ensures R.NextTurn(q) == R.Continue(R.Reader(rest, q.pending + literal, None))
  {
    assert q.buf[..|literal|] == literal && q.buf[|literal|..] == rest;
  }

  lemma TwoTurns(r: R.Reader, q: R.Reader, p: R.Reader)
    requires R.NextTurn(r) == R.Pause(q) && R.NextTurn(q) == R.Continue(p)
    ensures R.Drain(r) == R.Drain(p)
  {
    hide R.NextTurn;
  }

  /** What becomes of the bytes of a whole command. */
  function Outcome(line: Bytes, rest: Bytes): R.Ran {
    match R.ParseLine(line)
    case Parsed(c) => R.Before(c, R.Drain(R.Reader(rest, [], None)))
    case Bad(e) => R.Ran([], R.Reader(rest, [], None), R.Broken(e))
    case Hangs => R.Ran([], R.START, R.Hung)
  }

  lemma LastLine(head: string, pending: Bytes, rest: Bytes)
    requires '\n' !in head && R.LiteralCount(Encode(head)) == None
    ensures R.Drain(R.Reader(R.LineOf(head) + rest, pending, None)) == Outcome(pending + Encode(head), rest)
  {
    hide Encode, R.LiteralCount, R.ParseLine, R.NextTurn;
    R.LineFeedFree(head);
    LineTurn(Encode(head), pending, rest);
    var r := R.Reader(R.LineOf(head) + rest, pending, None);
    assert r.buf == Encode(head) + [CR, LF] + rest;
    assert R.NextTurn(r) == R.EndLine(r, Encode(head), rest);
  }

  /** Any number of literals: the reader comes to what the client meant, taken as one line. */
  lemma {:induction false} PiecesTaken(head: string, ps: seq<Piece>, pending: Bytes, rest: Bytes)
    requires Sendable(head, ps)
    ensures R.Drain(R.Reader(Stream(head, ps) + rest, pending, None)) == Outcome(pending + Meant(head, ps), rest)
    decreases |ps|
  {
    hide Encode, Marker, R.Drain, Outcome, R.LineOf, R.LiteralCount;
    if ps == [] {
      LastLine(head, pending, rest);
    } else {
      var literal, text, more := ps[0].literal, ps[0].text, ps[1..];
      LiteralTaken(head, literal, pending, Stream(text, more) + rest);
      var line := R.LineOf(head + Marker(|literal|));
      assert Stream(head, ps) + rest == line + (literal + (Stream(text, more) + rest));
      PiecesTaken(text, more, pending + Encode(head) + literal, rest);
      assert pending + Meant(head, ps) == pending + Encode(head) + literal + Meant(text, more);
    }
  }

  // -------------------------------------------------------------- the theorems

  /** A command with any number of literals, cut into reads anywhere: the reader returns exactly what the texts and
      literals parse to as one line, the command or the error. */
  lemma PiecesReadBack(head: string, ps: seq<Piece>, chunks: seq<Bytes>)
    requires Sendable(head, ps) && R.Concat(chunks) == Stream(head, ps)
    ensures var all := R.FeedAll(R.START, chunks);
            match R.ParseLine(Meant(head, ps))
            case Parsed(c) => all == R.Ran([c], R.START, R.Quiet)
            case Bad(e) => all.ending == R.Broken(e)
            case Hangs => all.ending == R.Hung
  {
    hide R.ParseLine, Meant, Stream, Sendable, R.FeedAll, R.Concat;
    R.FeedsAreDrain(R.START, chunks);
    PiecesTaken(head, ps, [], []);
    assert [] + Meant(head, ps) == Meant(head, ps) && Stream(head, ps) + [] == [] + Stream(head, ps);
    NothingLeft();
  }

  lemma NothingLeft()
    ensures R.Drain(R.Reader([], [], None)) == R.Ran([], R.START, R.Quiet)
  {
  }

  function StreamAll(script: seq<Sent>): Bytes {
    if script == [] then [] else Stream(script[0].head, script[0].pieces) + StreamAll(script[1..])
  }

  /** The script is what the commands are sent as. */
  predicate Script(script: seq<Sent>, cmds: seq<R.Command>) {
    |script| == |cmds| && forall i | 0 <= i < |script| ::
      Sendable(script[i].head, script[i].pieces) && R.ParseLine(Meant(script[i].head, script[i].pieces)) == R.Parsed(cmds[i])
  }

  lemma {:induction false} ScriptTaken(script: seq<Sent>, cmds: seq<R.Command>)
    requires Script(script, cmds)
    ensures R.Drain(R.Reader(StreamAll(script), [], None)) == R.Ran(cmds, R.START, R.Quiet)
    decreases |script|
  {
    hide R.Drain, R.ParseLine, Meant, Stream, Sendable;
    if script == [] {
      NothingLeft();
    } else {
      PiecesTaken(script[0].head, script[0].pieces, [], StreamAll(script[1..]));
      assert [] + Meant(script[0].head, script[0].pieces) == Meant(script[0].head, script[0].pieces);
      ScriptTaken(script[1..], cmds[1..]);
      assert [cmds[0]] + cmds[1..] == cmds;
    }
  }

  /** Any number of commands with any number of literals each, cut into reads anywhere: the reader returns exactly those
      commands, in order, and holds nothing back. */
  lemma ScriptReadsBack(script: seq<Sent>, cmds: seq<R.Command>, chunks: seq<Bytes>)
    requires Script(script, cmds) && R.Concat(chunks) == StreamAll(script)
    ensures R.FeedAll(R.START, chunks) == R.Ran(cmds, R.START, R.Quiet)
  {
    hide R.ParseLine, Meant, Sendable, R.FeedAll, R.Concat, StreamAll, Script;
    R.FeedsAreDrain(R.START, chunks);
    ScriptTaken(script, cmds);
    assert [] + StreamAll(script) == StreamAll(script);
  }

  /** A LOGIN with its name and its password as literals. */
  lemma LoginWithLiterals(tag: string, user: string, password: string, chunks: seq<Bytes>)
    requires T.IsAtom(tag) && T.IsAtom(user) && T.IsAtom(password) && |Encode(user)| <= 0x10_0000 && |Encode(password)| <= 0x10_0000
    requires R.Concat(chunks) == Stream(tag + " LOGIN ", [Piece(Encode(user), " "), Piece(Encode(password), "")])
    ensures R.FeedAll(R.START, chunks) == R.Ran([R.Command(tag, "LOGIN", [user, password])], R.START, R.Quiet)
  {
    hide R.FeedAll, R.Concat, Stream, R.ParseLine, T.IsAtom, Encode;
    var ps := [Piece(Encode(user), " "), Piece(Encode(password), "")];
    LoginSendable(tag, ps);
    LoginMeant(tag, user, password);
    LoginParses(tag, user, password);
    PiecesReadBack(tag + " LOGIN ", ps, chunks);
  }

  lemma LoginSendable(tag: string, ps: seq<Piece>)
    requires T.IsAtom(tag) && |ps| == 2 && ps[0].text == " " && ps[1].text == "" && |ps[0].literal| <= 0x10_0000 && |ps[1].literal| <= 0x10_0000
    ensures Sendable(tag + " LOGIN ", ps)
  {
    assert IsWhitespace('\n');
    EmptyText();
    assert R.LiteralCount([]) == None;
    assert ps[1..][0] == ps[1] && ps[1..][1..] == [];
    assert Sendable("", []);
    assert Sendable(" ", ps[1..]);
  }

  lemma LoginMeant(tag: string, user: string, password: string)
    ensures Meant(tag + " LOGIN ", [Piece(Encode(user), " "), Piece(Encode(password), "")]) == Encode(tag + (" " + ("LOGIN" + (" " + (user + (" " + password))))))
  {
    hide Encode;
    var ps := [Piece(Encode(user), " "), Piece(Encode(password), "")];
    var head := tag + " LOGIN ";
    assert ps[1..] == [Piece(Encode(password), "")] && ps[1..][1..] == [];
    var text := head + (user + (" " + (password + "")));
    EncodeConcat(head, user + (" " + (password + "")));
    EncodeConcat(user, " " + (password + ""));
    EncodeConcat(" ", password + "");
    EncodeConcat(password, "");
    assert Meant("", []) == Encode("");
    assert Meant(" ", ps[1..]) == Encode(" ") + (Encode(password) + Encode(""));
    assert text == tag + (" " + ("LOGIN" + (" " + (user + (" " + password)))));
  }

  lemma LoginParses(tag: string, user: string, password: string)
    requires T.IsAtom(tag) && T.IsAtom(user) && T.IsAtom(password)
    ensures R.ParseLine(Encode(tag + (" " + ("LOGIN" + (" " + (user + (" " + password))))))) == R.Parsed(R.Command(tag, "LOGIN", [user, password]))
  {
    LoginWord();
    hide T.TokensOf, Encode, Lossy, Upper, T.IsAtom;
    var u := user + (" " + password);
    var w := "LOGIN" + (" " + u);
    LossyOfText(tag + (" " + w));
    T.AtomIsOneToken(tag, " " + w);
    SpaceBefore(w);
    T.AtomIsOneToken("LOGIN", " " + u);
    SpaceBefore(u);
    T.AtomIsOneToken(user, " " + password);
    SpaceBefore(password);
    T.AtomIsOneToken(password, "");
    assert password + "" == password;
    NoTokens();
    assert [tag] + (["LOGIN"] + ([user] + ([password] + []))) == [tag, "LOGIN", user, password];
    assert [tag, "LOGIN", user, password][2..] == [user, password];
  }

  lemma LoginWord()
    ensures T.IsAtom("LOGIN") && Upper("LOGIN") == "LOGIN" && IsWhitespace(' ')
  {
  }

  lemma SpaceBefore(s: string)
    ensures T.TokensOf(" " + s) == T.TokensOf(s)
  {
    assert (" " + s)[1..] == s;
  }

  lemma NoTokens()
    ensures T.TokensOf("") == T.Tokens([])
  {
  }
}
