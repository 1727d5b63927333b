/** Streams whose cutting shows, and what is seen of it. */
module CutStreams {
  import opened Utf8
  import opened Text
  import opened MailStore
  import opened ImapSession
  import opened FetchReply
  import opened ImapService
  import opened ImapCuttings
  import P = ImapLiterals
  import T = ImapTokens
  import R = ImapReader

  lemma OneAtom(a: string)
    requires T.IsAtom(a)
    ensures T.TokensOf(a) == T.Tokens([a])
  {
    T.AtomIsOneToken(a, "");
    assert a + "" == a;
  }

  lemma TwoAtoms(a: string, b: string)
    requires T.IsAtom(a) && T.IsAtom(b)
    ensures T.TokensOf(a + (" " + b)) == T.Tokens([a, b])
  {
    T.AtomIsOneToken(a, " " + b);
    assert (" " + b)[1..] == b;
    OneAtom(b);
  }

  /** A tag and a name, with no arguments. */
  lemma TwoAtomLine(tag: string, name: string)
    requires T.IsAtom(tag) && T.IsAtom(name)
    ensures R.ParseLine(Encode(tag + (" " + name))) == R.Parsed(R.Command(tag, Upper(name), []))
  {
    hide T.TokensOf, Encode, Lossy, Upper, T.IsAtom;
    TwoAtoms(tag, name);
    LossyOfText(tag + (" " + name));
    assert [tag, name][2..] == [];
  }

  lemma IdleLine()
    ensures R.ParseLine(Encode("A1 IDLE")) == R.Parsed(R.Command("A1", IDLE, [])) && R.PlainLine("A1 IDLE")
  {
    hide Encode, Upper, R.PlainLine, R.ParseLine, T.IsAtom;
    IdleText();
    IdleAtoms();
    EndsPlainly("A1 IDLE");
    TwoAtomLine("A1", "IDLE");
  }

  lemma IdleText()
    ensures "A1" + (" " + "IDLE") == "A1 IDLE" && IsAscii("A1 IDLE") && '\n' !in "A1 IDLE" && Upper("IDLE") == "IDLE"
  {
  }

  lemma IdleAtoms()
    ensures T.IsAtom("A1") && T.IsAtom("IDLE") && T.IsAtom("NOOP")
  {
  }

  lemma EndsPlainly(text: string)
    requires text != "" && IsAscii(text) && '\n' !in text && text[|text| - 1] != '}'
    ensures R.PlainLine(text)
  {
    EncodeAscii(text);
    hide Encode;
    R.NoMarker(Encode(text));
  }

  lemma DoneLine()
    ensures R.ParseLine(Encode("DONE")) == R.Parsed(R.Command("", DONE, [])) && R.PlainLine("DONE")
  {
    assert Upper("DONE") == "DONE" && T.IsAtom("DONE");
    EndsPlainly("DONE");
    hide T.TokensOf, Encode, Lossy, Upper, T.IsAtom, R.PlainLine;
    OneAtom("DONE");
    LossyOfText("DONE");
  }

  /** Why a DONE must not come in the read of its IDLE: a client that sends IDLE, DONE and another command without
      waiting. In three reads the IDLE is ended and the command handled. In one read the DONE is kept behind the IDLE, the
      server waits for another, and the command is not handled. */
  lemma PipelinedDoneIsMissed(cfg: Config, db: Db, line: string, cmd: R.Command)
    requires R.PlainLine(line) && R.ParseLine(Encode(line)) == R.Parsed(cmd) && cmd.name != IDLE
    ensures var x, y, z := R.LineOf("A1 IDLE"), R.LineOf("DONE"), R.LineOf(line);
            var t := Handle(cfg, db, FRESH, cmd);
            && ReadAll(cfg, Opened(db), [x, y, z]).talk == Talk(t.session, t.db, [Terminated("A1"), t.reply], cmd.name == LOGOUT, None)
            && Alike(Read(cfg, Opened(db), x + (y + z)).talk, Opened(db).talk.(idle := Some(Waiting("A1", [], []))))
  {
    hide Handle, R.ParseLine, R.FeedLoop, R.PlainLine, Encode, R.LineOf, Terminated, Take;
    var x, y, z := R.LineOf("A1 IDLE"), R.LineOf("DONE"), R.LineOf(line);
    var i, d := R.Command("A1", IDLE, []), R.Command("", DONE, []);
    IdleLine();
    DoneLine();
    ThreeLines("A1 IDLE", "DONE", line, i, d, cmd);
    var c := Opened(db);
    OneLineRead(cfg, c, "A1 IDLE", i);
    OneAlone(cfg, c.talk, i);
    var c1 := Conn(R.START, c.talk.(idle := Some(Waiting("A1", [], []))));
    OneLineRead(cfg, c1, "DONE", d);
    DoneTaken(cfg, c1.talk);
    assert [d][0].name == DONE;
    var c2 := Conn(R.START, c.talk.(replies := [] + [Terminated("A1")]));
    OneLineRead(cfg, c2, line, cmd);
    OneAlone(cfg, c2.talk, cmd);
    ThreeReads(cfg, c, x, y, z);
    TakeAwake(cfg, c.talk, [i, d, cmd]);
    LineNotEmpty("A1 IDLE");
  }

  lemma LineNotEmpty(text: string)
    ensures |R.LineOf(text)| > 0
  {
  }

  lemma ThreeReads(cfg: Config, c: Conn, x: Bytes, y: Bytes, z: Bytes)
    ensures ReadAll(cfg, c, [x, y, z]) == Read(cfg, Read(cfg, Read(cfg, c, x), y), z)
    ensures ReadAll(cfg, c, [x, y]) == Read(cfg, Read(cfg, c, x), y)
  {
    hide Read;
    var xyz: seq<Bytes>, xy: seq<Bytes> := [x, y, z], [x, y];
    assert xyz[1..] == [y, z] && xyz[1..][1..] == [z] && xyz[1..][1..][1..] == [];
    assert xy[1..] == [y] && xy[1..][1..] == [];
    var c1 := Read(cfg, c, x);
    var c2 := Read(cfg, c1, y);
    assert ReadAll(cfg, c2, []) == c2 && ReadAll(cfg, c1, xy[1..]) == c2;
    assert ReadAll(cfg, Read(cfg, c2, z), []) == Read(cfg, c2, z);
    assert ReadAll(cfg, c2, xyz[1..][1..]) == Read(cfg, c2, z);
    assert ReadAll(cfg, c1, xyz[1..]) == Read(cfg, c2, z);
  }

  /** A read of one line. */
  lemma OneLineRead(cfg: Config, c: Conn, text: string, cmd: R.Command)
    requires c.reader == R.START && !c.talk.over && R.PlainLine(text) && R.ParseLine(Encode(text)) == R.Parsed(cmd)
    ensures Read(cfg, c, R.LineOf(text)) == Conn(R.START, Take(cfg, c.talk, [cmd]))
  {
    hide R.ParseLine, R.FeedLoop, R.PlainLine, Encode, Take;
    R.FeedOneLine(text, cmd);
  }

  /** Why an IDLE must not come in the read of a command before it: the reply is withheld while the server idles. */
  lemma ReplyWithheld(cfg: Config, db: Db, line: string, cmd: R.Command)
    requires R.PlainLine(line) && R.ParseLine(Encode(line)) == R.Parsed(cmd) && cmd.name != IDLE && cmd.name != LOGOUT
    ensures var x, y := R.LineOf(line), R.LineOf("A1 IDLE");
            var t := Handle(cfg, db, FRESH, cmd);
            && ReadAll(cfg, Opened(db), [x, y]).talk == Talk(t.session, t.db, [t.reply], false, Some(Waiting("A1", [], [])))
            && Read(cfg, Opened(db), x + y).talk == Talk(t.session, t.db, [], false, Some(Waiting("A1", [], [t.reply])))
  {
    hide Handle, R.ParseLine, R.FeedLoop, R.PlainLine, Encode, R.LineOf, Take;
    var x, y := R.LineOf(line), R.LineOf("A1 IDLE");
    var i := R.Command("A1", IDLE, []);
    var c, t := Opened(db), Handle(cfg, db, FRESH, cmd);
    IdleLine();
    OneLineRead(cfg, c, line, cmd);
    OneAlone(cfg, c.talk, cmd);
    var c1 := Conn(R.START, Talk(t.session, t.db, [] + [t.reply], false, None));
    OneLineRead(cfg, c1, "A1 IDLE", i);
    OneAlone(cfg, c1.talk, i);
    ThreeReads(cfg, c, x, y, []);
    R.FeedLine(line, cmd, y);
    LineOfIs("A1 IDLE");
    R.FeedOneLine("A1 IDLE", i);
    TakeAwake(cfg, c.talk, [cmd, i]);
    LineNotEmpty(line);
    assert [cmd] + [i] == [cmd, i] && [cmd, i][1..] == [i] && [i][1..] == [] && [] + [t.reply] == [t.reply];
    assert HandleAll(cfg, c1.talk.(replies := []), [t.reply], [i]) == Talk(t.session, t.db, [], false, Some(Waiting("A1", [], [t.reply])));
  }

  /** What was withheld is written when the DONE comes, before the IDLE is ended; what was read behind the IDLE is handled then. */
  lemma WithheldUntilDone(cfg: Config, c: Conn, tag: string, unsent: seq<string>, cmd: R.Command)
    requires c.reader == R.START && !c.talk.over && c.talk.idle == Some(Waiting(tag, [cmd], unsent)) && cmd.name != IDLE
    ensures var t := Handle(cfg, c.talk.db, c.talk.session, cmd);
            Read(cfg, c, R.LineOf("DONE"))
            == Conn(R.START, Talk(t.session, t.db, c.talk.replies + unsent + [Terminated(tag), t.reply], cmd.name == LOGOUT, None))
  {
    hide Handle, R.ParseLine, R.FeedLoop, R.PlainLine, Encode, R.LineOf, Terminated;
    var done := R.Command("", DONE, []);
    DoneLine();
    OneLineRead(cfg, c, "DONE", done);
    assert HasDone([done]) by { assert [done][0].name == DONE; }
    var t := Handle(cfg, c.talk.db, c.talk.session, cmd);
    var out := unsent + [Terminated(tag)];
    assert [cmd][1..] == [];
    assert c.talk.replies + (out + [t.reply]) == c.talk.replies + unsent + [Terminated(tag), t.reply];
    var later := c.talk.(idle := None, session := t.session, db := t.db);
    assert HandleAll(cfg, later, out + [t.reply], []) == later.(replies := c.talk.replies + (out + [t.reply]));
  }

  // -------------------------------------------------------- behind a marker

  /** A feed of a line that announces a literal stops there, whatever follows. */
  lemma MarkerFed(head: string, n: nat, rest: Bytes)
    requires '\n' !in head && n <= R.MAX_LITERAL
    ensures R.Feed(R.START, R.LineOf(head + Marker(n)) + rest) == R.Ran([], R.Reader(rest, Encode(head), Some(n)), R.Paused)
  {
    hide Encode, R.LiteralCount, Marker, R.ParseLine, R.NextTurn;
    var e := Encode(head + Marker(n));
    P.MarkerLine(head, n);
    var r := R.Reader(e + [CR, LF] + rest, [], None);
    R.LineTurn(e, rest);
    assert [] + (R.LineOf(head + Marker(n)) + rest) == r.buf && [] + Encode(head) == Encode(head);
    assert R.NextTurn(r) == R.Pause(R.Reader(rest, Encode(head), Some(n)));
  }

  /** The literal and the empty end of its line. */
  lemma LiteralFed(pending: Bytes, content: Bytes, cmd: R.Command)
    requires R.ParseLine(pending + content) == R.Parsed(cmd)
    ensures R.FeedLoop(R.Reader(content + [CR, LF], pending, Some(|content|))) == R.Ran([cmd], R.START, R.Quiet)
  {
    hide R.ParseLine;
    var r := R.Reader(content + [CR, LF], pending, Some(|content|));
    var q := R.Reader([CR, LF], pending + content, None);
    assert r.buf[|content|..] == [CR, LF] && r.buf[..|content|] == content;
    assert R.NextTurn(r) == R.Continue(q);
    FindIs([CR, LF], LF, 1);
    assert [CR, LF][..0] == [] && [CR, LF][2..] == [] && pending + content + [] == pending + content;
    assert R.NextTurn(q) == R.Emit(R.START, cmd);
    R.NothingToRead();
    assert R.FeedLoop(q) == R.Before(cmd, R.FeedLoop(R.START)) && [cmd] + [] == [cmd];
    assert R.FeedLoop(r) == R.FeedLoop(q);
  }

  /** Why nothing must be sent past an unanswered marker: a command with a literal, sent whole. If the literal comes in a
      read of its own the command is handled. In one read it stays in the buffer, and at the end of the stream it is
      lost. */
  lemma HeldCommandIsLost(cfg: Config, db: Db, head: string, content: Bytes, cmd: R.Command)
    requires '\n' !in head && |content| <= R.MAX_LITERAL && cmd.name != IDLE
    requires R.ParseLine(Encode(head) + content) == R.Parsed(cmd)
    ensures var x, y := R.LineOf(head + Marker(|content|)), content + [CR, LF];
            var t := Handle(cfg, db, FRESH, cmd);
            && Parses(x + y) && Commands(x + y) == [cmd]
            && ReadAll(cfg, Opened(db), [x, y]).talk == Talk(t.session, t.db, [t.reply], cmd.name == LOGOUT, None)
            && Read(cfg, Opened(db), x + y).talk == Opened(db).talk
  {
    hide Handle, R.ParseLine, R.FeedLoop, Encode, R.LineOf, Marker, Take, R.Drain;
    var x, y := R.LineOf(head + Marker(|content|)), content + [CR, LF];
    var c := Opened(db);
    MarkerFed(head, |content|, y);
    MarkerFed(head, |content|, []);
    LiteralFed(Encode(head), content, cmd);
    LineNotEmpty(head + Marker(|content|));
    assert x + [] == x && [] + y == y;
    NothingTaken(cfg, c.talk);
    var c1 := Conn(R.Reader([], Encode(head), Some(|content|)), c.talk);
    assert Read(cfg, c, x) == c1 && Read(cfg, c, x + y).talk == c.talk;
    OneAlone(cfg, c.talk, cmd);
    ThreeReads(cfg, c, x, y, []);
    MarkedStream(x + y, R.Reader(y, Encode(head), Some(|content|)), cmd);
  }

  lemma NothingTaken(cfg: Config, c: Talk)
    requires !c.over && c.idle.None?
    ensures Take(cfg, c, []) == c
  {
    assert c.replies + [] == c.replies;
  }

  lemma MarkedStream(stream: Bytes, r: R.Reader, cmd: R.Command)
    requires R.Feed(R.START, stream) == R.Ran([], r, R.Paused) && R.FeedLoop(r) == R.Ran([cmd], R.START, R.Quiet)
    ensures Parses(stream) && Commands(stream) == [cmd]
  {
    hide R.FeedLoop, R.Drain;
    R.FeedThenDrain(R.More(R.START, stream));
    R.FeedThenDrain(r);
    assert [] + [cmd] == [cmd];
  }

  /** Such a stream: a NOOP with an empty literal. */
  lemma HeldNoopIsLost(cfg: Config, db: Db)
    ensures var x, y := R.LineOf("A1 NOOP " + Marker(0)), [CR, LF];
            && |ReadAll(cfg, Opened(db), [x, y]).talk.replies| == 1
            && Read(cfg, Opened(db), x + y).talk.replies == []
  {
    hide Handle, R.ParseLine, Read, Encode, R.LineOf, Marker, ReadAll;
    NoopSpaceLine();
    var e: Bytes := [];
    assert Encode("A1 NOOP ") + e == Encode("A1 NOOP ") && e + [CR, LF] == [CR, LF];
    HeldCommandIsLost(cfg, db, "A1 NOOP ", e, R.Command("A1", "NOOP", []));
  }

  lemma NoopSpaceLine()
    ensures R.ParseLine(Encode("A1 NOOP ")) == R.Parsed(R.Command("A1", "NOOP", [])) && '\n' !in "A1 NOOP "
  {
    NoopText();
    IdleAtoms();
    hide T.TokensOf, Encode, Lossy, Upper, T.IsAtom;
    assert "A1 NOOP " == "A1" + (" " + ("NOOP" + " "));
    T.AtomIsOneToken("A1", " " + ("NOOP" + " "));
    assert (" " + ("NOOP" + " "))[1..] == "NOOP" + " ";
    T.AtomIsOneToken("NOOP", " ");
    NothingButSpace();
    assert T.TokensOf("NOOP" + " ") == T.Tokens(["NOOP"] + []);
    P.SpaceBefore("NOOP" + " ");
    assert T.TokensOf("A1 NOOP ") == T.Tokens(["A1"] + ["NOOP"]);
    LossyOfText("A1 NOOP ");
    assert ["A1"] + ["NOOP"] == ["A1", "NOOP"] && ["A1", "NOOP"][2..] == [];
  }

  lemma NothingButSpace()
    ensures T.TokensOf(" ") == T.Tokens([]) && T.TokensOf("") == T.Tokens([])
  {
    assert " "[1..] == "";
  }

  lemma LineOfIs(text: string)
    ensures R.LineOf(text) == Encode(text) + [CR, LF]
  {
  }

  lemma ThreeLines(a: string, b: string, c: string, x: R.Command, y: R.Command, z: R.Command)
    requires R.PlainLine(a) && R.PlainLine(b) && R.PlainLine(c)
    requires R.ParseLine(Encode(a)) == R.Parsed(x) && R.ParseLine(Encode(b)) == R.Parsed(y) && R.ParseLine(Encode(c)) == R.Parsed(z)
    ensures R.Feed(R.START, R.LineOf(a) + (R.LineOf(b) + R.LineOf(c))) == R.Ran([x, y, z], R.START, R.Quiet)
  {
    hide R.ParseLine, R.FeedLoop, R.PlainLine, Encode, R.LineOf;
    R.FeedLine(a, x, R.LineOf(b) + R.LineOf(c));
    R.FeedLine(b, y, R.LineOf(c));
    LineOfIs(c);
    R.FeedOneLine(c, z);
  }

  /** Commands read before an error are lost with it: a NOOP and an unclosed list, read together and apart. */
  lemma LostWithError()
    ensures var good, bad := R.LineOf("A1 NOOP"), R.LineOf("(");
            && R.Returned(R.Feed(R.START, good + bad)) == R.Err(T.UnclosedQuote)
            && R.Returned(R.Feed(R.START, good)) == R.Got([R.Command("A1", "NOOP", [])])
  {
    hide R.PlainLine, R.Feed, R.LineOf, R.ParseLine, Encode;
    NoopLine();
    OpenLine();
    R.CommandLostWithError("A1 NOOP", R.Command("A1", "NOOP", []), "(", T.UnclosedQuote);
  }

  lemma NoopLine()
    ensures R.ParseLine(Encode("A1 NOOP")) == R.Parsed(R.Command("A1", "NOOP", [])) && R.PlainLine("A1 NOOP")
  {
    hide Encode, Upper, R.PlainLine, R.ParseLine, T.IsAtom;
    NoopText();
    IdleAtoms();
    EndsPlainly("A1 NOOP");
    TwoAtomLine("A1", "NOOP");
  }

  lemma NoopText()
    ensures "A1" + (" " + "NOOP") == "A1 NOOP" && IsAscii("A1 NOOP") && '\n' !in "A1 NOOP" && Upper("NOOP") == "NOOP"
  {
  }

  lemma OpenLine()
    ensures R.ParseLine(Encode("(")) == R.Bad(T.UnclosedQuote) && R.PlainLine("(")
  {
    EndsPlainly("(");
    UnclosedList();
    hide T.TokensOf, Encode, Lossy, R.PlainLine;
    LossyOfText("(");
  }

  lemma UnclosedList()
    ensures T.TokensOf("(") == T.Failed(T.UnclosedQuote)
  {
    assert "("[1..] == "";
  }
}
