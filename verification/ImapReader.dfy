/** The incremental IMAP command reader: a byte stream, cut anywhere, to commands. */
module ImapReader {
  import opened Utf8
  import opened Text
  import opened ImapTokens

  const MAX_LITERAL: nat := 0x10_0000
  const USIZE_MAX: nat := 0xFFFF_FFFF_FFFF_FFFF

  datatype Command = Command(tag: string, name: string, args: seq<string>)

  datatype Parsed = Parsed(command: Command) | Bad(error: ParseError) | Hangs

  function CommandOf(tokens: seq<string>): Parsed {
    if tokens == [] then Bad(InvalidCommand)
    else if |tokens| == 1 then Parsed(Command("", Upper(tokens[0]), []))
    else Parsed(Command(tokens[0], Upper(tokens[1]), tokens[2..]))
  }

  function ParseLine(line: Bytes): Parsed {
    match TokensOf(Lossy(line))
    case Failed(e) => Bad(e)
    case Stuck => Hangs
    case Tokens(tokens) => CommandOf(tokens)
  }

  const OPEN_BRACE: Byte := 123
  const CLOSE_BRACE: Byte := 125

  /** A literal marker `{n}` at the end of a line: its count and its length in bytes. */
  function LiteralCount(line: Bytes): (r: Option<(nat, nat)>)
    ensures r.Some? ==> 2 <= r.value.1 <= |line| && r.value.0 <= MAX_LITERAL
  {
    var k := FindLast(line, OPEN_BRACE);
    if k == 0 || k == |line| || line[|line| - 1] != CLOSE_BRACE then None
    else
      var inner := line[k..|line| - 1];
      match Decode(inner)
      case None => None
      case Some(text) =>
        match ParseUnsigned(Trim(text), USIZE_MAX)
        case None => None
        case Some(n) => if n > MAX_LITERAL then None else Some((n, 2 + |inner|))
  }

  /** What the reader holds between calls. */
  datatype Reader = Reader(buf: Bytes, pending: Bytes, literal: Option<nat>)

  const START: Reader := Reader([], [], None)

  function More(r: Reader, data: Bytes): Reader {
    r.(buf := r.buf + data)
  }

  /** One turn of the feeding loop. */
  datatype Turn =
    | Continue(reader: Reader)
    | Emit(reader: Reader, command: Command)
    | Wait(reader: Reader)                      // returns: needs more bytes
    | Pause(reader: Reader)                     // returns: a literal was announced
    | Fail(reader: Reader, error: ParseError)
    | Hang

  function TakeLiteral(r: Reader, n: nat): Turn {
    if n <= |r.buf| then Continue(Reader(r.buf[n..], r.pending + r.buf[..n], None))
    else Wait(Reader([], r.pending + r.buf, Some(n - |r.buf|)))
  }

  function EndLine(r: Reader, line: Bytes, rest: Bytes): Turn {
    match LiteralCount(line)
    case Some((n, marker)) => Pause(Reader(rest, r.pending + line[..|line| - marker], Some(n)))
    case None =>
      match ParseLine(r.pending + line)
      case Parsed(command) => Emit(Reader(rest, [], None), command)
      case Bad(e) => Fail(Reader(rest, [], None), e)
      case Hangs => Hang
  }

  function NextTurn(r: Reader): Turn {
    if r.literal.Some? then TakeLiteral(r, r.literal.value)
    else
      var end := Find(r.buf, LF);
      if end == |r.buf| then Wait(r)
      else if end == 0 then EndLine(r, [], r.buf[1..])
      else if r.buf[end - 1] != CR then Fail(r.(buf := []), Unterminated)
      else EndLine(r, r.buf[..end - 1], r.buf[end + 1..])
  }

  function Lit(r: Reader): nat {
    if r.literal.Some? then 1 else 0
  }

  /** The measure of the loop: the buffer shrinks, or a pending literal is used up. */
  lemma TurnDescends(r: Reader)
    ensures var t := NextTurn(r);
            && (t.Continue? ==> |t.reader.buf| < |r.buf| || (|t.reader.buf| == |r.buf| && Lit(t.reader) < Lit(r)))
            && (t.Emit? || t.Pause? ==> |t.reader.buf| < |r.buf|)
  {
  }

  /** How a run of turns ended. */
  datatype Ending = Quiet | Paused | Broken(error: ParseError) | Hung

  datatype Ran = Ran(commands: seq<Command>, reader: Reader, ending: Ending)

  function Before(c: Command, r: Ran): Ran {
    r.(commands := [c] + r.commands)
  }

  /** The loop of one `feed` call, after the new bytes were added. */
  function FeedLoop(r: Reader): Ran
    decreases |r.buf|, Lit(r)
  {
    TurnDescends(r);
    match NextTurn(r)
    case Continue(r') => FeedLoop(r')
    case Emit(r', c) => Before(c, FeedLoop(r'))
    case Wait(r') => Ran([], r', Quiet)
    case Pause(r') => Ran([], r', Paused)
    case Fail(r', e) => Ran([], r', Broken(e))
    case Hang => Ran([], START, Hung)
  }

  /** `feed`: on an error the commands already parsed in the call are lost with it. */
  function Feed(r: Reader, data: Bytes): Ran {
    FeedLoop(More(r, data))
  }

  /** What a call of `feed` returns: the commands, or the error and none of them. */
  datatype Fed = Got(commands: seq<Command>) | Err(error: ParseError) | Never

  function Returned(r: Ran): Fed {
    match r.ending
    case Broken(e) => Err(e)
    case Hung => Never
    case _ => Got(r.commands)
  }

  /** The reader as an object. */
  class CommandReader {
    var buf: Bytes
    var pendingLine: Bytes
    var literalRemaining: Option<nat>

    constructor ()
      ensures Model() == START
    {
      buf, pendingLine, literalRemaining := [], [], None;
    }

    function Model(): Reader
      reads this
    {
      Reader(buf, pendingLine, literalRemaining)
    }

    function NeedsContinuation(): bool
      reads this
    {
      literalRemaining.Some?
    }

    /** One turn of the loop, on the fields. */
    method TakeTurn() returns (t: Turn)
      modifies this
      ensures t == NextTurn(old(Model()))
      ensures !t.Hang? ==> Model() == t.reader
    {
      hide LiteralCount, ParseLine;
      if literalRemaining.Some? {
        var n := literalRemaining.value;
        var take := if n < |buf| then n else |buf|;
        assert take == |buf| ==> buf[..take] == buf && buf[take..] == [];
        pendingLine := pendingLine + buf[..take];
        buf := buf[take..];
        literalRemaining := if n - take == 0 then None else Some(n - take);
        return if literalRemaining.Some? then Wait(Model()) else Continue(Model());
      }
      var lineEnd := Find(buf, LF);
      if lineEnd == |buf| {
        return Wait(Model());
      }
      if lineEnd > 0 && buf[lineEnd - 1] != CR {
        buf := [];
        return Fail(Model(), Unterminated);
      }
      var line := buf[..if lineEnd > 0 then lineEnd - 1 else 0];
      buf := buf[lineEnd + 1..];
      assert NextTurn(old(Model())) == EndLine(old(Model()), line, buf);
      var literal := LiteralCount(line);
      if literal.Some? {
        literalRemaining := Some(literal.value.0);
        pendingLine := pendingLine + line[..|line| - literal.value.1];
        return Pause(Model());
      }
      var parsed := ParseLine(pendingLine + line);
      pendingLine := [];
      match parsed
      case Bad(e) => return Fail(Model(), e);
      case Hangs => return Hang;
      case Parsed(c) => return Emit(Model(), c);
    }

    /** Feeds bytes. The result is that of the specification; the loop's measure is the pair of the buffer's
        length and whether a literal is pending. */
    method FeedBytes(data: Bytes) returns (r: Fed)
      modifies this
      ensures var spec := Feed(old(Model()), data);
              && r == Returned(spec) && (r != Never ==> Model() == spec.reader)
              && (spec.ending.Paused? ==> NeedsContinuation())
    {
      hide NextTurn;
      buf := buf + data;
      var commands: seq<Command> := [];
      ghost var all := FeedLoop(Model());
      ThenLaws(Command("", "", []), [], [], all);
      while true
        invariant all == Then(commands, FeedLoop(Model()))
        decreases |buf|, Lit(Model())
      {
        ghost var was := Model();
        TurnDescends(was);
        var t := TakeTurn();
        assert commands + [] == commands;
        match t
        case Continue(_) =>
        case Emit(_, c) =>
          ThenLaws(c, [], FeedLoop(Model()).commands, FeedLoop(Model()));
          assert commands + ([c] + FeedLoop(Model()).commands) == commands + [c] + FeedLoop(Model()).commands;
          commands := commands + [c];
        case Wait(_) => return Got(commands);
        case Pause(_) =>
          PauseAnnounces(was);
          return Got(commands);
        case Fail(_, e) => return Err(e);
        case Hang => return Never;
      }
    }
  }

  lemma PauseAnnounces(r: Reader)
    requires NextTurn(r).Pause?
    ensures NextTurn(r).reader.literal.Some?
  {
  }

  // ------------------------------------------------------ chunk independence

  /** All the turns a buffer allows, going on after each literal announcement. */
  function Drain(r: Reader): Ran
    decreases |r.buf|, Lit(r)
  {
    TurnDescends(r);
    match NextTurn(r)
    case Continue(r') => Drain(r')
    case Pause(r') => Drain(r')
    case Emit(r', c) => Before(c, Drain(r'))
    case Wait(r') => Ran([], r', Quiet)
    case Fail(r', e) => Ran([], r', Broken(e))
    case Hang => Ran([], START, Hung)
  }

  /** Commands first, then another run. */
  function Then(cs: seq<Command>, r: Ran): Ran {
    r.(commands := cs + r.commands)
  }

  lemma ThenLaws(c: Command, cs: seq<Command>, ds: seq<Command>, r: Ran)
    ensures Then([], r) == r
    ensures Before(c, Then(cs, r)) == Then([c] + cs, r)
    ensures Then(cs, Then(ds, r)) == Then(cs + ds, r)
  {
    assert [] + r.commands == r.commands;
    assert [c] + (cs + r.commands) == [c] + cs + r.commands;
    assert cs + (ds + r.commands) == cs + ds + r.commands;
  }

  lemma SliceMore(b: Bytes, d: Bytes, k: nat)
    requires k <= |b|
    ensures (b + d)[k..] == b[k..] + d && (b + d)[..k] == b[..k]
  {
  }

  /** Turn `u` is turn `t` with bytes `d` behind it. */
  ghost predicate TurnMore(t: Turn, u: Turn, d: Bytes) {
    match t
    case Continue(r') => u == Continue(More(r', d))
    case Pause(r') => u == Pause(More(r', d))
    case Emit(r', c) => u == Emit(More(r', d), c)
    case Fail(_, e) => u.Fail? && u.error == e
    case Hang => u == Hang
    case Wait(r') => u == NextTurn(More(r', d))
  }

  lemma ShortLiteral(r: Reader, n: nat, d: Bytes)
    requires n > |r.buf|
    ensures TakeLiteral(More(r, d), n) == TakeLiteral(Reader([] + d, r.pending + r.buf, Some(n - |r.buf|)), n - |r.buf|)
  {
    var m := n - |r.buf|;
    var b := r.buf + d;
    assert [] + d == d;
    if m <= |d| {
      assert b[n..] == d[m..];
      assert b[..n] == r.buf + d[..m];
      assert r.pending + (r.buf + d[..m]) == r.pending + r.buf + d[..m];
    } else {
      assert r.pending + b == r.pending + r.buf + d;
    }
  }

  lemma LiteralWithMore(r: Reader, d: Bytes)
    requires r.literal.Some?
    ensures TurnMore(NextTurn(r), NextTurn(More(r, d)), d)
  {
    var n := r.literal.value;
    if n <= |r.buf| {
      SliceMore(r.buf, d, n);
    } else {
      hide TakeLiteral;
      ShortLiteral(r, n, d);
      assert TakeLiteral(r, n) == Wait(Reader([], r.pending + r.buf, Some(n - |r.buf|))) by {
        ShortLiteralWaits(r, n);
      }
    }
  }

  lemma ShortLiteralWaits(r: Reader, n: nat)
    requires n > |r.buf|
    ensures TakeLiteral(r, n) == Wait(Reader([], r.pending + r.buf, Some(n - |r.buf|)))
  {
  }

  lemma LineEndWithMore(r: Reader, line: Bytes, rest: Bytes, d: Bytes)
    ensures TurnMore(EndLine(r, line, rest), EndLine(More(r, d), line, rest + d), d)
  {
    hide LiteralCount, ParseLine;
  }

  lemma LineWithMore(r: Reader, d: Bytes)
    requires r.literal.None?
    ensures TurnMore(NextTurn(r), NextTurn(More(r, d)), d)
  {
    hide EndLine;
    var end := Find(r.buf, LF);
    if end < |r.buf| {
      assert forall i | 0 <= i < |r.buf| :: (r.buf + d)[i] == r.buf[i];
      FindIs(r.buf + d, LF, end);
      SliceMore(r.buf, d, end + 1);
      SliceMore(r.buf, d, if end > 0 then end - 1 else 0);
      if end == 0 {
        LineEndWithMore(r, [], r.buf[1..], d);
      } else {
        LineEndWithMore(r, r.buf[..end - 1], r.buf[end + 1..], d);
      }
    }
  }

  /** A turn that does not wait is taken in the same way when more bytes stand behind it. */
  lemma TurnWithMore(r: Reader, d: Bytes)
    ensures TurnMore(NextTurn(r), NextTurn(More(r, d)), d)
  {
    if r.literal.Some? { LiteralWithMore(r, d); } else { LineWithMore(r, d); }
  }

  /** Draining what has arrived, then what arrives, is draining it all. */
  lemma {:induction false} DrainMore(r: Reader, d: Bytes)
    ensures var done := Drain(r);
            if done.ending.Quiet? then Drain(More(r, d)) == Then(done.commands, Drain(More(done.reader, d)))
            else Drain(More(r, d)).ending == done.ending
    decreases |r.buf|, Lit(r)
  {
    hide NextTurn;
    TurnDescends(r);
    TurnDescends(More(r, d));
    TurnWithMore(r, d);
    match NextTurn(r)
    case Continue(r') => DrainMore(r', d);
    case Pause(r') => DrainMore(r', d);
    case Emit(r', c) =>
      DrainMore(r', d);
      var later := Drain(r');
      if later.ending.Quiet? {
        ThenLaws(c, later.commands, [], Drain(More(later.reader, d)));
      }
    case Wait(r') =>
      SameTurnSameDrain(More(r, d), More(r', d));
      ThenLaws(Command("", "", []), [], [], Drain(More(r', d)));
    case Fail(_, _) =>
    case Hang =>
  }

  lemma SameTurnSameDrain(r: Reader, q: Reader)
    requires NextTurn(r) == NextTurn(q)
    ensures Drain(r) == Drain(q)
  {
  }

  /** One `feed` is part of the draining. */
  lemma {:induction false} FeedThenDrain(r: Reader)
    ensures var fed := FeedLoop(r);
            match fed.ending
            case Quiet => Drain(r) == fed && Drain(fed.reader).ending == Quiet && Drain(fed.reader).commands == []
            case Paused => Drain(r) == Then(fed.commands, Drain(fed.reader))
            case _ => Drain(r).ending == fed.ending
    ensures FeedLoop(r).ending.Quiet? ==> Drain(FeedLoop(r).reader) == Ran([], FeedLoop(r).reader, Quiet)
    decreases |r.buf|, Lit(r)
  {
    hide NextTurn;
    TurnDescends(r);
    match NextTurn(r)
    case Continue(r') => FeedThenDrain(r');
    case Emit(r', c) =>
      FeedThenDrain(r');
      var later := FeedLoop(r');
      ThenLaws(c, later.commands, [], Drain(later.reader));
    case Pause(r') => ThenLaws(Command("", "", []), [], [], Drain(r'));
    case Wait(r') => WaitIsQuiet(r);
    case Fail(_, _) =>
    case Hang =>
  }

  lemma WaitIsQuiet(r: Reader)
    requires NextTurn(r).Wait?
    ensures Drain(NextTurn(r).reader) == Ran([], NextTurn(r).reader, Quiet)
  {
    var r' := NextTurn(r).reader;
    if r.literal.Some? {
      assert r'.buf[..0] == [] && r'.pending + r'.buf == r'.pending;
    }
  }

  /** A whole connection: feeds in turn, ended by the first error; then empty feeds while the last one paused. */
  function FeedAll(r: Reader, chunks: seq<Bytes>): Ran
    decreases |chunks|
  {
    if chunks == [] then Settle(r)
    else
      var fed := Feed(r, chunks[0]);
      if fed.ending.Broken? || fed.ending.Hung? then fed
      else Then(fed.commands, FeedAll(fed.reader, chunks[1..]))
  }

  lemma {:induction false} FeedLoopDescends(r: Reader)
    ensures FeedLoop(r).ending.Paused? ==> |FeedLoop(r).reader.buf| < |r.buf|
    decreases |r.buf|, Lit(r)
  {
    TurnDescends(r);
    var t := NextTurn(r);
    if t.Continue? || t.Emit? { FeedLoopDescends(t.reader); }
  }

  /** Empty feeds, as long as each announces a literal. */
  function Settle(r: Reader): Ran
    decreases |r.buf|
  {
    FeedLoopDescends(r);
    var fed := FeedLoop(r);
    if fed.ending.Paused? then Then(fed.commands, Settle(fed.reader)) else fed
  }

  lemma {:induction false} SettleIsDrain(r: Reader)
    ensures Settle(r).ending == Drain(r).ending
    ensures Settle(r).ending.Quiet? ==> Settle(r) == Drain(r)
    decreases |r.buf|
  {
    FeedThenDrain(r);
    FeedLoopDescends(r);
    if FeedLoop(r).ending.Paused? {
      SettleIsDrain(FeedLoop(r).reader);
    }
  }

  function Concat(chunks: seq<Bytes>): Bytes {
    if chunks == [] then [] else chunks[0] + Concat(chunks[1..])
  }

  /** However a stream is cut into feeds, the connection ends as draining the whole stream does: in the same
      error if there is one, and otherwise with the same commands and the same reader left over. */
  lemma {:induction false} FeedsAreDrain(r: Reader, chunks: seq<Bytes>)
    ensures var whole := Drain(More(r, Concat(chunks)));
            && FeedAll(r, chunks).ending == whole.ending
            && (whole.ending.Quiet? ==> FeedAll(r, chunks) == whole)
    decreases |chunks|
  {
    if chunks == [] {
      assert More(r, []) == r;
      SettleIsDrain(r);
    } else {
      var d, rest := chunks[0], Concat(chunks[1..]);
      var first := More(r, d);
      assert More(r, Concat(chunks)) == More(first, rest);
      FeedThenDrain(first);
      var fed := FeedLoop(first);
      if fed.ending.Broken? || fed.ending.Hung? {
        DrainMore(first, rest);
      } else {
        FeedsAreDrain(fed.reader, chunks[1..]);
        DrainAfterFeed(first, rest);
      }
    }
  }

  /** After a feed that did not fail, what it left, with the rest of the stream behind it, drains to the rest. */
  lemma {:induction false} DrainAfterFeed(r: Reader, d: Bytes)
    requires FeedLoop(r).ending.Quiet? || FeedLoop(r).ending.Paused?
    ensures Drain(More(r, d)) == Then(FeedLoop(r).commands, Drain(More(FeedLoop(r).reader, d)))
    decreases |r.buf|, Lit(r)
  {
    hide NextTurn;
    TurnDescends(r);
    TurnDescends(More(r, d));
    TurnWithMore(r, d);
    match NextTurn(r)
    case Continue(r') => DrainAfterFeed(r', d);
    case Emit(r', c) =>
      DrainAfterFeed(r', d);
      ThenLaws(c, FeedLoop(r').commands, [], Drain(More(FeedLoop(r').reader, d)));
    case Pause(r') => ThenLaws(Command("", "", []), [], [], Drain(More(r', d)));
    case Wait(r') =>
      SameTurnSameDrain(More(r, d), More(r', d));
      ThenLaws(Command("", "", []), [], [], Drain(More(r', d)));
    case _ => assert false;
  }

  /** Chunk independence: two ways of cutting the same bytes give the same error, or the same commands. */
  lemma ChunkIndependence(xs: seq<Bytes>, ys: seq<Bytes>)
    requires Concat(xs) == Concat(ys)
    ensures FeedAll(START, xs).ending == FeedAll(START, ys).ending
    ensures FeedAll(START, xs).ending.Quiet? ==> FeedAll(START, xs) == FeedAll(START, ys)
  {
    FeedsAreDrain(START, xs);
    FeedsAreDrain(START, ys);
  }

  // ---------------------------------------------------- printer and reader

  lemma LineFeedFree(s: string)
    requires '\n' !in s
    ensures LF !in Encode(s)
  {
    EncodeAsciiMember(s, '\n');
  }

  /** A line whose last byte is not a closing brace announces no literal. */
  lemma NoMarker(line: Bytes)
    requires line != [] && line[|line| - 1] != CLOSE_BRACE
    ensures LiteralCount(line) == None
  {
  }

  lemma LineTurn(e: Bytes, rest: Bytes)
    requires LF !in e
    ensures NextTurn(Reader(e + [CR, LF] + rest, [], None)) == EndLine(Reader(e + [CR, LF] + rest, [], None), e, rest)
  {
    hide EndLine;
    var b := e + [CR, LF] + rest;
    assert forall i | 0 <= i < |e| :: b[i] == e[i];
    FindIs(b, LF, |e| + 1);
    assert b[..|e|] == e && b[|e| + 2..] == rest;
  }

  /** A line that announces no literal. */
  predicate PlainLine(text: string) {
    '\n' !in text && LiteralCount(Encode(text)) == None
  }

  function LineOf(text: string): Bytes {
    Encode(text) + [CR, LF]
  }

  /** A complete line, not announcing a literal, is one turn: a command, and then what follows. */
  lemma FeedLine(text: string, c: Command, rest: Bytes)
    requires PlainLine(text) && ParseLine(Encode(text)) == Parsed(c)
    ensures Feed(START, LineOf(text) + rest) == Before(c, Feed(START, rest))
  {
    hide LiteralCount, ParseLine, NextTurn, Encode;
    var e := Encode(text);
    var r := Reader(e + [CR, LF] + rest, [], None);
    assert [] + (LineOf(text) + rest) == e + [CR, LF] + rest && [] + e == e && [] + rest == rest;
    LineFeedFree(text);
    LineTurn(e, rest);
    assert NextTurn(r) == Emit(Reader(rest, [], None), c);
  }

  /** A complete line that does not parse ends the feed, and what was read before it is lost. */
  lemma FeedBadLine(text: string, e: ParseError, rest: Bytes)
    requires PlainLine(text) && ParseLine(Encode(text)) == Bad(e)
    ensures Feed(START, LineOf(text) + rest) == Ran([], Reader(rest, [], None), Broken(e))
  {
    hide LiteralCount, ParseLine, NextTurn, Encode;
    var b := Encode(text);
    var r := Reader(b + [CR, LF] + rest, [], None);
    assert [] + (LineOf(text) + rest) == b + [CR, LF] + rest && [] + b == b;
    LineFeedFree(text);
    LineTurn(b, rest);
    assert NextTurn(r) == Fail(Reader(rest, [], None), e);
  }

  lemma FeedOneLine(text: string, c: Command)
    requires PlainLine(text) && ParseLine(Encode(text)) == Parsed(c)
    ensures Feed(START, Encode(text) + [CR, LF]) == Ran([c], START, Quiet)
  {
    hide ParseLine, FeedLoop, Encode, PlainLine;
    assert LineOf(text) + [] == Encode(text) + [CR, LF];
    FeedLine(text, c, []);
    assert More(START, []) == START;
    NothingToRead();
  }

  /** Where cutting matters: a good line and a bad one. Read together the command is lost with the error; read one after
      the other it is returned first. */
  lemma CommandLostWithError(good: string, c: Command, bad: string, e: ParseError)
    requires PlainLine(good) && ParseLine(Encode(good)) == Parsed(c) && PlainLine(bad) && ParseLine(Encode(bad)) == Bad(e)
    ensures Returned(Feed(START, LineOf(good) + LineOf(bad))) == Err(e)
    ensures Returned(Feed(START, LineOf(good))) == Got([c])
    ensures Returned(Feed(Feed(START, LineOf(good)).reader, LineOf(bad))) == Err(e)
  {
    hide ParseLine, FeedLoop, Encode, PlainLine;
    FeedLine(good, c, LineOf(bad));
    FeedBadLine(bad, e, []);
    assert LineOf(bad) + [] == LineOf(bad);
    FeedOneLine(good, c);
  }

  lemma NothingToRead()
    ensures FeedLoop(START) == Ran([], START, Quiet)
  {
  }

  /** The reader undoes the printer: a tag, a name and any quoted arguments without line feeds come back as
      exactly one command, with no literal announced and nothing left over. */
  lemma PrintedCommandReadsBack(tag: string, name: string, args: seq<string>)
    requires IsAtom(tag) && IsAtom(name) && args != [] && forall a | a in args :: '\n' !in a
    ensures Feed(START, Encode(PrintCommand(tag, name, args)) + [CR, LF])
         == Ran([Command(tag, Upper(name), args)], START, Quiet)
  {
    hide TokensOf, Encode, Lossy, Feed, LiteralCount, ParseLine, PrintCommand, Upper;
    var text := PrintCommand(tag, name, args);
    PrintedOnOneLine(tag, name, args);
    PrintedParses(tag, name, args);
    PrintedEnd(tag, name, args);
    LastByte(text);
    NoMarker(Encode(text));
    FeedOneLine(text, Command(tag, Upper(name), args));
  }

  lemma PrintedParses(tag: string, name: string, args: seq<string>)
    requires IsAtom(tag) && IsAtom(name)
    ensures ParseLine(Encode(PrintCommand(tag, name, args))) == Parsed(Command(tag, Upper(name), args))
  {
    hide TokensOf, Encode, Lossy, PrintCommand, Upper;
    PrintedTokens(tag, name, args);
    LossyOfText(PrintCommand(tag, name, args));
    assert ([tag, name] + args)[2..] == args;
  }

  lemma PrintedEnd(tag: string, name: string, args: seq<string>)
    requires args != []
    ensures var s := PrintCommand(tag, name, args); s != [] && s[|s| - 1] == '"'
  {
    hide QuotedArgs;
    QuotedArgsEnd(args);
  }

  lemma {:induction false} EscapeOnOneLine(a: string)
    requires '\n' !in a
    ensures '\n' !in Escape(a)
  {
    if a != [] {
      assert a[0] in a && forall i | 0 <= i < |a| - 1 :: a[1..][i] in a;
      EscapeOnOneLine(a[1..]);
    }
  }

  lemma {:induction false} QuotedArgsOnOneLine(args: seq<string>)
    requires forall a | a in args :: '\n' !in a
    ensures '\n' !in QuotedArgs(args)
  {
    if args != [] {
      EscapeOnOneLine(args[0]);
      QuotedArgsOnOneLine(args[1..]);
    }
  }

  lemma PrintedOnOneLine(tag: string, name: string, args: seq<string>)
    requires IsAtom(tag) && IsAtom(name) && forall a | a in args :: '\n' !in a
    ensures '\n' !in PrintCommand(tag, name, args)
  {
    assert IsWhitespace('\n');
    QuotedArgsOnOneLine(args);
  }

  lemma {:induction false} QuotedArgsEnd(args: seq<string>)
    requires args != []
    ensures var s := QuotedArgs(args); s != [] && s[|s| - 1] == '"'
  {
    if |args| == 1 {
      assert args[1..] == [];
    } else {
      QuotedArgsEnd(args[1..]);
    }
  }

  lemma LastByte(s: string)
    requires s != [] && s[|s| - 1] == '"'
    ensures Encode(s) != [] && Encode(s)[|Encode(s)| - 1] == 34
  {
    var init := s[..|s| - 1];
    assert s == init + ['"'];
    EncodeConcat(init, ['"']);
    EncodeAscii(['"']);
  }
}
