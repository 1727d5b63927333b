/** An IMAP connection from bytes to replies: the reader feeding the session, read after read. */
module ImapService {
  import opened Utf8
  import opened Text
  import opened MailStore
  import opened ImapSession
  import opened FetchReply
  import T = ImapTokens
  import R = ImapReader

  /** An IDLE under way: its tag, the commands that were read along with it and behind it, and the replies to those that
      were read along with it and before it, which are not written yet. */
  datatype Idling = Waiting(tag: string, behind: seq<R.Command>, unsent: seq<string>)

  /** Where the dialogue stands between two reads: the session, the store, the replies written so far, whether the
      connection is over, and whether it idles. */
  datatype Talk = Talk(session: Session, db: Db, replies: seq<string>, over: bool, idle: Option<Idling>)

  datatype Conn = Conn(reader: R.Reader, talk: Talk)

  function ErrorWord(e: T.ParseError): string {
    match e
    case InvalidCommand => "InvalidCommand"
    case Unterminated => "Unterminated"
    case UnclosedQuote => "UnclosedQuote"
  }

  function Complaint(e: T.ParseError): string {
    if e.Unterminated? then Tagged("", BAD, "malformed line") else Untagged("BAD Invalid command: " + ErrorWord(e))
  }

  const IDLE: string := "IDLE"
  const DONE: string := "DONE"
  const LOGOUT: string := "LOGOUT"

  /** The commands of one read, in order, with the replies to them collected in `out` and written at the end, or at a
      LOGOUT. The server answers IDLE itself, in whatever state the session is, and meanwhile keeps what was read along
      with it. */
  ghost function HandleAll(cfg: Config, c: Talk, out: seq<string>, cmds: seq<R.Command>): Talk
    decreases |cmds|
  {
    if cmds == [] then c.(replies := c.replies + out)
    else if cmds[0].name == IDLE then c.(idle := Some(Waiting(cmds[0].tag, cmds[1..], out)))
    else
      var t := Handle(cfg, c.db, c.session, cmds[0]);
      var c' := c.(session := t.session, db := t.db);
      if cmds[0].name == LOGOUT then c'.(replies := c.replies + (out + [t.reply]), over := true)
      else HandleAll(cfg, c', out + [t.reply], cmds[1..])
  }

  predicate HasDone(cmds: seq<R.Command>) {
    exists i | 0 <= i < |cmds| :: cmds[i].name == DONE
  }

  function Terminated(tag: string): string {
    Tagged(tag, OK, "IDLE terminated")
  }

  /** What the commands of a read do. While idling they are searched for a DONE and otherwise dropped; a DONE ends the
      IDLE, and what was read behind the IDLE is handled. */
  ghost function Take(cfg: Config, c: Talk, cmds: seq<R.Command>): Talk {
    if c.over then c
    else if c.idle.None? then HandleAll(cfg, c, [], cmds)
    else if HasDone(cmds) then HandleAll(cfg, c.(idle := None), c.idle.value.unsent + [Terminated(c.idle.value.tag)], c.idle.value.behind)
    else c
  }

  /** One turn of `serve_connection` or of its idle loop. An empty read is the end of the stream. Where the tokenizer
      never returns the connection is stuck, and so over; an error while idling closes it. */
  ghost function Read(cfg: Config, c: Conn, data: Bytes): Conn {
    if c.talk.over then c
    else if data == [] then c.(talk := c.talk.(over := true))
    else
      var fed := R.Feed(c.reader, data);
      match R.Returned(fed)
      case Never => c.(talk := c.talk.(over := true))
      case Err(e) =>
        Conn(fed.reader, if c.talk.idle.Some? then c.talk.(over := true)
                         else c.talk.(replies := c.talk.replies + [Complaint(e)], over := e.Unterminated?))
      case Got(cmds) => Conn(fed.reader, Take(cfg, c.talk, cmds))
  }

  ghost function ReadAll(cfg: Config, c: Conn, chunks: seq<Bytes>): Conn
    decreases |chunks|
  {
    if chunks == [] then c else ReadAll(cfg, Read(cfg, c, chunks[0]), chunks[1..])
  }

  function Opened(db: Db): Conn {
    Conn(R.START, Talk(FRESH, db, [], false, None))
  }

  /** A read that leaves a literal unfinished leaves it announced: a request to go on is written after every such read,
      so a literal that arrives in pieces is asked for again after each. */
  lemma AskedAgain(r: R.Reader, data: Bytes)
    requires r.literal.Some? && |r.buf| + |data| < r.literal.value
    ensures R.Feed(r, data).ending == R.Quiet && R.Feed(r, data).commands == []
    ensures R.Feed(r, data).reader.literal == Some(r.literal.value - |r.buf| - |data|)
  {
    var m := R.More(r, data);
    assert R.NextTurn(m) == R.Wait(R.Reader([], m.pending + m.buf, Some(r.literal.value - |r.buf| - |data|)));
  }

  function Told(word: string): string {
    "* BAD Invalid command: " + word + "\r\n"
  }

  /** What a read that does not parse brings: a complaint, and the end of the connection if the line was not ended properly;
      while idling, the end alone. */
  lemma ErrorTold(cfg: Config, c: Conn, data: Bytes, e: T.ParseError)
    requires !c.talk.over && data != [] && R.Returned(R.Feed(c.reader, data)) == R.Err(e)
    ensures var t := Read(cfg, c, data).talk;
            && t.session == c.talk.session && t.db == c.talk.db
            && (c.talk.idle.Some? ==> t.over && t.replies == c.talk.replies)
            && (c.talk.idle.None? ==> (t.over <==> e == T.Unterminated)
                                      && t.replies == c.talk.replies + [match e
                                                                        case Unterminated => " BAD malformed line\r\n"
                                                                        case InvalidCommand => Told("InvalidCommand")
                                                                        case UnclosedQuote => Told("UnclosedQuote")])
  {
    hide R.Feed, Complaint, Told;
    ComplaintIs(e);
  }

  lemma ComplaintIs(e: T.ParseError)
    ensures Complaint(e) == match e
                            case Unterminated => " BAD malformed line\r\n"
                            case InvalidCommand => Told("InvalidCommand")
                            case UnclosedQuote => Told("UnclosedQuote")
  {
    if e.Unterminated? {
      assert "" + " " + "BAD" + " " + "malformed line" + "\r\n" == " BAD malformed line\r\n";
    } else {
      var word := ErrorWord(e);
      hide ErrorWord;
      assert "* " + ("BAD Invalid command: " + word) + "\r\n" == ("* " + "BAD Invalid command: ") + word + "\r\n";
      assert "* " + "BAD Invalid command: " == "* BAD Invalid command: ";
    }
  }

  // ----------------------------------------------------------------- the objects

  /** The loop over the commands of a read. */
  method HandleEach(connection: ImapConnection, cmds: seq<R.Command>, sofar: seq<string>, ghost replies: seq<string>)
    returns (written: seq<string>, over: bool, idle: Option<Idling>)
    requires connection.store.Valid()
    modifies connection, connection.store`messages
    ensures connection.store.Valid()
    ensures Talk(connection.View(), connection.store.Model(), replies + written, over, idle)
         == HandleAll(connection.cfg, Talk(old(connection.View()), old(connection.store.Model()), replies, false, None), sofar, cmds)
  {
    hide Handle, Sound;
    ghost var all := HandleAll(connection.cfg, Talk(connection.View(), connection.store.Model(), replies, false, None), sofar, cmds);
    assert replies + [] == replies;
    var out := sofar;
    var i := 0;
    assert cmds[0..] == cmds;
    while i < |cmds|
      invariant 0 <= i <= |cmds| && connection.store.Valid()
      invariant all == HandleAll(connection.cfg, Talk(connection.View(), connection.store.Model(), replies, false, None), out, cmds[i..])
    {
      assert cmds[i..][1..] == cmds[i + 1..];
      if cmds[i].name == IDLE {
        return [], false, Some(Waiting(cmds[i].tag, cmds[i + 1..], out));
      }
      var reply := connection.HandleCommand(cmds[i]);
      out := out + [reply];
      if cmds[i].name == LOGOUT {
        return out, true, None;
      }
      i := i + 1;
    }
    return out, false, None;
  }

  /** One turn of `serve_connection`, or of the idle loop inside it, on the objects: feed the reader, then handle the
      commands it gave or look for the DONE among them. */
  method ServeRead(reader: R.CommandReader, connection: ImapConnection, idling: Option<Idling>, data: Bytes)
    returns (out: seq<string>, over: bool, idle: Option<Idling>)
    requires connection.store.Valid()
    modifies reader, connection, connection.store`messages
    ensures connection.store.Valid()
    ensures var before := Conn(old(reader.Model()), Talk(old(connection.View()), old(connection.store.Model()), [], false, idling));
            var after := Read(connection.cfg, before, data);
            && Talk(connection.View(), connection.store.Model(), out, over, idle) == after.talk
            && (data == [] || R.Returned(R.Feed(old(reader.Model()), data)) != R.Never ==> reader.Model() == after.reader)
  {
    hide R.Feed, HandleAll, Sound;
    idle := idling;
    if data == [] {
      return [], true, idling;
    }
    var fed := reader.FeedBytes(data);
    match fed
    case Never => return [], true, idling;
    case Err(e) =>
      if idling.Some? { return [], true, idling; }
      assert [] + [Complaint(e)] == [Complaint(e)];
      return [Complaint(e)], e.Unterminated?, None;
    case Got(cmds) =>
      if idling.None? {
        out, over, idle := HandleEach(connection, cmds, [], []);
        assert [] + out == out;
      } else if HasDone(cmds) {
        var ended := idling.value.unsent + [Terminated(idling.value.tag)];
        out, over, idle := HandleEach(connection, idling.value.behind, ended, []);
        assert [] + out == out;
      } else {
        out, over := [], false;
      }
  }
}
