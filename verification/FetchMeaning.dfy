/** What a FETCH tells the client of each message, read off the reply. */
module FetchMeaning {
  import opened Utf8
  import opened Text
  import opened MailStore
  import opened Listing
  import opened FetchReply
  import opened FetchHeaders
  import opened FetchLiterals
  import opened FlagWords
  import opened ImapSession
  import D = SessionDispatch
  import F = FetchItems
  import T = ImapTokens
  import R = ImapReader

  // ------------------------------------------------------------- the literals

  /** The bytes are what the section of the message must be: the stored body, or the headers asked for. */
  ghost predicate Serves(cfg: Config, s: Session, m: Meta, row: MessageRow, section: F.Section, bytes: Bytes) {
    match section
    case Full => bytes == row.body
    case TextPart => bytes == row.body
    case Other(_) => bytes == row.body
    case Mime => bytes == Encode("Content-Type: text/plain\r\n")
    case NoBody => false
    case _ =>
      Decode(bytes).Some? && forall name, value ::
        (name, value) in ReadFields(Decode(bytes).value) <==> Asked(section, name) && HeaderIs(cfg, s, row, m.txState, m.txId, name, value)
  }

  lemma SectionServed(cfg: Config, db: Db, s: Session, m: Meta, req: F.Request)
    requires m.rowId in db.messages && ShowsRow(m, db.messages[m.rowId]) && !req.body.NoBody?
    requires CalmMeta(m, IdentityOf(cfg, s, m), cfg.formats)
    ensures Serves(cfg, s, m, db.messages[m.rowId], req.body, ContentFor(cfg, db, s, m, req))
  {
    hide Encode, Decode, ReadFields, Asked, HeaderIs, CalmMeta, IdentityOf, ShowsRow;
    if Stored(req.body) {
      StoredServed(cfg, db, s, m, req);
    } else if !req.body.Mime? {
      HeadersServed(cfg, s, m, db.messages[m.rowId], req.body, BodyFor(db, m, req.body));
    }
  }

  // ------------------------------------------------------------- the metadata

  /** An address in an envelope: its parts around the last `@`, quoted, or the whole, or NIL. */
  ghost predicate AddressIs(address: string, text: string) {
    if address == "" || address == "(unknown sender)" || address == "(unknown recipient)" then text == "NIL"
    else if '@' !in address then text == "((" + T.Quote(address) + " NIL NIL NIL))"
    else exists local, host :: address == local + "@" + host && '@' !in host
           && text == "((" + T.Quote(local) + " NIL " + T.Quote(local) + " " + T.Quote(host) + "))"
  }

  lemma AddressGroupIs(address: string)
    ensures AddressIs(address, AddressGroup(address))
  {
    hide T.Quote;
    var k := FindLast(address, '@');
    if k > 0 {
      var local, host := address[..k - 1], address[k..];
      assert address == local + "@" + host && '@' !in host;
    }
  }

  ghost predicate EnvelopeIs(cfg: Config, s: Session, row: MessageRow, text: string) {
    var own := s.username + "@" + cfg.domain;
    exists from, to ::
      && AddressIs(if s.selected == "Sent" then own else row.sender, from)
      && AddressIs(if s.selected == "Sent" then row.sender else own, to)
      && text == cfg.formats.mailDate(row.internaldate) + " " + T.Quote(row.subject) + " " + from + " " + from + " " + from
                 + " " + to + " NIL NIL NIL " + T.Quote(row.messageId)
  }

  lemma JoinEight(a: string, b: string, c: string, d: string, e: string, f: string, g: string, h: string)
    ensures Join([a, b, c, d, e, f, g, h], " ") == a + " " + b + " " + c + " " + d + " " + e + " " + f + " " + g + " " + h
  {
    JoinFirst(a, [b, c, d, e, f, g, h]);
    JoinFirst(b, [c, d, e, f, g, h]);
    JoinFirst(c, [d, e, f, g, h]);
    JoinFirst(d, [e, f, g, h]);
    JoinFirst(e, [f, g, h]);
    JoinFirst(f, [g, h]);
    JoinFirst(g, [h]);
    assert Join([h], " ") == h;
    hide Join;
    Nested(a, b, c, d, e, f, g, h, " ");
  }

  lemma JoinFirst(p: string, parts: seq<string>)
    requires parts != []
    ensures Join([p] + parts, " ") == p + " " + Join(parts, " ")
  {
    assert ([p] + parts)[1..] == parts;
  }

  lemma Nested(a: string, b: string, c: string, d: string, e: string, f: string, g: string, h: string, x: string)
    ensures a + x + (b + x + (c + x + (d + x + (e + x + (f + x + (g + x + h))))))
         == a + x + b + x + c + x + d + x + e + x + f + x + g + x + h
  {
  }

  lemma EnvelopeReads(cfg: Config, s: Session, m: Meta, row: MessageRow)
    requires ShowsRow(m, row)
    ensures EnvelopeIs(cfg, s, row, Envelope(m, IdentityOf(cfg, s, m), cfg.formats))
  {
    var id := IdentityOf(cfg, s, m);
    AddressGroupIs(id.from);
    AddressGroupIs(id.to);
    hide T.Quote, AddressGroup, Join, AddressIs;
    var from, to := AddressGroup(id.from), AddressGroup(id.to);
    var date, subject, messageId := cfg.formats.mailDate(m.internaldate), T.Quote(m.subject), T.Quote(m.messageId);
    JoinEight(date, subject, from, from, from, to, "NIL NIL NIL", messageId);
    NilsIn(date + " " + subject + " " + from + " " + from + " " + from + " " + to, messageId);
  }

  lemma NilsIn(a: string, b: string)
    ensures a + " " + "NIL NIL NIL" + " " + b == a + " NIL NIL NIL " + b
  {
    assert " " + "NIL NIL NIL" + " " == " NIL NIL NIL ";
    assert a + " " + "NIL NIL NIL" + " " + b == a + (" " + "NIL NIL NIL" + " ") + b;
  }

  lemma {:induction false} LineFeedsCount(b: Bytes)
    ensures LineFeeds(b) == |set i | 0 <= i < |b| && b[i] == 10|
  {
    var all := set i | 0 <= i < |b| && b[i] == 10;
    if b == [] {
      assert all == {};
    } else {
      var n := |b| - 1;
      LineFeedsCount(b[..n]);
      var some := set i | 0 <= i < |b[..n]| && b[..n][i] == 10;
      assert all == if b[n] == 10 then some + {n} else some;
    }
  }

  /** The lines of a body, when the section reads it. */
  function LinesOf(row: MessageRow, section: F.Section): nat {
    if section.Full? || section.TextPart? || section.Other? || section.Mime?
    then 1 + |set i | 0 <= i < |row.body| && row.body[i] == 10| else 1
  }

  /** One item of metadata: asked for, and as the store holds it. */
  ghost predicate PartIs(cfg: Config, s: Session, row: MessageRow, req: F.Request, p: string) {
    || (req.flags && exists names :: p == "FLAGS (" + names + ")" && ShowsFlags(names, row.flags))
    || (req.uid && p == "UID " + ToDecimal(row.uid % 0x1_0000_0000))
    || (req.size && p == "RFC822.SIZE " + ToDecimal(|row.body|))
    || (req.internaldate && p == "INTERNALDATE \"" + cfg.formats.internalDate(row.internaldate) + "\"")
    || (req.envelope && exists envelope :: p == "ENVELOPE (" + envelope + ")" && EnvelopeIs(cfg, s, row, envelope))
    || (req.bodystructure && p == "BODYSTRUCTURE (\"text\" \"html\" NIL NIL NIL NIL " + ToDecimal(|row.body|) + " "
                                  + ToDecimal(LinesOf(row, req.body)) + ")")
  }

  predicate Has(parts: seq<string>, head: string) {
    exists i | 0 <= i < |parts| :: StartsWith(parts[i], head)
  }

  function One(asked: bool): nat {
    if asked then 1 else 0
  }

  /** The parts are the items asked for, each once and each as the store holds it. */
  ghost predicate PartsAre(cfg: Config, s: Session, row: MessageRow, req: F.Request, parts: seq<string>) {
    && (forall i | 0 <= i < |parts| :: PartIs(cfg, s, row, req, parts[i]))
    && (req.flags ==> Has(parts, "FLAGS (")) && (req.uid ==> Has(parts, "UID ")) && (req.size ==> Has(parts, "RFC822.SIZE "))
    && (req.internaldate ==> Has(parts, "INTERNALDATE ")) && (req.envelope ==> Has(parts, "ENVELOPE ("))
    && (req.bodystructure ==> Has(parts, "BODYSTRUCTURE ("))
    && |parts| == One(req.flags) + One(req.uid) + One(req.size) + One(req.internaldate) + One(req.envelope) + One(req.bodystructure)
  }

  // ------------------------------------------------------- the parts, one by one

  /** The texts of the six items, with whether each is asked for. */
  function SixOf(cfg: Config, db: Db, s: Session, m: Meta, req: F.Request): (six: seq<(bool, string)>)
    ensures |six| == 6
  {
    var body, id := BodyFor(db, m, req.body), IdentityOf(cfg, s, m);
    [(req.flags, FlagsPart(m.flags)), (req.uid, UidPart(m.uid)), (req.size, SizePart(m.size)),
     (req.internaldate, DatePart(cfg.formats.internalDate(m.internaldate))), (req.envelope, EnvelopePart(Envelope(m, id, cfg.formats))),
     (req.bodystructure, Structure(m.size, if body == [] then 1 else LineFeeds(body) + 1))]
  }

  function Kept(six: seq<(bool, string)>): seq<string> {
    if six == [] then [] else If(six[0].0, six[0].1) + Kept(six[1..])
  }

  function Count(six: seq<(bool, string)>): nat {
    if six == [] then 0 else One(six[0].0) + Count(six[1..])
  }

  lemma {:induction false} KeptCounts(six: seq<(bool, string)>)
    ensures |Kept(six)| == Count(six)
  {
    if six != [] { KeptCounts(six[1..]); }
  }

  lemma {:induction false} KeptHas(six: seq<(bool, string)>, k: nat)
    requires k < |six| && six[k].0
    ensures six[k].1 in Kept(six)
  {
    if k > 0 {
      KeptHas(six[1..], k - 1);
      assert six[1..][k - 1] == six[k];
    }
  }

  lemma {:induction false} KeptFrom(six: seq<(bool, string)>, p: string)
    requires p in Kept(six)
    ensures (true, p) in six
  {
    if p in Kept(six[1..]) {
      KeptFrom(six[1..], p);
    } else {
      assert p in If(six[0].0, six[0].1);
      assert six[0] == (true, p);
    }
  }

  lemma KeptSix(a: (bool, string), b: (bool, string), c: (bool, string), d: (bool, string), e: (bool, string), f: (bool, string))
    ensures Kept([a, b, c, d, e, f]) == If(a.0, a.1) + If(b.0, b.1) + If(c.0, c.1) + If(d.0, d.1) + If(e.0, e.1) + If(f.0, f.1)
    ensures Count([a, b, c, d, e, f]) == One(a.0) + One(b.0) + One(c.0) + One(d.0) + One(e.0) + One(f.0)
  {
    KeptFirst(a, [b, c, d, e, f]);
    KeptFirst(b, [c, d, e, f]);
    KeptFirst(c, [d, e, f]);
    KeptFirst(d, [e, f]);
    KeptFirst(e, [f]);
    KeptFirst(f, []);
    hide Kept, Count, If, One;
    assert [a] + [b, c, d, e, f] == [a, b, c, d, e, f] && [b] + [c, d, e, f] == [b, c, d, e, f] && [c] + [d, e, f] == [c, d, e, f];
    assert [d] + [e, f] == [d, e, f] && [e] + [f] == [e, f] && [f] + [] == [f];
    var p, q, r, s, t, u := If(a.0, a.1), If(b.0, b.1), If(c.0, c.1), If(d.0, d.1), If(e.0, e.1), If(f.0, f.1);
    assert p + (q + (r + (s + (t + (u + []))))) == p + q + r + s + t + u;
  }

  lemma KeptFirst(a: (bool, string), rest: seq<(bool, string)>)
    ensures Kept([a] + rest) == If(a.0, a.1) + Kept(rest) && Count([a] + rest) == One(a.0) + Count(rest) && Kept([]) == [] && Count([]) == 0
  {
    assert ([a] + rest)[1..] == rest;
  }

  lemma PartsAreKept(cfg: Config, db: Db, s: Session, m: Meta, req: F.Request)
    ensures var six := SixOf(cfg, db, s, m, req);
            && Parts(m, req, BodyFor(db, m, req.body), IdentityOf(cfg, s, m), cfg.formats) == Kept(six)
            && Count(six) == One(req.flags) + One(req.uid) + One(req.size) + One(req.internaldate) + One(req.envelope) + One(req.bodystructure)
  {
    hide BodyFor, IdentityOf, FlagsPart, UidPart, SizePart, DatePart, EnvelopePart, Envelope, Structure, LineFeeds, Kept, Count, One, If;
    var six := SixOf(cfg, db, s, m, req);
    KeptSix(six[0], six[1], six[2], six[3], six[4], six[5]);
    assert six == [six[0], six[1], six[2], six[3], six[4], six[5]];
  }

  lemma SixHeaded(cfg: Config, db: Db, s: Session, m: Meta, req: F.Request)
    ensures var six := SixOf(cfg, db, s, m, req);
            && StartsWith(six[0].1, "FLAGS (") && StartsWith(six[1].1, "UID ") && StartsWith(six[2].1, "RFC822.SIZE ")
            && StartsWith(six[3].1, "INTERNALDATE ") && StartsWith(six[4].1, "ENVELOPE (") && StartsWith(six[5].1, "BODYSTRUCTURE (")
            && six[0].0 == req.flags && six[1].0 == req.uid && six[2].0 == req.size && six[3].0 == req.internaldate
            && six[4].0 == req.envelope && six[5].0 == req.bodystructure
  {
    hide BodyFor, IdentityOf, Envelope, LineFeeds, ToDecimal, FlagsDisplay;
  }

  lemma HasOf(six: seq<(bool, string)>, k: nat, head: string)
    requires k < |six| && StartsWith(six[k].1, head)
    ensures six[k].0 ==> Has(Kept(six), head)
  {
    hide Kept, StartsWith;
    if six[k].0 {
      KeptHas(six, k);
      var i :| 0 <= i < |Kept(six)| && Kept(six)[i] == six[k].1;
      assert StartsWith(Kept(six)[i], head);
    }
  }

  ghost predicate SixAre(cfg: Config, s: Session, row: MessageRow, req: F.Request, six: seq<(bool, string)>) {
    forall k | 0 <= k < |six| && six[k].0 :: PartIs(cfg, s, row, req, six[k].1)
  }

  lemma SixRight(cfg: Config, db: Db, s: Session, m: Meta, req: F.Request, validity: nat)
    requires Shows(db, m, validity)
    ensures SixAre(cfg, s, db.messages[m.rowId], req, SixOf(cfg, db, s, m, req))
  {
    var row := db.messages[m.rowId];
    DisplayNames(m.flags);
    EnvelopeReads(cfg, s, m, row);
    LinesRight(db, m, req.body);
    hide ToDecimal, FlagsDisplay, ShowsFlags, EnvelopeIs, Envelope, BodyFor, LineFeeds, LinesOf, IdentityOf;
    StructureIs(m.size, LinesOf(row, req.body));
    hide Structure;
  }

  lemma StructureIs(size: nat, lines: nat)
    ensures Structure(size, lines) == "BODYSTRUCTURE (\"text\" \"html\" NIL NIL NIL NIL " + ToDecimal(size) + " " + ToDecimal(lines) + ")"
  {
    hide ToDecimal;
    assert "BODYSTRUCTURE " + HTML + NILS == "BODYSTRUCTURE (\"text\" \"html\" NIL NIL NIL NIL ";
  }

  lemma LinesRight(db: Db, m: Meta, section: F.Section)
    requires m.rowId in db.messages
    ensures var body := BodyFor(db, m, section);
            (if body == [] then 1 else LineFeeds(body) + 1) == LinesOf(db.messages[m.rowId], section)
  {
    LineFeedsCount(db.messages[m.rowId].body);
  }

  lemma PartsRight(cfg: Config, db: Db, s: Session, m: Meta, req: F.Request, validity: nat)
    requires Shows(db, m, validity)
    ensures PartsAre(cfg, s, db.messages[m.rowId], req, Parts(m, req, BodyFor(db, m, req.body), IdentityOf(cfg, s, m), cfg.formats))
  {
    hide Parts, BodyFor, IdentityOf, SixOf, PartIs, Has, Kept, Count, StartsWith;
    var six := SixOf(cfg, db, s, m, req);
    PartsAreKept(cfg, db, s, m, req);
    SixHeaded(cfg, db, s, m, req);
    HasOf(six, 0, "FLAGS (");
    HasOf(six, 1, "UID ");
    HasOf(six, 2, "RFC822.SIZE ");
    HasOf(six, 3, "INTERNALDATE ");
    HasOf(six, 4, "ENVELOPE (");
    HasOf(six, 5, "BODYSTRUCTURE (");
    SixRight(cfg, db, s, m, req, validity);
    KeptCounts(six);
    KeptRight(cfg, s, db.messages[m.rowId], req, six);
  }

  lemma KeptRight(cfg: Config, s: Session, row: MessageRow, req: F.Request, six: seq<(bool, string)>)
    requires SixAre(cfg, s, row, req, six)
    ensures forall i | 0 <= i < |Kept(six)| :: PartIs(cfg, s, row, req, Kept(six)[i])
  {
    hide PartIs, Kept;
    forall i | 0 <= i < |Kept(six)| ensures PartIs(cfg, s, row, req, Kept(six)[i]) {
      KeptFrom(six, Kept(six)[i]);
      var k :| 0 <= k < |six| && six[k] == (true, Kept(six)[i]);
      assert PartIs(cfg, s, row, req, six[k].1);
    }
  }

  // ---------------------------------------------------------------- the reply

  /** The line of a message up to its literal, or its end. */
  ghost predicate LineTells(cfg: Config, s: Session, m: Meta, row: MessageRow, req: F.Request, item: Item) {
    exists parts: seq<string> ::
      && PartsAre(cfg, s, row, req, parts)
      && item.line == Encode("* " + ToDecimal(row.uid % 0x1_0000_0000) + " FETCH (" + Join(parts, " ")
                             + if item.literal.None? then ")" else " " + F.Label(req.body) + " {" + ToDecimal(|item.literal.value|) + "}")
  }

  /** The command is a FETCH, or a UID FETCH, of a set and of items; a FETCH that names no item asks for the whole message. */
  predicate IsFetch(cmd: R.Command, range: string, items: string) {
    || (cmd.name == "FETCH" && |cmd.args| >= 2 && cmd.args[0] == range && items == Join(cmd.args[1..], " "))
    || (cmd.name == "FETCH" && cmd.args == [range] && items == "BODY[]")
    || (cmd.name == "UID" && |cmd.args| >= 3 && Upper(cmd.args[0]) == "FETCH" && cmd.args[1] == range && items == Join(cmd.args[2..], " "))
  }

  /** What is asked: as the items say, and the UID for a UID FETCH. */
  function AskedBy(cmd: R.Command, items: string): F.Request {
    F.RequestFor(items).(uid := F.RequestFor(items).uid || cmd.name == "UID")
  }

  lemma ArgsAre(cmd: R.Command, range: string, items: string)
    requires IsFetch(cmd, range, items)
    ensures FetchArgs(cmd) == Some((range, items)) && RequestOf(cmd, items) == AskedBy(cmd, items)
  {
    hide F.RequestFor, Join, Upper;
    assert |"UID"| != |"FETCH"|;
    if cmd.name == "UID" {
      assert cmd.args[1..][1..] == cmd.args[2..] && cmd.args[1..][0] == cmd.args[1];
    }
  }

  lemma FetchHandled(cfg: Config, db: Db, s: Session, cmd: R.Command, box: nat, range: string, items: string)
    requires s.state == Selected && MailboxNamed(db, s.userId, s.selected) == Some(box) && IsFetch(cmd, range, items)
    ensures var l := ListMailbox(db, box);
            Handle(cfg, db, s, cmd)
            == Turn(FetchLines(cfg, db, s, Chosen(l, range, |l| % U32), AskedBy(cmd, items)) + Completed(cmd.tag, "FETCH"), s, db)
  {
    hide Handle, ListMailbox, FetchLines, Chosen, F.RequestFor, FetchArgs, RequestOf, Completed, Tagged, Join;
    D.Dispatches(cfg, db, s, cmd);
    ArgsAre(cmd, range, items);
  }

  lemma FetchDone(tag: string)
    ensures Completed(tag, "FETCH") == tag + " OK FETCH completed\r\n"
  {
    assert "FETCH" + " completed" == "FETCH completed" && " " + "OK" + " " + "FETCH completed" + "\r\n" == " OK FETCH completed\r\n";
    assert tag + " " + "OK" + " " + "FETCH completed" + "\r\n" == tag + (" " + "OK" + " " + "FETCH completed" + "\r\n");
  }

  lemma AnswerTells(cfg: Config, db: Db, s: Session, m: Meta, req: F.Request, validity: nat)
    requires Shows(db, m, validity) && !req.body.NoBody?
    ensures LineTells(cfg, s, m, db.messages[m.rowId], req, Item(Line(AnswerFor(cfg, db, s, m, req)), Some(ContentFor(cfg, db, s, m, req))))
  {
    hide Parts, BodyFor, IdentityOf, PartsAre, ContentFor, Encode, ToDecimal, Join, F.Label;
    PartsRight(cfg, db, s, m, req, validity);
    var parts := Parts(m, req, BodyFor(db, m, req.body), IdentityOf(cfg, s, m), cfg.formats);
    var n := |ContentFor(cfg, db, s, m, req)|;
    HeadLine(ToDecimal(m.uid), Join(parts, " "), F.Label(req.body), ToDecimal(n));
  }

  lemma HeadLine(uid: string, parts: string, name: string, n: string)
    ensures "* " + ((uid + " FETCH (" + parts + " " + name + " ") + ("{" + n + "}")) == "* " + uid + " FETCH (" + parts + (" " + name + " {" + n + "}")
  {
    assert " " + "{" == " {";
    assert (" " + name + " {" + n + "}") == " " + name + (" " + "{") + n + "}";
  }

  /** FETCH of a section, as the client reads the reply: for each listed message in the set, in order, a line that tells the
      metadata asked for as the store holds it, and a literal that is the section asked for. */
  lemma FetchServes(cfg: Config, db: Db, s: Session, cmd: R.Command, box: nat, range: string, items: string)
    requires s.state == Selected && MailboxNamed(db, s.userId, s.selected) == Some(box) && IsFetch(cmd, range, items)
    requires !AskedBy(cmd, items).body.NoBody? && OnOneLine(F.Label(AskedBy(cmd, items).body))
    requires forall m | m in ListMailbox(db, box) :: Calm(cfg, db, s, m, AskedBy(cmd, items))
    ensures var t, l, req := Handle(cfg, db, s, cmd), ListMailbox(db, box), AskedBy(cmd, items);
            var chosen := Chosen(l, range, |l| % 0x1_0000_0000);
            var r := ReadItems(Encode(t.reply), |chosen|);
            && t.session == s && t.db == db
            && r.Some? && |r.value.0| == |chosen| && r.value.1 == Encode(cmd.tag + " OK FETCH completed\r\n")
            && forall i | 0 <= i < |chosen| ::
                 && chosen[i].rowId in db.messages && r.value.0[i].literal.Some?
                 && Serves(cfg, s, chosen[i], db.messages[chosen[i].rowId], req.body, r.value.0[i].literal.value)
                 && LineTells(cfg, s, chosen[i], db.messages[chosen[i].rowId], req, r.value.0[i])
  {
    hide Handle, ListMailbox, FetchLines, Chosen, F.RequestFor, Encode, ReadItems, Calm, Serves, LineTells, F.Label, Completed, AnswerFor, ContentFor, Shows, Line;
    var l, req := ListMailbox(db, box), AskedBy(cmd, items);
    var chosen := Chosen(l, range, |l| % 0x1_0000_0000);
    var done := cmd.tag + " OK FETCH completed\r\n";
    FetchHandled(cfg, db, s, cmd, box, range, items);
    FetchDone(cmd.tag);
    EncodeConcat(FetchLines(cfg, db, s, chosen, req), done);
    forall i | 0 <= i < |chosen| ensures chosen[i] in l { assert chosen[i] in chosen; }
    FetchReadsBack(cfg, db, s, chosen, req, Encode(done));
    ListingShows(db, box);
    forall i | 0 <= i < |chosen|
      ensures chosen[i].rowId in db.messages
      ensures Serves(cfg, s, chosen[i], db.messages[chosen[i].rowId], req.body, ContentFor(cfg, db, s, chosen[i], req))
      ensures LineTells(cfg, s, chosen[i], db.messages[chosen[i].rowId], req,
                        Item(Line(AnswerFor(cfg, db, s, chosen[i], req)), Some(ContentFor(cfg, db, s, chosen[i], req))))
    {
      var m := chosen[i];
      assert m in l && Shows(db, m, db.mailboxes[box].uidvalidity);
      ShownRow(db, m, db.mailboxes[box].uidvalidity);
      MessageServed(cfg, db, s, m, req, db.mailboxes[box].uidvalidity);
    }
  }

  lemma MessageServed(cfg: Config, db: Db, s: Session, m: Meta, req: F.Request, validity: nat)
    requires Shows(db, m, validity) && !req.body.NoBody? && Calm(cfg, db, s, m, req)
    ensures Serves(cfg, s, m, db.messages[m.rowId], req.body, ContentFor(cfg, db, s, m, req))
    ensures LineTells(cfg, s, m, db.messages[m.rowId], req, Item(Line(AnswerFor(cfg, db, s, m, req)), Some(ContentFor(cfg, db, s, m, req))))
  {
    hide Serves, LineTells, ContentFor, AnswerFor, Line, CalmMeta, IdentityOf;
    SectionServed(cfg, db, s, m, req);
    AnswerTells(cfg, db, s, m, req, validity);
  }

  // ------------------------------------------------------------ without a section

  lemma PlainLine(cfg: Config, db: Db, s: Session, m: Meta, req: F.Request, rest: Bytes)
    requires req.body.NoBody? && CalmMeta(m, IdentityOf(cfg, s, m), cfg.formats)
    ensures var parts := Parts(m, req, BodyFor(db, m, req.body), IdentityOf(cfg, s, m), cfg.formats);
            ReadItem(Encode(FetchLine(cfg, db, s, m, req)) + rest)
            == Some((Item(Encode("* " + ToDecimal(m.uid) + " FETCH (" + Join(parts, " ") + ")"), None), rest))
  {
    var parts := Parts(m, req, BodyFor(db, m, req.body), IdentityOf(cfg, s, m), cfg.formats);
    PartsOnOneLine(m, req, BodyFor(db, m, req.body), IdentityOf(cfg, s, m), cfg.formats);
    DecimalOnOneLine(m.uid);
    hide Parts, BodyFor, IdentityOf, ToDecimal, Encode, CalmMeta, Join;
    JoinOnOneLine(parts);
    var text, u := Join(parts, " "), ToDecimal(m.uid);
    assert FetchLine(cfg, db, s, m, req) == "* " + (u + " FETCH (" + text + ")") + CRLF;
    PlainText(u, text, rest);
  }

  lemma PlainText(u: string, text: string, rest: Bytes)
    requires OnOneLine(u) && OnOneLine(text)
    ensures ReadItem(Encode("* " + (u + " FETCH (" + text + ")") + CRLF) + rest)
         == Some((Item(Encode("* " + u + " FETCH (" + text + ")"), None), rest))
  {
    hide Encode, ReadItem, MarkerCount;
    var line := "* " + u + " FETCH (" + text + ")";
    PlainShape(u, text);
    LastParen("* " + u + " FETCH (" + text);
    PlainItem(line, rest);
  }

  lemma PlainShape(u: string, text: string)
    requires OnOneLine(u) && OnOneLine(text)
    ensures var line := "* " + u + " FETCH (" + text + ")"; "* " + (u + " FETCH (" + text + ")") == line && OnOneLine(line)
  {
  }

  lemma PlainItem(line: string, rest: Bytes)
    requires OnOneLine(line) && MarkerCount(Encode(line)) == None
    ensures ReadItem(Encode(line + CRLF) + rest) == Some((Item(Encode(line), None), rest))
  {
    hide Encode, MarkerCount;
    EncodeConcat(line, CRLF);
    ClosingBytes();
    R.LineFeedFree(line);
    ReadLine(Encode(line), rest);
    var wire := Encode(line) + [CR, LF] + rest;
    assert wire[..|Encode(line)| + 1 - 1] == Encode(line) && wire[|Encode(line)| + 1 + 1..] == rest;
  }

  lemma LastParen(init: string)
    ensures MarkerCount(Encode(init + ")")) == None
  {
    EncodeConcat(init, ")");
    ClosingBytes();
    hide Encode;
  }

  lemma {:induction false} PlainReadsBack(cfg: Config, db: Db, s: Session, l: seq<Meta>, req: F.Request, rest: Bytes, validity: nat)
    requires req.body.NoBody? && forall i | 0 <= i < |l| :: Shows(db, l[i], validity) && CalmMeta(l[i], IdentityOf(cfg, s, l[i]), cfg.formats)
    ensures var r := ReadItems(Encode(FetchLines(cfg, db, s, l, req)) + rest, |l|);
            && r.Some? && r.value.1 == rest && |r.value.0| == |l|
            && forall i | 0 <= i < |l| :: l[i].rowId in db.messages && r.value.0[i].literal.None? && LineTells(cfg, s, l[i], db.messages[l[i].rowId], req, r.value.0[i])
    decreases |l|
  {
    hide FetchLine, ReadItem, LineTells, CalmMeta, IdentityOf, Shows;
    if l == [] {
      EmptyText();
      assert [] + rest == rest;
    } else {
      hide Encode;
      var m, more := l[0], FetchLines(cfg, db, s, l[1..], req);
      EncodeConcat(FetchLine(cfg, db, s, m, req), more);
      assert Encode(FetchLines(cfg, db, s, l, req)) + rest == Encode(FetchLine(cfg, db, s, m, req)) + (Encode(more) + rest);
      ShownRow(db, m, validity);
      PlainLineTells(cfg, db, s, m, req, Encode(more) + rest, validity);
      PlainReadsBack(cfg, db, s, l[1..], req, rest, validity);
    }
  }

  lemma PlainLineTells(cfg: Config, db: Db, s: Session, m: Meta, req: F.Request, rest: Bytes, validity: nat)
    requires req.body.NoBody? && Shows(db, m, validity) && CalmMeta(m, IdentityOf(cfg, s, m), cfg.formats)
    ensures var r := ReadItem(Encode(FetchLine(cfg, db, s, m, req)) + rest);
            r.Some? && r.value.1 == rest && r.value.0.literal.None? && LineTells(cfg, s, m, db.messages[m.rowId], req, r.value.0)
  {
    hide Parts, BodyFor, IdentityOf, PartsAre, Encode, ToDecimal, Join, ReadItem, FetchLine, CalmMeta;
    PlainLine(cfg, db, s, m, req, rest);
    PartsRight(cfg, db, s, m, req, validity);
  }

  /** FETCH of metadata alone, as the client reads the reply. */
  lemma FetchTells(cfg: Config, db: Db, s: Session, cmd: R.Command, box: nat, range: string, items: string)
    requires s.state == Selected && MailboxNamed(db, s.userId, s.selected) == Some(box) && IsFetch(cmd, range, items)
    requires AskedBy(cmd, items).body.NoBody?
    requires forall m | m in ListMailbox(db, box) :: CalmMeta(m, IdentityOf(cfg, s, m), cfg.formats)
    ensures var t, l, req := Handle(cfg, db, s, cmd), ListMailbox(db, box), AskedBy(cmd, items);
            var chosen := Chosen(l, range, |l| % 0x1_0000_0000);
            var r := ReadItems(Encode(t.reply), |chosen|);
            && t.session == s && t.db == db
            && r.Some? && |r.value.0| == |chosen| && r.value.1 == Encode(cmd.tag + " OK FETCH completed\r\n")
            && forall i | 0 <= i < |chosen| ::
                 chosen[i].rowId in db.messages && r.value.0[i].literal.None? && LineTells(cfg, s, chosen[i], db.messages[chosen[i].rowId], req, r.value.0[i])
  {
    hide Handle, ListMailbox, FetchLines, Chosen, F.RequestFor, Encode, ReadItems, CalmMeta, LineTells, Completed, Shows, IdentityOf;
    var l, req := ListMailbox(db, box), AskedBy(cmd, items);
    var chosen := Chosen(l, range, |l| % 0x1_0000_0000);
    var done := cmd.tag + " OK FETCH completed\r\n";
    FetchHandled(cfg, db, s, cmd, box, range, items);
    FetchDone(cmd.tag);
    EncodeConcat(FetchLines(cfg, db, s, chosen, req), done);
    ListingShows(db, box);
    forall i | 0 <= i < |chosen| ensures chosen[i] in l { assert chosen[i] in chosen; }
    forall i | 0 <= i < |chosen| ensures chosen[i].rowId in db.messages { ShownRow(db, chosen[i], db.mailboxes[box].uidvalidity); }
    PlainReadsBack(cfg, db, s, chosen, req, Encode(done), db.mailboxes[box].uidvalidity);
  }

  lemma ShownRow(db: Db, m: Meta, validity: nat)
    requires Shows(db, m, validity)
    ensures m.rowId in db.messages
  {
  }
}
