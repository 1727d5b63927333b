/** A whole FETCH reply read back by the client. */
module FetchLiterals {
  import opened Utf8
  import opened Listing
  import opened MailStore
  import opened FetchReply
  import opened ImapSession
  import F = FetchItems

  function ContentFor(cfg: Config, db: Db, s: Session, m: Meta, req: F.Request): Bytes {
    Content(req.body, m, BodyFor(db, m, req.body), IdentityOf(cfg, s, m), cfg.formats)
  }

  function AnswerFor(cfg: Config, db: Db, s: Session, m: Meta, req: F.Request): Answer {
    Answer(Head(m, req, BodyFor(db, m, req.body), IdentityOf(cfg, s, m), cfg.formats), ContentFor(cfg, db, s, m, req))
  }

  function Answers(cfg: Config, db: Db, s: Session, l: seq<Meta>, req: F.Request): (r: seq<Answer>)
    ensures |r| == |l| && forall i | 0 <= i < |l| :: r[i] == AnswerFor(cfg, db, s, l[i], req)
  {
    seq(|l|, i requires 0 <= i < |l| => AnswerFor(cfg, db, s, l[i], req))
  }

  lemma {:induction false} LinesAreReply(cfg: Config, db: Db, s: Session, l: seq<Meta>, req: F.Request)
    requires !req.body.NoBody?
    ensures FetchLines(cfg, db, s, l, req) == Reply(Answers(cfg, db, s, l, req))
  {
    hide Head, Content, WithLiteral, BodyFor, IdentityOf;
    if l != [] {
      assert Answers(cfg, db, s, l, req)[1..] == Answers(cfg, db, s, l[1..], req);
      LinesAreReply(cfg, db, s, l[1..], req);
    }
  }

  /** The message can be framed: its metadata is on one line each, and its body is text if the section needs it. */
  ghost predicate Calm(cfg: Config, db: Db, s: Session, m: Meta, req: F.Request) {
    && CalmMeta(m, IdentityOf(cfg, s, m), cfg.formats)
    && (Stored(req.body) && m.rowId in db.messages ==> Decode(db.messages[m.rowId].body).Some?)
  }

  /** The sections served with the stored body. */
  predicate Stored(section: F.Section) {
    section.Full? || section.TextPart? || section.Other?
  }

  lemma StoredServed(cfg: Config, db: Db, s: Session, m: Meta, req: F.Request)
    requires Stored(req.body)
    ensures ContentFor(cfg, db, s, m, req) == if m.rowId in db.messages then db.messages[m.rowId].body else []
    ensures ContentFor(cfg, db, s, m, req) == BodyFor(db, m, req.body)
  {
  }

  lemma CalmContent(cfg: Config, db: Db, s: Session, m: Meta, req: F.Request)
    requires Calm(cfg, db, s, m, req)
    ensures Stored(req.body) ==> Decode(BodyFor(db, m, req.body)).Some?
  {
    hide CalmMeta, IdentityOf;
    if Stored(req.body) {
      StoredServed(cfg, db, s, m, req);
      DecodeEncode("");
      EmptyText();
    }
  }

  /** For any number of messages in one FETCH reply, a client that reads `{n}`, n bytes, and `)` CRLF recovers every
      message's content and stands at what follows. */
  lemma FetchReadsBack(cfg: Config, db: Db, s: Session, l: seq<Meta>, req: F.Request, rest: Bytes)
    requires !req.body.NoBody? && OnOneLine(F.Label(req.body))
    requires forall i | 0 <= i < |l| :: Calm(cfg, db, s, l[i], req)
    ensures var r := ReadItems(Encode(FetchLines(cfg, db, s, l, req)) + rest, |l|);
            && r.Some? && r.value.1 == rest && |r.value.0| == |l|
            && (forall i | 0 <= i < |l| :: r.value.0[i] == Item(Line(AnswerFor(cfg, db, s, l[i], req)), Some(ContentFor(cfg, db, s, l[i], req))))
            && forall i | 0 <= i < |l| && Stored(req.body) && l[i].rowId in db.messages :: r.value.0[i].literal == Some(db.messages[l[i].rowId].body)
  {
    hide Head, Content, BodyFor, IdentityOf, Encode, ReadItems, Reply, FetchLines, CalmMeta, Decode, Line, F.Label;
    LinesAreReply(cfg, db, s, l, req);
    var answers := Answers(cfg, db, s, l, req);
    forall i | 0 <= i < |l| ensures Framable(answers[i]) {
      var m := l[i];
      assert Calm(cfg, db, s, m, req);
      CalmContent(cfg, db, s, m, req);
      HeadOnOneLine(m, req, BodyFor(db, m, req.body), IdentityOf(cfg, s, m), cfg.formats);
      ContentIsText(req.body, m, BodyFor(db, m, req.body), IdentityOf(cfg, s, m), cfg.formats);
    }
    RepliesReadBack(answers, rest);
    forall i | 0 <= i < |l| && Stored(req.body) && l[i].rowId in db.messages
      ensures ContentFor(cfg, db, s, l[i], req) == db.messages[l[i].rowId].body
    {
      StoredServed(cfg, db, s, l[i], req);
    }
  }
}
