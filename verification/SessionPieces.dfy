/** Commands that take the store's lock several times: what other sessions do in between cannot be noticed. */
module SessionPieces {
  import opened Utf8
  import opened MailStore
  import opened Listing
  import opened ImapSession
  import opened SessionIsolation
  import F = FetchItems
  import R = ImapReader

  lemma AgreeTwice(a: Db, b: Db, c: Db, u: nat)
    requires Agree(a, b, u) && Agree(b, c, u)
    ensures Agree(a, c, u)
  {
    hide LinkedTo;
    forall i | MailboxOf(a, i, u) ensures a.mailboxes[i] == c.mailboxes[i] && SessionIsolation.SameMailbox(a, c, i) {
      assert MailboxOf(b, i, u);
      SameTwice(a, b, c, i);
    }
  }

  lemma SameTwice(a: Db, b: Db, c: Db, i: nat)
    requires SessionIsolation.SameMailbox(a, b, i) && SessionIsolation.SameMailbox(b, c, i)
    ensures SessionIsolation.SameMailbox(a, c, i)
  {
    hide LinkedTo;
  }

  lemma AgreeSame(a: Db, u: nat)
    ensures Agree(a, a, u)
  {
  }

  // -------------------------------------------------------------------- FETCH

  /** The lines of a FETCH, each body read when the store is as it is then. */
  function FetchOver(cfg: Config, dbs: seq<Db>, s: Session, l: seq<Meta>, req: F.Request): string
    requires |dbs| == |l|
  {
    if l == [] then "" else FetchLine(cfg, dbs[0], s, l[0], req) + FetchOver(cfg, dbs[1..], s, l[1..], req)
  }

  lemma {:induction false} SameOver(cfg: Config, db: Db, dbs: seq<Db>, s: Session, l: seq<Meta>, req: F.Request)
    requires |dbs| == |l|
    requires forall i | 0 <= i < |l| :: l[i].rowId in db.messages && l[i].rowId in dbs[i].messages && db.messages[l[i].rowId] == dbs[i].messages[l[i].rowId]
    ensures FetchOver(cfg, dbs, s, l, req) == FetchLines(cfg, db, s, l, req)
  {
    if l != [] {
      assert BodyFor(db, l[0], req.body) == BodyFor(dbs[0], l[0], req.body);
      hide FetchReply.Response;
      SameOver(cfg, db, dbs[1..], s, l[1..], req);
    }
  }

  /** A FETCH that lists the mailbox at one moment and reads each body at another, while others change whatever is not
      the user's: the reply is the one of an undisturbed FETCH. */
  lemma FetchInPieces(cfg: Config, db: Db, listed: Db, dbs: seq<Db>, s: Session, cmd: R.Command)
    requires s.state == Selected && FetchArgs(cmd).Some? && List(listed, s.userId, s.selected).Some?
    requires Sound(db) && Sound(listed) && Agree(db, listed, s.userId)
    requires forall i | 0 <= i < |dbs| :: Sound(dbs[i]) && Agree(db, dbs[i], s.userId)
    requires var l := List(listed, s.userId, s.selected).value; |dbs| == |Chosen(l, FetchArgs(cmd).value.0, |l| % U32)|
    ensures var l := List(listed, s.userId, s.selected).value;
            var (range, items) := FetchArgs(cmd).value;
            FetchOver(cfg, dbs, s, Chosen(l, range, |l| % U32), ImapSession.RequestOf(cmd, items)) + Completed(cmd.tag, "FETCH")
            == Fetch(cfg, db, s, cmd)
  {
    hide Sound, Agree, ListMailbox, Tagged, Completed, FetchArgs, FetchLines, FetchOver, ImapSession.RequestOf, Chosen;
    SameNamed(db, listed, s.userId, s.selected);
    var l := List(listed, s.userId, s.selected).value;
    var (range, items) := FetchArgs(cmd).value;
    var chosen := Chosen(l, range, |l| % U32);
    ListingHeld(db, s.userId, s.selected);
    forall i | 0 <= i < |chosen|
      ensures chosen[i].rowId in db.messages && chosen[i].rowId in dbs[i].messages
              && db.messages[chosen[i].rowId] == dbs[i].messages[chosen[i].rowId]
    {
      assert chosen[i] in chosen;
      SameRow(db, dbs[i], s, chosen[i].rowId);
    }
    SameOver(cfg, db, dbs, s, chosen, ImapSession.RequestOf(cmd, items));
  }

  lemma SameRow(db: Db, other: Db, s: Session, id: nat)
    requires Sound(db) && Sound(other) && Agree(db, other, s.userId) && Held(db, s.userId, s.selected, id)
    ensures id in db.messages && id in other.messages && db.messages[id] == other.messages[id]
  {
    hide Sound, Agree, LinkedTo;
    SameNamed(db, other, s.userId, s.selected);
    assert id in InMailbox(db, MailboxNamed(db, s.userId, s.selected).value);
  }

  // -------------------------------------------------------------------- STORE

  /** A STORE in pieces: before each update others may have changed whatever is not the user's. */
  ghost predicate StoreTrace(xs: seq<Db>, u: nat, box: nat, l: seq<Meta>, mask: bv32, value: bool)
    decreases |l|
  {
    && |xs| == |l| + 1
    && (l == [] || exists y :: Agree(xs[0], y, u) && xs[1] == SetFlags(y, box, l[0].rowId, mask, value)
                               && StoreTrace(xs[1..], u, box, l[1..], mask, value))
  }

  /** However others' changes fall between the updates of a STORE, the user's part of the store ends as it would have
      undisturbed. */
  lemma {:induction false} StoreInPieces(xs: seq<Db>, alone: Db, u: nat, box: nat, l: seq<Meta>, mask: bv32, value: bool)
    requires StoreTrace(xs, u, box, l, mask, value) && Agree(xs[0], alone, u) && MailboxOf(alone, box, u)
    ensures Agree(xs[|l|], SetAll(alone, box, l, mask, value), u)
    decreases |l|
  {
    hide Agree, SetFlags;
    if l != [] {
      var y :| Agree(xs[0], y, u) && xs[1] == SetFlags(y, box, l[0].rowId, mask, value)
               && StoreTrace(xs[1..], u, box, l[1..], mask, value);
      AgreeBack(xs[0], y, u);
      AgreeTwice(y, xs[0], alone, u);
      MailboxBoth(y, alone, box, u);
      FlagsKeepAgreement(y, alone, u, box, l[0].rowId, mask, value);
      FlagsOnlyMail(alone, box, l[0].rowId, mask, value, u);
      StoreInPieces(xs[1..], SetFlags(alone, box, l[0].rowId, mask, value), u, box, l[1..], mask, value);
    }
  }

  lemma AgreeBack(a: Db, b: Db, u: nat)
    requires Agree(a, b, u)
    ensures Agree(b, a, u)
  {
    hide LinkedTo;
    forall i | MailboxOf(b, i, u) ensures b.mailboxes[i] == a.mailboxes[i] && SessionIsolation.SameMailbox(b, a, i) {
      assert MailboxOf(a, i, u) && SessionIsolation.SameMailbox(a, b, i);
    }
  }

  lemma MailboxBoth(a: Db, b: Db, box: nat, u: nat)
    requires Agree(a, b, u) && MailboxOf(b, box, u)
    ensures MailboxOf(a, box, u)
  {
  }

  /** A command of another user's session is such a change. */
  lemma OthersAgree(cfg: Config, db: Db, other: Session, cmd: R.Command, u: nat)
    requires Sound(db) && (other.state == NotAuthenticated || other.userId != u)
    ensures Agree(db, Handle(cfg, db, other, cmd).db, u) && Sound(Handle(cfg, db, other, cmd).db)
  {
    hide Sound, Agree, Handle;
    CommandIsContained(cfg, db, other, cmd);
    AgreeSame(db, u);
    if other.state != NotAuthenticated {
      OthersKeepAgreement(db, Handle(cfg, db, other, cmd).db, db, u, other.userId);
      AgreeBack(Handle(cfg, db, other, cmd).db, db, u);
    }
  }
}
