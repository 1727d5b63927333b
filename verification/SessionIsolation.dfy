/** Sessions and users kept apart: what a session's commands can see and what they can change. */
module SessionIsolation {
  import opened Utf8
  import opened MailStore
  import opened Listing
  import opened SqliteStore
  import opened ImapSession
  import F = FetchItems
  import R = ImapReader

  // -------------------------------------------------- what a session may change

  predicate MailboxOf(db: Db, box: nat, u: nat) {
    box in db.mailboxes && db.mailboxes[box].userId == u
  }

  /** Nothing changed but messages in mailboxes of user `u`; of those, some went and flags of some changed. */
  ghost predicate OnlyMailOf(db: Db, later: Db, u: nat) {
    && later == db.(messages := later.messages)
    && (forall id | id in later.messages ::
          id in db.messages && later.messages[id] == db.messages[id].(flags := later.messages[id].flags))
    && (forall id | id in db.messages && !MailboxOf(db, db.messages[id].mailboxId, u) ::
          id in later.messages && later.messages[id] == db.messages[id])
  }

  lemma NothingChanged(db: Db, u: nat)
    ensures OnlyMailOf(db, db, u)
  {
  }

  lemma OnlyMailTwice(a: Db, b: Db, c: Db, u: nat)
    requires OnlyMailOf(a, b, u) && OnlyMailOf(b, c, u)
    ensures OnlyMailOf(a, c, u)
  {
  }

  lemma FlagsOnlyMail(db: Db, box: nat, rowId: nat, mask: bv32, value: bool, u: nat)
    requires MailboxOf(db, box, u)
    ensures OnlyMailOf(db, SetFlags(db, box, rowId, mask, value), u)
  {
    hide Flagged;
  }

  lemma ExpungeOnlyMail(db: Db, box: nat, u: nat)
    requires MailboxOf(db, box, u)
    ensures OnlyMailOf(db, Expunge(db, box), u)
  {
    hide Doomed;
    var later := Expunge(db, box);
    assert forall id | id in db.messages && db.messages[id].mailboxId != box :: !Doomed(db.messages[id], box) by { OtherBoxStays(box); }
  }

  lemma OtherBoxStays(box: nat)
    ensures forall m: MessageRow | m.mailboxId != box :: !Doomed(m, box)
  {
  }

  lemma {:induction false} SetAllOnlyMail(db: Db, box: nat, l: seq<Meta>, mask: bv32, value: bool, u: nat)
    requires MailboxOf(db, box, u) && Sound(db)
    ensures OnlyMailOf(db, SetAll(db, box, l, mask, value), u) && Sound(SetAll(db, box, l, mask, value))
    decreases |l|
  {
    hide SetFlags, Sound, OnlyMailOf;
    if l == [] {
      NothingChanged(db, u);
    } else {
      var next := SetFlags(db, box, l[0].rowId, mask, value);
      FlagsOnlyMail(db, box, l[0].rowId, mask, value, u);
      SetFlagsSound(db, box, l[0].rowId, mask, value);
      StillMailbox(db, next, box, u);
      SetAllOnlyMail(next, box, l[1..], mask, value, u);
      OnlyMailTwice(db, next, SetAll(next, box, l[1..], mask, value), u);
    }
  }

  lemma StillMailbox(db: Db, later: Db, box: nat, u: nat)
    requires OnlyMailOf(db, later, u) && MailboxOf(db, box, u)
    ensures MailboxOf(later, box, u)
  {
  }

  lemma StoreOnlyMail(db: Db, s: Session, cmd: R.Command)
    requires Sound(db)
    ensures var t := Store(db, s, cmd);
            OnlyMailOf(db, t.db, s.userId) && Sound(t.db) && t.session == s && (s.state != Selected ==> t.db == db)
  {
    hide Sound, SetAll, Chosen, ListMailbox, StoredLines, FlagMask, Tagged, OnlyMailOf, StoreArgs, Sets, Completed;
    NothingChanged(db, s.userId);
    var t := Store(db, s, cmd);
    if t.db != db {
      var (range, mode, spec) := StoreArgs(cmd).value;
      var id := MailboxNamed(db, s.userId, s.selected).value;
      var l := ListMailbox(db, id);
      SetAllOnlyMail(db, id, Chosen(l, range, |l| % U32), FlagMask(Text.Words(spec)), Sets(mode), s.userId);
    }
  }

  lemma ExpungeStepOnlyMail(db: Db, s: Session, cmd: R.Command)
    requires Sound(db)
    ensures var t := ExpungeSelected(db, s, cmd);
            OnlyMailOf(db, t.db, s.userId) && Sound(t.db) && t.session == s && (s.state != Selected ==> t.db == db)
    ensures var t := Close(db, s, cmd);
            && OnlyMailOf(db, t.db, s.userId) && Sound(t.db) && (s.state != Selected ==> t.db == db && t.session == s)
            && t.session == s.(state := t.session.state) && (t.session.state == s.state || t.session.state == Authenticated)
  {
    hide Sound, OnlyMailOf, Expunge, Tagged, ExpungeLines, DoomedUids, Completed;
    NothingChanged(db, s.userId);
    var sel, inbox := MailboxNamed(db, s.userId, s.selected), MailboxNamed(db, s.userId, INBOX);
    if sel.Some? {
      ExpungeOnlyMail(db, sel.value, s.userId);
      ExpungeSound(db, sel.value);
    }
    if inbox.Some? {
      ExpungeOnlyMail(db, inbox.value, s.userId);
      ExpungeSound(db, inbox.value);
    }
  }

  lemma LoginKeepsStore(cfg: Config, db: Db, s: Session, cmd: R.Command)
    ensures var t := Auth(cfg, db, s, cmd);
            t.db == db && (s.state != NotAuthenticated ==> t.session == s)
  {
    hide Text.Trim, Text.Upper, SplitBytes, Lossy, IsApp, Admits, Tagged, LocalUsername;
  }

  lemma SelectKeepsStore(db: Db, s: Session, cmd: R.Command)
    ensures var t := Select(db, s, cmd);
            && t.db == db && (s.state == NotAuthenticated ==> t.session == s)
            && t.session.userId == s.userId && t.session.username == s.username
            && (s.state != NotAuthenticated ==> t.session.state != NotAuthenticated)
  {
    hide ListMailbox, UnseenOf, SelectLines, Tagged, MailboxArg, Completed;
  }

  lemma UidOnlyMail(cfg: Config, db: Db, s: Session, cmd: R.Command)
    requires Sound(db)
    ensures var t := UidCommand(cfg, db, s, cmd);
            OnlyMailOf(db, t.db, s.userId) && Sound(t.db) && t.session == s && (s.state != Selected ==> t.db == db)
  {
    hide Sound, OnlyMailOf, Store, Fetch, Search, Tagged, UidKindOf;
    NothingChanged(db, s.userId);
    StoreOnlyMail(db, s, cmd);
  }

  /** One command: before login the store is untouched; after it only the user's own mail changes, and never the
      user. No command changes a mailbox row, so no UIDNEXT. */
  lemma CommandIsContained(cfg: Config, db: Db, s: Session, cmd: R.Command)
    requires Sound(db)
    ensures var t := Handle(cfg, db, s, cmd);
            && OnlyMailOf(db, t.db, s.userId) && Sound(t.db)
            && (s.state == NotAuthenticated ==> t.db == db)
            && (s.state != NotAuthenticated ==>
                  t.session.state != NotAuthenticated && t.session.userId == s.userId && t.session.username == s.username)
  {
    hide Sound, OnlyMailOf, Store, Fetch, Search, MailboxStatus, Auth, Select, ExpungeSelected, Close, UidCommand, Plain, KindOf;
    NothingChanged(db, s.userId);
    LoginKeepsStore(cfg, db, s, cmd);
    SelectKeepsStore(db, s, cmd);
    StoreOnlyMail(db, s, cmd);
    ExpungeStepOnlyMail(db, s, cmd);
    UidOnlyMail(cfg, db, s, cmd);
  }

  // ------------------------------------------------------------------ whole runs

  datatype Ran = Ran(replies: seq<string>, session: Session, db: Db)

  ghost function Run(cfg: Config, db: Db, s: Session, cmds: seq<R.Command>): Ran
    decreases |cmds|
  {
    if cmds == [] then Ran([], s, db)
    else
      var t := Handle(cfg, db, s, cmds[0]);
      var r := Run(cfg, t.db, t.session, cmds[1..]);
      Ran([t.reply] + r.replies, r.session, r.db)
  }

  /** Over a whole run: a session once logged in never changes its user, a run that ends without a login leaves the
      store as it was, and the mailboxes, with their UIDNEXT counters, never change. */
  lemma {:induction false} RunIsContained(cfg: Config, db: Db, s: Session, cmds: seq<R.Command>)
    requires Sound(db)
    ensures var r := Run(cfg, db, s, cmds);
            && Sound(r.db) && r.db == db.(messages := r.db.messages) && OnlyMailOf(db, r.db, r.session.userId)
            && (r.session.state == NotAuthenticated ==> r.db == db)
            && (s.state != NotAuthenticated ==>
                  r.session.state != NotAuthenticated && r.session.userId == s.userId && r.session.username == s.username)
    decreases |cmds|
  {
    hide Handle, Sound;
    if cmds == [] {
      NothingChanged(db, s.userId);
    } else {
      var t := Handle(cfg, db, s, cmds[0]);
      CommandIsContained(cfg, db, s, cmds[0]);
      RunIsContained(cfg, t.db, t.session, cmds[1..]);
      var r := Run(cfg, t.db, t.session, cmds[1..]);
      if s.state != NotAuthenticated {
        hide OnlyMailOf;
        OnlyMailTwice(db, t.db, r.db, s.userId);
      }
    }
  }

  // ----------------------------------------------------- what a session may see

  /** The stores agree on a mailbox: the same messages, with the same ledger rows linked to them. */
  ghost predicate SameMailbox(a: Db, b: Db, box: nat) {
    && InMailbox(a, box) == InMailbox(b, box)
    && (forall id | id in InMailbox(a, box) :: a.messages[id] == b.messages[id])
    && (forall id | id in InMailbox(a, box) :: SameLinks(a, b, id))
  }

  ghost predicate SameLinks(a: Db, b: Db, rowId: nat) {
    && LinkedTo(a, rowId) == LinkedTo(b, rowId)
    && forall t | t in LinkedTo(a, rowId) :: a.transactions[t].state == b.transactions[t].state
  }

  /** The stores agree on user `u`: on the mailboxes, their messages and the ledger rows linked to those. */
  ghost predicate Agree(a: Db, b: Db, u: nat) {
    && (forall i :: MailboxOf(a, i, u) <==> MailboxOf(b, i, u))
    && (forall i | MailboxOf(a, i, u) :: a.mailboxes[i] == b.mailboxes[i] && SameMailbox(a, b, i))
  }

  lemma {:induction false} SameOrder(s: map<nat, MessageRow>, t: map<nat, MessageRow>, ids: set<nat>)
    requires ids <= s.Keys && ids <= t.Keys && forall id | id in ids :: s[id].uid == t[id].uid
    ensures ByUid(s, ids) == ByUid(t, ids)
    decreases |ids|
  {
    if ids != {} {
      NewestExists(s, ids);
      var a :| IsNewest(s, ids, a);
      assert IsNewest(t, ids, a);
      ByUidStep(s, ids, a);
      ByUidStep(t, ids, a);
      SameOrder(s, t, ids - {a});
    }
  }

  lemma {:induction false} SameWithEach(a: Db, b: Db, rowId: nat, validity: nat, txs: set<nat>)
    requires rowId in a.messages && rowId in b.messages && a.messages[rowId] == b.messages[rowId]
    requires txs <= a.transactions.Keys && txs <= b.transactions.Keys
    requires forall t | t in txs :: a.transactions[t].state == b.transactions[t].state
    ensures WithEach(a, rowId, validity, txs) == WithEach(b, rowId, validity, txs)
    decreases |txs|
  {
    if txs != {} {
      LeastExists(txs);
      var t :| IsLeast(txs, t);
      WithEachStep(a, rowId, validity, txs, t);
      WithEachStep(b, rowId, validity, txs, t);
      SameWithEach(a, b, rowId, validity, txs - {t});
    }
  }

  lemma SameJoin(a: Db, b: Db, rowId: nat, validity: nat)
    requires rowId in a.messages && rowId in b.messages && a.messages[rowId] == b.messages[rowId] && SameLinks(a, b, rowId)
    ensures JoinRows(a, rowId, validity) == JoinRows(b, rowId, validity)
  {
    SameWithEach(a, b, rowId, validity, LinkedTo(a, rowId));
  }

  lemma {:induction false} SameJoins(a: Db, b: Db, rows: seq<nat>, validity: nat)
    requires forall i | 0 <= i < |rows| :: rows[i] in a.messages && rows[i] in b.messages
    requires forall i | 0 <= i < |rows| :: a.messages[rows[i]] == b.messages[rows[i]] && SameLinks(a, b, rows[i])
    ensures JoinAll(a, rows, validity) == JoinAll(b, rows, validity)
  {
    hide SameLinks, JoinRows;
    if rows != [] {
      SameJoin(a, b, rows[0], validity);
      SameJoins(a, b, rows[1..], validity);
    }
  }

  lemma SameListing(a: Db, b: Db, box: nat)
    requires box in a.mailboxes && box in b.mailboxes && a.mailboxes[box] == b.mailboxes[box] && SameMailbox(a, b, box)
    ensures ListMailbox(a, box) == ListMailbox(b, box)
  {
    hide SameLinks, JoinAll, LinkedTo;
    var ids := InMailbox(a, box);
    SameOrder(a.messages, b.messages, ids);
    SameJoins(a, b, ByUid(a.messages, ids), a.mailboxes[box].uidvalidity);
  }

  /** The user's mailbox of a name is the same one in both, with the same listing. */
  lemma SameNamed(a: Db, b: Db, u: nat, mailbox: string)
    requires Sound(a) && Sound(b) && Agree(a, b, u)
    ensures MailboxNamed(a, u, mailbox) == MailboxNamed(b, u, mailbox)
    ensures List(a, u, mailbox) == List(b, u, mailbox)
    ensures var box := MailboxNamed(a, u, mailbox);
            box.Some? ==> MailboxOf(a, box.value, u) && a.mailboxes[box.value] == b.mailboxes[box.value]
                          && SameMailbox(a, b, box.value) && ListMailbox(a, box.value) == ListMailbox(b, box.value)
  {
    hide SameMailbox, ListMailbox, Sound;
    forall i | NamedMailbox(b, i, u, mailbox) ensures NamedMailbox(a, i, u, mailbox) {
      assert MailboxOf(b, i, u);
    }
    var box := MailboxNamed(a, u, mailbox);
    if box.Some? {
      assert MailboxOf(a, box.value, u);
      ImapSession.SameMailbox(b, box.value, u, mailbox);
      SameListing(a, b, box.value);
    }
  }

  lemma {:induction false} SameFetchLines(cfg: Config, a: Db, b: Db, s: Session, l: seq<Meta>, req: F.Request)
    requires forall m | m in l :: m.rowId in a.messages && m.rowId in b.messages && a.messages[m.rowId] == b.messages[m.rowId]
    ensures FetchLines(cfg, a, s, l, req) == FetchLines(cfg, b, s, l, req)
  {
    if l != [] {
      assert l[0] in l;
      assert BodyFor(a, l[0], req.body) == BodyFor(b, l[0], req.body);
      hide FetchReply.Response;
      SameFetchLines(cfg, a, b, s, l[1..], req);
    }
  }

  lemma SameReads(cfg: Config, a: Db, b: Db, s: Session, cmd: R.Command)
    requires Sound(a) && Sound(b) && Agree(a, b, s.userId)
    ensures MailboxStatus(a, s, cmd) == MailboxStatus(b, s, cmd)
    ensures Search(a, s, cmd) == Search(b, s, cmd)
    ensures Select(a, s, cmd).reply == Select(b, s, cmd).reply && Select(a, s, cmd).session == Select(b, s, cmd).session
  {
    hide Sound, Agree, ListMailbox, UnseenOf, SelectLines, StatusLine, Tagged, Completed, MailboxArg, SearchArgs, Hits, UidWords,
         Text.Join, MatchesAll, AsksUnseen, SameMailbox, FetchReply.Untagged;
    SameNamed(a, b, s.userId, s.selected);
    var arg := MailboxArg(cmd.args);
    if arg.Some? { SameNamed(a, b, s.userId, arg.value); }
  }

  lemma SameFetch(cfg: Config, a: Db, b: Db, s: Session, cmd: R.Command)
    requires Sound(a) && Sound(b) && Agree(a, b, s.userId)
    ensures Fetch(cfg, a, s, cmd) == Fetch(cfg, b, s, cmd)
  {
    hide Sound, Agree, ListMailbox, Tagged, Completed, FetchArgs, FetchLines, Chosen, ImapSession.RequestOf, LinkedTo, SameLinks;
    SameNamed(a, b, s.userId, s.selected);
    var args := FetchArgs(cmd);
    var box := MailboxNamed(a, s.userId, s.selected);
    if args.Some? && box.Some? {
      var l := ListMailbox(a, box.value);
      ListingHeld(a, s.userId, s.selected);
      SameFetchLines(cfg, a, b, s, Chosen(l, args.value.0, |l| % U32), ImapSession.RequestOf(cmd, args.value.1));
    }
  }

  // ------------------------------------------------ changes keep the agreement

  lemma FlagsKeepAgreement(a: Db, b: Db, u: nat, box: nat, rowId: nat, mask: bv32, value: bool)
    requires Agree(a, b, u) && MailboxOf(a, box, u)
    ensures Agree(SetFlags(a, box, rowId, mask, value), SetFlags(b, box, rowId, mask, value), u)
  {
    hide Flagged, SameMailbox;
    var c, d := SetFlags(a, box, rowId, mask, value), SetFlags(b, box, rowId, mask, value);
    forall i ensures MailboxOf(c, i, u) == MailboxOf(a, i, u) && MailboxOf(d, i, u) == MailboxOf(b, i, u) {}
    forall i | MailboxOf(a, i, u) ensures SameMailbox(c, d, i) {
      FlagsSameMailbox(a, b, box, rowId, mask, value, i);
    }
  }

  lemma FlagsSameMailbox(a: Db, b: Db, box: nat, rowId: nat, mask: bv32, value: bool, i: nat)
    requires SameMailbox(a, b, box) && SameMailbox(a, b, i)
    ensures SameMailbox(SetFlags(a, box, rowId, mask, value), SetFlags(b, box, rowId, mask, value), i)
  {
    hide Flagged, LinkedTo, SameLinks;
    var c, d := SetFlags(a, box, rowId, mask, value), SetFlags(b, box, rowId, mask, value);
    SameLinksAfter(a, b, c, d);
    assert rowId in InMailbox(a, box) <==> rowId in InMailbox(b, box);
    FlagsSamePlaces(a, box, rowId, mask, value, i);
    FlagsSamePlaces(b, box, rowId, mask, value, i);
  }

  lemma FlagsSamePlaces(db: Db, box: nat, rowId: nat, mask: bv32, value: bool, i: nat)
    ensures InMailbox(SetFlags(db, box, rowId, mask, value), i) == InMailbox(db, i)
  {
    hide Flagged;
  }

  /** Links depend only on the ledger. */
  lemma SameLinksAfter(a: Db, b: Db, c: Db, d: Db)
    requires c.transactions == a.transactions && d.transactions == b.transactions
    ensures forall id :: SameLinks(c, d, id) <==> SameLinks(a, b, id)
  {
    forall id ensures SameLinks(c, d, id) <==> SameLinks(a, b, id) {
      assert LinkedTo(c, id) == LinkedTo(a, id) && LinkedTo(d, id) == LinkedTo(b, id);
    }
  }

  lemma ExpungeKeepsAgreement(a: Db, b: Db, u: nat, box: nat)
    requires Agree(a, b, u) && MailboxOf(a, box, u)
    ensures Agree(Expunge(a, box), Expunge(b, box), u)
    ensures DoomedUids(a, box) == DoomedUids(b, box)
  {
    hide SameMailbox;
    var c, d := Expunge(a, box), Expunge(b, box);
    forall i ensures MailboxOf(c, i, u) == MailboxOf(a, i, u) && MailboxOf(d, i, u) == MailboxOf(b, i, u) {}
    forall i | MailboxOf(a, i, u) ensures SameMailbox(c, d, i) {
      ExpungeSameMailbox(a, b, box, i);
    }
    SameDoomed(a, b, box);
  }

  lemma ExpungeSameMailbox(a: Db, b: Db, box: nat, i: nat)
    requires SameMailbox(a, b, i)
    ensures SameMailbox(Expunge(a, box), Expunge(b, box), i)
  {
    hide Doomed, LinkedTo, SameLinks;
    var c, d := Expunge(a, box), Expunge(b, box);
    SameLinksAfter(a, b, c, d);
    assert forall id | id in InMailbox(c, i) :: id in InMailbox(a, i) && id in InMailbox(d, i);
    assert forall id | id in InMailbox(d, i) :: id in InMailbox(b, i) && id in InMailbox(c, i);
  }

  lemma SameDoomed(a: Db, b: Db, box: nat)
    requires SameMailbox(a, b, box)
    ensures DoomedUids(a, box) == DoomedUids(b, box)
  {
    hide AsU32;
    DoomedAreIn(a, box);
    DoomedAreIn(b, box);
    hide Doomed, LinkedTo;
    var ids := DoomedIn(a, box);
    assert ids == DoomedIn(b, box);
    SameOrder(a.messages, b.messages, ids);
    var rows := ByUid(a.messages, ids);
    assert Reported(a.messages, rows) == Reported(b.messages, rows);
  }

  lemma DoomedAreIn(db: Db, box: nat)
    ensures DoomedIn(db, box) <= InMailbox(db, box)
  {
  }

  lemma {:induction false} SetAllKeepsAgreement(a: Db, b: Db, u: nat, box: nat, l: seq<Meta>, mask: bv32, value: bool)
    requires Agree(a, b, u) && MailboxOf(a, box, u)
    ensures Agree(SetAll(a, box, l, mask, value), SetAll(b, box, l, mask, value), u)
    decreases |l|
  {
    hide Agree, SetFlags;
    if l != [] {
      FlagsKeepAgreement(a, b, u, box, l[0].rowId, mask, value);
      FlagsOnlyMail(a, box, l[0].rowId, mask, value, u);
      SetAllKeepsAgreement(SetFlags(a, box, l[0].rowId, mask, value), SetFlags(b, box, l[0].rowId, mask, value), u, box, l[1..], mask, value);
    }
  }

  /** Turns that answer the same and leave the stores in agreement. */
  ghost predicate SameTurn(x: Turn, y: Turn, u: nat) {
    x.reply == y.reply && x.session == y.session && Agree(x.db, y.db, u)
  }

  lemma SameStore(a: Db, b: Db, s: Session, cmd: R.Command)
    requires Sound(a) && Sound(b) && Agree(a, b, s.userId)
    ensures SameTurn(Store(a, s, cmd), Store(b, s, cmd), s.userId)
  {
    hide Sound, Agree, ListMailbox, Tagged, Completed, StoreArgs, Chosen, SetAll, StoredLines, FlagMask, Sets, Text.Words, SameMailbox;
    SameNamed(a, b, s.userId, s.selected);
    var args := StoreArgs(cmd);
    var box := MailboxNamed(a, s.userId, s.selected);
    if args.Some? && box.Some? {
      var l := ListMailbox(a, box.value);
      SetAllKeepsAgreement(a, b, s.userId, box.value, Chosen(l, args.value.0, |l| % U32), FlagMask(Text.Words(args.value.2)), Sets(args.value.1));
    }
  }

  lemma SameExpunge(a: Db, b: Db, s: Session, cmd: R.Command)
    requires Sound(a) && Sound(b) && Agree(a, b, s.userId)
    ensures SameTurn(ExpungeSelected(a, s, cmd), ExpungeSelected(b, s, cmd), s.userId)
    ensures SameTurn(Close(a, s, cmd), Close(b, s, cmd), s.userId)
  {
    hide Sound, Agree, ListMailbox, Tagged, Completed, Expunge, DoomedUids, ExpungeLines, SameMailbox;
    SameNamed(a, b, s.userId, s.selected);
    SameNamed(a, b, s.userId, INBOX);
    var sel, inbox := MailboxNamed(a, s.userId, s.selected), MailboxNamed(a, s.userId, INBOX);
    if sel.Some? { ExpungeKeepsAgreement(a, b, s.userId, sel.value); }
    if inbox.Some? { ExpungeKeepsAgreement(a, b, s.userId, inbox.value); }
  }

  lemma SameUid(cfg: Config, a: Db, b: Db, s: Session, cmd: R.Command)
    requires Sound(a) && Sound(b) && Agree(a, b, s.userId)
    ensures SameTurn(UidCommand(cfg, a, s, cmd), UidCommand(cfg, b, s, cmd), s.userId)
  {
    hide Sound, Agree, Store, Fetch, Search, Tagged, UidKindOf, MailboxStatus, Select;
    match UidKindOf(cmd.args)
    case UidFetch => SameFetch(cfg, a, b, s, cmd);
    case UidStore => SameStore(a, b, s, cmd);
    case UidSearch => SameReads(cfg, a, b, s, cmd);
    case _ =>
  }

  /** One command of a logged-in session sees nothing but what the user's agreement covers. */
  lemma SameCommand(cfg: Config, a: Db, b: Db, s: Session, cmd: R.Command)
    requires Sound(a) && Sound(b) && Agree(a, b, s.userId) && s.state != NotAuthenticated
    ensures SameTurn(Handle(cfg, a, s, cmd), Handle(cfg, b, s, cmd), s.userId)
  {
    hide Sound, Agree, Store, Fetch, Search, MailboxStatus, Select, ExpungeSelected, Close, UidCommand, Plain, KindOf, Login, Tagged;
    SameStore(a, b, s, cmd);
    SameFetch(cfg, a, b, s, cmd);
    SameReads(cfg, a, b, s, cmd);
    SelectKeepsStore(a, s, cmd);
    SelectKeepsStore(b, s, cmd);
    SameExpunge(a, b, s, cmd);
    SameUid(cfg, a, b, s, cmd);
  }

  /** Isolation over whole runs: two stores that agree on the session's user, whatever else they hold, give the same
      replies to every sequence of commands, and still agree after it. */
  lemma {:induction false} RunsAreIsolated(cfg: Config, a: Db, b: Db, s: Session, cmds: seq<R.Command>)
    requires Sound(a) && Sound(b) && Agree(a, b, s.userId) && s.state != NotAuthenticated
    ensures var x, y := Run(cfg, a, s, cmds), Run(cfg, b, s, cmds);
            x.replies == y.replies && x.session == y.session && Agree(x.db, y.db, s.userId)
    decreases |cmds|
  {
    hide Handle, Sound, Agree;
    if cmds != [] {
      SameCommand(cfg, a, b, s, cmds[0]);
      CommandIsContained(cfg, a, s, cmds[0]);
      CommandIsContained(cfg, b, s, cmds[0]);
      var x, y := Handle(cfg, a, s, cmds[0]), Handle(cfg, b, s, cmds[0]);
      RunsAreIsolated(cfg, x.db, y.db, x.session, cmds[1..]);
    }
  }

  // -------------------------------------------------------- many sessions at once

  /** A command of the session watched, or of any other session, in whatever state that one is. */
  datatype Event = Mine(cmd: R.Command) | Theirs(session: Session, cmd: R.Command)

  ghost function Mixed(cfg: Config, db: Db, s: Session, events: seq<Event>): Ran
    decreases |events|
  {
    if events == [] then Ran([], s, db)
    else
      match events[0]
      case Mine(cmd) =>
        var t := Handle(cfg, db, s, cmd);
        var r := Mixed(cfg, t.db, t.session, events[1..]);
        Ran([t.reply] + r.replies, r.session, r.db)
      case Theirs(other, cmd) => Mixed(cfg, Handle(cfg, db, other, cmd).db, s, events[1..])
  }

  function MineOf(events: seq<Event>): seq<R.Command> {
    if events == [] then []
    else (match events[0] case Mine(cmd) => [cmd] case Theirs(_, _) => []) + MineOf(events[1..])
  }

  /** A user's mail is not touched by what changes only somebody else's. */
  lemma OthersKeepAgreement(a: Db, later: Db, b: Db, u: nat, v: nat)
    requires Agree(a, b, u) && OnlyMailOf(a, later, v) && u != v
    ensures Agree(later, b, u)
  {
    hide LinkedTo;
    SameLinksAfter(a, b, later, b);
    forall i ensures MailboxOf(later, i, u) == MailboxOf(a, i, u) {}
    forall i | MailboxOf(later, i, u) ensures SameMailbox(later, b, i) {
      assert SameMailbox(a, b, i) && !MailboxOf(a, i, v);
      assert InMailbox(later, i) == InMailbox(a, i);
    }
  }

  /** The commands of other users' sessions, interleaved in any way, cannot be noticed: the replies are those the
      session would get alone. */
  lemma {:induction false} OthersAreInvisible(cfg: Config, a: Db, b: Db, s: Session, events: seq<Event>)
    requires Sound(a) && Sound(b) && Agree(a, b, s.userId) && s.state != NotAuthenticated
    requires forall i | 0 <= i < |events| && events[i].Theirs? ::
               events[i].session.state == NotAuthenticated || events[i].session.userId != s.userId
    ensures var x, y := Mixed(cfg, a, s, events), Run(cfg, b, s, MineOf(events));
            x.replies == y.replies && x.session == y.session && Agree(x.db, y.db, s.userId)
    decreases |events|
  {
    hide Handle, Sound, Agree, OnlyMailOf;
    if events != [] {
      match events[0]
      case Mine(cmd) =>
        SameCommand(cfg, a, b, s, cmd);
        CommandIsContained(cfg, a, s, cmd);
        CommandIsContained(cfg, b, s, cmd);
        var x, y := Handle(cfg, a, s, cmd), Handle(cfg, b, s, cmd);
        assert MineOf(events)[1..] == MineOf(events[1..]);
        OthersAreInvisible(cfg, x.db, y.db, x.session, events[1..]);
      case Theirs(other, cmd) =>
        var x := Handle(cfg, a, other, cmd);
        CommandIsContained(cfg, a, other, cmd);
        if other.state != NotAuthenticated {
          OthersKeepAgreement(a, x.db, b, s.userId, other.userId);
        }
        assert MineOf(events) == MineOf(events[1..]);
        OthersAreInvisible(cfg, x.db, b, s, events[1..]);
    }
  }
}
