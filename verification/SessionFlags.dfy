/** Flags through the session: what STORE answers, what it stores, and what FETCH, SEARCH, SELECT and STATUS then say. */
module SessionFlags {
  import opened Utf8
  import opened Text
  import opened MailStore
  import opened Listing
  import opened FetchReply
  import opened ImapSession
  import opened SqliteStore
  import I = SessionIsolation
  import F = FetchItems
  import Q = SequenceSet
  import R = ImapReader

  // ------------------------------------------------------- the update as a whole

  lemma FlaggedTwice(flags: bv32, mask: bv32, value: bool)
    ensures Flagged(Flagged(flags, mask, value), mask, value) == Flagged(flags, mask, value)
  {
    if value { SetTwice(flags, mask); } else { ClearTwice(flags, !mask); }
  }

  lemma SetTwice(flags: bv32, mask: bv32)
    ensures (flags | mask) | mask == flags | mask
  {
  }

  lemma ClearTwice(flags: bv32, rest: bv32)
    ensures (flags & rest) & rest == flags & rest
  {
  }

  predicate Mentions(l: seq<Meta>, rowId: nat) {
    exists m | m in l :: m.rowId == rowId
  }

  function FlaggedRow(m: MessageRow, change: bool, mask: bv32, value: bool): MessageRow {
    if change then m.(flags := Flagged(m.flags, mask, value)) else m
  }

  /** Setting flags row by row, a row perhaps more than once, changes exactly the rows mentioned, each once. */
  lemma {:induction false} SetAllIs(db: Db, box: nat, l: seq<Meta>, mask: bv32, value: bool)
    ensures var later := SetAll(db, box, l, mask, value);
            && later == db.(messages := later.messages) && later.messages.Keys == db.messages.Keys
            && forall id | id in db.messages ::
                 later.messages[id] == FlaggedRow(db.messages[id], Mentions(l, id) && db.messages[id].mailboxId == box, mask, value)
    decreases |l|
  {
    hide SetFlags, FlaggedRow, Mentions;
    if l == [] {
      forall id | id in db.messages ensures !Mentions(l, id) && FlaggedRow(db.messages[id], false, mask, value) == db.messages[id] {
        UnflaggedRow(db.messages[id], id, mask, value);
      }
    } else {
      var next := SetFlags(db, box, l[0].rowId, mask, value);
      SetFlagsIs(db, box, l[0].rowId, mask, value);
      SetAllIs(next, box, l[1..], mask, value);
      var later := SetAll(db, box, l, mask, value);
      forall id | id in db.messages
        ensures later.messages[id] == FlaggedRow(db.messages[id], Mentions(l, id) && db.messages[id].mailboxId == box, mask, value)
      {
        var mine := db.messages[id].mailboxId == box;
        FlaggedRowTwice(db.messages[id], l[0].rowId == id && mine, Mentions(l[1..], id) && mine, mask, value);
        MentionsFirst(l, id);
      }
    }
  }

  lemma UnflaggedRow(m: MessageRow, id: nat, mask: bv32, value: bool)
    ensures !Mentions([], id) && FlaggedRow(m, false, mask, value) == m
  {
  }

  lemma MentionsFirst(l: seq<Meta>, id: nat)
    requires l != []
    ensures Mentions(l, id) <==> l[0].rowId == id || Mentions(l[1..], id)
  {
    assert l[0] in l;
  }

  lemma SetFlagsIs(db: Db, box: nat, rowId: nat, mask: bv32, value: bool)
    ensures var later := SetFlags(db, box, rowId, mask, value);
            && later == db.(messages := later.messages) && later.messages.Keys == db.messages.Keys
            && forall id | id in db.messages ::
                 later.messages[id] == FlaggedRow(db.messages[id], rowId == id && db.messages[id].mailboxId == box, mask, value)
  {
    hide Flagged;
  }

  lemma FlaggedRowTwice(m: MessageRow, first: bool, second: bool, mask: bv32, value: bool)
    ensures FlaggedRow(FlaggedRow(m, first, mask, value), second, mask, value) == FlaggedRow(m, first || second, mask, value)
    ensures FlaggedRow(m, first, mask, value).mailboxId == m.mailboxId
  {
    FlaggedTwice(m.flags, mask, value);
    hide Flagged;
  }

  // ---------------------------------------------------------- the listing after

  function Updated(m: Meta, range: string, count: nat, mask: bv32, value: bool): Meta {
    if Q.InRange(range, m.uid, count) then m.(flags := Flagged(m.flags, mask, value)) else m
  }

  function UpdatedAll(l: seq<Meta>, range: string, count: nat, mask: bv32, value: bool): (r: seq<Meta>)
    ensures |r| == |l| && forall i | 0 <= i < |l| :: r[i] == Updated(l[i], range, count, mask, value)
  {
    seq(|l|, i requires 0 <= i < |l| => Updated(l[i], range, count, mask, value))
  }

  /** Each row of the later store is the earlier one, flags changed when its UID is in the set. */
  ghost predicate RowsUpdated(db: Db, later: Db, rows: set<nat>, range: string, count: nat, mask: bv32, value: bool) {
    && later == db.(messages := later.messages) && later.messages.Keys == db.messages.Keys && rows <= db.messages.Keys
    && forall id | id in rows ::
         later.messages[id] == FlaggedRow(db.messages[id], Q.InRange(range, db.messages[id].uid % U32, count), mask, value)
  }

  lemma MetaUpdated(db: Db, later: Db, rows: set<nat>, id: nat, validity: nat, tx: Option<nat>,
                    range: string, count: nat, mask: bv32, value: bool)
    requires RowsUpdated(db, later, rows, range, count, mask, value) && id in rows && (tx.Some? ==> tx.value in db.transactions)
    ensures MetaOf(later, id, validity, tx) == Updated(MetaOf(db, id, validity, tx), range, count, mask, value)
  {
    hide Q.InRange, Flagged;
  }

  lemma {:induction false} WithEachUpdated(db: Db, later: Db, rows: set<nat>, id: nat, validity: nat, txs: set<nat>,
                                           range: string, count: nat, mask: bv32, value: bool)
    requires RowsUpdated(db, later, rows, range, count, mask, value) && id in rows && txs <= db.transactions.Keys
    ensures WithEach(later, id, validity, txs) == UpdatedAll(WithEach(db, id, validity, txs), range, count, mask, value)
    decreases |txs|
  {
    hide Updated, MetaOf;
    if txs != {} {
      LeastExists(txs);
      var t :| IsLeast(txs, t);
      WithEachStep(db, id, validity, txs, t);
      WithEachStep(later, id, validity, txs, t);
      MetaUpdated(db, later, rows, id, validity, Some(t), range, count, mask, value);
      WithEachUpdated(db, later, rows, id, validity, txs - {t}, range, count, mask, value);
    }
  }

  lemma JoinUpdated(db: Db, later: Db, rows: set<nat>, id: nat, validity: nat, range: string, count: nat, mask: bv32, value: bool)
    requires RowsUpdated(db, later, rows, range, count, mask, value) && id in rows
    ensures JoinRows(later, id, validity) == UpdatedAll(JoinRows(db, id, validity), range, count, mask, value)
  {
    assert LinkedTo(later, id) == LinkedTo(db, id);
    if LinkedTo(db, id) == {} {
      MetaUpdated(db, later, rows, id, validity, None, range, count, mask, value);
    } else {
      WithEachUpdated(db, later, rows, id, validity, LinkedTo(db, id), range, count, mask, value);
    }
  }

  lemma {:induction false} JoinsUpdated(db: Db, later: Db, rows: set<nat>, order: seq<nat>, validity: nat,
                                        range: string, count: nat, mask: bv32, value: bool)
    requires RowsUpdated(db, later, rows, range, count, mask, value) && forall i | 0 <= i < |order| :: order[i] in rows
    ensures JoinAll(later, order, validity) == UpdatedAll(JoinAll(db, order, validity), range, count, mask, value)
  {
    hide Updated, JoinRows, RowsUpdated;
    if order != [] {
      assert forall i | 0 <= i < |order| :: order[i] in db.messages && order[i] in later.messages by { RowsAreThere(db, later, rows, range, count, mask, value); }
      JoinUpdated(db, later, rows, order[0], validity, range, count, mask, value);
      JoinsUpdated(db, later, rows, order[1..], validity, range, count, mask, value);
    }
  }

  lemma RowsAreThere(db: Db, later: Db, rows: set<nat>, range: string, count: nat, mask: bv32, value: bool)
    requires RowsUpdated(db, later, rows, range, count, mask, value)
    ensures rows <= db.messages.Keys && rows <= later.messages.Keys
  {
  }

  // ------------------------------------------------- which rows the set chooses

  lemma {:induction false} ChosenHas(l: seq<Meta>, range: string, count: nat, m: Meta)
    requires m in l && Q.InRange(range, m.uid, count)
    ensures m in Chosen(l, range, count)
  {
    hide Q.InRange;
    if l[0] != m { ChosenHas(l[1..], range, count, m); }
  }

  /** A message of the mailbox is chosen if and only if its UID is in the set. */
  lemma ChosenExactly(db: Db, box: nat, range: string, count: nat, id: nat)
    requires box in db.mailboxes && id in InMailbox(db, box)
    ensures Mentions(Chosen(ListMailbox(db, box), range, count), id) <==> Q.InRange(range, db.messages[id].uid % U32, count)
  {
    hide Q.InRange, ListMailbox, Chosen;
    var l := ListMailbox(db, box);
    ListingShows(db, box);
    var m :| m in l && m.rowId == id;
    if Q.InRange(range, m.uid, count) {
      ChosenHas(l, range, count, m);
    }
  }

  lemma StoreUpdatesRows(db: Db, box: nat, range: string, count: nat, mask: bv32, value: bool)
    requires box in db.mailboxes
    ensures RowsUpdated(db, SetAll(db, box, Chosen(ListMailbox(db, box), range, count), mask, value), InMailbox(db, box), range, count, mask, value)
  {
    hide Q.InRange, ListMailbox, Chosen, Mentions, SetAll, FlaggedRow;
    var chosen := Chosen(ListMailbox(db, box), range, count);
    SetAllIs(db, box, chosen, mask, value);
    forall id | id in InMailbox(db, box) ensures Mentions(chosen, id) <==> Q.InRange(range, db.messages[id].uid % U32, count) {
      ChosenExactly(db, box, range, count, id);
    }
  }

  /** After a STORE the mailbox lists as before, with the flags of the chosen messages changed and nothing else. */
  lemma ListingAfterStore(db: Db, box: nat, range: string, count: nat, mask: bv32, value: bool)
    requires box in db.mailboxes
    ensures var later := SetAll(db, box, Chosen(ListMailbox(db, box), range, count), mask, value);
            && later.mailboxes == db.mailboxes
            && ListMailbox(later, box) == UpdatedAll(ListMailbox(db, box), range, count, mask, value)
  {
    hide Q.InRange, Chosen, SetAll, FlaggedRow, JoinAll, ByUid;
    var later := SetAll(db, box, Chosen(ListMailbox(db, box), range, count), mask, value);
    var ids := InMailbox(db, box);
    StoreUpdatesRows(db, box, range, count, mask, value);
    RowsKeepPlace(db, later, box, range, count, mask, value);
    I.SameOrder(db.messages, later.messages, ids);
    JoinsUpdated(db, later, ids, ByUid(db.messages, ids), db.mailboxes[box].uidvalidity, range, count, mask, value);
  }

  lemma RowsKeepPlace(db: Db, later: Db, box: nat, range: string, count: nat, mask: bv32, value: bool)
    requires box in db.mailboxes && RowsUpdated(db, later, InMailbox(db, box), range, count, mask, value)
    requires later == SetAll(db, box, Chosen(ListMailbox(db, box), range, count), mask, value)
    ensures InMailbox(later, box) == InMailbox(db, box)
    ensures forall id | id in InMailbox(db, box) :: later.messages[id].uid == db.messages[id].uid
  {
    hide Q.InRange, Flagged, ListMailbox, Mentions, SetAll;
    SetAllIs(db, box, Chosen(ListMailbox(db, box), range, count), mask, value);
  }

  // --------------------------------------------------- what the client is told

  const FLAGS_ONLY: F.Request := F.Request(true, false, false, false, false, false, F.NoBody)

  lemma FlagsItem()
    ensures F.RequestFor("FLAGS") == FLAGS_ONLY
  {
    TrimNothing("FLAGS");
    hide Trim;
    assert F.Unwrapped("FLAGS") == "FLAGS";
    assert Upper("FLAGS") == "FLAGS";
    FlagsWord();
    hide F.Extract, Upper, Words;
    OnlyFlagsAsked();
  }

  lemma FlagsWord()
    ensures F.Extract("FLAGS", 0) == ("FLAGS", None) && Words("FLAGS") == ["FLAGS"]
  {
    forall x | 0 <= x < 5 ensures F.SectionAt("FLAGS", x).None? {
      if x == 0 {
        assert Upper("FLAGS"[0..])[0] == 'F';
      }
    }
    F.ExtractFrom("FLAGS", 0, 5);
    WordsOfWord("FLAGS", "");
    assert "FLAGS" + "" == "FLAGS";
  }

  lemma OnlyFlagsAsked()
    ensures F.RequestOf(["FLAGS"], F.NoBody) == FLAGS_ONLY
  {
    var ws := ["FLAGS"];
    assert Upper(ws[0]) == "FLAGS";
    assert F.Asks(ws, "FLAGS");
    assert |"UID"| != 5 && |"RFC822.SIZE"| != 5 && |"INTERNALDATE"| != 5 && |"ENVELOPE"| != 5 && |"BODYSTRUCTURE"| != 5;
  }

  /** The line STORE answers for a message is the line FETCH (FLAGS) gives for it with its new flags. */
  lemma LineMatches(cfg: Config, later: Db, s: Session, m: Meta, mask: bv32, value: bool)
    ensures StoredLine(m, mask, value) == FetchLine(cfg, later, s, m.(flags := Flagged(m.flags, mask, value)), FLAGS_ONLY)
  {
    var flags := Flagged(m.flags, mask, value);
    var n := m.(flags := flags);
    hide FlagsDisplay, Flagged, ToDecimal;
    var id := IdentityOf(cfg, s, n);
    assert Parts(n, FLAGS_ONLY, [], id, cfg.formats) == [FlagsPart(flags)];
    var d, u := FlagsDisplay(flags), ToDecimal(m.uid);
    LineShape(u, d);
    hide Parts;
    assert Join([FlagsPart(flags)], " ") == FlagsPart(flags);
  }

  lemma LineShape(u: string, d: string)
    ensures u + " FETCH (FLAGS (" + d + "))" == u + " FETCH (" + ("FLAGS (" + d + ")") + ")"
  {
    assert " FETCH (FLAGS (" == " FETCH (" + "FLAGS (" && "))" == ")" + ")";
  }

  lemma {:induction false} LinesMatch(cfg: Config, later: Db, s: Session, l: seq<Meta>, range: string, count: nat, mask: bv32, value: bool)
    ensures StoredLines(Chosen(l, range, count), mask, value)
         == FetchLines(cfg, later, s, Chosen(UpdatedAll(l, range, count, mask, value), range, count), FLAGS_ONLY)
  {
    hide Q.InRange, StoredLine, FetchLine, Flagged;
    if l != [] {
      var after := UpdatedAll(l, range, count, mask, value);
      assert after[1..] == UpdatedAll(l[1..], range, count, mask, value);
      LinesMatch(cfg, later, s, l[1..], range, count, mask, value);
      if Q.InRange(range, l[0].uid, count) {
        LineMatches(cfg, later, s, l[0], mask, value);
        ChosenFirst(l, range, count);
        ChosenFirst(after, range, count);
      } else {
        assert Chosen(l, range, count) == Chosen(l[1..], range, count) && Chosen(after, range, count) == Chosen(after[1..], range, count);
      }
    }
  }

  lemma ChosenFirst(l: seq<Meta>, range: string, count: nat)
    requires l != [] && Q.InRange(range, l[0].uid, count)
    ensures var c := Chosen(l, range, count); c != [] && c[0] == l[0] && c[1..] == Chosen(l[1..], range, count)
  {
    hide Q.InRange;
  }

  /** A STORE that is carried out: what it answers for each message is exactly what a FETCH of the flags of the same
      set then answers, and that is what the store holds. */
  lemma StoreThenFetch(cfg: Config, db: Db, s: Session, cmd: R.Command, tag: string)
    requires Sound(db) && s.state == Selected && MailboxNamed(db, s.userId, s.selected).Some?
    requires StoreArgs(cmd).Some? && FlagMask(Words(StoreArgs(cmd).value.2)) != 0
    ensures var t := Store(db, s, cmd);
            var box := MailboxNamed(db, s.userId, s.selected).value;
            var (range, mode, spec) := StoreArgs(cmd).value;
            var l := ListMailbox(db, box);
            var lines := StoredLines(Chosen(l, range, |l| % U32), FlagMask(Words(spec)), Sets(mode));
            && t.reply == lines + Completed(cmd.tag, "STORE")
            && Fetch(cfg, t.db, s, R.Command(tag, "FETCH", [range, "FLAGS"])) == lines + Completed(tag, "FETCH")
            && List(t.db, s.userId, s.selected) == Some(UpdatedAll(l, range, |l| % U32, FlagMask(Words(spec)), Sets(mode)))
  {
    hide Sound, ListMailbox, Chosen, FlagMask, Words, Sets, StoreArgs, SetAll, StoredLines, FetchLines, Completed, Tagged, F.RequestFor, Updated;
    var box := MailboxNamed(db, s.userId, s.selected).value;
    var (range, mode, spec) := StoreArgs(cmd).value;
    var l, mask, value := ListMailbox(db, box), FlagMask(Words(spec)), Sets(mode);
    var n := |l| % U32;
    var chosen := Chosen(l, range, n);
    var later := SetAll(db, box, chosen, mask, value);
    I.SetAllOnlyMail(db, box, chosen, mask, value, s.userId);
    ListingAfterStore(db, box, range, n, mask, value);
    ImapSession.SameMailbox(later, box, s.userId, s.selected);
    LinesMatch(cfg, later, s, l, range, n, mask, value);
    FetchFlagsArgs(tag, range);
  }

  lemma FetchFlagsArgs(tag: string, range: string)
    ensures var cmd := R.Command(tag, "FETCH", [range, "FLAGS"]);
            FetchArgs(cmd) == Some((range, "FLAGS")) && RequestOf(cmd, "FLAGS") == FLAGS_ONLY
  {
    var args := [range, "FLAGS"];
    assert args[1..] == ["FLAGS"];
    assert |"FETCH"| != |"UID"|;
    FlagsItem();
    hide F.RequestFor;
  }

  /** Messages a STORE does not choose, in this mailbox or any other, are untouched. */
  lemma StoreLeavesOthers(db: Db, box: nat, range: string, count: nat, mask: bv32, value: bool, id: nat)
    requires box in db.mailboxes && id in db.messages
    requires db.messages[id].mailboxId != box || !Q.InRange(range, db.messages[id].uid % U32, count)
    ensures var later := SetAll(db, box, Chosen(ListMailbox(db, box), range, count), mask, value);
            id in later.messages && later.messages[id] == db.messages[id]
  {
    hide Q.InRange, ListMailbox, Chosen, SetAll, Mentions;
    SetAllIs(db, box, Chosen(ListMailbox(db, box), range, count), mask, value);
    if db.messages[id].mailboxId == box {
      ChosenExactly(db, box, range, count, id);
    }
  }

  // ------------------------------------------------------------ unseen counts

  function UnseenRows(db: Db, box: nat): set<nat> {
    set id | id in InMailbox(db, box) && db.messages[id].flags & SEEN == 0
  }

  function RowsOf(l: seq<Meta>): set<nat> {
    set m | m in l :: m.rowId
  }

  lemma {:induction false} UnseenOnce(l: seq<Meta>)
    requires forall i, j | 0 <= i < j < |l| :: l[i].rowId != l[j].rowId
    ensures |UnseenOf(l)| == |RowsOf(UnseenOf(l))|
    ensures forall m | m in UnseenOf(l) :: m in l && Unseen(m)
    ensures forall m | m in l && Unseen(m) :: m in UnseenOf(l)
  {
    hide Unseen;
    if l != [] {
      var tail := UnseenOf(l[1..]);
      UnseenOnce(l[1..]);
      if Unseen(l[0]) {
        assert UnseenOf(l) == [l[0]] + tail;
        assert RowsOf(UnseenOf(l)) == {l[0].rowId} + RowsOf(tail);
        assert l[0].rowId !in RowsOf(tail);
      } else {
        assert UnseenOf(l) == tail;
      }
    }
  }

  /** With each message listed once, the unseen entries are the unseen messages of the mailbox, one for one. */
  lemma UnseenCounted(db: Db, box: nat)
    requires box in db.mailboxes && forall id | id in InMailbox(db, box) :: LinkedOnce(db, id)
    ensures |UnseenOf(ListMailbox(db, box))| == |UnseenRows(db, box)|
  {
    ListedOnce(db, box);
    var l := ListMailbox(db, box);
    ListingShows(db, box);
    hide ListMailbox, LinkedTo, UnseenOf, UnseenRows, RowsOf;
    UnseenOnce(l);
    SameUnseen(db, box, l);
  }

  lemma SameUnseen(db: Db, box: nat, l: seq<Meta>)
    requires forall m | m in l :: m.rowId in InMailbox(db, box) && m.flags == db.messages[m.rowId].flags
    requires forall id | id in InMailbox(db, box) :: exists i | 0 <= i < |l| :: l[i].rowId == id
    requires (forall m | m in UnseenOf(l) :: m in l && Unseen(m)) && forall m | m in l && Unseen(m) :: m in UnseenOf(l)
    ensures RowsOf(UnseenOf(l)) == UnseenRows(db, box)
  {
    hide UnseenOf, InMailbox;
    var u := UnseenOf(l);
    forall id | id in UnseenRows(db, box) ensures id in RowsOf(u) {
      var i :| 0 <= i < |l| && l[i].rowId == id;
      assert l[i] in l && l[i] in u;
    }
  }

  lemma UidWordsAreWords(l: seq<Meta>)
    ensures Words(Join(UidWords(l), " ")) == UidWords(l)
  {
    var ws := UidWords(l);
    forall w | w in ws ensures IsWord(w) {
      assert forall i | 0 <= i < |w| :: IsDigit(w[i]);
    }
    WordsJoin(ws);
  }

  function Hit(l: seq<Meta>): string {
    Join(UidWords(UnseenOf(l)), " ")
  }

  /** SEARCH UNSEEN, SELECT and STATUS count the same: the numbers SEARCH lists are as many as the UNSEEN that STATUS
      reports and, as a 32-bit number, SELECT; and with each message listed once, as many as the store's unseen
      messages. */
  lemma UnseenCountsAgree(db: Db, s: Session, tag: string, name: string, mailbox: string)
    requires s.state == Selected && s.selected == mailbox && (mailbox == INBOX || mailbox == SENT)
    requires MailboxNamed(db, s.userId, mailbox).Some? && (name == "SELECT" || name == "EXAMINE")
    ensures var box := MailboxNamed(db, s.userId, mailbox).value;
            var l, uidnext := ListMailbox(db, box), db.mailboxes[box].uidnext % U32;
            var n := |Words(Hit(l))|;
            && Search(db, s, R.Command(tag, "SEARCH", ["UNSEEN"])) == Untagged("SEARCH " + Hit(l)) + Completed(tag, "SEARCH")
            && MailboxStatus(db, s, R.Command(tag, "STATUS", [mailbox]))
               == StatusLine(mailbox, |l|, n, uidnext, Validity(l)) + Completed(tag, "STATUS")
            && Select(db, s, R.Command(tag, name, [mailbox])).reply
               == SelectLines(|l| % U32, n % U32, Validity(l), uidnext)
                  + Completed(tag, if name == "EXAMINE" then "[READ-ONLY] EXAMINE" else "[READ-WRITE] SELECT")
            && ((forall id | id in InMailbox(db, box) :: LinkedOnce(db, id)) ==> n == |UnseenRows(db, box)|)
  {
    var box := MailboxNamed(db, s.userId, mailbox).value;
    var l := ListMailbox(db, box);
    UidWordsAreWords(UnseenOf(l));
    UnseenCriteria(tag);
    CanonicalNames();
    if forall id | id in InMailbox(db, box) :: LinkedOnce(db, id) { UnseenCounted(db, box); }
    hide ListMailbox, UnseenOf, Words, Join, UnseenRows, LinkedTo, StatusLine, SelectLines, Completed, Untagged, Canonical, SearchArgs;
  }

  lemma CanonicalNames()
    ensures Canonical(INBOX) == Some(INBOX) && Canonical(SENT) == Some(SENT)
  {
    assert Upper(INBOX)[0] == 'I' && Upper(SENT)[0] == 'S';
  }

  lemma UnseenCriteria(tag: string)
    ensures var args := SearchArgs(R.Command(tag, "SEARCH", ["UNSEEN"]));
            !MatchesAll(args) && AsksUnseen(args)
  {
    var args := ["UNSEEN"];
    assert |"SEARCH"| != |"UID"|;
    assert Upper(args[0]) == "UNSEEN";
    assert |"ALL"| != |"UNSEEN"|;
  }

  // ---------------------------------------------------- CLOSE and UIDVALIDITY

  /** CLOSE does what section 6.4.2 of RFC 3501 asks, removing the deleted messages of the selected mailbox and no
      others, if and only if that is the INBOX or there is nothing to remove in either. */
  lemma CloseExactly(db: Db, s: Session, cmd: R.Command, box: nat, inbox: nat)
    requires Sound(db) && s.state == Selected
    requires MailboxNamed(db, s.userId, s.selected) == Some(box) && MailboxNamed(db, s.userId, INBOX) == Some(inbox)
    ensures Close(db, s, cmd).db == Expunge(db, box)
       <==> s.selected == INBOX || (DoomedIn(db, box) == {} && DoomedIn(db, inbox) == {})
  {
    hide Sound, Expunge;
    ExpungeRemoves(db, box);
    ExpungeRemoves(db, inbox);
    var a, b := DoomedIn(db, box), DoomedIn(db, inbox);
    if s.selected != INBOX {
      DoomedApart(db, box, inbox);
      hide DoomedIn;
      if a == {} && b == {} {
        assert Expunge(db, box).messages == db.messages && Expunge(db, inbox).messages == db.messages;
        SameButMessages(db, box, inbox);
      } else if a != {} {
        var id :| id in a;
        assert id !in b && id in Expunge(db, inbox).messages;
      } else {
        var id :| id in b;
        assert id !in Expunge(db, inbox).messages && id in Expunge(db, box).messages;
      }
    }
  }

  lemma DoomedApart(db: Db, box: nat, inbox: nat)
    requires box != inbox
    ensures DoomedIn(db, box) !! DoomedIn(db, inbox)
  {
  }

  lemma SameButMessages(db: Db, a: nat, b: nat)
    requires Expunge(db, a).messages == Expunge(db, b).messages
    ensures Expunge(db, a) == Expunge(db, b)
  {
  }

  /** SELECT and STATUS report the mailbox's own UIDVALIDITY if and only if it holds a message or that value is 1. */
  lemma ValidityExactly(db: Db, box: nat)
    requires box in db.mailboxes
    ensures Validity(ListMailbox(db, box)) == db.mailboxes[box].uidvalidity
       <==> InMailbox(db, box) != {} || db.mailboxes[box].uidvalidity == 1
  {
    var ids, v := InMailbox(db, box), db.mailboxes[box].uidvalidity;
    var order := ByUid(db.messages, ids);
    if order == [] {
      assert |ids| == 0;
    } else {
      assert order[0] in ids;
      RowShows(db, order[0], v);
      var head := JoinRows(db, order[0], v);
      assert head[0] in head && JoinAll(db, order, v)[0] == head[0];
    }
  }
}
