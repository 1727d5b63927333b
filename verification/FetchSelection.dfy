/** Mailboxes from which nothing was ever expunged: what FETCH, STORE and their UID forms select there, in every
    interleaving of appends. */
module FetchSelection {
  import opened Utf8
  import opened MailStore
  import opened Listing
  import opened SqliteStore
  import opened ImapSession
  import SessionFlags
  import UserDeletion
  import Q = SequenceSet
  import U = UidRuns

  // ------------------------------------------------------ the log and the mailbox

  function RowsOf(log: seq<U.Issue>): set<nat> {
    set k | 0 <= k < |log| :: log[k].row
  }

  function MailIn(messages: map<nat, MessageRow>, b: nat): set<nat> {
    set i | i in messages && messages[i].mailboxId == b
  }

  /** The log names each message of the mailbox once, with its UID. */
  ghost predicate FiledBox(messages: map<nat, MessageRow>, b: nat, log: seq<U.Issue>) {
    && MailIn(messages, b) == RowsOf(log)
    && (forall k | 0 <= k < |log| :: log[k].row in messages && messages[log[k].row].uid == log[k].uid)
    && (forall i, j | 0 <= i < j < |log| :: log[i].row != log[j].row)
  }

  ghost predicate Filed(w: U.World) {
    forall b | b in w.issued :: FiledBox(w.db.messages, b, w.issued[b])
  }

  lemma FiledElsewhere(messages: map<nat, MessageRow>, b: nat, log: seq<U.Issue>, id: nat, row: MessageRow)
    requires FiledBox(messages, b, log) && id !in messages && row.mailboxId != b
    ensures FiledBox(messages[id := row], b, log)
  {
    assert MailIn(messages[id := row], b) == MailIn(messages, b);
  }

  lemma FiledHere(messages: map<nat, MessageRow>, b: nat, log: seq<U.Issue>, id: nat, row: MessageRow, overtaken: bool)
    requires FiledBox(messages, b, log) && id !in messages && row.mailboxId == b
    ensures FiledBox(messages[id := row], b, log + [U.Issue(row.uid, overtaken, id)])
  {
    var now, more := messages[id := row], log + [U.Issue(row.uid, overtaken, id)];
    assert MailIn(now, b) == MailIn(messages, b) + {id};
    RowsSnoc(log, U.Issue(row.uid, overtaken, id));
  }

  lemma RowsSnoc(log: seq<U.Issue>, i: U.Issue)
    ensures RowsOf(log + [i]) == RowsOf(log) + {i.row}
  {
    var more := log + [i];
    forall r | r in RowsOf(log) ensures r in RowsOf(more) {
      var k :| 0 <= k < |log| && log[k].row == r;
      assert more[k].row == r;
    }
    assert more[|log|].row == i.row;
  }

  /** Rows that keep their mailbox and UID. */
  lemma FiledSame(messages: map<nat, MessageRow>, later: map<nat, MessageRow>, b: nat, log: seq<U.Issue>)
    requires FiledBox(messages, b, log)
    requires forall i | i in later :: i in messages && later[i].mailboxId == messages[i].mailboxId && later[i].uid == messages[i].uid
    requires forall i | i in messages && messages[i].mailboxId == b :: i in later
    ensures FiledBox(later, b, log)
  {
    assert MailIn(later, b) == MailIn(messages, b);
    forall k | 0 <= k < |log| ensures log[k].row in later {
      assert log[k].row in RowsOf(log);
    }
  }

  lemma FiledNothing(messages: map<nat, MessageRow>, b: nat)
    requires forall i | i in messages :: messages[i].mailboxId != b
    ensures FiledBox(messages, b, [])
  {
  }

  lemma CommitFiled(w: U.World, session: nat, now: int)
    requires U.Core(w) && Filed(w)
    ensures Filed(U.CommitAppend(w, session, now))
  {
    hide InsertMessage, FiledBox, U.Overtake, U.Bumped;
    if session in w.pending {
      var p := w.pending[session];
      U.AppendShape(w.db, p, now);
      var r := InsertMessage(w.db, p.mailboxId, p.uid, p.msg, now);
      if r.Appended? {
        U.CoreCounts(w, p.mailboxId);
        var row := MessageRowOf(p.mailboxId, p.uid, p.msg, now);
        var v := U.CommitAppend(w, session, now);
        forall b | b in v.issued ensures FiledBox(v.db.messages, b, v.issued[b]) {
          if b == p.mailboxId { FiledHere(w.db.messages, b, w.issued[b], r.rowId, row, p.overtaken); }
          else { FiledElsewhere(w.db.messages, b, w.issued[b], r.rowId, row); }
        }
      }
    }
  }

  lemma NewUserFiled(w: U.World, username: string, passwordHash: string, at: nat)
    requires U.Core(w) && Filed(w)
    ensures Filed(U.Next(w, U.NewUser(username, passwordHash, at)))
  {
    hide CreateUser, FiledBox, Sound;
    U.RegisteredShape(w.db, username, passwordHash, at);
    var r := CreateUser(w.db, username, passwordHash, at);
    if r.Registered? {
      forall b | b in r.db.mailboxes && b !in w.issued ensures FiledBox(r.db.messages, b, []) {
        FiledNothing(r.db.messages, b);
      }
    }
  }

  lemma DropUserFiled(w: U.World, v: U.Victim)
    requires U.Core(w) && Filed(w)
    ensures Filed(U.Dropped(w, v))
  {
    hide UserDeletion.DeleteUser, FiledBox, Sound;
    var d := UserDeletion.DeleteUser(w.db, v.userId, v.username);
    U.DroppedShape(w.db, v.userId, v.username);
    forall b | b in w.issued && b in d.mailboxes ensures FiledBox(d.messages, b, w.issued[b]) {
      FiledSame(w.db.messages, d.messages, b, w.issued[b]);
    }
  }

  lemma FlagFiled(w: U.World, mailboxId: nat, rowId: nat, mask: bv32, value: bool)
    requires Filed(w)
    ensures Filed(w.(db := SetFlags(w.db, mailboxId, rowId, mask, value)))
  {
    hide FiledBox, Flagged;
    var d := SetFlags(w.db, mailboxId, rowId, mask, value);
    forall b | b in w.issued ensures FiledBox(d.messages, b, w.issued[b]) {
      FiledSame(w.db.messages, d.messages, b, w.issued[b]);
    }
  }

  lemma StepFiled(w: U.World, step: U.Step)
    requires U.Core(w) && Filed(w) && !step.ExpungeAll?
    ensures Filed(U.Next(w, step))
  {
    hide SetFlags, U.CommitAppend, CreateUser, UserDeletion.DeleteUser, FiledBox, UniqueTransactions;
    match step
    case Commit(session, now) => CommitFiled(w, session, now);
    case NewUser(username, passwordHash, at) => NewUserFiled(w, username, passwordHash, at);
    case DropUser(session) => if session in w.doomed { DropUserFiled(w, w.doomed[session]); }
    case Flag(mailboxId, rowId, mask, value) => FlagFiled(w, mailboxId, rowId, mask, value);
    case _ =>
  }

  predicate NothingExpunged(steps: seq<U.Step>) {
    forall i | 0 <= i < |steps| :: !steps[i].ExpungeAll?
  }

  /** In EVERY interleaving without an expunge, each mailbox holds exactly the messages of its log, one for one. */
  lemma {:induction false} RunsFiled(w: U.World, steps: seq<U.Step>)
    requires U.Core(w) && Filed(w) && NothingExpunged(steps)
    ensures Filed(U.After(w, steps))
    decreases |steps|
  {
    hide U.Next, U.Core, Filed;
    if steps != [] {
      StepFiled(w, steps[0]);
      U.StepKeepsCore(w, steps[0]);
      RunsFiled(U.Next(w, steps[0]), steps[1..]);
    }
  }

  // ------------------------------------------------------------- one UID, one message

  lemma {:induction false} CountRows(log: seq<U.Issue>)
    requires forall i, j | 0 <= i < j < |log| :: log[i].row != log[j].row
    ensures |RowsOf(log)| == |log|
  {
    if log == [] {
      assert RowsOf(log) == {};
    } else {
      var init, last := log[..|log| - 1], log[|log| - 1];
      CountRows(init);
      RowsSnoc(init, last);
      assert log == init + [last];
      assert last.row !in RowsOf(init);
    }
  }

  predicate DistinctUids(log: seq<U.Issue>) {
    forall i, j | 0 <= i < j < |log| :: log[i].uid != log[j].uid
  }

  /** UIDs that are never larger than their turn, and distinct, come in turn. */
  lemma {:induction false} DistinctInTurn(log: seq<U.Issue>, k: nat)
    requires U.Issues(log) && DistinctUids(log) && k < |log|
    ensures log[k].uid == k + 1 && !log[k].overtaken
    decreases k
  {
    var u := log[k].uid;
    if u < k + 1 {
      DistinctInTurn(log, u - 1);
    }
  }

  /** No append to the mailbox was overtaken if and only if no two of its UIDs are the same. */
  lemma DistinctExactly(log: seq<U.Issue>)
    requires U.Issues(log)
    ensures U.NoneOvertaken(log) <==> DistinctUids(log)
  {
    if DistinctUids(log) {
      forall k | 0 <= k < |log| ensures !log[k].overtaken { DistinctInTurn(log, k); }
    }
  }

  // ------------------------------------------------------------------- the listing

  /** The UIDs of a listing, ascending. */
  function ListedUids(l: seq<Meta>): (uids: seq<nat>)
    ensures |uids| == |l| && forall i | 0 <= i < |l| :: uids[i] == l[|l| - 1 - i].uid
  {
    seq(|l|, i requires 0 <= i < |l| => l[|l| - 1 - i].uid)
  }

  /** When each message of the mailbox has at most one ledger row, the listing shows each once, with its UID. */
  lemma ListedRows(db: Db, b: nat)
    requires b in db.mailboxes && forall id | id in InMailbox(db, b) :: LinkedOnce(db, id)
    ensures var l, ids := ListMailbox(db, b), InMailbox(db, b);
            && |l| == |ids|
            && (forall i | 0 <= i < |l| :: l[i].rowId in ids && l[i].uid == AsU32(db.messages[l[i].rowId].uid))
            && (forall id | id in ids :: exists i | 0 <= i < |l| :: l[i].rowId == id)
            && (forall i, j | 0 <= i < j < |l| :: l[i].rowId != l[j].rowId && db.messages[l[i].rowId].uid >= db.messages[l[j].rowId].uid)
  {
    var l, ids := ListMailbox(db, b), InMailbox(db, b);
    ListedOnce(db, b);
    ListingShows(db, b);
    assert forall m | m in l :: m.uid == AsU32(db.messages[m.rowId].uid);
    hide LinkedOnce, ListMailbox, AsU32;
    forall i | 0 <= i < |l| ensures l[i].uid == AsU32(db.messages[l[i].rowId].uid) {
      assert l[i] in l;
    }
  }

  lemma Small(n: nat)
    ensures n < U32 ==> n % U32 == n && AsU32(n) == n
  {
  }

  /** The mailbox as the theorem needs it: filed, its UIDs in turn as far as they were not overtaken, none over 32 bits,
      and each message listed once. */
  ghost predicate Tidy(w: U.World, b: nat) {
    && U.Inv(w) && Filed(w) && b in w.db.mailboxes && w.db.mailboxes[b].uidnext <= U32
    && forall id | id in InMailbox(w.db, b) :: LinkedOnce(w.db, id)
  }

  /** Listed UIDs are the stored ones, from 1 to the number of messages, newest first. */
  lemma TidyListing(w: U.World, b: nat)
    requires Tidy(w, b)
    ensures b in w.db.mailboxes && b in w.issued && U.Issues(w.issued[b]) && FiledBox(w.db.messages, b, w.issued[b])
    ensures var l := ListMailbox(w.db, b);
            && |l| == |w.issued[b]| && |l| < U32
            && (forall i | 0 <= i < |l| :: l[i].rowId in MailIn(w.db.messages, b) && l[i].uid == w.db.messages[l[i].rowId].uid && 1 <= l[i].uid <= |l|)
            && (forall id | id in MailIn(w.db.messages, b) :: exists i | 0 <= i < |l| :: l[i].rowId == id)
            && (forall i, j | 0 <= i < j < |l| :: l[i].rowId != l[j].rowId && l[i].uid >= l[j].uid)
  {
    hide ListMailbox, LinkedOnce, Sound, AsU32;
    U.CoreCounts(w, b);
    var log := w.issued[b];
    assert FiledBox(w.db.messages, b, log);
    assert MailIn(w.db.messages, b) == InMailbox(w.db, b);
    CountRows(log);
    ListedRows(w.db, b);
    hide MailIn, InMailbox;
    var l := ListMailbox(w.db, b);
    forall i | 0 <= i < |l| ensures l[i].uid == w.db.messages[l[i].rowId].uid && 1 <= l[i].uid <= |l| {
      InRow(w, b, log, l[i].rowId);
      Small(w.db.messages[l[i].rowId].uid);
    }
  }

  lemma InRow(w: U.World, b: nat, log: seq<U.Issue>, id: nat)
    requires U.Issues(log) && FiledBox(w.db.messages, b, log) && id in MailIn(w.db.messages, b)
    ensures 1 <= w.db.messages[id].uid <= |log|
  {
    var k :| 0 <= k < |log| && log[k].row == id;
  }

  /** Distinct in the log, distinct in the listing. */
  lemma DistinctListed(w: U.World, b: nat)
    requires Tidy(w, b)
    ensures var l := ListMailbox(w.db, b);
            DistinctUids(w.issued[b]) <==> forall i, j | 0 <= i < j < |l| :: l[i].uid != l[j].uid
  {
    hide ListMailbox, Tidy, FiledBox, DistinctUids, MailIn, U.Issues;
    TidyListing(w, b);
    var log, l, t := w.issued[b], ListMailbox(w.db, b), w.db.messages;
    if DistinctUids(log) {
      forall i, j | 0 <= i < j < |l| ensures l[i].uid != l[j].uid {
        RowsApart(t, b, log, l[i].rowId, l[j].rowId);
      }
    }
    if forall i, j | 0 <= i < j < |l| :: l[i].uid != l[j].uid {
      ListedApart(t, b, log, l);
    }
  }

  /** Two messages of the mailbox have two entries in the log. */
  lemma RowsApart(t: map<nat, MessageRow>, b: nat, log: seq<U.Issue>, i: nat, j: nat)
    requires FiledBox(t, b, log) && DistinctUids(log) && i != j && i in MailIn(t, b) && j in MailIn(t, b)
    ensures t[i].uid != t[j].uid
  {
    var x :| 0 <= x < |log| && log[x].row == i;
    var y :| 0 <= y < |log| && log[y].row == j;
    assert x != y;
  }

  lemma ListedApart(t: map<nat, MessageRow>, b: nat, log: seq<U.Issue>, l: seq<Meta>)
    requires FiledBox(t, b, log)
    requires forall i | 0 <= i < |l| :: l[i].rowId in MailIn(t, b) && l[i].uid == t[l[i].rowId].uid
    requires forall id | id in MailIn(t, b) :: exists i | 0 <= i < |l| :: l[i].rowId == id
    requires forall i, j | 0 <= i < j < |l| :: l[i].uid != l[j].uid
    ensures DistinctUids(log)
  {
    forall x, y | 0 <= x < y < |log| ensures log[x].uid != log[y].uid {
      assert log[x].row in RowsOf(log) && log[y].row in RowsOf(log);
      hide MailIn;
      var i :| 0 <= i < |l| && l[i].rowId == log[x].row;
      var j :| 0 <= j < |l| && l[j].rowId == log[y].row;
      assert i != j;
    }
  }

  lemma DenseIfDistinct(l: seq<Meta>)
    requires |l| < U32 && (forall i | 0 <= i < |l| :: 1 <= l[i].uid <= |l|) && (forall i, j | 0 <= i < j < |l| :: l[i].uid >= l[j].uid)
    ensures Q.Dense(ListedUids(l)) <==> forall i, j | 0 <= i < j < |l| :: l[i].uid != l[j].uid
  {
    var uids := ListedUids(l);
    if forall i, j | 0 <= i < j < |l| :: l[i].uid != l[j].uid {
      assert Q.Ascending(uids);
      if uids != [] {
        Q.AtLeastPosition(uids, |uids| - 1);
        forall i | 0 <= i < |uids| ensures uids[i] == i + 1 { Q.DenseFromTop(uids, i); }
      }
    }
    if Q.Dense(uids) {
      forall i, j | 0 <= i < j < |l| ensures l[i].uid != l[j].uid {
        assert uids[|l| - 1 - i] == l[i].uid && uids[|l| - 1 - j] == l[j].uid;
      }
    }
  }

  /** In a mailbox from which nothing was expunged the message with sequence number k has UID k, for every k, if and only
      if no append to it was overtaken. */
  lemma DenseExactly(w: U.World, b: nat)
    requires Tidy(w, b)
    ensures b in w.issued && |ListMailbox(w.db, b)| < U32
    ensures Q.Dense(ListedUids(ListMailbox(w.db, b))) <==> U.NoneOvertaken(w.issued[b])
  {
    hide Tidy, ListMailbox, FiledBox, Q.Dense, DistinctUids, MailIn, U.Issues, U.NoneOvertaken, ListedUids;
    TidyListing(w, b);
    DistinctListed(w, b);
    DistinctExactly(w.issued[b]);
    DenseIfDistinct(ListMailbox(w.db, b));
  }

  // -------------------------------------------------------------------- selection

  lemma DenseUid(l: seq<Meta>, i: nat)
    requires Q.Dense(ListedUids(l)) && i < |l|
    ensures l[i].uid == |l| - i
  {
    assert ListedUids(l)[|l| - 1 - i] == l[i].uid;
  }

  lemma ChosenIsDenoted(l: seq<Meta>, set_: seq<Q.Item>, i: nat)
    requires Q.SetOk(set_) && i < |l|
    ensures l[i] in Chosen(l, Q.Print(set_), |l|) <==> Q.Denotes(set_, l[i].uid, |l|)
  {
    hide Q.InRange, Q.Denotes, Q.Print, Q.SetOk, Chosen;
    Q.PrintedSetSelects(set_, l[i].uid, |l|);
    if Q.InRange(Q.Print(set_), l[i].uid, |l|) { SessionFlags.ChosenHas(l, Q.Print(set_), |l|, l[i]); }
  }

  lemma RunIsTidy(steps: seq<U.Step>, b: nat)
    requires U.OrderlyRun(U.BLANK, steps) && NothingExpunged(steps) && b in U.After(U.BLANK, steps).db.mailboxes
    requires U.After(U.BLANK, steps).db.mailboxes[b].uidnext <= U32
    requires forall id | id in InMailbox(U.After(U.BLANK, steps).db, b) :: LinkedOnce(U.After(U.BLANK, steps).db, id)
    ensures Tidy(U.After(U.BLANK, steps), b)
  {
    U.BlankInv();
    assert Filed(U.BLANK);
    hide U.Inv, Filed, LinkedOnce, U.After, U.OrderlyRun;
    U.EveryRunKeepsInv(U.BLANK, steps);
    BlankCore();
    RunsFiled(U.BLANK, steps);
  }

  lemma BlankCore()
    ensures U.Core(U.BLANK)
  {
    U.BlankInv();
  }

  /** FETCH and STORE by sequence number, in every interleaving of appends without an expunge and without a user deleted
      under an append: every message of the mailbox is selected by every set exactly as RFC 3501 asks, if and only if
      no append to the mailbox was overtaken between its lookup and its insert. */
  lemma SelectsByPlaceExactly(steps: seq<U.Step>, b: nat)
    requires U.OrderlyRun(U.BLANK, steps) && NothingExpunged(steps) && b in U.After(U.BLANK, steps).db.mailboxes
    requires U.After(U.BLANK, steps).db.mailboxes[b].uidnext <= U32
    requires forall id | id in InMailbox(U.After(U.BLANK, steps).db, b) :: LinkedOnce(U.After(U.BLANK, steps).db, id)
    ensures b in U.After(U.BLANK, steps).issued
    ensures Q.SelectsByPlace(ListedUids(ListMailbox(U.After(U.BLANK, steps).db, b))) <==> U.NoneOvertaken(U.After(U.BLANK, steps).issued[b])
  {
    hide U.After, Tidy, ListMailbox, Q.SelectsByPlace, Q.Dense, U.NoneOvertaken, LinkedOnce, U.OrderlyRun;
    RunIsTidy(steps, b);
    var w := U.After(U.BLANK, steps);
    DenseExactly(w, b);
    Q.SequenceSelectionExact(ListedUids(ListMailbox(w.db, b)));
  }

  /** And then FETCH, UID FETCH, STORE and UID STORE all choose a message if and only if the set denotes it, with `*`
      the largest number; the number of a message is both its UID and its place in the mailbox. */
  lemma SelectsDenoted(steps: seq<U.Step>, b: nat, set_: seq<Q.Item>)
    requires U.OrderlyRun(U.BLANK, steps) && NothingExpunged(steps) && b in U.After(U.BLANK, steps).db.mailboxes
    requires U.After(U.BLANK, steps).db.mailboxes[b].uidnext <= U32 && Q.SetOk(set_)
    requires forall id | id in InMailbox(U.After(U.BLANK, steps).db, b) :: LinkedOnce(U.After(U.BLANK, steps).db, id)
    requires b in U.After(U.BLANK, steps).issued ==> U.NoneOvertaken(U.After(U.BLANK, steps).issued[b])
    ensures var l := ListMailbox(U.After(U.BLANK, steps).db, b);
            forall i | 0 <= i < |l| ::
              && l[i].uid == |l| - i
              && (l[i] in Chosen(l, Q.Print(set_), |l| % U32) <==> Q.Denotes(set_, l[i].uid, |l|))
  {
    hide U.After, Tidy, ListMailbox, Q.Dense, U.NoneOvertaken, LinkedOnce, U.OrderlyRun, Chosen, Q.Print, Q.Denotes, Q.SetOk;
    RunIsTidy(steps, b);
    var w := U.After(U.BLANK, steps);
    DenseExactly(w, b);
    var l := ListMailbox(w.db, b);
    Small(|l|);
    forall i | 0 <= i < |l|
      ensures l[i].uid == |l| - i && (l[i] in Chosen(l, Q.Print(set_), |l| % U32) <==> Q.Denotes(set_, l[i].uid, |l|))
    {
      DenseUid(l, i);
      ChosenIsDenoted(l, set_, i);
    }
  }
}
