/** Appends by many sessions at once. An append looks its mailbox up under one lock and inserts under another,
    so anything may run in between; which UID guarantees hold depends on what does. */
module UidRuns {
  import opened Utf8
  import opened MailStore
  import opened UserDeletion

  /** An append between its two halves: what it looked up. `overtaken` records, for the statement of the
      property only, that another append to the mailbox was committed since. */
  datatype Pending = Pending(mailboxId: nat, uid: nat, msg: NewMessage, overtaken: bool)

  /** A UID given out, whether the append had been overtaken, and the row the message went to. */
  datatype Issue = Issue(uid: nat, overtaken: bool, row: nat)

  /** A deletion between its two halves: the user it looked up, and the name it looked for. */
  datatype Victim = Victim(userId: nat, username: string)

  /** The store, the appends and the deletions in flight by session, and the UIDs each mailbox has given out, in order. */
  datatype World = World(db: Db, pending: map<nat, Pending>, issued: map<nat, seq<Issue>>, doomed: map<nat, Victim>)

  datatype Step =
    | Lookup(session: nat, userId: nat, mailbox: string, msg: NewMessage)
    | Commit(session: nat, now: int)
    | Flag(mailboxId: nat, rowId: nat, mask: bv32, value: bool)
    | ExpungeAll(mailboxId: nat)
    | NewUser(username: string, passwordHash: string, at: nat)
    | FindVictim(session: nat, username: string)
    | DropUser(session: nat)
    | Ledger(transactions: map<nat, TxRow>)

  const BLANK: World := World(EMPTY, map[], map[], map[])

  function Overtake(p: Pending, mailboxId: nat): Pending {
    if p.mailboxId == mailboxId then p.(overtaken := true) else p
  }

  ghost function CommitAppend(w: World, session: nat, now: int): World {
    if session !in w.pending then w
    else
      var p := w.pending[session];
      var others := map s | s in w.pending && s != session :: w.pending[s];
      match InsertMessage(w.db, p.mailboxId, p.uid, p.msg, now)
      case Appended(db, row) =>
        var past := if p.mailboxId in w.issued then w.issued[p.mailboxId] else [];
        World(db, map s | s in others :: Overtake(others[s], p.mailboxId),
              w.issued[p.mailboxId := past + [Issue(p.uid, p.overtaken, row)]], w.doomed)
      case _ => w.(pending := others)
  }

  /** The six statements of a deletion, by the user id it holds. */
  function Dropped(w: World, v: Victim): World {
    var db := DeleteUser(w.db, v.userId, v.username);
    w.(db := db, issued := map b | b in w.issued && b in db.mailboxes :: w.issued[b])
  }

  ghost function Next(w: World, step: Step): World {
    match step
    case Lookup(session, userId, mailbox, msg) => (
      match MailboxNamed(w.db, userId, mailbox)
      case None => w
      case Some(id) => w.(pending := w.pending[session := Pending(id, w.db.mailboxes[id].uidnext, msg, false)]))
    case Commit(session, now) => CommitAppend(w, session, now)
    case Flag(mailboxId, rowId, mask, value) => w.(db := SetFlags(w.db, mailboxId, rowId, mask, value))
    case ExpungeAll(mailboxId) => w.(db := Expunge(w.db, mailboxId))
    case NewUser(username, passwordHash, at) => (
      match CreateUser(w.db, username, passwordHash, at)
      case NameTaken => w
      case Registered(db, _) =>
        w.(db := db, issued := map b | b in db.mailboxes :: if b in w.issued then w.issued[b] else []))
    case FindVictim(session, username) => (
      match GetUser(w.db, username)
      case None => w
      case Some(id) => w.(doomed := w.doomed[session := Victim(id, username)]))
    case DropUser(session) =>
      if session in w.doomed then Dropped(w, w.doomed[session]).(doomed := w.doomed - {session}) else w
    case Ledger(transactions) => if UniqueTransactions(transactions) then w.(db := w.db.(transactions := transactions)) else w
  }

  /** A step that deletes no user with an append in flight. */
  ghost predicate Orderly(w: World, step: Step) {
    step.DropUser? && step.session in w.doomed ==>
      forall s | s in w.pending && w.pending[s].mailboxId in w.db.mailboxes ::
        w.db.mailboxes[w.pending[s].mailboxId].userId != w.doomed[step.session].userId
  }

  ghost predicate OrderlyRun(w: World, steps: seq<Step>)
    decreases |steps|
  {
    steps == [] || (Orderly(w, steps[0]) && OrderlyRun(Next(w, steps[0]), steps[1..]))
  }

  ghost function After(w: World, steps: seq<Step>): World
    decreases |steps|
  {
    if steps == [] then w else After(Next(w, steps[0]), steps[1..])
  }

  // ---------------------------------------------------------- what always holds

  predicate UidsBelow(mailboxes: map<nat, MailboxRow>, messages: map<nat, MessageRow>) {
    forall i | i in messages && messages[i].mailboxId in mailboxes ::
      0 < messages[i].uid < mailboxes[messages[i].mailboxId].uidnext
  }

  /** The counter is one more than the number of committed appends. */
  predicate Counted(mailboxes: map<nat, MailboxRow>, issued: map<nat, seq<Issue>>) {
    && issued.Keys == mailboxes.Keys
    && forall b | b in mailboxes :: mailboxes[b].uidnext == 1 + |issued[b]|
  }

  /** The k-th UID given out is k, unless the append had been overtaken; then it is smaller. */
  predicate Issues(log: seq<Issue>) {
    forall k | 0 <= k < |log| ::
      log[k].uid > 0 && (if log[k].overtaken then log[k].uid < k + 1 else log[k].uid == k + 1)
  }

  predicate PendingFits(mailboxes: map<nat, MailboxRow>, p: Pending) {
    && p.mailboxId in mailboxes && p.uid > 0
    && (if p.overtaken then p.uid < mailboxes[p.mailboxId].uidnext else p.uid == mailboxes[p.mailboxId].uidnext)
  }

  /** What every step keeps, whatever runs in between: the constraints, among them one row a message id and mailbox;
      the counters; and that a UID held is a UID. */
  ghost predicate Core(w: World) {
    && Sound(w.db) && Counted(w.db.mailboxes, w.issued)
    && (forall s | s in w.pending :: w.pending[s].uid > 0)
  }

  ghost predicate Inv(w: World) {
    && Core(w)
    && UidsBelow(w.db.mailboxes, w.db.messages)
    && (forall b | b in w.issued :: Issues(w.issued[b]))
    && (forall s | s in w.pending :: PendingFits(w.db.mailboxes, w.pending[s]))
  }

  function Bumped(t: map<nat, MailboxRow>, b: nat): map<nat, MailboxRow>
    requires b in t
  {
    t[b := t[b].(uidnext := t[b].uidnext + 1)]
  }

  lemma AppendShape(db: Db, p: Pending, now: int)
    ensures var r := InsertMessage(db, p.mailboxId, p.uid, p.msg, now);
            r.Appended? ==>
              && p.mailboxId in db.mailboxes && r.rowId !in db.messages
              && r.db == db.(messages := db.messages[r.rowId := MessageRowOf(p.mailboxId, p.uid, p.msg, now)],
                             mailboxes := Bumped(db.mailboxes, p.mailboxId))
  {
  }

  lemma BumpCounts(t: map<nat, MailboxRow>, issued: map<nat, seq<Issue>>, b: nat, i: Issue)
    requires Counted(t, issued) && b in t
    ensures Counted(Bumped(t, b), issued[b := issued[b] + [i]])
  {
  }

  lemma BumpKeepsBelow(t: map<nat, MailboxRow>, messages: map<nat, MessageRow>, p: Pending, id: nat, row: MessageRow)
    requires UidsBelow(t, messages) && PendingFits(t, p) && row.mailboxId == p.mailboxId && row.uid == p.uid
    ensures UidsBelow(Bumped(t, p.mailboxId), messages[id := row])
  {
  }

  lemma BumpKeepsPending(t: map<nat, MailboxRow>, p: Pending, b: nat)
    requires PendingFits(t, p) && b in t
    ensures PendingFits(Bumped(t, b), Overtake(p, b))
  {
  }

  lemma IssueNext(t: map<nat, MailboxRow>, p: Pending, log: seq<Issue>, row: nat)
    requires Issues(log) && PendingFits(t, p) && t[p.mailboxId].uidnext == 1 + |log|
    ensures Issues(log + [Issue(p.uid, p.overtaken, row)])
  {
  }

  lemma CommitKeepsCore(w: World, session: nat, now: int)
    requires Core(w)
    ensures Core(CommitAppend(w, session, now))
  {
    hide InsertMessage, Sound, Counted, Bumped;
    if session in w.pending {
      var p := w.pending[session];
      InsertMessageSound(w.db, p.mailboxId, p.uid, p.msg, now);
      AppendShape(w.db, p, now);
      var r := InsertMessage(w.db, p.mailboxId, p.uid, p.msg, now);
      if r.Appended? {
        CountedAt(w.db.mailboxes, w.issued, p.mailboxId);
        BumpCounts(w.db.mailboxes, w.issued, p.mailboxId, Issue(p.uid, p.overtaken, r.rowId));
      }
    }
  }

  lemma CommitKeepsInv(w: World, session: nat, now: int)
    requires Inv(w)
    ensures Inv(CommitAppend(w, session, now))
  {
    hide InsertMessage, Core, UidsBelow, Issues, PendingFits, Overtake, Bumped;
    CommitKeepsCore(w, session, now);
    if session in w.pending {
      var p := w.pending[session];
      AppendShape(w.db, p, now);
      var r := InsertMessage(w.db, p.mailboxId, p.uid, p.msg, now);
      if r.Appended? {
        var b := p.mailboxId;
        CoreCounts(w, b);
        BumpKeepsBelow(w.db.mailboxes, w.db.messages, p, r.rowId, MessageRowOf(b, p.uid, p.msg, now));
        IssueNext(w.db.mailboxes, p, w.issued[b], r.rowId);
        forall s | s in w.pending ensures PendingFits(Bumped(w.db.mailboxes, b), Overtake(w.pending[s], b)) {
          BumpKeepsPending(w.db.mailboxes, w.pending[s], b);
        }
      }
    }
  }

  lemma CoreCounts(w: World, b: nat)
    requires Core(w) && b in w.db.mailboxes
    ensures b in w.issued && w.db.mailboxes[b].uidnext == 1 + |w.issued[b]|
  {
  }

  lemma CountedAt(t: map<nat, MailboxRow>, issued: map<nat, seq<Issue>>, b: nat)
    requires Counted(t, issued) && b in t
    ensures b in issued && t[b].uidnext == 1 + |issued[b]|
  {
  }

  /** Mailboxes may come and go around a set of messages and pending appends that stays within what remains. */
  lemma TablesMove(t: map<nat, MailboxRow>, u: map<nat, MailboxRow>, messages: map<nat, MessageRow>, later: map<nat, MessageRow>)
    requires UidsBelow(t, messages)
    requires forall i | i in later :: i in messages && later[i] == messages[i]
    requires forall i | i in later && later[i].mailboxId in u :: later[i].mailboxId in t && u[later[i].mailboxId] == t[later[i].mailboxId]
    ensures UidsBelow(u, later)
  {
  }

  lemma RegisteredShape(db: Db, username: string, passwordHash: string, at: nat)
    requires Sound(db)
    ensures var r := CreateUser(db, username, passwordHash, at);
            r.Registered? ==>
              && r.db.messages == db.messages && Sound(r.db)
              && (forall b | b in db.mailboxes :: b in r.db.mailboxes && r.db.mailboxes[b] == db.mailboxes[b])
              && (forall b | b in r.db.mailboxes && b !in db.mailboxes :: r.db.mailboxes[b].uidnext == 1)
              && MessageHomes(db.mailboxes.Keys, db.messages)
  {
    hide UniqueKeys;
    CreateUserSound(db, username, passwordHash, at);
  }

  lemma NewUserKeepsCore(w: World, username: string, passwordHash: string, at: nat)
    requires Core(w)
    ensures Core(Next(w, NewUser(username, passwordHash, at)))
  {
    hide CreateUser, Sound;
    RegisteredShape(w.db, username, passwordHash, at);
  }

  lemma NewUserKeepsBelow(w: World, username: string, passwordHash: string, at: nat)
    requires Sound(w.db) && UidsBelow(w.db.mailboxes, w.db.messages)
    ensures var v := Next(w, NewUser(username, passwordHash, at)); UidsBelow(v.db.mailboxes, v.db.messages)
  {
    hide CreateUser, Sound, UidsBelow;
    RegisteredShape(w.db, username, passwordHash, at);
    var r := CreateUser(w.db, username, passwordHash, at);
    if r.Registered? {
      TablesMove(w.db.mailboxes, r.db.mailboxes, w.db.messages, r.db.messages);
    }
  }

  lemma NewUserKeepsInv(w: World, username: string, passwordHash: string, at: nat)
    requires Inv(w)
    ensures Inv(Next(w, NewUser(username, passwordHash, at)))
  {
    hide CreateUser, Core, UidsBelow, PendingFits;
    CoreSound(w);
    NewUserKeepsCore(w, username, passwordHash, at);
    NewUserKeepsBelow(w, username, passwordHash, at);
    RegisteredFrom(w, username, passwordHash, at);
    var r := CreateUser(w.db, username, passwordHash, at);
    if r.Registered? {
      forall s | s in w.pending ensures PendingFits(r.db.mailboxes, w.pending[s]) {
        FitsAmongMore(w.db.mailboxes, r.db.mailboxes, w.pending[s]);
      }
    }
  }

  lemma FitsAmongMore(t: map<nat, MailboxRow>, u: map<nat, MailboxRow>, p: Pending)
    requires PendingFits(t, p) && forall b | b in t :: b in u && u[b] == t[b]
    ensures PendingFits(u, p)
  {
  }

  lemma RegisteredFrom(w: World, username: string, passwordHash: string, at: nat)
    requires Core(w)
    ensures var r := CreateUser(w.db, username, passwordHash, at);
            r.Registered? ==>
              && (forall b | b in w.db.mailboxes :: b in r.db.mailboxes && r.db.mailboxes[b] == w.db.mailboxes[b])
              && w.issued.Keys == w.db.mailboxes.Keys
  {
    hide CreateUser, Sound;
    RegisteredShape(w.db, username, passwordHash, at);
  }

  lemma DroppedShape(db: Db, id: nat, username: string)
    requires Sound(db)
    ensures var d := DeleteUser(db, id, username);
            && Sound(d)
            && (forall b | b in d.mailboxes :: b in db.mailboxes && d.mailboxes[b] == db.mailboxes[b])
            && (forall b | b in db.mailboxes && db.mailboxes[b].userId != id :: b in d.mailboxes)
            && (forall i | i in d.messages :: i in db.messages && d.messages[i] == db.messages[i])
            && (forall i | i in db.messages && db.messages[i].mailboxId in d.mailboxes :: i in d.messages)
  {
    hide OthersKeyring, OthersShares, OthersLedger;
    EveryStatementKeepsForeignKeys(db, id, username, 6);
    AfterStatementsAre(db, id, username, 6);
  }

  lemma DropUserKeepsCore(w: World, v: Victim)
    requires Core(w)
    ensures Core(Dropped(w, v))
  {
    hide DeleteUser, Sound;
    DroppedShape(w.db, v.userId, v.username);
  }

  lemma DropUserKeepsBelow(w: World, v: Victim)
    requires Sound(w.db) && UidsBelow(w.db.mailboxes, w.db.messages)
    ensures UidsBelow(Dropped(w, v).db.mailboxes, Dropped(w, v).db.messages)
  {
    hide DeleteUser, Sound, UidsBelow;
    DroppedShape(w.db, v.userId, v.username);
    var d := DeleteUser(w.db, v.userId, v.username);
    TablesMove(w.db.mailboxes, d.mailboxes, w.db.messages, d.messages);
  }

  lemma DropUserKeepsInv(w: World, session: nat)
    requires Inv(w) && Orderly(w, DropUser(session)) && session in w.doomed
    ensures Inv(Dropped(w, w.doomed[session]))
  {
    hide DeleteUser, UidsBelow, Issues, Core, PendingFits;
    CoreSound(w);
    var v := w.doomed[session];
    DropUserKeepsCore(w, v);
    DropUserKeepsBelow(w, v);
    var d := DeleteUser(w.db, v.userId, v.username);
    DroppedShape(w.db, v.userId, v.username);
    forall s | s in w.pending ensures PendingFits(d.mailboxes, w.pending[s]) {
      FitsStill(w.db.mailboxes, d.mailboxes, v.userId, w.pending[s]);
    }
  }

  lemma CoreSound(w: World)
    requires Core(w)
    ensures Sound(w.db)
  {
  }

  lemma FitsStill(t: map<nat, MailboxRow>, u: map<nat, MailboxRow>, id: nat, p: Pending)
    requires PendingFits(t, p) && (p.mailboxId in t ==> t[p.mailboxId].userId != id)
    requires forall b | b in u :: b in t && u[b] == t[b]
    requires forall b | b in t && t[b].userId != id :: b in u
    ensures PendingFits(u, p)
  {
  }

  lemma FlagsKeepBelow(db: Db, mailboxId: nat, rowId: nat, mask: bv32, value: bool)
    requires UidsBelow(db.mailboxes, db.messages)
    ensures var d := SetFlags(db, mailboxId, rowId, mask, value); d.mailboxes == db.mailboxes && UidsBelow(d.mailboxes, d.messages)
  {
    hide Flagged;
  }

  lemma ExpungeKeepsBelow(db: Db, mailboxId: nat)
    requires UidsBelow(db.mailboxes, db.messages)
    ensures var d := Expunge(db, mailboxId); d.mailboxes == db.mailboxes && UidsBelow(d.mailboxes, d.messages)
  {
    hide Doomed;
  }

  lemma LedgerSound(db: Db, transactions: map<nat, TxRow>)
    requires Sound(db) && UniqueTransactions(transactions)
    ensures Sound(db.(transactions := transactions))
  {
  }

  lemma StepKeepsCore(w: World, step: Step)
    requires Core(w)
    ensures Core(Next(w, step))
  {
    hide SetFlags, Expunge, CommitAppend, Sound, CreateUser, DeleteUser, UniqueTransactions;
    match step
    case Commit(session, now) => CommitKeepsCore(w, session, now);
    case NewUser(username, passwordHash, at) => NewUserKeepsCore(w, username, passwordHash, at);
    case DropUser(session) => if session in w.doomed { DropUserKeepsCore(w, w.doomed[session]); }
    case FindVictim(_, _) =>
    case Flag(mailboxId, rowId, mask, value) =>
      SetFlagsSound(w.db, mailboxId, rowId, mask, value);
      MailboxesStay(w.db, mailboxId, rowId, mask, value);
    case ExpungeAll(mailboxId) =>
      ExpungeSound(w.db, mailboxId);
      MailboxesStay(w.db, mailboxId, 0, 0, false);
    case Lookup(_, userId, mailbox, _) =>
    case Ledger(transactions) => if UniqueTransactions(transactions) { LedgerSound(w.db, transactions); }
  }

  lemma MailboxesStay(db: Db, mailboxId: nat, rowId: nat, mask: bv32, value: bool)
    ensures SetFlags(db, mailboxId, rowId, mask, value).mailboxes == db.mailboxes && Expunge(db, mailboxId).mailboxes == db.mailboxes
  {
  }

  /** In EVERY interleaving of lookups, commits, flag changes, expunges, registrations, deletions and ledger writes, each
      mailbox's counter is one more than the appends committed to it, and message ids are unique in a mailbox. */
  lemma {:induction false} EveryRunCounts(w: World, steps: seq<Step>)
    requires Core(w)
    ensures Core(After(w, steps))
    decreases |steps|
  {
    hide Next, Core;
    if steps != [] {
      StepKeepsCore(w, steps[0]);
      EveryRunCounts(Next(w, steps[0]), steps[1..]);
    }
  }

  lemma StepKeepsInv(w: World, step: Step)
    requires Inv(w) && Orderly(w, step)
    ensures Inv(Next(w, step))
  {
    hide SetFlags, Expunge, CommitAppend, Core, UidsBelow, Issues, CreateUser, DeleteUser, PendingFits, UniqueTransactions;
    StepKeepsCore(w, step);
    match step
    case Commit(session, now) => CommitKeepsInv(w, session, now);
    case NewUser(username, passwordHash, at) => NewUserKeepsInv(w, username, passwordHash, at);
    case DropUser(session) => if session in w.doomed { DropUserKeepsInv(w, session); }
    case FindVictim(_, _) =>
    case Flag(mailboxId, rowId, mask, value) => FlagsKeepBelow(w.db, mailboxId, rowId, mask, value);
    case ExpungeAll(mailboxId) => ExpungeKeepsBelow(w.db, mailboxId);
    case Lookup(_, userId, mailbox, msg) =>
      var box := MailboxNamed(w.db, userId, mailbox);
      if box.Some? { LookupFits(w, box.value, msg); }
    case Ledger(transactions) =>
  }

  lemma LookupFits(w: World, b: nat, msg: NewMessage)
    requires Core(w) && b in w.db.mailboxes
    ensures PendingFits(w.db.mailboxes, Pending(b, w.db.mailboxes[b].uidnext, msg, false))
  {
    CoreCounts(w, b);
  }

  /** With no user deleted while an append to their mailbox is in flight, the counter is also above every stored UID,
      and a UID falls behind its turn exactly when its append was overtaken. */
  lemma {:induction false} EveryRunKeepsInv(w: World, steps: seq<Step>)
    requires Inv(w) && OrderlyRun(w, steps)
    ensures Inv(After(w, steps))
    decreases |steps|
  {
    hide Next, Inv, Orderly;
    if steps != [] {
      StepKeepsInv(w, steps[0]);
      EveryRunKeepsInv(Next(w, steps[0]), steps[1..]);
    }
  }

  lemma BlankInv()
    ensures Inv(BLANK)
  {
  }

  // ------------------------------------------- when UIDs are never reused

  predicate StrictlyIncreasing(log: seq<Issue>) {
    forall i, j | 0 <= i < j < |log| :: log[i].uid < log[j].uid
  }

  predicate NoneOvertaken(log: seq<Issue>) {
    forall k | 0 <= k < |log| :: !log[k].overtaken
  }

  lemma {:induction false} IncreasingFromOne(log: seq<Issue>, k: nat)
    requires Issues(log) && StrictlyIncreasing(log) && k < |log|
    ensures log[k].uid >= k + 1
  {
    if k > 0 {
      IncreasingFromOne(log, k - 1);
    }
  }

  lemma IncreasingExactly(log: seq<Issue>)
    requires Issues(log)
    ensures StrictlyIncreasing(log) <==> NoneOvertaken(log)
    ensures NoneOvertaken(log) ==> forall k | 0 <= k < |log| :: log[k].uid == k + 1
  {
    if StrictlyIncreasing(log) {
      forall k | 0 <= k < |log| ensures !log[k].overtaken {
        IncreasingFromOne(log, k);
      }
    }
  }

  /** The UIDs a mailbox gives out strictly increase, and so are never reused, even after an expunge, if and only
      if no append to it was overtaken by another between its lookup and its insert. */
  lemma UidsIncreaseExactly(steps: seq<Step>, b: nat)
    requires OrderlyRun(BLANK, steps) && b in After(BLANK, steps).db.mailboxes
    ensures var w := After(BLANK, steps);
            && b in w.issued
            && w.db.mailboxes[b].uidnext == 1 + |w.issued[b]|
            && (StrictlyIncreasing(w.issued[b]) <==> NoneOvertaken(w.issued[b]))
            && (forall i | i in w.db.messages && w.db.messages[i].mailboxId == b ::
                  0 < w.db.messages[i].uid < w.db.mailboxes[b].uidnext)
  {
    BlankInv();
    EveryRunKeepsInv(BLANK, steps);
    IncreasingExactly(After(BLANK, steps).issued[b]);
  }

  /** A mailbox that survives a step keeps its counter or has it raised by one. */
  lemma CounterNeverFalls(w: World, step: Step, b: nat)
    requires Core(w) && b in w.db.mailboxes && b in Next(w, step).db.mailboxes
    ensures w.db.mailboxes[b].uidnext <= Next(w, step).db.mailboxes[b].uidnext <= w.db.mailboxes[b].uidnext + 1
  {
    hide Flagged, Doomed, Sound, UidsBelow, Counted;
    match step
    case Commit(session, now) =>
      if session in w.pending { AppendShape(w.db, w.pending[session], now); }
      hide InsertMessage;
    case NewUser(username, passwordHash, at) =>
      RegisteredShape(w.db, username, passwordHash, at);
      hide CreateUser;
    case DropUser(session) =>
      if session in w.doomed { DroppedShape(w.db, w.doomed[session].userId, w.doomed[session].username); }
      hide DeleteUser;
    case _ =>
  }

  ghost predicate Stays(w: World, steps: seq<Step>, b: nat)
    decreases |steps|
  {
    b in w.db.mailboxes && (steps == [] || Stays(Next(w, steps[0]), steps[1..], b))
  }

  /** Over a whole run the counter of a mailbox that is never deleted never decreases. */
  lemma {:induction false} CounterNeverFallsInRuns(w: World, steps: seq<Step>, b: nat)
    requires Core(w) && Stays(w, steps, b)
    ensures b in After(w, steps).db.mailboxes
    ensures w.db.mailboxes[b].uidnext <= After(w, steps).db.mailboxes[b].uidnext
    decreases |steps|
  {
    hide Core, Next;
    if steps != [] {
      StepKeepsCore(w, steps[0]);
      CounterNeverFallsInRuns(Next(w, steps[0]), steps[1..], b);
      CounterNeverFalls(w, steps[0], b);
    }
  }

  // --------------------------------------------------- what goes wrong otherwise

  lemma FreshCommit(w: World, session: nat, now: int) returns (row: nat)
    requires session in w.pending
    requires w.pending[session].mailboxId in w.db.mailboxes
    requires forall id :: !HoldsMessage(w.db, id, w.pending[session].mailboxId, w.pending[session].msg.messageId)
    ensures var p := w.pending[session];
            && row !in w.db.messages
            && CommitAppend(w, session, now).db
            == w.db.(messages := w.db.messages[row := MessageRowOf(p.mailboxId, p.uid, p.msg, now)],
                     mailboxes := Bumped(w.db.mailboxes, p.mailboxId))
            && CommitAppend(w, session, now).pending.Keys == w.pending.Keys - {session}
            && (forall s | s in w.pending && s != session ::
                  CommitAppend(w, session, now).pending[s] == Overtake(w.pending[s], p.mailboxId))
  {
    var p := w.pending[session];
    row := NextId(w.db.messages.Keys);
  }

  /** Two appends to one mailbox that overlap are given the same UID: both messages are stored under it. */
  lemma OverlapSharesUid(w: World, userId: nat, mailbox: string, s: nat, t: nat, m: NewMessage, n: NewMessage, now: int)
    returns (a: nat, b: nat)
    requires s != t && m.messageId != n.messageId && MailboxNamed(w.db, userId, mailbox).Some?
    requires var box := MailboxNamed(w.db, userId, mailbox).value;
             forall id :: !HoldsMessage(w.db, id, box, m.messageId) && !HoldsMessage(w.db, id, box, n.messageId)
    ensures var v := CommitAppend(CommitAppend(Next(Next(w, Lookup(s, userId, mailbox, m)), Lookup(t, userId, mailbox, n)), s, now), t, now);
            && a != b && a in v.db.messages && b in v.db.messages
            && v.db.messages[a].mailboxId == v.db.messages[b].mailboxId && v.db.messages[a].uid == v.db.messages[b].uid
  {
    hide CommitAppend;
    var box := MailboxNamed(w.db, userId, mailbox).value;
    var w1 := Next(w, Lookup(s, userId, mailbox, m));
    var w2 := Next(w1, Lookup(t, userId, mailbox, n));
    assert w2.pending[s] == Pending(box, w.db.mailboxes[box].uidnext, m, false);
    assert w2.pending[t] == Pending(box, w.db.mailboxes[box].uidnext, n, false);
    a := FreshCommit(w2, s, now);
    var w3 := CommitAppend(w2, s, now);
    assert w3.pending[t] == Pending(box, w.db.mailboxes[box].uidnext, n, true);
    forall id ensures !HoldsMessage(w3.db, id, box, n.messageId) {
      assert !HoldsMessage(w.db, id, box, n.messageId);
    }
    b := FreshCommit(w3, t, now);
  }

  /** A commit keeps every stored UID below the counter exactly when the UID it holds is not above the counter. */
  lemma CommitBoundExactly(w: World, session: nat, now: int)
    requires UidsBelow(w.db.mailboxes, w.db.messages) && session in w.pending && w.pending[session].uid > 0
    requires InsertMessage(w.db, w.pending[session].mailboxId, w.pending[session].uid, w.pending[session].msg, now).Appended?
    ensures var p := w.pending[session];
            var v := CommitAppend(w, session, now);
            UidsBelow(v.db.mailboxes, v.db.messages) <==> p.uid <= w.db.mailboxes[p.mailboxId].uidnext
  {
    var p := w.pending[session];
    AppendShape(w.db, p, now);
    hide InsertMessage;
    var r := InsertMessage(w.db, p.mailboxId, p.uid, p.msg, now);
    var v := CommitAppend(w, session, now);
    assert v.db.messages[r.rowId].uid == p.uid;
  }

  /** A commit in this step would not hold a UID above the mailbox's counter. */
  ghost predicate InBounds(w: World, step: Step) {
    step.Commit? && step.session in w.pending
    && (var p := w.pending[step.session]; InsertMessage(w.db, p.mailboxId, p.uid, p.msg, step.now).Appended?) ==>
      w.pending[step.session].mailboxId in w.db.mailboxes
      && w.pending[step.session].uid <= w.db.mailboxes[w.pending[step.session].mailboxId].uidnext
  }

  lemma StepBelowExactly(w: World, step: Step)
    requires Core(w) && UidsBelow(w.db.mailboxes, w.db.messages)
    ensures var v := Next(w, step); UidsBelow(v.db.mailboxes, v.db.messages) <==> InBounds(w, step)
  {
    hide SetFlags, Expunge, CommitAppend, Sound, UidsBelow, Counted, CreateUser, DeleteUser, InsertMessage;
    match step
    case Commit(session, now) =>
      if session in w.pending {
        var p := w.pending[session];
        AppendShape(w.db, p, now);
        if InsertMessage(w.db, p.mailboxId, p.uid, p.msg, now).Appended? {
          CommitBoundExactly(w, session, now);
        } else {
          NothingCommitted(w, session, now);
        }
      } else {
        NothingCommitted(w, session, now);
      }
    case NewUser(username, passwordHash, at) => NewUserKeepsBelow(w, username, passwordHash, at);
    case DropUser(session) => if session in w.doomed { DropUserKeepsBelow(w, w.doomed[session]); }
    case Flag(mailboxId, rowId, mask, value) => FlagsKeepBelow(w.db, mailboxId, rowId, mask, value);
    case ExpungeAll(mailboxId) => ExpungeKeepsBelow(w.db, mailboxId);
    case _ =>
  }

  lemma NothingCommitted(w: World, session: nat, now: int)
    requires session in w.pending ==> !InsertMessage(w.db, w.pending[session].mailboxId, w.pending[session].uid, w.pending[session].msg, now).Appended?
    ensures CommitAppend(w, session, now).db == w.db
  {
    hide InsertMessage;
  }

  ghost predicate InBoundsRun(w: World, steps: seq<Step>)
    decreases |steps|
  {
    steps == [] || (InBounds(w, steps[0]) && InBoundsRun(Next(w, steps[0]), steps[1..]))
  }

  /** In every state of the run every stored UID is below its mailbox's counter. */
  ghost predicate AlwaysBelow(w: World, steps: seq<Step>)
    decreases |steps|
  {
    UidsBelow(w.db.mailboxes, w.db.messages) && (steps == [] || AlwaysBelow(Next(w, steps[0]), steps[1..]))
  }

  /** In every interleaving: every stored UID stays below its mailbox's counter if and only if no append is committed
      holding a UID above the counter it finds. */
  lemma {:induction false} AlwaysBelowExactly(w: World, steps: seq<Step>)
    requires Core(w) && UidsBelow(w.db.mailboxes, w.db.messages)
    ensures AlwaysBelow(w, steps) <==> InBoundsRun(w, steps)
    decreases |steps|
  {
    hide Next, Core, UidsBelow, InBounds;
    if steps != [] {
      StepKeepsCore(w, steps[0]);
      StepBelowExactly(w, steps[0]);
      var v := Next(w, steps[0]);
      if InBounds(w, steps[0]) {
        AlwaysBelowExactly(v, steps[1..]);
      } else {
        NotNow(v, steps[1..]);
      }
    }
  }

  lemma NotNow(w: World, steps: seq<Step>)
    requires !UidsBelow(w.db.mailboxes, w.db.messages)
    ensures !AlwaysBelow(w, steps)
  {
    hide UidsBelow;
  }

  /** A store with one user and their two empty mailboxes. */
  function OneUser(username: string, at: nat): Db {
    EMPTY.(users := map[1 := UserRow(username, "")],
           mailboxes := map[1 := MailboxRow(1, INBOX, at % U32, 1), 2 := MailboxRow(1, SENT, at % U32, 1)])
  }

  lemma RegisterFirst(w: World, username: string, at: nat)
    requires w.db == EMPTY
    ensures Next(w, NewUser(username, "", at)).db == OneUser(username, at)
    ensures Next(w, NewUser(username, "", at)).pending == w.pending
  {
    assert NextId({}) == 1;
    assert EMPTY.users.Keys == {} && EMPTY.mailboxes.Keys == {};
    assert forall id :: !NamedUser(EMPTY, id, username);
    assert CreateUser(EMPTY, username, "", at) == Registered(OneUser(username, at), 1);
  }

  lemma LookUpInbox(w: World, session: nat, box: MailboxRow, m: NewMessage)
    requires UniqueMailboxes(w.db.mailboxes) && 1 in w.db.mailboxes && w.db.mailboxes[1] == box && box.userId == 1 && box.name == INBOX
    ensures Next(w, Lookup(session, 1, INBOX, m)) == w.(pending := w.pending[session := Pending(1, box.uidnext, m, false)])
  {
    assert NamedMailbox(w.db, 1, 1, INBOX);
    assert MailboxNamed(w.db, 1, INBOX) == Some(1);
  }

  lemma OneUserUnique(username: string, at: nat)
    ensures UniqueMailboxes(OneUser(username, at).mailboxes)
  {
    assert INBOX[0] != SENT[0];
  }

  lemma DropOnly(w: World, session: nat, username: string)
    requires w.db.users == map[1 := UserRow(username, "")] && w.db.keyring == map[] && w.db.shares == map[] && w.db.transactions == map[]
    requires (forall b | b in w.db.mailboxes :: w.db.mailboxes[b].userId == 1) && MessageHomes(w.db.mailboxes.Keys, w.db.messages)
    ensures Next(w, FindVictim(session, username)) == w.(doomed := w.doomed[session := Victim(1, username)])
    ensures var v := Next(Next(w, FindVictim(session, username)), DropUser(session)); v.db == EMPTY && v.pending == w.pending
  {
    assert NamedUser(w.db, 1, username) && GetUser(w.db, username) == Some(1);
    NothingLeft(w.db, username);
    hide DeleteUser;
  }

  /** A user with one message, or none, in the INBOX. */
  function WithMail(db: Db, uid: nat, m: NewMessage, now: int): Db
    requires 1 in db.mailboxes
  {
    db.(messages := map[1 := MessageRowOf(1, uid, m, now)], mailboxes := Bumped(db.mailboxes, 1))
  }

  lemma CommitFirst(w: World, session: nat, uid: nat, m: NewMessage, now: int)
    requires 1 in w.db.mailboxes && w.db.messages == map[] && session in w.pending && w.pending[session] == Pending(1, uid, m, false)
    ensures Next(w, Commit(session, now)).db == WithMail(w.db, uid, m, now)
    ensures Next(w, Commit(session, now)).pending.Keys == w.pending.Keys - {session}
  {
    assert forall id :: !HoldsMessage(w.db, id, 1, m.messageId);
    assert w.db.messages.Keys == {} && NextId({}) == 1;
    assert InsertMessage(w.db, 1, uid, m, now) == Appended(WithMail(w.db, uid, m, now), 1);
  }

  lemma {:induction false} AfterSnoc(w: World, steps: seq<Step>, step: Step)
    ensures After(w, steps + [step]) == Next(After(w, steps), step)
    decreases |steps|
  {
    hide Next;
    if steps == [] {
      assert ([] + [step])[1..] == [];
    } else {
      assert (steps + [step])[1..] == steps[1..] + [step];
      AfterSnoc(Next(w, steps[0]), steps[1..], step);
    }
  }

  /** A user registers in an empty store, and an append looks up the INBOX. */
  lemma RegisterAndLookUp(w: World, username: string, at: nat, session: nat, m: NewMessage)
    requires w.db == EMPTY
    ensures var v := Next(Next(w, NewUser(username, "", at)), Lookup(session, 1, INBOX, m));
            v.db == OneUser(username, at) && v.pending == w.pending[session := Pending(1, 1, m, false)]
  {
    hide CreateUser;
    RegisterFirst(w, username, at);
    OneUserUnique(username, at);
    LookUpInbox(Next(w, NewUser(username, "", at)), session, MailboxRow(1, INBOX, at % U32, 1), m);
  }

  const ALICE: string := "alice"
  const BOB: string := "bob"

  /** Why a deletion must not overlap an append: row ids are issued again. Alice's append looks up her INBOX;
      Alice is deleted; Bob registers and is given the same mailbox ids; the append is committed, and the message
      addressed to Alice is in Bob's INBOX. */
  lemma DeletedUsersMailReachesAnother(m: NewMessage, now: int)
    ensures var steps := [NewUser(ALICE, "", 7), Lookup(0, 1, INBOX, m), FindVictim(1, ALICE), DropUser(1), NewUser(BOB, "", 8),
                          Commit(0, now)];
            var v := After(BLANK, steps);
            && 1 in v.db.messages && v.db.messages[1] == MessageRowOf(1, 1, m, now)
            && NamedMailbox(v.db, 1, 1, INBOX) && NamedUser(v.db, 1, BOB)
  {
    hide Next;
    var steps := [NewUser(ALICE, "", 7), Lookup(0, 1, INBOX, m), FindVictim(1, ALICE), DropUser(1), NewUser(BOB, "", 8),
                          Commit(0, now)];
    RegisterAndLookUp(BLANK, ALICE, 7, 0, m);
    var w2 := Next(Next(BLANK, steps[0]), steps[1]);
    DropOnly(w2, 1, ALICE);
    var w4 := Next(Next(w2, steps[2]), steps[3]);
    RegisterFirst(w4, BOB, 8);
    CommitFirst(Next(w4, steps[4]), 0, 1, m, now);
    SixSteps(BLANK, steps);
  }

  lemma FirstFive(w: World, steps: seq<Step>)
    requires |steps| == 6
    ensures After(w, steps[..5]) == Next(Next(Next(Next(Next(w, steps[0]), steps[1]), steps[2]), steps[3]), steps[4])
  {
    hide Next, After;
    AfterSnoc(w, steps[..4], steps[4]);
    AfterSnoc(w, steps[..3], steps[3]);
    AfterSnoc(w, steps[..2], steps[2]);
    AfterSnoc(w, steps[..1], steps[1]);
    AfterSnoc(w, [], steps[0]);
    assert steps[..5] == steps[..4] + [steps[4]] && steps[..4] == steps[..3] + [steps[3]];
    assert steps[..3] == steps[..2] + [steps[2]] && steps[..2] == steps[..1] + [steps[1]] && steps[..1] == [] + [steps[0]];
    AfterNothing(w);
  }

  lemma SixSteps(w: World, steps: seq<Step>)
    requires |steps| == 6
    ensures After(w, steps) == Next(Next(Next(Next(Next(Next(w, steps[0]), steps[1]), steps[2]), steps[3]), steps[4]), steps[5])
  {
    hide Next, After;
    FirstFive(w, steps);
    AfterSnoc(w, steps[..5], steps[5]);
    assert steps == steps[..5] + [steps[5]];
  }

  lemma AfterNothing(w: World)
    ensures After(w, []) == w
  {
  }

  /** A run that breaks the bound: Alice has a message, and a second append to her holds UID 2 when she is deleted; Bob
      registers, with the same mailbox id and a counter at 1; the append is committed. Bob's INBOX then holds UID 2,
      and the next UID it will give out is 2. */
  lemma LateCommitReachesCounter(m: NewMessage, n: NewMessage, now: int)
    ensures var steps := [NewUser(ALICE, "", 7), Lookup(0, 1, INBOX, m), Commit(0, now), Lookup(1, 1, INBOX, n),
                          FindVictim(2, ALICE), DropUser(2), NewUser(BOB, "", 8), Commit(1, now)];
            var v := After(BLANK, steps);
            && 1 in v.db.messages && v.db.messages[1].mailboxId == 1 && v.db.messages[1].uid == 2
            && 1 in v.db.mailboxes && v.db.mailboxes[1].uidnext == 2
            && !UidsBelow(v.db.mailboxes, v.db.messages)
  {
    hide Next;
    var steps := [NewUser(ALICE, "", 7), Lookup(0, 1, INBOX, m), Commit(0, now), Lookup(1, 1, INBOX, n),
                  FindVictim(2, ALICE), DropUser(2), NewUser(BOB, "", 8), Commit(1, now)];
    RegisterAndLookUp(BLANK, ALICE, 7, 0, m);
    var w2 := Next(Next(BLANK, steps[0]), steps[1]);
    CommitFirst(w2, 0, 1, m, now);
    var w3 := Next(w2, steps[2]);
    OneUserUnique(ALICE, 7);
    BumpUnique(OneUser(ALICE, 7).mailboxes, 1);
    LookUpInbox(w3, 1, MailboxRow(1, INBOX, 7 % U32, 2), n);
    var w4 := Next(w3, steps[3]);
    DropOnly(w4, 2, ALICE);
    var w6 := Next(Next(w4, steps[4]), steps[5]);
    RegisterFirst(w6, BOB, 8);
    CommitFirst(Next(w6, steps[6]), 1, 2, n, now);
    EightSteps(BLANK, steps);
  }

  lemma BumpUnique(t: map<nat, MailboxRow>, b: nat)
    requires UniqueMailboxes(t) && b in t
    ensures UniqueMailboxes(Bumped(t, b))
  {
  }

  lemma EightSteps(w: World, steps: seq<Step>)
    requires |steps| == 8
    ensures After(w, steps)
         == Next(Next(Next(Next(Next(Next(Next(Next(w, steps[0]), steps[1]), steps[2]), steps[3]), steps[4]), steps[5]), steps[6]), steps[7])
  {
    hide Next, After;
    SixSteps(w, steps[..6]);
    AfterSnoc(w, steps[..6], steps[6]);
    AfterSnoc(w, steps[..7], steps[7]);
    assert steps[..7] == steps[..6] + [steps[6]] && steps == steps[..7] + [steps[7]];
  }

  /** Why a deletion must not overlap another: user ids are issued again. Two deletions of Alice look her up; one deletes her;
      Bob registers and is given her id; the other deletes Bob. */
  lemma StaleDeletionReachesAnother()
    ensures var steps := [NewUser(ALICE, "", 7), FindVictim(0, ALICE), FindVictim(1, ALICE), DropUser(0), NewUser(BOB, "", 8), DropUser(1)];
            && NamedUser(After(BLANK, steps[..5]).db, 1, BOB) && After(BLANK, steps).db == EMPTY
  {
    hide Next;
    var steps := [NewUser(ALICE, "", 7), FindVictim(0, ALICE), FindVictim(1, ALICE), DropUser(0), NewUser(BOB, "", 8), DropUser(1)];
    RegisterFirst(BLANK, ALICE, 7);
    var w1 := Next(BLANK, steps[0]);
    DropOnly(w1, 0, ALICE);
    var w2 := Next(w1, steps[1]);
    DropOnly(w2, 1, ALICE);
    var w3 := Next(w2, steps[2]);
    DropHeld(w3, 0);
    var w4 := Next(w3, steps[3]);
    RegisterFirst(w4, BOB, 8);
    DoomedStays(w4, steps[4]);
    var w5 := Next(w4, steps[4]);
    DropHeld(w5, 1);
    FirstFive(BLANK, steps);
    SixSteps(BLANK, steps);
  }

  lemma DropHeld(w: World, session: nat)
    requires session in w.doomed && w.doomed[session].userId == 1
    requires w.db.users.Keys == {1} && w.db.keyring == map[] && w.db.shares == map[] && w.db.transactions == map[]
    requires (forall b | b in w.db.mailboxes :: w.db.mailboxes[b].userId == 1) && MessageHomes(w.db.mailboxes.Keys, w.db.messages)
    ensures var v := Next(w, DropUser(session)); v.db == EMPTY && v.doomed == w.doomed - {session}
  {
    NothingLeft(w.db, w.doomed[session].username);
    hide DeleteUser;
  }

  lemma DoomedStays(w: World, step: Step)
    requires step.NewUser?
    ensures Next(w, step).doomed == w.doomed
  {
    hide CreateUser;
  }

  /** A deletion removes a user other than the one it names if and only if the id it holds is by then that user's; and it
      removes at most the user of that id. */
  lemma VictimExactly(w: World, session: nat)
    requires Core(w) && session in w.doomed
    ensures var v, after := w.doomed[session], Next(w, DropUser(session)).db.users;
            && (forall u | u in w.db.users && u != v.userId :: u in after && after[u] == w.db.users[u])
            && ((exists u :: u in w.db.users && u !in after && w.db.users[u].username != v.username)
                <==> v.userId in w.db.users && w.db.users[v.userId].username != v.username)
  {
    hide DeleteUser, Sound;
    var v := w.doomed[session];
    CoreSound(w);
    DeletionIsContained(w.db, v.userId, v.username);
  }

  lemma NothingLeft(a: Db, username: string)
    requires a.users.Keys == {1} && a.keyring == map[] && a.shares == map[] && a.transactions == map[]
    requires (forall b | b in a.mailboxes :: a.mailboxes[b].userId == 1) && MessageHomes(a.mailboxes.Keys, a.messages)
    ensures DeleteUser(a, 1, username) == EMPTY
  {
    AfterStatementsAre(a, 1, username, 6);
    assert (a.users - {1}).Keys == {};
    assert a.users - {1} == map[];
    assert OthersKeyring(a.keyring, 1) == map[] && OthersShares(a.shares, 1) == map[];
    assert OthersMailboxes(a.mailboxes, 1) == map[] && OthersMessages(a.mailboxes, a.messages, 1) == map[];
    assert OthersLedger(a.mailboxes, a.messages, a.transactions, 1, username) == map[];
  }
}
