/** Delivery into mailboxes and the transaction ledger kept beside it. */
module Ledger {
  import opened Utf8
  import opened Text
  import opened Codec
  import opened MailStore
  import Listing
  import UserDeletion
  import S = ZsmtpServer
  import L = ZsmtpLink

  /** What rendering and the sender keyring contribute to a stored message. */
  datatype Rendering = Rendering(subject: string, body: Bytes, trustState: string)

  /** The user half of a mailbox: what stands before the first `@`. */
  function UserHalf(mailbox: string): string {
    mailbox[..Find(mailbox, '@')]
  }

  // ------------------------------------------------------------------ inbound

  ghost function RecordInbound(db: Db, sender: string, recipient: string, amount: string, messageId: string, rowId: nat): Db {
    match TxCreate(db, TxRow(In, Opaque, sender, recipient, amount, None, messageId, None, None, "sealed"))
    case Created(db', id) => TxLink(db', id, rowId)
    case Refused => db
  }

  datatype Delivered = Delivered(db: Db, outcome: S.DeliveryOutcome)

  /** `deliver`, and `deliver_emulated` with its amount: into the INBOX first, then the ledger. */
  ghost function Deliver(db: Db, sender: string, messageId: string, recipient: string, amount: string, r: Rendering, now: int): Delivered {
    var user := UserHalf(recipient);
    if user == "" then Delivered(db, S.Rejected("malformed recipient mailbox"))
    else
      match GetUser(db, user)
      case None => Delivered(db, S.Rejected("no such recipient: " + user))
      case Some(id) =>
        match AppendMessage(db, id, INBOX, NewMessage(messageId, r.subject, r.body, 0, sender, r.trustState), now)
        case Duplicate => Delivered(db, S.Rejected("duplicate message id: " + messageId))
        case StorageError => Delivered(db, S.RetryLater("storage error"))
        case Appended(db', rowId) =>
          Delivered(RecordInbound(db', sender, recipient, amount, messageId, rowId), S.Accepted(messageId))
  }

  // ----------------------------------------------------------------- outbound

  /** A recipient without a domain is refused before anything is recorded. */
  predicate HasDomain(mailbox: string) {
    '@' in mailbox
  }

  datatype Outgoing = Outgoing(senderUser: string, domain: string, recipient: string, messageId: string, payload: Payload, body: Bytes)

  /** How a sending attempt ended. */
  datatype Ending = KeyUnresolved | EndpointUnresolved | ConnectFailed | Exchanged(outcome: L.Outcome)

  /** The daemon's classification: every ending is recorded. */
  function Classify(e: Ending): TxState {
    match e
    case KeyUnresolved => Failed
    case EndpointUnresolved => Failed
    case ConnectFailed => Retrying
    case Exchanged(o) => if o.Done? then Sent else if o.error.RetryLaterBy? then Retrying else Failed
  }

  /** The command-line tool's: a failed lookup is not recorded, and a failed connection is a failure. */
  function ClassifyDirect(e: Ending): Option<TxState> {
    match e
    case KeyUnresolved => None
    case EndpointUnresolved => None
    case ConnectFailed => Some(Failed)
    case Exchanged(_) => Some(Classify(e))
  }

  function OutboundRow(o: Outgoing, state: TxState): TxRow {
    TxRow(Out, state, o.senderUser + "@" + o.domain, o.recipient, "", None, o.messageId, None, Some(o.body), PayloadWord(o.payload))
  }

  /** The outbound row: the existing one moves to the new state, or a new one is made. */
  ghost function RecordState(db: Db, o: Outgoing, state: TxState): (r: TxResult)
    ensures r.Created?
  {
    match TxByMessageId(db, Out, o.messageId)
    case Some(id) => Created(TxTransition(db, id, state), id)
    case None =>
      assert forall id :: !HoldsTx(db, id, Out, o.messageId);
      TxCreate(db, OutboundRow(o, state))
  }

  /** `record_outbound_tx` and its copy in the command-line tool: the ledger row, then a copy in Sent, linked. */
  ghost function RecordOutbound(db: Db, o: Outgoing, state: TxState, r: Rendering, now: int): Db {
    var recorded := RecordState(db, o, state);
    match GetUser(recorded.db, o.senderUser)
    case None => recorded.db
    case Some(user) =>
      match AppendMessage(recorded.db, user, SENT, NewMessage(o.messageId, r.subject, r.body, 0, o.recipient, "unverified"), now)
      case Appended(db', rowId) => TxLink(db', recorded.id, rowId)
      case _ => recorded.db
  }

  function PayloadOf(word: string): Payload {
    if word == "plaintext" then Plaintext else Sealed
  }

  /** What a retry sends again: the row's own parties and its stored body. */
  function Resent(t: TxRow, domain: string): Outgoing
    requires t.outboundBody.Some?
  {
    Outgoing(UserHalf(t.senderMailbox), domain, t.recipientMailbox, t.messageId, PayloadOf(t.payload), t.outboundBody.value)
  }

  // --------------------------------------------------------------------- runs

  datatype Step =
    | Receive(sender: string, messageId: string, recipient: string, amount: string, r: Rendering, now: int)
    | Send(o: Outgoing, end: Ending, r: Rendering, now: int)
    | Retry(id: nat, domain: string, end: Ending, r: Rendering, now: int)
    | Resolve(id: nat, binding: Option<string>)
    | MarkSpent(id: nat)
    | Fail(id: nat)
    | SetFlag(mailboxId: nat, rowId: nat, mask: bv32, value: bool)
    | Clear(mailboxId: nat)

  ghost function Next(db: Db, step: Step): Db {
    match step
    case Receive(sender, messageId, recipient, amount, r, now) => Deliver(db, sender, messageId, recipient, amount, r, now).db
    case Send(o, end, r, now) =>
      if o.senderUser != "" && HasDomain(o.recipient) then RecordOutbound(db, o, Classify(end), r, now) else db
    case Retry(id, domain, end, r, now) =>
      if id in db.transactions && db.transactions[id].direction == Out && db.transactions[id].outboundBody.Some?
         && HasDomain(db.transactions[id].recipientMailbox) && ClassifyDirect(end).Some?
      then RecordOutbound(db, Resent(db.transactions[id], domain), ClassifyDirect(end).value, r, now)
      else db
    case Resolve(id, binding) =>
      if id in db.transactions && db.transactions[id].direction == In
      then TxTransition(if binding.Some? then TxSetBinding(db, id, binding) else db, id, Resolved)
      else db
    case MarkSpent(id) =>
      if id in db.transactions && db.transactions[id].direction == In then TxTransition(db, id, Spent) else db
    case Fail(id) => TxTransition(db, id, Failed)
    case SetFlag(mailboxId, rowId, mask, value) => SetFlags(db, mailboxId, rowId, mask, value)
    case Clear(mailboxId) => Expunge(db, mailboxId)
  }

  /** The life of a row: inbound rows are opaque, resolved or spent; outbound rows are sent, failed or being
      retried, and hold the body to send again. */
  predicate RowInOrder(t: TxRow) {
    if t.direction == In then t.state == Opaque || t.state == Resolved || t.state == Spent
    else (t.state == Sent || t.state == Failed || t.state == Retrying) && t.outboundBody.Some?
  }

  ghost predicate Disciplined(db: Db) {
    Sound(db) && forall t | t in db.transactions :: RowInOrder(db.transactions[t])
  }

  /** What a row was recorded with and never loses. */
  predicate SameParties(s: TxRow, t: TxRow) {
    && s.direction == t.direction && s.senderMailbox == t.senderMailbox && s.recipientMailbox == t.recipientMailbox
    && s.messageId == t.messageId && s.outboundBody == t.outboundBody && s.payload == t.payload && s.amount == t.amount
  }

  ghost predicate KeepsRows(db: Db, later: Db) {
    forall t | t in db.transactions :: t in later.transactions && SameParties(db.transactions[t], later.transactions[t])
  }

  /** `tx fail` is the one action that does not check the direction of its row. */
  predicate FailsOutboundOnly(db: Db, step: Step) {
    step.Fail? && step.id in db.transactions ==> db.transactions[step.id].direction == Out
  }

  lemma RowChange(db: Db, id: nat, t: TxRow)
    requires Disciplined(db) && id in db.transactions && SameParties(db.transactions[id], t) && RowInOrder(t)
    ensures var d := db.(transactions := db.transactions[id := t]);
            Disciplined(d) && KeepsRows(db, d)
  {
  }

  lemma NewRow(db: Db, t: TxRow)
    requires Disciplined(db) && RowInOrder(t.(messageRowId := None))
    ensures TxCreate(db, t).Created? ==> Disciplined(TxCreate(db, t).db) && KeepsRows(db, TxCreate(db, t).db)
    ensures TxCreate(db, t).Created? ==> TxCreate(db, t).id in TxCreate(db, t).db.transactions
  {
    hide Sound, NextId, RowInOrder;
    TxCreateSound(db, t);
  }

  lemma NewMessageRow(db: Db, userId: nat, mailbox: string, m: NewMessage, now: int)
    requires Disciplined(db)
    ensures var r := AppendMessage(db, userId, mailbox, m, now);
            r.Appended? ==> Disciplined(r.db) && r.db.transactions == db.transactions
  {
    var box := MailboxNamed(db, userId, mailbox);
    if box.Some? {
      InsertMessageSound(db, box.value, db.mailboxes[box.value].uidnext, m, now);
      hide Sound;
    }
  }

  lemma ReceiveInOrder(db: Db, sender: string, messageId: string, recipient: string, amount: string, r: Rendering, now: int)
    requires Disciplined(db)
    ensures var d := Deliver(db, sender, messageId, recipient, amount, r, now).db;
            Disciplined(d) && KeepsRows(db, d)
  {
    hide AppendMessage, TxCreate, Sound;
    var user := GetUser(db, UserHalf(recipient));
    if user.Some? {
      var m := NewMessage(messageId, r.subject, r.body, 0, sender, r.trustState);
      NewMessageRow(db, user.value, INBOX, m, now);
      var a := AppendMessage(db, user.value, INBOX, m, now);
      if a.Appended? {
        var row := TxRow(In, Opaque, sender, recipient, amount, None, messageId, None, None, "sealed");
        NewRow(a.db, row);
        var c := TxCreate(a.db, row);
        if c.Created? {
          LinkInOrder(c.db, c.id, a.rowId);
        }
      }
    }
  }

  lemma LinkInOrder(db: Db, id: nat, rowId: nat)
    requires Disciplined(db)
    ensures Disciplined(TxLink(db, id, rowId)) && KeepsRows(db, TxLink(db, id, rowId))
  {
    hide Sound;
    if id in db.transactions {
      assert RowInOrder(db.transactions[id]);
      RowChange(db, id, db.transactions[id].(messageRowId := Some(rowId)));
    }
  }

  predicate SendState(s: TxState) {
    s == Sent || s == Failed || s == Retrying
  }

  lemma RecordStateInOrder(db: Db, o: Outgoing, state: TxState)
    requires Disciplined(db) && SendState(state)
    ensures var r := RecordState(db, o, state);
            && Disciplined(r.db) && KeepsRows(db, r.db) && r.id in r.db.transactions
            && r.db.transactions[r.id].state == state && HoldsTx(r.db, r.id, Out, o.messageId)
            && r.db.users == db.users && r.db.mailboxes == db.mailboxes && r.db.messages == db.messages
  {
    hide Sound;
    var found := TxByMessageId(db, Out, o.messageId);
    if found.Some? {
      assert RowInOrder(db.transactions[found.value]);
      RowChange(db, found.value, db.transactions[found.value].(state := state));
    } else {
      NewRow(db, OutboundRow(o, state));
    }
  }

  lemma SendInOrder(db: Db, o: Outgoing, state: TxState, r: Rendering, now: int)
    requires Disciplined(db) && SendState(state)
    ensures var d := RecordOutbound(db, o, state, r, now);
            Disciplined(d) && KeepsRows(db, d)
  {
    hide AppendMessage, RecordState, Sound;
    RecordStateInOrder(db, o, state);
    var c := RecordState(db, o, state);
    var user := GetUser(c.db, o.senderUser);
    if user.Some? {
      var m := NewMessage(o.messageId, r.subject, r.body, 0, o.recipient, "unverified");
      NewMessageRow(c.db, user.value, SENT, m, now);
      var a := AppendMessage(c.db, user.value, SENT, m, now);
      if a.Appended? {
        LinkInOrder(a.db, c.id, a.rowId);
      }
    }
  }

  lemma StepInOrder(db: Db, step: Step)
    requires Disciplined(db) && FailsOutboundOnly(db, step)
    ensures Disciplined(Next(db, step)) && KeepsRows(db, Next(db, step))
  {
    hide Deliver, RecordOutbound, Sound, SetFlags, Expunge;
    match step
    case Receive(sender, messageId, recipient, amount, r, now) =>
      ReceiveInOrder(db, sender, messageId, recipient, amount, r, now);
    case Send(o, end, r, now) => SendInOrder(db, o, Classify(end), r, now);
    case Retry(id, domain, end, r, now) =>
      if Next(db, step) != db {
        SendInOrder(db, Resent(db.transactions[id], domain), ClassifyDirect(end).value, r, now);
      }
    case Resolve(id, binding) =>
      if id in db.transactions && db.transactions[id].direction == In {
        var t := db.transactions[id];
        assert RowInOrder(t);
        RowChange(db, id, ResolvedRow(t, binding));
        ResolveIs(db, id, binding);
      }
    case MarkSpent(id) =>
      if id in db.transactions && db.transactions[id].direction == In {
        RowChange(db, id, db.transactions[id].(state := Spent));
      }
    case Fail(id) =>
      if id in db.transactions {
        assert RowInOrder(db.transactions[id]);
        RowChange(db, id, db.transactions[id].(state := Failed));
      }
    case SetFlag(mailboxId, rowId, mask, value) => FlagsKeepLedger(db, mailboxId, rowId, mask, value);
    case Clear(mailboxId) => ExpungeKeepsLedger(db, mailboxId);
  }

  function ResolvedRow(t: TxRow, binding: Option<string>): TxRow {
    (if binding.Some? then t.(binding := binding) else t).(state := Resolved)
  }

  lemma ResolveIs(db: Db, id: nat, binding: Option<string>)
    requires id in db.transactions
    ensures TxTransition(if binding.Some? then TxSetBinding(db, id, binding) else db, id, Resolved)
         == db.(transactions := db.transactions[id := ResolvedRow(db.transactions[id], binding)])
  {
    var u := db.transactions[id].(binding := binding);
    assert db.transactions[id := u][id := u.(state := Resolved)] == db.transactions[id := u.(state := Resolved)];
  }

  lemma FlagsKeepLedger(db: Db, mailboxId: nat, rowId: nat, mask: bv32, value: bool)
    requires Sound(db)
    ensures Sound(SetFlags(db, mailboxId, rowId, mask, value))
    ensures SetFlags(db, mailboxId, rowId, mask, value).transactions == db.transactions
  {
    SetFlagsSound(db, mailboxId, rowId, mask, value);
  }

  lemma ExpungeKeepsLedger(db: Db, mailboxId: nat)
    requires Sound(db)
    ensures Sound(Expunge(db, mailboxId)) && Expunge(db, mailboxId).transactions == db.transactions
  {
    ExpungeSound(db, mailboxId);
  }

  // ------------------------------------------- every step keeps the constraints

  lemma AppendSound(db: Db, userId: nat, mailbox: string, m: NewMessage, now: int)
    requires Sound(db)
    ensures var a := AppendMessage(db, userId, mailbox, m, now);
            a.Appended? ==> Sound(a.db) && a.db.transactions == db.transactions && a.db.users == db.users
  {
    var box := MailboxNamed(db, userId, mailbox);
    if box.Some? {
      InsertMessageSound(db, box.value, db.mailboxes[box.value].uidnext, m, now);
    }
    hide Sound;
  }

  lemma ReceiveSound(db: Db, sender: string, messageId: string, recipient: string, amount: string, r: Rendering, now: int)
    requires Sound(db)
    ensures Sound(Deliver(db, sender, messageId, recipient, amount, r, now).db)
  {
    hide AppendMessage, TxCreate, Sound, TxLink;
    var user := GetUser(db, UserHalf(recipient));
    if user.Some? {
      var m := NewMessage(messageId, r.subject, r.body, 0, sender, r.trustState);
      AppendSound(db, user.value, INBOX, m, now);
      var a := AppendMessage(db, user.value, INBOX, m, now);
      if a.Appended? {
        var row := TxRow(In, Opaque, sender, recipient, amount, None, messageId, None, None, "sealed");
        TxCreateSound(a.db, row);
        var c := TxCreate(a.db, row);
        if c.Created? { LedgerUpdatesSound(c.db, a.rowId, c.id, Opaque, None); }
      }
    }
  }

  /** The recorded row is the one of that message id, in that state; only the ledger changed. */
  lemma RecordStateSound(db: Db, o: Outgoing, state: TxState)
    requires Sound(db)
    ensures var c := RecordState(db, o, state);
            && Sound(c.db) && c.db == db.(transactions := c.db.transactions) && HoldsTx(c.db, c.id, Out, o.messageId)
            && c.db.transactions[c.id].state == state
  {
    var found := TxByMessageId(db, Out, o.messageId);
    if found.Some? {
      LedgerUpdatesSound(db, 0, found.value, state, None);
    } else {
      TxCreateSound(db, OutboundRow(o, state));
    }
    hide Sound;
  }

  lemma SendSound(db: Db, o: Outgoing, state: TxState, r: Rendering, now: int)
    requires Sound(db)
    ensures Sound(RecordOutbound(db, o, state, r, now))
  {
    hide AppendMessage, RecordState, Sound, TxLink;
    RecordStateSound(db, o, state);
    var c := RecordState(db, o, state);
    var user := GetUser(c.db, o.senderUser);
    if user.Some? {
      var m := NewMessage(o.messageId, r.subject, r.body, 0, o.recipient, "unverified");
      AppendSound(c.db, user.value, SENT, m, now);
      var a := AppendMessage(c.db, user.value, SENT, m, now);
      if a.Appended? { LedgerUpdatesSound(a.db, a.rowId, c.id, Opaque, None); }
    }
  }

  lemma StepSound(db: Db, step: Step)
    requires Sound(db)
    ensures Sound(Next(db, step))
  {
    hide Deliver, RecordOutbound, Sound, SetFlags, Expunge, TxTransition, TxSetBinding;
    match step
    case Receive(sender, messageId, recipient, amount, r, now) => ReceiveSound(db, sender, messageId, recipient, amount, r, now);
    case Send(o, end, r, now) => SendSound(db, o, Classify(end), r, now);
    case Retry(id, domain, end, r, now) =>
      if Next(db, step) != db { SendSound(db, Resent(db.transactions[id], domain), ClassifyDirect(end).value, r, now); }
    case Resolve(id, binding) =>
      LedgerUpdatesSound(db, 0, id, Resolved, binding);
      LedgerUpdatesSound(TxSetBinding(db, id, binding), 0, id, Resolved, binding);
    case MarkSpent(id) => LedgerUpdatesSound(db, 0, id, Spent, None);
    case Fail(id) => LedgerUpdatesSound(db, 0, id, Failed, None);
    case SetFlag(mailboxId, rowId, mask, value) => SetFlagsSound(db, mailboxId, rowId, mask, value);
    case Clear(mailboxId) => ExpungeSound(db, mailboxId);
  }

  ghost function After(db: Db, steps: seq<Step>): Db
    decreases |steps|
  {
    if steps == [] then db else After(Next(db, steps[0]), steps[1..])
  }

  ghost predicate FailsOutboundOnlyInRun(db: Db, steps: seq<Step>)
    decreases |steps|
  {
    steps == [] || (FailsOutboundOnly(db, steps[0]) && FailsOutboundOnlyInRun(Next(db, steps[0]), steps[1..]))
  }

  /** Ledger discipline over every run of deliveries, emulations, sends, retries, resolutions, spends and failures
      of outbound rows: one row per direction and message id, rows stay in the states of their direction, and what
      a row was first recorded with it keeps. A mailbox never holds two copies of a message id, so any number of
      retries leaves one copy in Sent. */
  lemma {:induction false} RunsAreDisciplined(db: Db, steps: seq<Step>)
    requires Disciplined(db) && FailsOutboundOnlyInRun(db, steps)
    ensures Disciplined(After(db, steps)) && KeepsRows(db, After(db, steps))
    decreases |steps|
  {
    hide Next;
    if steps != [] {
      StepInOrder(db, steps[0]);
      RunsAreDisciplined(Next(db, steps[0]), steps[1..]);
    }
  }

  /** Failing a row keeps the ledger in order exactly when the row is not an inbound one. */
  lemma FailExactly(db: Db, id: nat)
    requires Disciplined(db)
    ensures Disciplined(Next(db, Fail(id))) <==> FailsOutboundOnly(db, Fail(id))
  {
    if FailsOutboundOnly(db, Fail(id)) {
      StepInOrder(db, Fail(id));
    } else {
      var d := Next(db, Fail(id));
      assert !RowInOrder(d.transactions[id]);
    }
  }

  // -------------------------------------------------------- links to messages

  /** No two ledger rows point at the same message row. */
  ghost predicate LinksDistinct(t: map<nat, TxRow>) {
    forall i, j | i in t && j in t && t[i].messageRowId.Some? && t[i].messageRowId == t[j].messageRowId :: i == j
  }

  /** A step of the ledger, or the deletion of a user, which frees row ids as an expunge does. */
  datatype Deed = Do(step: Step) | Delete(username: string)

  ghost function NextDeed(db: Db, deed: Deed): Db {
    match deed
    case Do(step) => Next(db, step)
    case Delete(username) =>
      match GetUser(db, username)
      case None => db
      case Some(id) => UserDeletion.DeleteUser(db, id, username)
  }

  /** A ledger row given a link: the row, and the message row it is linked to. */
  datatype Link = Link(tx: nat, row: nat)

  ghost function ReceiveLink(db: Db, sender: string, messageId: string, recipient: string, amount: string, r: Rendering, now: int): Option<Link> {
    var user := GetUser(db, UserHalf(recipient));
    if UserHalf(recipient) == "" || user.None? then None
    else
      match AppendMessage(db, user.value, INBOX, NewMessage(messageId, r.subject, r.body, 0, sender, r.trustState), now)
      case Appended(db', row) => (
        match TxCreate(db', TxRow(In, Opaque, sender, recipient, amount, None, messageId, None, None, "sealed"))
        case Created(_, id) => Some(Link(id, row))
        case Refused => None)
      case _ => None
  }

  ghost function SendLink(db: Db, o: Outgoing, state: TxState, r: Rendering, now: int): Option<Link> {
    var recorded := RecordState(db, o, state);
    var user := GetUser(recorded.db, o.senderUser);
    if user.None? then None
    else
      match AppendMessage(recorded.db, user.value, SENT, NewMessage(o.messageId, r.subject, r.body, 0, o.recipient, "unverified"), now)
      case Appended(_, row) => Some(Link(recorded.id, row))
      case _ => None
  }

  /** The link a step makes, if it makes one. */
  ghost function LinkMade(db: Db, step: Step): Option<Link> {
    match step
    case Receive(sender, messageId, recipient, amount, r, now) => ReceiveLink(db, sender, messageId, recipient, amount, r, now)
    case Send(o, end, r, now) =>
      if o.senderUser != "" && HasDomain(o.recipient) then SendLink(db, o, Classify(end), r, now) else None
    case Retry(id, domain, end, r, now) =>
      if id in db.transactions && db.transactions[id].direction == Out && db.transactions[id].outboundBody.Some?
         && HasDomain(db.transactions[id].recipientMailbox) && ClassifyDirect(end).Some?
      then SendLink(db, Resent(db.transactions[id], domain), ClassifyDirect(end).value, r, now)
      else None
    case _ => None
  }

  /** No other ledger row points at the message row. */
  ghost predicate Unclaimed(t: map<nat, TxRow>, link: Link) {
    forall i | i in t && i != link.tx :: t[i].messageRowId != Some(link.row)
  }

  /** The step links to a message row that no other ledger row still points at. Expunging the newest message breaks it:
      the link stays behind and the row id is issued again. */
  ghost predicate Fresh(db: Db, deed: Deed) {
    deed.Do? && LinkMade(db, deed.step).Some? ==> Unclaimed(db.transactions, LinkMade(db, deed.step).value)
  }

  lemma LinkExactly(t: map<nat, TxRow>, id: nat, row: nat)
    requires LinksDistinct(t) && id in t
    ensures LinksDistinct(t[id := t[id].(messageRowId := Some(row))]) <==> Unclaimed(t, Link(id, row))
  {
    var u := t[id := t[id].(messageRowId := Some(row))];
    if LinksDistinct(u) {
      forall i | i in t && i != id ensures t[i].messageRowId != Some(row) {
        assert u[i] == t[i] && u[id].messageRowId == Some(row);
      }
    }
  }

  lemma RowLinks(t: map<nat, TxRow>, id: nat, row: TxRow)
    requires LinksDistinct(t) && (row.messageRowId.None? || (id in t && row.messageRowId == t[id].messageRowId))
    ensures LinksDistinct(t[id := row])
  {
  }

  lemma UnclaimedAside(t: map<nat, TxRow>, id: nat, row: TxRow, n: nat)
    ensures Unclaimed(t[id := row], Link(id, n)) <==> Unclaimed(t, Link(id, n))
  {
    var u := t[id := row];
    assert forall i | i != id :: (i in u <==> i in t) && (i in t ==> u[i] == t[i]);
  }

  lemma AppendTakesNext(db: Db, userId: nat, mailbox: string, m: NewMessage, now: int)
    ensures var a := AppendMessage(db, userId, mailbox, m, now);
            a.Appended? ==> a.rowId == NextId(db.messages.Keys) && a.db.transactions == db.transactions
  {
  }

  lemma ReceiveLinksExactly(db: Db, sender: string, messageId: string, recipient: string, amount: string, r: Rendering, now: int)
    requires LinksDistinct(db.transactions)
    ensures var link := ReceiveLink(db, sender, messageId, recipient, amount, r, now);
            LinksDistinct(Deliver(db, sender, messageId, recipient, amount, r, now).db.transactions)
            <==> (link.Some? ==> Unclaimed(db.transactions, link.value))
  {
    hide AppendMessage, LinksDistinct, NextId, UserHalf;
    var user := GetUser(db, UserHalf(recipient));
    if user.Some? {
      var m := NewMessage(messageId, r.subject, r.body, 0, sender, r.trustState);
      AppendTakesNext(db, user.value, INBOX, m, now);
      var a := AppendMessage(db, user.value, INBOX, m, now);
      if a.Appended? {
        var row := TxRow(In, Opaque, sender, recipient, amount, None, messageId, None, None, "sealed");
        var c := TxCreate(a.db, row);
        if c.Created? {
          RowLinks(db.transactions, c.id, row);
          UnclaimedAside(db.transactions, c.id, row, a.rowId);
          LinkExactly(c.db.transactions, c.id, a.rowId);
        }
      }
    }
  }

  lemma RecordStateLinks(db: Db, o: Outgoing, state: TxState, row: nat)
    requires LinksDistinct(db.transactions)
    ensures var c := RecordState(db, o, state);
            && LinksDistinct(c.db.transactions) && c.id in c.db.transactions && c.db.messages == db.messages
            && (Unclaimed(c.db.transactions, Link(c.id, row)) <==> Unclaimed(db.transactions, Link(c.id, row)))
  {
    hide LinksDistinct, NextId;
    var found := TxByMessageId(db, Out, o.messageId);
    if found.Some? {
      RowLinks(db.transactions, found.value, db.transactions[found.value].(state := state));
      UnclaimedAside(db.transactions, found.value, db.transactions[found.value].(state := state), row);
    } else {
      var id := TxCreate(db, OutboundRow(o, state)).id;
      RowLinks(db.transactions, id, OutboundRow(o, state));
      UnclaimedAside(db.transactions, id, OutboundRow(o, state), row);
    }
  }

  lemma SendLinksExactly(db: Db, o: Outgoing, state: TxState, r: Rendering, now: int)
    requires LinksDistinct(db.transactions)
    ensures var link := SendLink(db, o, state, r, now);
            LinksDistinct(RecordOutbound(db, o, state, r, now).transactions)
            <==> (link.Some? ==> Unclaimed(db.transactions, link.value))
  {
    hide RecordState, AppendMessage, LinksDistinct, Unclaimed;
    var c := RecordState(db, o, state);
    RecordStateLinks(db, o, state, 0);
    var user := GetUser(c.db, o.senderUser);
    if user.Some? {
      var m := NewMessage(o.messageId, r.subject, r.body, 0, o.recipient, "unverified");
      AppendTakesNext(c.db, user.value, SENT, m, now);
      var a := AppendMessage(c.db, user.value, SENT, m, now);
      if a.Appended? {
        RecordStateLinks(db, o, state, a.rowId);
        LinkExactly(a.db.transactions, c.id, a.rowId);
      }
    }
  }

  lemma SettleLinks(db: Db, id: nat, state: TxState, binding: Option<string>)
    requires LinksDistinct(db.transactions)
    ensures LinksDistinct(TxTransition(db, id, state).transactions)
    ensures LinksDistinct(TxTransition(TxSetBinding(db, id, binding), id, state).transactions)
  {
    hide LinksDistinct;
    if id in db.transactions {
      RowLinks(db.transactions, id, db.transactions[id].(state := state));
      var bound := db.transactions[id].(binding := binding);
      RowLinks(db.transactions, id, bound);
      RowLinks(db.transactions[id := bound], id, bound.(state := state));
    }
  }

  lemma FewerLinks(t: map<nat, TxRow>, u: map<nat, TxRow>)
    requires LinksDistinct(t) && forall i | i in u :: i in t && u[i] == t[i]
    ensures LinksDistinct(u)
  {
  }

  lemma DeleteLinks(db: Db, id: nat, username: string)
    requires LinksDistinct(db.transactions)
    ensures LinksDistinct(UserDeletion.DeleteUser(db, id, username).transactions)
  {
    UserDeletion.AfterStatementsAre(db, id, username, 6);
    hide LinksDistinct, UserDeletion.OthersKeyring, UserDeletion.OthersShares, UserDeletion.OthersMessages, UserDeletion.OthersMailboxes,
         UserDeletion.LedgerRowGoes, UserDeletion.AfterStatements;
    FewerLinks(db.transactions, UserDeletion.OthersLedger(db.mailboxes, db.messages, db.transactions, id, username));
  }

  /** Links stay distinct over a step if and only if the step links to a message row nobody else points at. */
  lemma DeedLinksExactly(db: Db, deed: Deed)
    requires LinksDistinct(db.transactions)
    ensures LinksDistinct(NextDeed(db, deed).transactions) <==> Fresh(db, deed)
  {
    hide Deliver, RecordOutbound, SetFlags, Expunge, LinksDistinct, ReceiveLink, SendLink, Unclaimed, TxTransition, TxSetBinding, UserDeletion.DeleteUser;
    match deed
    case Delete(username) =>
      var user := GetUser(db, username);
      if user.Some? { DeleteLinks(db, user.value, username); }
    case Do(step) =>
      match step
      case Receive(sender, messageId, recipient, amount, r, now) =>
        ReceiveLinksExactly(db, sender, messageId, recipient, amount, r, now);
      case Send(o, end, r, now) => SendLinksExactly(db, o, Classify(end), r, now);
      case Retry(id, domain, end, r, now) =>
        if id in db.transactions && db.transactions[id].outboundBody.Some? && ClassifyDirect(end).Some? {
          SendLinksExactly(db, Resent(db.transactions[id], domain), ClassifyDirect(end).value, r, now);
        }
      case Resolve(id, binding) => SettleLinks(db, id, Resolved, binding);
      case MarkSpent(id) => SettleLinks(db, id, Spent, None);
      case Fail(id) => SettleLinks(db, id, Failed, None);
      case SetFlag(mailboxId, rowId, mask, value) => SameLedger(db, mailboxId, rowId, mask, value);
      case Clear(mailboxId) => SameLedger(db, mailboxId, 0, 0, false);
  }

  lemma SameLedger(db: Db, mailboxId: nat, rowId: nat, mask: bv32, value: bool)
    ensures SetFlags(db, mailboxId, rowId, mask, value).transactions == db.transactions && Expunge(db, mailboxId).transactions == db.transactions
  {
  }

  ghost function AfterDeeds(db: Db, deeds: seq<Deed>): Db
    decreases |deeds|
  {
    if deeds == [] then db else AfterDeeds(NextDeed(db, deeds[0]), deeds[1..])
  }

  ghost predicate FreshRun(db: Db, deeds: seq<Deed>)
    decreases |deeds|
  {
    deeds == [] || (Fresh(db, deeds[0]) && FreshRun(NextDeed(db, deeds[0]), deeds[1..]))
  }

  /** In every state of the run no two ledger rows point at the same message row. */
  ghost predicate AlwaysDistinct(db: Db, deeds: seq<Deed>)
    decreases |deeds|
  {
    LinksDistinct(db.transactions) && (deeds == [] || AlwaysDistinct(NextDeed(db, deeds[0]), deeds[1..]))
  }

  /** Over every run of deliveries, sends, retries, settlements, flag changes, expunges and user deletions: each message
      row has at most one ledger row at every moment, if and only if no step links to a message row id that was issued
      again while another ledger row still pointed at it. */
  lemma {:induction false} RunsLinkExactly(db: Db, deeds: seq<Deed>)
    requires LinksDistinct(db.transactions)
    ensures AlwaysDistinct(db, deeds) <==> FreshRun(db, deeds)
    decreases |deeds|
  {
    hide NextDeed, Fresh, LinksDistinct;
    if deeds != [] {
      DeedLinksExactly(db, deeds[0]);
      var next := NextDeed(db, deeds[0]);
      if Fresh(db, deeds[0]) {
        RunsLinkExactly(next, deeds[1..]);
      } else {
        NotDistinct(next, deeds[1..]);
      }
    }
  }

  lemma NotDistinct(db: Db, deeds: seq<Deed>)
    requires !LinksDistinct(db.transactions)
    ensures !AlwaysDistinct(db, deeds)
  {
    hide LinksDistinct;
  }

  /** And then every mailbox lists each of its messages exactly once. */
  lemma {:induction false} RunsLinkOnce(db: Db, deeds: seq<Deed>)
    requires LinksDistinct(db.transactions) && FreshRun(db, deeds)
    ensures forall b | b in AfterDeeds(db, deeds).mailboxes ::
              |Listing.ListMailbox(AfterDeeds(db, deeds), b)| == |Listing.InMailbox(AfterDeeds(db, deeds), b)|
    decreases |deeds|
  {
    hide NextDeed, Fresh, LinksDistinct, Listing.ListMailbox;
    if deeds == [] {
      forall b | b in db.mailboxes ensures |Listing.ListMailbox(db, b)| == |Listing.InMailbox(db, b)| {
        forall id | id in Listing.InMailbox(db, b) ensures Listing.LinkedOnce(db, id) {
          DistinctIsOnce(db, id);
        }
        Listing.ListedOnce(db, b);
      }
    } else {
      DeedLinksExactly(db, deeds[0]);
      RunsLinkOnce(NextDeed(db, deeds[0]), deeds[1..]);
    }
  }

  lemma DistinctIsOnce(db: Db, rowId: nat)
    requires LinksDistinct(db.transactions)
    ensures Listing.LinkedOnce(db, rowId)
  {
    var linked := Listing.LinkedTo(db, rowId);
    if linked != {} {
      var t :| t in linked;
      assert linked == {t};
    }
  }

  // ------------------------------------------------------ a message listed twice

  /** A user whose INBOX can take the message, none of its messages marked deleted. */
  ghost predicate CanTake(db: Db, user: string, u: nat, b: nat, messageId: string) {
    && Sound(db) && user != "" && NamedUser(db, u, user) && NamedMailbox(db, b, u, INBOX)
    && (forall id :: !HoldsMessage(db, id, b, messageId)) && (forall id :: !HoldsTx(db, id, In, messageId))
  }

  /** What an accepted and recorded delivery leaves: the message in the next row, and a ledger row linked to it. */
  lemma DeliveryLinks(db: Db, user: string, domain: string, u: nat, b: nat, sender: string, messageId: string, r: Rendering, now: int)
    requires CanTake(db, user, u, b, messageId) && '@' !in user
    ensures var d := Deliver(db, sender, messageId, user + "@" + domain, "", r, now).db;
            var n, t := NextId(db.messages.Keys), NextId(db.transactions.Keys);
            && d.users == db.users && Sound(d) && NamedMailbox(d, b, u, INBOX)
            && n in d.messages && d.messages == db.messages[n := d.messages[n]] && d.messages[n].mailboxId == b
            && t in d.transactions && d.transactions == db.transactions[t := d.transactions[t]] && HoldsTx(d, t, In, messageId)
            && d.transactions[t].messageRowId == Some(n)
  {
    hide UserHalf, Sound, NextId, AppendMessage, RecordInbound;
    var to := user + "@" + domain;
    HalfOf(user, domain);
    CanTakeNames(db, user, u, b, messageId);
    ReceiveSound(db, sender, messageId, to, "", r, now);
    var m := NewMessage(messageId, r.subject, r.body, 0, sender, r.trustState);
    AppendIs(db, u, b, m, now);
    var a := AppendMessage(db, u, INBOX, m, now);
    assert forall id :: !HoldsTx(a.db, id, In, messageId) by {
      forall id ensures !HoldsTx(a.db, id, In, messageId) { assert !HoldsTx(db, id, In, messageId); }
    }
    InboundIs(a.db, sender, to, messageId, a.rowId);
  }

  lemma HalfOf(user: string, domain: string)
    requires '@' !in user
    ensures UserHalf(user + "@" + domain) == user
  {
    var to := user + "@" + domain;
    assert to[|user|] == '@' && to[..|user|] == user;
    FindIs(to, '@', |user|);
  }

  lemma CanTakeNames(db: Db, user: string, u: nat, b: nat, messageId: string)
    requires CanTake(db, user, u, b, messageId)
    ensures GetUser(db, user) == Some(u) && MailboxNamed(db, u, INBOX) == Some(b)
  {
    GetUserIs(db, u, user);
    MailboxNamedIs(db, b, u, INBOX);
  }

  lemma AppendIs(db: Db, u: nat, b: nat, m: NewMessage, now: int)
    requires MailboxNamed(db, u, INBOX) == Some(b) && forall id :: !HoldsMessage(db, id, b, m.messageId)
    ensures AppendMessage(db, u, INBOX, m, now)
         == Appended(db.(messages := db.messages[NextId(db.messages.Keys) := MessageRowOf(b, db.mailboxes[b].uidnext, m, now)],
                         mailboxes := db.mailboxes[b := db.mailboxes[b].(uidnext := db.mailboxes[b].uidnext + 1)]), NextId(db.messages.Keys))
  {
  }

  lemma InboundIs(db: Db, sender: string, to: string, messageId: string, rowId: nat)
    requires forall id :: !HoldsTx(db, id, In, messageId)
    ensures RecordInbound(db, sender, to, "", messageId, rowId)
         == db.(transactions := db.transactions[NextId(db.transactions.Keys)
                                               := TxRow(In, Opaque, sender, to, "", None, messageId, Some(rowId), None, "sealed")])
  {
    var id := NextId(db.transactions.Keys);
    var row := TxRow(In, Opaque, sender, to, "", None, messageId, None, None, "sealed");
    assert db.transactions[id := row][id := row.(messageRowId := Some(rowId))] == db.transactions[id := row.(messageRowId := Some(rowId))];
  }

  lemma DeletedBit(flags: bv32)
    ensures Flagged(flags, DELETED, true) & DELETED != 0
  {
  }

  /** Marking the newest message of the mailbox deleted and expunging: the messages are those of before it came. */
  lemma NewestExpunged(before: map<nat, MessageRow>, db: Db, n: nat, b: nat, row: MessageRow)
    requires n !in before && db.messages == before[n := row] && row.mailboxId == b
    requires forall i | i in before :: !Doomed(before[i], b)
    ensures Expunge(SetFlags(db, b, n, DELETED, true), b) == db.(messages := before)
  {
    DeletedBit(row.flags);
    hide Flagged;
    var f := SetFlags(db, b, n, DELETED, true);
    assert Doomed(f.messages[n], b);
    hide Doomed;
    assert Expunge(f, b).messages == before;
  }

  /** How a message comes to be listed twice: a message is received, marked deleted and expunged; its ledger row still
      points at its row id; the next message received is given that id, and both ledger rows point at it. */
  lemma ReissuedRowListedTwice(db: Db, user: string, domain: string, u: nat, b: nat, sender: string, first: string, second: string,
                               r: Rendering, now: int)
    requires CanTake(db, user, u, b, first) && CanTake(db, user, u, b, second) && first != second && '@' !in user
    requires forall i | i in db.messages :: !Doomed(db.messages[i], b)
    ensures var n := NextId(db.messages.Keys);
            var to := user + "@" + domain;
            var d := AfterDeeds(db, [Do(Receive(sender, first, to, "", r, now)), Do(SetFlag(b, n, DELETED, true)), Do(Clear(b)),
                                     Do(Receive(sender, second, to, "", r, now))]);
            && b in d.mailboxes && n in d.messages && d.messages[n].mailboxId == b && !Listing.LinkedOnce(d, n)
            && |Listing.ListMailbox(d, b)| > |Listing.InMailbox(d, b)|
  {
    hide Deliver, NextId, SetFlags, Expunge, Sound, Doomed, CanTake, AfterDeeds, Listing.LinkedOnce, Listing.ListMailbox;
    var n, t := NextId(db.messages.Keys), NextId(db.transactions.Keys);
    var to := user + "@" + domain;
    DeliveryLinks(db, user, domain, u, b, sender, first, r, now);
    var d1 := Deliver(db, sender, first, to, "", r, now).db;
    NewestExpunged(db.messages, d1, n, b, d1.messages[n]);
    var d3 := d1.(messages := db.messages);
    FlagsKeepLedger(d1, b, n, DELETED, true);
    ExpungeKeepsLedger(SetFlags(d1, b, n, DELETED, true), b);
    StillCanTake(db, d3, user, u, b, first, second, t);
    DeliveryLinks(d3, user, domain, u, b, sender, second, r, now);
    var d := Deliver(d3, sender, second, to, "", r, now).db;
    TwiceLinked(d, n, t, NextId(d3.transactions.Keys));
    FourDeeds(db, Do(Receive(sender, first, to, "", r, now)), Do(SetFlag(b, n, DELETED, true)), Do(Clear(b)), Do(Receive(sender, second, to, "", r, now)));
    ListedMore(d, b, n);
  }

  lemma StillCanTake(db: Db, later: Db, user: string, u: nat, b: nat, first: string, second: string, t: nat)
    requires CanTake(db, user, u, b, second) && Sound(later) && later.users == db.users && NamedMailbox(later, b, u, INBOX)
    requires later.messages == db.messages && first != second && HoldsTx(later, t, In, first)
    requires later.transactions == db.transactions[t := later.transactions[t]]
    ensures CanTake(later, user, u, b, second)
  {
    hide Sound;
    forall id ensures !HoldsTx(later, id, In, second) {
      assert !HoldsTx(db, id, In, second);
    }
    forall id ensures !HoldsMessage(later, id, b, second) {
      assert !HoldsMessage(db, id, b, second);
    }
  }

  lemma TwiceLinked(db: Db, n: nat, s: nat, t: nat)
    requires s != t && s in db.transactions && t in db.transactions
    requires db.transactions[s].messageRowId == Some(n) && db.transactions[t].messageRowId == Some(n)
    ensures !Listing.LinkedOnce(db, n)
  {
    var linked := Listing.LinkedTo(db, n);
    assert s in linked && t in linked && |{s, t}| == 2;
    assert linked == {s, t} + (linked - {s, t});
  }

  lemma ListedMore(db: Db, b: nat, n: nat)
    requires b in db.mailboxes && n in db.messages && db.messages[n].mailboxId == b && !Listing.LinkedOnce(db, n)
    ensures |Listing.ListMailbox(db, b)| > |Listing.InMailbox(db, b)|
  {
    hide Listing.ListMailbox, Listing.LinkedOnce;
    Listing.ListedOnce(db, b);
    assert n in Listing.InMailbox(db, b);
  }

  lemma FourDeeds(db: Db, a: Deed, b: Deed, c: Deed, d: Deed)
    ensures AfterDeeds(db, [a, b, c, d]) == NextDeed(NextDeed(NextDeed(NextDeed(db, a), b), c), d)
  {
    hide NextDeed;
    var all, three, two, one: seq<Deed> := [a, b, c, d], [b, c, d], [c, d], [d];
    assert all[1..] == three && three[1..] == two && two[1..] == one && |one[1..]| == 0;
    var d3 := NextDeed(NextDeed(NextDeed(db, a), b), c);
    assert AfterDeeds(NextDeed(d3, d), one[1..]) == NextDeed(d3, d);
    assert AfterDeeds(d3, one) == NextDeed(d3, d);
    assert AfterDeeds(NextDeed(NextDeed(db, a), b), two) == NextDeed(d3, d);
    assert AfterDeeds(NextDeed(db, a), three) == NextDeed(d3, d);
  }
}
