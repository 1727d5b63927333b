/** Two daemons: invoices sent, lost, repeated and retried between them, over connections that break at any byte. */
module Federation {
  import opened Utf8
  import opened Text
  import opened Codec
  import opened MailStore
  import S = ZsmtpServer
  import V = ZsmtpServing
  import L = ZsmtpLink
  import Cut = ZsmtpCut
  import G = Ledger
  import UidRuns

  /** What one connection depends on besides the letter: the receiver's directory and minted address, the key the
      sender looked up, the nonce and the clock readings. */
  datatype Wire = Wire(env: S.Env, pub: Bytes, nonce: Bytes, issued: int, now: int)

  /** A sending attempt: what the receiving sink said, once it was reached, and whether the sender is done with it. */
  datatype Attempt = Attempt(o: G.Outgoing, wire: Wire, reply: Option<S.DeliveryOutcome>, over: bool)

  /** The sender's store, the receiver's store, and the attempts between them. */
  datatype Net = Net(here: Db, there: Db, attempts: map<nat, Attempt>)

  datatype Step =
    | Begin(id: nat, o: G.Outgoing, wire: Wire)
    | Again(id: nat, tx: nat, domain: string, wire: Wire)
    | GiveUp(id: nat, end: G.Ending, direct: bool, r: G.Rendering, now: int)
    | Arrive(id: nat, budget: L.Budget, r: G.Rendering, now: int)
    | Finish(id: nat, budget: L.Budget, direct: bool, r: G.Rendering, now: int)
    | Here(step: G.Step)
    | There(step: G.Step)
    | RegisterThere(username: string, passwordHash: string, at: nat)

  // ------------------------------------------------------------------ the wire

  function LetterOf(o: G.Outgoing, w: Wire): L.Letter {
    L.Letter(o.senderUser, G.UserHalf(o.recipient), o.messageId, o.payload, o.body, w.nonce, w.issued, w.now)
  }

  function EnvOf(w: Wire, outcome: S.DeliveryOutcome): S.Env {
    w.env.(hasSink := true, outcome := outcome)
  }

  /** The sink calls a connection made, and what the sender learned of it. */
  datatype Talked = Talked(calls: seq<S.SinkCall>, end: G.Ending)

  /** `connect` and `send_invoice_over` on a connection that breaks as the budget says, the sink answering as given. */
  function Talk(cfg: S.Config, o: G.Outgoing, w: Wire, outcome: S.DeliveryOutcome, budget: L.Budget): Talked {
    var (l, greeted) := L.ReadGreeting(L.Dial(cfg, o.domain, budget));
    if greeted.Failed? then Talked(l.calls, G.ConnectFailed)
    else
      var (l', r) := L.SendInvoiceOver(cfg, l, EnvOf(w, outcome), w.pub, LetterOf(o, w));
      Talked(l'.calls, G.Exchanged(r))
  }

  /** What the sink said, or would if it were reached. */
  function Answer(a: Attempt): S.DeliveryOutcome {
    if a.reply.Some? then a.reply.value else S.Accepted(a.o.messageId)
  }

  function TalkOf(cfg: S.Config, a: Attempt, budget: L.Budget): Talked {
    Talk(cfg, a.o, a.wire, Answer(a), budget)
  }

  function Recorded(end: G.Ending, direct: bool): Option<TxState> {
    if direct then G.ClassifyDirect(end) else Some(G.Classify(end))
  }

  function Without(m: map<nat, Attempt>, id: nat): map<nat, Attempt> {
    map i | i in m && i != id :: m[i]
  }

  predicate CanRetry(db: Db, tx: nat) {
    && tx in db.transactions && db.transactions[tx].direction == Out && db.transactions[tx].outboundBody.Some?
    && G.HasDomain(db.transactions[tx].recipientMailbox)
  }

  /** The attempt can end with this view of the connection: one in which the sink was called if and only if it was. */
  predicate Ends(cfg: S.Config, n: Net, id: nat, budget: L.Budget) {
    id in n.attempts && !n.attempts[id].over && (TalkOf(cfg, n.attempts[id], budget).calls != [] <==> n.attempts[id].reply.Some?)
  }

  /** The bytes that get through make the server call its sink. */
  predicate Arrives(cfg: S.Config, n: Net, id: nat, budget: L.Budget) {
    id in n.attempts && n.attempts[id].reply.None? && TalkOf(cfg, n.attempts[id], budget).calls != []
  }

  ghost function Record(db: Db, o: G.Outgoing, state: Option<TxState>, r: G.Rendering, now: int): Db {
    if state.Some? then G.RecordOutbound(db, o, state.value, r, now) else db
  }

  /** An invoice arrives when the bytes that got through make the server call its sink, with whatever the call says; the
      sender may learn of it, or of a broken connection, at any time after, or have given up before. */
  ghost function Next(cfg: S.Config, n: Net, step: Step): Net {
    match step
    case Begin(id, o, wire) =>
      if id in n.attempts || o.senderUser == "" || !G.HasDomain(o.recipient) then n
      else n.(attempts := n.attempts[id := Attempt(o, wire, None, false)])
    case Again(id, tx, domain, wire) =>
      if id in n.attempts || !CanRetry(n.here, tx) then n
      else n.(attempts := n.attempts[id := Attempt(G.Resent(n.here.transactions[tx], domain), wire, None, false)])
    case GiveUp(id, end, direct, r, now) =>
      if id in n.attempts && n.attempts[id].reply.None? && !n.attempts[id].over && !end.Exchanged?
      then n.(here := Record(n.here, n.attempts[id].o, Recorded(end, direct), r, now), attempts := Without(n.attempts, id))
      else n
    case Arrive(id, budget, r, now) =>
      if Arrives(cfg, n, id, budget) then
        var c := TalkOf(cfg, n.attempts[id], budget).calls[0];
        var d := G.Deliver(n.there, c.senderMailbox, c.messageId, c.recipientMailbox, "", r, now);
        n.(there := d.db, attempts := n.attempts[id := n.attempts[id].(reply := Some(d.outcome))])
      else n
    case Finish(id, budget, direct, r, now) =>
      if Ends(cfg, n, id, budget) then
        n.(here := Record(n.here, n.attempts[id].o, Recorded(TalkOf(cfg, n.attempts[id], budget).end, direct), r, now),
           attempts := n.attempts[id := n.attempts[id].(over := true)])
      else n
    case Here(step) => n.(here := G.Next(n.here, step))
    case There(step) => n.(there := G.Next(n.there, step))
    case RegisterThere(username, passwordHash, at) => (
      match CreateUser(n.there, username, passwordHash, at)
      case NameTaken => n
      case Registered(db, _) => n.(there := db))
  }

  // --------------------------------------------------------------- hypotheses

  /** What the sink can say of a delivery. */
  predicate Possible(o: G.Outgoing, outcome: S.DeliveryOutcome) {
    || outcome == S.Accepted(o.messageId) || outcome == S.Rejected("malformed recipient mailbox")
    || outcome == S.Rejected("no such recipient: " + G.UserHalf(o.recipient))
    || outcome == S.Rejected("duplicate message id: " + o.messageId) || outcome == S.RetryLater("storage error")
  }

  /** Sender and message id are single words, and the lines and blobs of the exchange are within their bounds. */
  ghost predicate Sized(cfg: S.Config, o: G.Outgoing, w: Wire) {
    forall outcome | Possible(o, outcome) :: L.LetterSized(cfg, o.domain, EnvOf(w, outcome), LetterOf(o, w))
  }

  ghost predicate Ready(cfg: S.Config) {
    cfg.p.b64.Lawful() && cfg.domain != "" && L.LineFits(V.Greeting(cfg))
  }

  /** The hypotheses of the property: letters of that kind, nothing expunged at the receiver, and sending through
      attempts. */
  ghost predicate Proper(cfg: S.Config, n: Net, step: Step) {
    match step
    case Begin(_, o, wire) => Sized(cfg, o, wire)
    case Again(_, tx, domain, wire) => CanRetry(n.here, tx) ==> Sized(cfg, G.Resent(n.here.transactions[tx], domain), wire)
    case Here(s) => !s.Send? && !s.Retry?
    case There(s) => !s.Clear?
    case _ => true
  }

  /** The wire is honest: whatever gets through, the sink is called with exactly the letter or not at all, and the
      sender learns of success only if the sink accepted it. */
  lemma TalkIsCredible(cfg: S.Config, o: G.Outgoing, w: Wire, outcome: S.DeliveryOutcome, budget: L.Budget)
    requires Ready(cfg) && Sized(cfg, o, w) && Possible(o, outcome)
    ensures var t := Talk(cfg, o, w, outcome, budget);
            && (t.calls == [] || t.calls == [L.LetterCall(cfg, o.domain, LetterOf(o, w))])
            && (t.end.Exchanged? && t.end.outcome.Done? ==> t.calls != [] && outcome.Accepted?)
  {
    hide L.ReadGreeting, L.Dial, L.SendInvoiceOver, L.LetterSized, L.LineFits, Possible, L.LetterCall;
    Cut.ConnectCut(cfg, o.domain, budget);
    L.ConnectInStep(cfg, o.domain);
    var (l, greeted) := L.ReadGreeting(L.Dial(cfg, o.domain, budget));
    if greeted.Done? {
      Cut.SuccessIsCredible(cfg, l, EnvOf(w, outcome), w.pub, LetterOf(o, w));
      var c := [L.LetterCall(cfg, o.domain, LetterOf(o, w))];
      assert [] + c == c;
    }
  }

  // ---------------------------------------------------------------- a retry

  /** What stands before the `@` of a mailbox, or all of it. */
  predicate UserOf(user: string, mailbox: string) {
    '@' !in user && (mailbox == user || (|user| < |mailbox| && mailbox[..|user|] == user && mailbox[|user|] == '@'))
  }

  lemma UserHalfIs(mailbox: string)
    ensures UserOf(G.UserHalf(mailbox), mailbox)
  {
    var k := Find(mailbox, '@');
    assert forall i | 0 <= i < k :: mailbox[..k][i] == mailbox[i];
    if k == |mailbox| { assert mailbox[..k] == mailbox; }
  }

  /** The call says what the row says: its sender, now at the domain, its message id, its recipient at the receiver, its
      stored body, and its payload word, with `sealed` for any other. */
  ghost predicate CarriesRow(cfg: S.Config, row: TxRow, domain: string, call: S.SinkCall) {
    && (exists user :: UserOf(user, row.senderMailbox) && call.senderMailbox == user + "@" + domain)
    && call.messageId == row.messageId
    && (exists user :: UserOf(user, row.recipientMailbox) && call.recipientMailbox == user + "@" + cfg.domain)
    && row.outboundBody == Some(call.body)
    && PayloadWord(call.payload) == (if row.payload == "plaintext" then "plaintext" else "sealed")
  }

  /** A retry sends the row: whatever the connection carries and whatever the sink says, every call the peer makes of the
      attempt carries what the ledger row holds. */
  lemma RetryCarriesRow(cfg: S.Config, n: Net, id: nat, tx: nat, domain: string, wire: Wire, budget: L.Budget, outcome: S.DeliveryOutcome)
    requires Ready(cfg) && CanRetry(n.here, tx) && id !in n.attempts && Proper(cfg, n, Again(id, tx, domain, wire))
    ensures var m := Next(cfg, n, Again(id, tx, domain, wire));
            && id in m.attempts && m.here == n.here && m.there == n.there
            && (Possible(m.attempts[id].o, outcome) ==>
                  forall call | call in Talk(cfg, m.attempts[id].o, m.attempts[id].wire, outcome, budget).calls ::
                    CarriesRow(cfg, n.here.transactions[tx], domain, call))
  {
    hide Talk, Sized, Possible, L.LetterCall, Ready, CarriesRow, PayloadWord;
    var row, o := n.here.transactions[tx], Next(cfg, n, Again(id, tx, domain, wire)).attempts[id].o;
    if Possible(o, outcome) {
      TalkIsCredible(cfg, o, wire, outcome, budget);
      LetterCallIs(cfg, o, wire);
      ResentCarries(cfg, row, o, domain);
    }
  }

  lemma ResentCarries(cfg: S.Config, row: TxRow, o: G.Outgoing, domain: string)
    requires row.outboundBody.Some? && o == G.Resent(row, domain)
    ensures CarriesRow(cfg, row, domain,
              S.SinkCall(o.senderUser + "@" + o.domain, o.messageId, G.UserHalf(o.recipient) + "@" + cfg.domain, o.payload, o.body))
  {
    hide G.UserHalf, UserOf;
    UserHalfIs(row.senderMailbox);
    UserHalfIs(row.recipientMailbox);
  }

  lemma OneUserOf(user: string, other: string, mailbox: string)
    requires UserOf(user, mailbox) && UserOf(other, mailbox)
    ensures user == other
  {
    UserEnds(user, mailbox);
    UserEnds(other, mailbox);
  }

  lemma UserEnds(user: string, mailbox: string)
    requires UserOf(user, mailbox)
    ensures |user| == Find(mailbox, '@') && user == mailbox[..|user|]
  {
    assert user == mailbox[..|user|];
    assert forall i | 0 <= i < |user| :: mailbox[i] == user[i];
    FindIs(mailbox, '@', |user|);
  }

  /** A letter that was recorded when its sending failed is the letter a retry sends: the same sender, id, recipient, payload and
      body. */
  lemma RetryIsTheLetter(cfg: S.Config, row: TxRow, o: G.Outgoing, state: TxState, link: Option<nat>, call: S.SinkCall)
    requires '@' !in o.senderUser && CarriesRow(cfg, row, o.domain, call)
    requires row == TxRow(Out, state, o.senderUser + "@" + o.domain, o.recipient, "", None, o.messageId, link, Some(o.body), PayloadWord(o.payload))
    ensures call == S.SinkCall(o.senderUser + "@" + o.domain, o.messageId, G.UserHalf(o.recipient) + "@" + cfg.domain, o.payload, o.body)
  {
    var user :| UserOf(user, row.senderMailbox) && call.senderMailbox == user + "@" + o.domain;
    var to :| UserOf(to, row.recipientMailbox) && call.recipientMailbox == to + "@" + cfg.domain;
    var mailbox := o.senderUser + "@" + o.domain;
    assert mailbox[..|o.senderUser|] == o.senderUser && mailbox[|o.senderUser|] == '@';
    OneUserOf(user, o.senderUser, mailbox);
    UserHalfIs(o.recipient);
    OneUserOf(to, G.UserHalf(o.recipient), o.recipient);
    PayloadWords(o.payload, call.payload);
  }

  lemma PayloadWords(p: Payload, q: Payload)
    ensures PayloadWord(p) == "plaintext" || PayloadWord(p) == "sealed"
    ensures PayloadWord(p) == PayloadWord(q) ==> p == q
  {
    assert |"plaintext"| != |"sealed"|;
  }

  // ------------------------------------------------------------ the receiver

  /** A copy of the message is in the user's INBOX. */
  ghost predicate InInbox(db: Db, user: string, messageId: string) {
    exists u, b, m :: NamedUser(db, u, user) && NamedMailbox(db, b, u, INBOX) && HoldsMessage(db, m, b, messageId)
  }

  /** Users, mailboxes and messages of the earlier store are still there. */
  ghost predicate Grows(db: Db, later: Db) {
    && (forall u | u in db.users :: u in later.users && later.users[u].username == db.users[u].username)
    && (forall b | b in db.mailboxes ::
          b in later.mailboxes && later.mailboxes[b].userId == db.mailboxes[b].userId && later.mailboxes[b].name == db.mailboxes[b].name)
    && (forall m | m in db.messages ::
          m in later.messages && later.messages[m].mailboxId == db.messages[m].mailboxId
          && later.messages[m].messageId == db.messages[m].messageId)
  }

  lemma StillInInbox(db: Db, later: Db, user: string, messageId: string)
    requires Grows(db, later) && InInbox(db, user, messageId)
    ensures InInbox(later, user, messageId)
  {
    var u, b, m :| NamedUser(db, u, user) && NamedMailbox(db, b, u, INBOX) && HoldsMessage(db, m, b, messageId);
    assert NamedUser(later, u, user) && NamedMailbox(later, b, u, INBOX) && HoldsMessage(later, m, b, messageId);
  }

  lemma AppendGrows(db: Db, userId: nat, mailbox: string, m: NewMessage, now: int)
    ensures var a := AppendMessage(db, userId, mailbox, m, now);
            a.Appended? ==>
              && Grows(db, a.db)
              && exists b :: NamedMailbox(a.db, b, userId, mailbox) && HoldsMessage(a.db, a.rowId, b, m.messageId)
  {
    var a := AppendMessage(db, userId, mailbox, m, now);
    if a.Appended? {
      var b := MailboxNamed(db, userId, mailbox).value;
      assert NamedMailbox(a.db, b, userId, mailbox) && HoldsMessage(a.db, a.rowId, b, m.messageId);
    }
  }

  lemma LedgerOnly(db: Db, later: Db)
    requires later.users == db.users && later.mailboxes == db.mailboxes && later.messages == db.messages
    ensures Grows(db, later)
  {
  }

  lemma GrowsTwice(a: Db, b: Db, c: Db)
    requires Grows(a, b) && Grows(b, c)
    ensures Grows(a, c)
  {
  }

  lemma InboundKeepsMail(db: Db, sender: string, recipient: string, amount: string, messageId: string, rowId: nat)
    ensures var d := G.RecordInbound(db, sender, recipient, amount, messageId, rowId);
            d.users == db.users && d.mailboxes == db.mailboxes && d.messages == db.messages
  {
  }

  /** A delivery loses no mail, and when it is accepted the message is in the recipient's INBOX. */
  lemma DeliverGrows(db: Db, sender: string, messageId: string, recipient: string, amount: string, r: G.Rendering, now: int)
    ensures var d := G.Deliver(db, sender, messageId, recipient, amount, r, now);
            Grows(db, d.db) && (d.outcome.Accepted? ==> InInbox(d.db, G.UserHalf(recipient), messageId))
  {
    hide AppendMessage, G.RecordInbound;
    var name := G.UserHalf(recipient);
    var user := GetUser(db, name);
    if name != "" && user.Some? {
      var m := NewMessage(messageId, r.subject, r.body, 0, sender, r.trustState);
      AppendGrows(db, user.value, INBOX, m, now);
      var a := AppendMessage(db, user.value, INBOX, m, now);
      if a.Appended? {
        var b :| NamedMailbox(a.db, b, user.value, INBOX) && HoldsMessage(a.db, a.rowId, b, messageId);
        InboundKeepsMail(a.db, sender, recipient, amount, messageId, a.rowId);
        var d := G.RecordInbound(a.db, sender, recipient, amount, messageId, a.rowId);
        LedgerOnly(a.db, d);
        GrowsTwice(db, a.db, d);
        assert NamedUser(d, user.value, name) && NamedMailbox(d, b, user.value, INBOX) && HoldsMessage(d, a.rowId, b, messageId);
      }
    }
  }

  lemma OutboundGrows(db: Db, o: G.Outgoing, state: TxState, r: G.Rendering, now: int)
    requires Sound(db)
    ensures Grows(db, G.RecordOutbound(db, o, state, r, now))
  {
    hide AppendMessage, G.RecordState, Sound;
    G.RecordStateSound(db, o, state);
    var c := G.RecordState(db, o, state);
    LedgerOnly(db, c.db);
    var user := GetUser(c.db, o.senderUser);
    if user.Some? {
      var m := NewMessage(o.messageId, r.subject, r.body, 0, o.recipient, "unverified");
      AppendGrows(c.db, user.value, SENT, m, now);
      var a := AppendMessage(c.db, user.value, SENT, m, now);
      if a.Appended? {
        LedgerOnly(a.db, TxLink(a.db, c.id, a.rowId));
        GrowsTwice(c.db, a.db, TxLink(a.db, c.id, a.rowId));
        GrowsTwice(db, c.db, TxLink(a.db, c.id, a.rowId));
      }
    }
  }

  lemma StepGrows(db: Db, step: G.Step)
    requires Sound(db) && !step.Clear?
    ensures Grows(db, G.Next(db, step))
  {
    hide G.Deliver, G.RecordOutbound, Sound, SetFlags, Grows, TxTransition, TxSetBinding;
    LedgerOnly(db, db);
    match step
    case Receive(sender, messageId, recipient, amount, r, now) => DeliverGrows(db, sender, messageId, recipient, amount, r, now);
    case Send(o, end, r, now) => OutboundGrows(db, o, G.Classify(end), r, now);
    case Retry(id, domain, end, r, now) =>
      if G.Next(db, step) != db {
        OutboundGrows(db, G.Resent(db.transactions[id], domain), G.ClassifyDirect(end).value, r, now);
      }
    case Resolve(id, binding) =>
      SettleGrows(db, id, Resolved, binding);
    case MarkSpent(id) => SettleGrows(db, id, Spent, None);
    case Fail(id) => SettleGrows(db, id, Failed, None);
    case SetFlag(mailboxId, rowId, mask, value) => FlagsGrow(db, mailboxId, rowId, mask, value);
  }

  lemma SettleGrows(db: Db, id: nat, state: TxState, binding: Option<string>)
    ensures Grows(db, TxTransition(db, id, state)) && Grows(db, TxTransition(TxSetBinding(db, id, binding), id, state))
  {
    hide Grows;
    LedgerOnly(db, TxTransition(db, id, state));
    LedgerOnly(db, TxTransition(TxSetBinding(db, id, binding), id, state));
  }

  lemma FlagsGrow(db: Db, mailboxId: nat, rowId: nat, mask: bv32, value: bool)
    ensures Grows(db, SetFlags(db, mailboxId, rowId, mask, value))
  {
    hide Flagged;
  }

  lemma RegisterGrows(db: Db, username: string, passwordHash: string, at: nat)
    ensures var r := CreateUser(db, username, passwordHash, at);
            r.Registered? ==> Grows(db, r.db) && r.db.transactions == db.transactions
  {
  }

  lemma UserHalfAgain(mailbox: string, domain: string)
    ensures G.UserHalf(G.UserHalf(mailbox) + "@" + domain) == G.UserHalf(mailbox)
  {
    var u := G.UserHalf(mailbox);
    var s := u + "@" + domain;
    assert forall i | 0 <= i < |u| :: s[i] == u[i] && u[i] == mailbox[i];
    assert s[|u|] == '@';
    FindIs(s, '@', |u|);
  }

  lemma DeliverSays(db: Db, sender: string, o: G.Outgoing, domain: string, r: G.Rendering, now: int)
    ensures Possible(o, G.Deliver(db, sender, o.messageId, G.UserHalf(o.recipient) + "@" + domain, "", r, now).outcome)
  {
    hide AppendMessage, G.RecordInbound;
    UserHalfAgain(o.recipient, domain);
  }

  // ------------------------------------------------- what holds in any case

  ghost predicate AttemptFits(cfg: S.Config, there: Db, a: Attempt) {
    && Sized(cfg, a.o, a.wire)
    && (a.reply.Some? ==> Possible(a.o, a.reply.value))
    && (a.reply.Some? && a.reply.value.Accepted? ==> InInbox(there, G.UserHalf(a.o.recipient), a.o.messageId))
  }

  ghost predicate Base(cfg: S.Config, n: Net) {
    Sound(n.here) && Sound(n.there) && forall i | i in n.attempts :: AttemptFits(cfg, n.there, n.attempts[i])
  }

  lemma FitsLater(cfg: S.Config, there: Db, later: Db, a: Attempt)
    requires AttemptFits(cfg, there, a) && Grows(there, later)
    ensures AttemptFits(cfg, later, a)
  {
    hide Grows, InInbox, Sized;
    if a.reply.Some? && a.reply.value.Accepted? {
      StillInInbox(there, later, G.UserHalf(a.o.recipient), a.o.messageId);
    }
  }

  lemma BaseThere(cfg: S.Config, n: Net, there: Db)
    requires Base(cfg, n) && Grows(n.there, there) && Sound(there)
    ensures Base(cfg, n.(there := there))
  {
    hide Sound, Grows, AttemptFits;
    forall i | i in n.attempts ensures AttemptFits(cfg, there, n.attempts[i]) {
      FitsLater(cfg, n.there, there, n.attempts[i]);
    }
  }

  /** The delivery of the letter itself. */
  ghost function LetterDelivery(cfg: S.Config, there: Db, o: G.Outgoing, r: G.Rendering, now: int): G.Delivered {
    G.Deliver(there, o.senderUser + "@" + o.domain, o.messageId, G.UserHalf(o.recipient) + "@" + cfg.domain, "", r, now)
  }

  /** What arrives is the letter. */
  lemma ArrivalIs(cfg: S.Config, n: Net, id: nat, budget: L.Budget, r: G.Rendering, now: int)
    requires Ready(cfg) && Base(cfg, n) && Arrives(cfg, n, id, budget)
    ensures var d := LetterDelivery(cfg, n.there, n.attempts[id].o, r, now);
            Next(cfg, n, Arrive(id, budget, r, now))
            == Net(n.here, d.db, n.attempts[id := n.attempts[id].(reply := Some(d.outcome))])
  {
    hide Sound, G.Deliver, TalkOf, AttemptFits, G.UserHalf, Ready;
    FirstCall(cfg, n.there, n.attempts[id], budget);
  }

  /** What an arrival does to the receiver: it grows, and an accepted letter is in the INBOX. */
  lemma Arrival(cfg: S.Config, n: Net, id: nat, budget: L.Budget, r: G.Rendering, now: int)
    requires Ready(cfg) && Base(cfg, n) && Arrives(cfg, n, id, budget)
    ensures var m := Next(cfg, n, Arrive(id, budget, r, now));
            && Grows(n.there, m.there) && Sound(m.there) && m.here == n.here && m.attempts.Keys == n.attempts.Keys
            && AttemptFits(cfg, m.there, m.attempts[id])
            && (forall i | i in n.attempts && i != id :: m.attempts[i] == n.attempts[i])
  {
    hide Sound, Grows, Next, AttemptFits, Ready, LetterDelivery;
    ArrivalIs(cfg, n, id, budget, r, now);
    LetterDelivered(cfg, n.there, n.attempts[id], r, now);
  }

  lemma FirstCall(cfg: S.Config, there: Db, a: Attempt, budget: L.Budget)
    requires Ready(cfg) && AttemptFits(cfg, there, a) && TalkOf(cfg, a, budget).calls != []
    ensures TalkOf(cfg, a, budget).calls[0]
         == S.SinkCall(a.o.senderUser + "@" + a.o.domain, a.o.messageId, G.UserHalf(a.o.recipient) + "@" + cfg.domain, a.o.payload, a.o.body)
  {
    hide Talk, Sized, Possible, InInbox, L.LetterCall;
    AcceptedPossible(a.o);
    TalkIsCredible(cfg, a.o, a.wire, Answer(a), budget);
    LetterCallIs(cfg, a.o, a.wire);
  }

  lemma LetterDelivered(cfg: S.Config, there: Db, a: Attempt, r: G.Rendering, now: int)
    requires Sound(there) && AttemptFits(cfg, there, a)
    ensures var d := LetterDelivery(cfg, there, a.o, r, now);
            Grows(there, d.db) && Sound(d.db) && AttemptFits(cfg, d.db, a.(reply := Some(d.outcome)))
  {
    hide Sound, G.Deliver, Grows, InInbox, Sized, Possible, G.UserHalf;
    var from, to := a.o.senderUser + "@" + a.o.domain, G.UserHalf(a.o.recipient) + "@" + cfg.domain;
    G.ReceiveSound(there, from, a.o.messageId, to, "", r, now);
    DeliverGrows(there, from, a.o.messageId, to, "", r, now);
    DeliverSays(there, from, a.o, cfg.domain, r, now);
    UserHalfAgain(a.o.recipient, cfg.domain);
  }

  lemma AcceptedPossible(o: G.Outgoing)
    ensures Possible(o, S.Accepted(o.messageId))
  {
  }

  lemma LetterCallIs(cfg: S.Config, o: G.Outgoing, w: Wire)
    ensures L.LetterCall(cfg, o.domain, LetterOf(o, w))
         == S.SinkCall(o.senderUser + "@" + o.domain, o.messageId, G.UserHalf(o.recipient) + "@" + cfg.domain, o.payload, o.body)
  {
  }

  lemma RecordSound(db: Db, o: G.Outgoing, state: Option<TxState>, r: G.Rendering, now: int)
    requires Sound(db)
    ensures Sound(Record(db, o, state, r, now))
  {
    hide G.RecordOutbound, Sound;
    if state.Some? { G.SendSound(db, o, state.value, r, now); }
  }

  /** Both stores keep their constraints, and what a sink accepted is in the recipient's INBOX. */
  lemma StepKeepsBase(cfg: S.Config, n: Net, step: Step)
    requires Ready(cfg) && Base(cfg, n) && Proper(cfg, n, step)
    ensures Base(cfg, Next(cfg, n, step))
  {
    hide Sound, Grows, CreateUser, G.Next, Record, TalkOf, Sized, InInbox, Possible, G.Deliver;
    match step
    case Begin(id, o, wire) =>
    case Again(id, tx, domain, wire) =>
    case GiveUp(id, end, direct, r, now) =>
      if id in n.attempts { RecordSound(n.here, n.attempts[id].o, Recorded(end, direct), r, now); }
    case Arrive(id, budget, r, now) =>
      if Arrives(cfg, n, id, budget) {
        ArriveKeepsBase(cfg, n, id, budget, r, now);
      }
    case Finish(id, budget, direct, r, now) =>
      if id in n.attempts {
        RecordSound(n.here, n.attempts[id].o, Recorded(TalkOf(cfg, n.attempts[id], budget).end, direct), r, now);
      }
    case Here(s) => G.StepSound(n.here, s);
    case There(s) =>
      G.StepSound(n.there, s);
      StepGrows(n.there, s);
      BaseThere(cfg, n, G.Next(n.there, s));
    case RegisterThere(username, passwordHash, at) =>
      RegisterGrows(n.there, username, passwordHash, at);
      CreateUserSound(n.there, username, passwordHash, at);
      if CreateUser(n.there, username, passwordHash, at).Registered? {
        BaseThere(cfg, n, CreateUser(n.there, username, passwordHash, at).db);
      }
  }

  lemma ArriveKeepsBase(cfg: S.Config, n: Net, id: nat, budget: L.Budget, r: G.Rendering, now: int)
    requires Ready(cfg) && Base(cfg, n) && Arrives(cfg, n, id, budget)
    ensures Base(cfg, Next(cfg, n, Arrive(id, budget, r, now)))
  {
    hide Sound, Grows, AttemptFits, Next, TalkOf;
    Arrival(cfg, n, id, budget, r, now);
    BaseThere(cfg, n, Next(cfg, n, Arrive(id, budget, r, now)).there);
  }

  // -------------------------------------------------------------- the property

  /** An outbound row in state Sent is in the INBOX of the row's recipient. */
  ghost predicate SentIsReceived(here: Db, there: Db) {
    forall t | t in here.transactions && here.transactions[t].direction == Out && here.transactions[t].state == Sent ::
      InInbox(there, G.UserHalf(here.transactions[t].recipientMailbox), here.transactions[t].messageId)
  }

  lemma ReceivedLater(here: Db, there: Db, later: Db)
    requires SentIsReceived(here, there) && Grows(there, later)
    ensures SentIsReceived(here, later)
  {
    hide Grows, InInbox;
    forall t | t in here.transactions && here.transactions[t].direction == Out && here.transactions[t].state == Sent
      ensures InInbox(later, G.UserHalf(here.transactions[t].recipientMailbox), here.transactions[t].messageId)
    {
      StillInInbox(there, later, G.UserHalf(here.transactions[t].recipientMailbox), here.transactions[t].messageId);
    }
  }

  /** What recording an ending does to the outbound rows: the one of that message id takes the new state, a new one
      carries the attempt's recipient, and no other changes. */
  lemma OutboundRows(db: Db, o: G.Outgoing, state: TxState, r: G.Rendering, now: int)
    requires Sound(db)
    ensures var d := G.RecordOutbound(db, o, state, r, now);
            forall t | t in d.transactions ::
              var row := d.transactions[t];
              if row.direction == Out && row.messageId == o.messageId
              then row.state == state && (if t in db.transactions then G.SameParties(db.transactions[t], row) else row.recipientMailbox == o.recipient)
              else t in db.transactions && row.state == db.transactions[t].state && G.SameParties(db.transactions[t], row)
  {
    hide AppendMessage, Sound, G.RecordState;
    G.RecordStateSound(db, o, state);
    RecordedRows(db, o, state);
    var c := G.RecordState(db, o, state);
    var user := GetUser(c.db, o.senderUser);
    if user.Some? {
      var m := NewMessage(o.messageId, r.subject, r.body, 0, o.recipient, "unverified");
      G.AppendSound(c.db, user.value, SENT, m, now);
    }
  }

  lemma RecordedRows(db: Db, o: G.Outgoing, state: TxState)
    requires Sound(db)
    ensures var d := G.RecordState(db, o, state).db;
            forall t | t in d.transactions ::
              var row := d.transactions[t];
              if row.direction == Out && row.messageId == o.messageId
              then row.state == state && (if t in db.transactions then G.SameParties(db.transactions[t], row) else row.recipientMailbox == o.recipient)
              else t in db.transactions && row.state == db.transactions[t].state && G.SameParties(db.transactions[t], row)
  {
    hide NextId, UniqueUsers, UniqueMailboxes, UniqueMessages, ForeignKeys;
    var found := TxByMessageId(db, Out, o.messageId);
    if found.Some? {
      assert forall t | t in db.transactions && db.transactions[t].direction == Out && db.transactions[t].messageId == o.messageId ::
          t == found.value;
    } else {
      assert forall t | t in db.transactions :: !HoldsTx(db, t, Out, o.messageId);
    }
  }

  lemma InboundKeepsOutbound(db: Db, sender: string, recipient: string, amount: string, messageId: string, rowId: nat)
    ensures var d := G.RecordInbound(db, sender, recipient, amount, messageId, rowId);
            forall t | t in d.transactions && d.transactions[t].direction == Out :: t in db.transactions && d.transactions[t] == db.transactions[t]
  {
  }

  lemma ReceiveKeepsOutbound(db: Db, sender: string, messageId: string, recipient: string, amount: string, r: G.Rendering, now: int)
    requires Sound(db)
    ensures var d := G.Deliver(db, sender, messageId, recipient, amount, r, now).db;
            forall t | t in d.transactions && d.transactions[t].direction == Out :: t in db.transactions && d.transactions[t] == db.transactions[t]
  {
    hide AppendMessage, G.RecordInbound, Sound;
    var user := GetUser(db, G.UserHalf(recipient));
    if user.Some? {
      var m := NewMessage(messageId, r.subject, r.body, 0, sender, r.trustState);
      G.AppendSound(db, user.value, INBOX, m, now);
      var a := AppendMessage(db, user.value, INBOX, m, now);
      if a.Appended? {
        InboundKeepsOutbound(a.db, sender, recipient, amount, messageId, a.rowId);
      }
    }
  }

  /** Every outbound row was there before, names the same parties, and says Sent only if it said so. */
  ghost predicate NoNewSent(was: map<nat, TxRow>, now: map<nat, TxRow>) {
    forall t | t in now && now[t].direction == Out ::
      t in was && G.SameParties(was[t], now[t]) && (now[t].state == Sent ==> was[t].state == Sent)
  }

  lemma RowNotSent(t: map<nat, TxRow>, id: nat, row: TxRow)
    requires id in t && G.SameParties(t[id], row) && row.state != Sent
    ensures NoNewSent(t, t[id := row])
  {
  }

  lemma HereKeepsSent(db: Db, step: G.Step)
    requires Sound(db) && !step.Send? && !step.Retry?
    ensures NoNewSent(db.transactions, G.Next(db, step).transactions)
  {
    hide G.Deliver, Sound, SetFlags, Expunge, NoNewSent;
    SameSent(db.transactions);
    match step
    case Receive(sender, messageId, recipient, amount, r, now) => ReceiveKeepsSent(db, sender, messageId, recipient, amount, r, now);
    case Resolve(id, binding) =>
      if id in db.transactions && db.transactions[id].direction == In {
        RowNotSent(db.transactions, id, G.ResolvedRow(db.transactions[id], binding));
        G.ResolveIs(db, id, binding);
      }
    case MarkSpent(id) =>
      if id in db.transactions { RowNotSent(db.transactions, id, db.transactions[id].(state := Spent)); }
    case Fail(id) =>
      if id in db.transactions { RowNotSent(db.transactions, id, db.transactions[id].(state := Failed)); }
    case SetFlag(mailboxId, rowId, mask, value) => G.FlagsKeepLedger(db, mailboxId, rowId, mask, value);
    case Clear(mailboxId) => G.ExpungeKeepsLedger(db, mailboxId);
  }

  lemma SameSent(t: map<nat, TxRow>)
    ensures NoNewSent(t, t)
  {
  }

  lemma ReceiveKeepsSent(db: Db, sender: string, messageId: string, recipient: string, amount: string, r: G.Rendering, now: int)
    requires Sound(db)
    ensures NoNewSent(db.transactions, G.Deliver(db, sender, messageId, recipient, amount, r, now).db.transactions)
  {
    hide G.Deliver, Sound;
    ReceiveKeepsOutbound(db, sender, messageId, recipient, amount, r, now);
  }

  /** A step that would mark a row Sent finds the message in the INBOX of the recipient the row already names. */
  ghost predicate Honest(cfg: S.Config, n: Net, step: Step) {
    step.Finish? && Ends(cfg, n, step.id, step.budget)
    && Recorded(TalkOf(cfg, n.attempts[step.id], step.budget).end, step.direct) == Some(Sent) ==>
      var messageId := n.attempts[step.id].o.messageId;
      forall t | HoldsTx(n.here, t, Out, messageId) :: InInbox(n.there, G.UserHalf(n.here.transactions[t].recipientMailbox), messageId)
  }

  lemma RowStays(db: Db, o: G.Outgoing, state: TxState, r: G.Rendering, now: int, tx: nat)
    requires Sound(db) && tx in db.transactions
    ensures tx in G.RecordOutbound(db, o, state, r, now).transactions
            && G.SameParties(db.transactions[tx], G.RecordOutbound(db, o, state, r, now).transactions[tx])
  {
    hide AppendMessage, Sound;
    var c := G.RecordState(db, o, state);
    G.RecordStateSound(db, o, state);
    var user := GetUser(c.db, o.senderUser);
    if user.Some? {
      G.AppendSound(c.db, user.value, SENT, NewMessage(o.messageId, r.subject, r.body, 0, o.recipient, "unverified"), now);
    }
  }

  lemma RecordNotSent(here: Db, there: Db, o: G.Outgoing, state: Option<TxState>, r: G.Rendering, now: int)
    requires Sound(here) && SentIsReceived(here, there) && state != Some(Sent)
    ensures SentIsReceived(Record(here, o, state, r, now), there)
  {
    hide Sound, G.RecordOutbound, InInbox;
    if state.Some? { OutboundRows(here, o, state.value, r, now); }
  }

  lemma RecordSentExactly(here: Db, there: Db, o: G.Outgoing, r: G.Rendering, now: int)
    requires Sound(here) && SentIsReceived(here, there) && InInbox(there, G.UserHalf(o.recipient), o.messageId)
    ensures SentIsReceived(Record(here, o, Some(Sent), r, now), there)
       <==> forall t | HoldsTx(here, t, Out, o.messageId) :: InInbox(there, G.UserHalf(here.transactions[t].recipientMailbox), o.messageId)
  {
    hide Sound, G.RecordOutbound, InInbox;
    OutboundRows(here, o, Sent, r, now);
    forall t | t in here.transactions
      ensures t in G.RecordOutbound(here, o, Sent, r, now).transactions
              && G.SameParties(here.transactions[t], G.RecordOutbound(here, o, Sent, r, now).transactions[t])
    {
      RowStays(here, o, Sent, r, now, t);
    }
  }

  lemma FinishExactly(cfg: S.Config, n: Net, id: nat, budget: L.Budget, direct: bool, r: G.Rendering, now: int)
    requires Ready(cfg) && Base(cfg, n) && SentIsReceived(n.here, n.there)
    ensures var m := Next(cfg, n, Finish(id, budget, direct, r, now));
            SentIsReceived(m.here, m.there) <==> Honest(cfg, n, Finish(id, budget, direct, r, now))
  {
    hide Sound, SentIsReceived, InInbox, Sized, Talk, Possible, Record;
    if Ends(cfg, n, id, budget) {
      var a := n.attempts[id];
      var end := TalkOf(cfg, a, budget).end;
      var state := Recorded(end, direct);
      assert AttemptFits(cfg, n.there, a);
      AcceptedPossible(a.o);
      TalkIsCredible(cfg, a.o, a.wire, Answer(a), budget);
      if state == Some(Sent) {
        SentMeansDone(end, direct);
        RecordSentExactly(n.here, n.there, a.o, r, now);
      } else {
        RecordNotSent(n.here, n.there, a.o, state, r, now);
      }
    }
  }

  lemma SentMeansDone(end: G.Ending, direct: bool)
    requires Recorded(end, direct) == Some(Sent)
    ensures end.Exchanged? && end.outcome.Done?
  {
  }

  lemma UnsentEndings(end: G.Ending, direct: bool)
    requires !end.Exchanged?
    ensures Recorded(end, direct) != Some(Sent)
  {
  }

  /** One step of two daemons keeps "Sent means received" if and only if it is honest. */
  lemma StepExactly(cfg: S.Config, n: Net, step: Step)
    requires Ready(cfg) && Base(cfg, n) && Proper(cfg, n, step) && SentIsReceived(n.here, n.there)
    ensures SentIsReceived(Next(cfg, n, step).here, Next(cfg, n, step).there) <==> Honest(cfg, n, step)
  {
    hide Sound, Grows, CreateUser, G.Next, Record, TalkOf, SentIsReceived, AttemptFits, Sized, G.Deliver;
    match step
    case Begin(id, o, wire) =>
    case Again(id, tx, domain, wire) =>
    case GiveUp(id, end, direct, r, now) =>
      if id in n.attempts && !end.Exchanged? {
        UnsentEndings(end, direct);
        RecordNotSent(n.here, n.there, n.attempts[id].o, Recorded(end, direct), r, now);
      }
    case Arrive(id, budget, r, now) =>
      if Arrives(cfg, n, id, budget) {
        Arrival(cfg, n, id, budget, r, now);
        ReceivedLater(n.here, n.there, Next(cfg, n, step).there);
      }
    case Finish(id, budget, direct, r, now) => FinishExactly(cfg, n, id, budget, direct, r, now);
    case Here(s) => HereReceived(n, s);
    case There(s) =>
      StepGrows(n.there, s);
      ReceivedLater(n.here, n.there, G.Next(n.there, s));
    case RegisterThere(username, passwordHash, at) =>
      RegisterGrows(n.there, username, passwordHash, at);
      if CreateUser(n.there, username, passwordHash, at).Registered? {
        ReceivedLater(n.here, n.there, CreateUser(n.there, username, passwordHash, at).db);
      }
  }

  lemma HereReceived(n: Net, s: G.Step)
    requires Sound(n.here) && !s.Send? && !s.Retry? && SentIsReceived(n.here, n.there)
    ensures SentIsReceived(G.Next(n.here, s), n.there)
  {
    hide Sound, G.Next, InInbox;
    HereKeepsSent(n.here, s);
  }

  // ---------------------------------------------------------------------- runs

  ghost function After(cfg: S.Config, n: Net, steps: seq<Step>): Net
    decreases |steps|
  {
    if steps == [] then n else After(cfg, Next(cfg, n, steps[0]), steps[1..])
  }

  ghost predicate ProperRun(cfg: S.Config, n: Net, steps: seq<Step>)
    decreases |steps|
  {
    steps == [] || (Proper(cfg, n, steps[0]) && ProperRun(cfg, Next(cfg, n, steps[0]), steps[1..]))
  }

  ghost predicate HonestRun(cfg: S.Config, n: Net, steps: seq<Step>)
    decreases |steps|
  {
    steps == [] || (Honest(cfg, n, steps[0]) && HonestRun(cfg, Next(cfg, n, steps[0]), steps[1..]))
  }

  /** In every state of the run a row that says Sent is in its recipient's INBOX. */
  ghost predicate AlwaysReceived(cfg: S.Config, n: Net, steps: seq<Step>)
    decreases |steps|
  {
    SentIsReceived(n.here, n.there) && (steps == [] || AlwaysReceived(cfg, Next(cfg, n, steps[0]), steps[1..]))
  }

  /** Whatever connections break, at whatever byte, whatever is sent twice or retried, and in whatever order: no mailbox
      ever holds two copies of a message id; and at every moment every row that says Sent is in its recipient's INBOX,
      if and only if no row was marked Sent while the recipient it names had not got the message. */
  lemma {:induction false} SentMeansReceivedExactly(cfg: S.Config, n: Net, steps: seq<Step>)
    requires Ready(cfg) && Base(cfg, n) && SentIsReceived(n.here, n.there) && ProperRun(cfg, n, steps)
    ensures AlwaysReceived(cfg, n, steps) <==> HonestRun(cfg, n, steps)
    decreases |steps|
  {
    hide Next, Base, Proper, Honest, SentIsReceived;
    if steps != [] {
      StepKeepsBase(cfg, n, steps[0]);
      StepExactly(cfg, n, steps[0]);
      if Honest(cfg, n, steps[0]) {
        SentMeansReceivedExactly(cfg, Next(cfg, n, steps[0]), steps[1..]);
      } else {
        NotNow(cfg, Next(cfg, n, steps[0]), steps[1..]);
      }
    }
  }

  lemma NotNow(cfg: S.Config, n: Net, steps: seq<Step>)
    requires !SentIsReceived(n.here, n.there)
    ensures !AlwaysReceived(cfg, n, steps)
  {
  }

  lemma {:induction false} RunsKeepBase(cfg: S.Config, n: Net, steps: seq<Step>)
    requires Ready(cfg) && Base(cfg, n) && ProperRun(cfg, n, steps)
    ensures Base(cfg, After(cfg, n, steps))
    ensures forall i, j, b, messageId ::
              (HoldsMessage(After(cfg, n, steps).there, i, b, messageId) && HoldsMessage(After(cfg, n, steps).there, j, b, messageId)) ==> i == j
    decreases |steps|
  {
    hide Next, Proper, AttemptFits;
    if steps != [] {
      StepKeepsBase(cfg, n, steps[0]);
      RunsKeepBase(cfg, Next(cfg, n, steps[0]), steps[1..]);
    }
  }

  // -------------------------------------------------- what the sender can check

  /** The row found under the message id names the attempt's recipient, or says Sent already. */
  ghost predicate RowAgrees(here: Db, o: G.Outgoing) {
    forall t | HoldsTx(here, t, Out, o.messageId) ::
      here.transactions[t].state == Sent || G.UserHalf(here.transactions[t].recipientMailbox) == G.UserHalf(o.recipient)
  }

  /** A step that would mark a row Sent finds a row that agrees: a test on the sender's own store. */
  ghost predicate Agreed(cfg: S.Config, n: Net, step: Step) {
    step.Finish? && Ends(cfg, n, step.id, step.budget)
    && Recorded(TalkOf(cfg, n.attempts[step.id], step.budget).end, step.direct) == Some(Sent) ==>
      RowAgrees(n.here, n.attempts[step.id].o)
  }

  ghost predicate AgreedRun(cfg: S.Config, n: Net, steps: seq<Step>)
    decreases |steps|
  {
    steps == [] || (Agreed(cfg, n, steps[0]) && AgreedRun(cfg, Next(cfg, n, steps[0]), steps[1..]))
  }

  lemma AgreedIsHonest(cfg: S.Config, n: Net, step: Step)
    requires Ready(cfg) && Base(cfg, n) && SentIsReceived(n.here, n.there) && Agreed(cfg, n, step)
    ensures Honest(cfg, n, step)
  {
    hide Sound, InInbox, Sized, Talk, Possible;
    if step.Finish? && Ends(cfg, n, step.id, step.budget) {
      var a := n.attempts[step.id];
      var end := TalkOf(cfg, a, step.budget).end;
      assert AttemptFits(cfg, n.there, a);
      AcceptedPossible(a.o);
      TalkIsCredible(cfg, a.o, a.wire, Answer(a), step.budget);
      if Recorded(end, step.direct) == Some(Sent) { SentMeansDone(end, step.direct); }
    }
  }

  /** Whatever connections break and whatever is sent twice or retried: if every send that succeeds finds a row that agrees,
      at every moment every row that says Sent is in its recipient's INBOX. */
  lemma {:induction false} AgreedMeansReceived(cfg: S.Config, n: Net, steps: seq<Step>)
    requires Ready(cfg) && Base(cfg, n) && SentIsReceived(n.here, n.there) && ProperRun(cfg, n, steps) && AgreedRun(cfg, n, steps)
    ensures AlwaysReceived(cfg, n, steps)
    decreases |steps|
  {
    hide Next, Base, Proper, Honest, SentIsReceived, Agreed;
    if steps != [] {
      StepKeepsBase(cfg, n, steps[0]);
      AgreedIsHonest(cfg, n, steps[0]);
      StepExactly(cfg, n, steps[0]);
      AgreedMeansReceived(cfg, Next(cfg, n, steps[0]), steps[1..]);
    }
  }

  /** What the sender knows of the net: its own store and the attempt. */
  function Known(n: Net, id: nat, there: Db): Net
    requires id in n.attempts
  {
    Net(n.here, there, map[id := n.attempts[id]])
  }

  /** A receiver's store that all the sender knows is consistent with. */
  ghost predicate Consistent(cfg: S.Config, n: Net, id: nat, there: Db)
    requires id in n.attempts
  {
    Base(cfg, Known(n, id, there)) && SentIsReceived(n.here, there)
  }

  /** The store without the other users' copies of a message id. */
  function Stripped(db: Db, user: string, messageId: string): Db {
    db.(messages := map m | m in db.messages && !OthersCopy(db, user, messageId, m) :: db.messages[m])
  }

  predicate OthersCopy(db: Db, user: string, messageId: string, m: nat)
    requires m in db.messages
  {
    var b := db.messages[m].mailboxId;
    db.messages[m].messageId == messageId
    && !(b in db.mailboxes && db.mailboxes[b].userId in db.users && db.users[db.mailboxes[b].userId].username == user)
  }

  lemma StrippedInboxes(db: Db, user: string, messageId: string, other: string, otherId: string)
    requires Sound(db)
    ensures InInbox(Stripped(db, user, messageId), other, otherId)
            <==> InInbox(db, other, otherId) && (otherId == messageId ==> other == user)
  {
    hide Sound;
    var d := Stripped(db, user, messageId);
    if InInbox(d, other, otherId) {
      var u, b, m :| NamedUser(d, u, other) && NamedMailbox(d, b, u, INBOX) && HoldsMessage(d, m, b, otherId);
      assert NamedUser(db, u, other) && NamedMailbox(db, b, u, INBOX) && HoldsMessage(db, m, b, otherId);
    }
    if InInbox(db, other, otherId) && (otherId == messageId ==> other == user) {
      var u, b, m :| NamedUser(db, u, other) && NamedMailbox(db, b, u, INBOX) && HoldsMessage(db, m, b, otherId);
      assert NamedUser(d, u, other) && NamedMailbox(d, b, u, INBOX) && HoldsMessage(d, m, b, otherId);
    }
  }

  lemma StrippedSound(db: Db, user: string, messageId: string)
    requires Sound(db)
    ensures Sound(Stripped(db, user, messageId))
  {
    hide OthersCopy;
  }

  /** A store in which the recipient a disagreeing row names has nothing. */
  lemma StrippedConsistent(cfg: S.Config, n: Net, id: nat, t: nat)
    requires Base(cfg, n) && SentIsReceived(n.here, n.there) && id in n.attempts && HoldsTx(n.here, t, Out, n.attempts[id].o.messageId)
    requires n.here.transactions[t].state != Sent
    ensures Consistent(cfg, n, id, Stripped(n.there, G.UserHalf(n.attempts[id].o.recipient), n.attempts[id].o.messageId))
  {
    hide InInbox, Sized, Possible, Stripped, G.UserHalf, UniqueUsers, UniqueMailboxes, UniqueMessages, ForeignKeys;
    var o, here := n.attempts[id].o, n.here;
    var user := G.UserHalf(o.recipient);
    var there := Stripped(n.there, user, o.messageId);
    StrippedSound(n.there, user, o.messageId);
    assert AttemptFits(cfg, n.there, n.attempts[id]);
    StrippedInboxes(n.there, user, o.messageId, user, o.messageId);
    forall s | s in here.transactions && here.transactions[s].direction == Out && here.transactions[s].state == Sent
      ensures InInbox(there, G.UserHalf(here.transactions[s].recipientMailbox), here.transactions[s].messageId)
    {
      StrippedInboxes(n.there, user, o.messageId, G.UserHalf(here.transactions[s].recipientMailbox), here.transactions[s].messageId);
    }
  }

  /** Exactly when the sender can be sure: recording a success keeps "Sent means received" for every receiver's store that
      is consistent with what the sender knows, if and only if the row it finds agrees. */
  lemma SureExactly(cfg: S.Config, n: Net, id: nat, budget: L.Budget, direct: bool, r: G.Rendering, now: int)
    requires Ready(cfg) && Base(cfg, n) && SentIsReceived(n.here, n.there) && Ends(cfg, n, id, budget)
    requires Recorded(TalkOf(cfg, n.attempts[id], budget).end, direct) == Some(Sent)
    ensures (forall there | Consistent(cfg, n, id, there) ::
               SentIsReceived(Next(cfg, Known(n, id, there), Finish(id, budget, direct, r, now)).here, there))
            <==> RowAgrees(n.here, n.attempts[id].o)
  {
    hide Sound, SentIsReceived, InInbox, Sized, TalkOf, AttemptFits, Record, G.UserHalf, Stripped;
    var o, finish := n.attempts[id].o, Finish(id, budget, direct, r, now);
    if RowAgrees(n.here, o) {
      forall there | Consistent(cfg, n, id, there)
        ensures SentIsReceived(Next(cfg, Known(n, id, there), finish).here, there)
      {
        AgreedIsHonest(cfg, Known(n, id, there), finish);
        FinishExactly(cfg, Known(n, id, there), id, budget, direct, r, now);
      }
    } else {
      var t :| HoldsTx(n.here, t, Out, o.messageId) && n.here.transactions[t].state != Sent
               && G.UserHalf(n.here.transactions[t].recipientMailbox) != G.UserHalf(o.recipient);
      var there := Stripped(n.there, G.UserHalf(o.recipient), o.messageId);
      StrippedConsistent(cfg, n, id, t);
      StrippedInboxes(n.there, G.UserHalf(o.recipient), o.messageId, G.UserHalf(n.here.transactions[t].recipientMailbox), o.messageId);
      FinishExactly(cfg, Known(n, id, there), id, budget, direct, r, now);
    }
  }

  // -------------------------------------------------- one recipient a message id

  /** Message ids are globally unique, so each has one recipient. */
  ghost predicate ByTheBook(book: string -> string, n: Net) {
    && (forall t | t in n.here.transactions && n.here.transactions[t].direction == Out ::
          n.here.transactions[t].recipientMailbox == book(n.here.transactions[t].messageId))
    && (forall i | i in n.attempts :: n.attempts[i].o.recipient == book(n.attempts[i].o.messageId))
  }

  predicate BookStep(book: string -> string, step: Step) {
    step.Begin? ==> step.o.recipient == book(step.o.messageId)
  }

  lemma RecordByTheBook(book: string -> string, n: Net, o: G.Outgoing, state: Option<TxState>, r: G.Rendering, now: int)
    requires Sound(n.here) && ByTheBook(book, n) && o.recipient == book(o.messageId)
    ensures ByTheBook(book, n.(here := Record(n.here, o, state, r, now)))
  {
    hide Sound, G.RecordOutbound;
    if state.Some? { OutboundRows(n.here, o, state.value, r, now); }
  }

  lemma StepByTheBook(book: string -> string, cfg: S.Config, n: Net, step: Step)
    requires Base(cfg, n) && Proper(cfg, n, step) && ByTheBook(book, n) && BookStep(book, step)
    ensures ByTheBook(book, Next(cfg, n, step))
  {
    hide Sound, CreateUser, G.Next, Record, TalkOf, Sized, G.Deliver, AttemptFits;
    match step
    case GiveUp(id, end, direct, r, now) =>
      if id in n.attempts { RecordByTheBook(book, n, n.attempts[id].o, Recorded(end, direct), r, now); }
    case Finish(id, budget, direct, r, now) =>
      if id in n.attempts {
        RecordByTheBook(book, n, n.attempts[id].o, Recorded(TalkOf(cfg, n.attempts[id], budget).end, direct), r, now);
      }
    case Here(s) => HereKeepsSent(n.here, s);
    case _ =>
  }

  /** With one recipient a message id, the row found always agrees. */
  lemma BookAgrees(book: string -> string, cfg: S.Config, n: Net, step: Step)
    requires ByTheBook(book, n)
    ensures Agreed(cfg, n, step)
  {
    hide TalkOf, G.UserHalf;
  }

  ghost predicate BookRun(book: string -> string, steps: seq<Step>) {
    forall i | 0 <= i < |steps| :: BookStep(book, steps[i])
  }

  /** Whatever connections break, whatever is sent twice or retried, with one recipient a message id and nothing
      expunged at the receiver: a row that says Sent is in its recipient's INBOX. */
  lemma SentMeansReceivedOnce(book: string -> string, cfg: S.Config, n: Net, steps: seq<Step>)
    requires Ready(cfg) && Base(cfg, n) && ByTheBook(book, n) && SentIsReceived(n.here, n.there)
    requires ProperRun(cfg, n, steps) && BookRun(book, steps)
    ensures AlwaysReceived(cfg, n, steps)
  {
    hide Base, ByTheBook, SentIsReceived, ProperRun, AgreedRun, BookRun, AlwaysReceived;
    BookRunAgrees(book, cfg, n, steps);
    AgreedMeansReceived(cfg, n, steps);
  }

  lemma {:induction false} BookRunAgrees(book: string -> string, cfg: S.Config, n: Net, steps: seq<Step>)
    requires Ready(cfg) && Base(cfg, n) && ByTheBook(book, n) && ProperRun(cfg, n, steps) && BookRun(book, steps)
    ensures AgreedRun(cfg, n, steps)
    decreases |steps|
  {
    hide Next, Base, Proper, Agreed, ByTheBook, BookStep;
    if steps != [] {
      StepKeepsBase(cfg, n, steps[0]);
      BookAgrees(book, cfg, n, steps[0]);
      StepByTheBook(book, cfg, n, steps[0]);
      BookRunAgrees(book, cfg, Next(cfg, n, steps[0]), steps[1..]);
    }
  }

  /** Two stores with no mail and no ledger start in order. */
  lemma FreshNet(book: string -> string, cfg: S.Config, here: Db, there: Db)
    requires Sound(here) && Sound(there) && here.transactions == map[]
    ensures var n := Net(here, there, map[]); Base(cfg, n) && ByTheBook(book, n) && SentIsReceived(here, there)
  {
  }

  // ------------------------------------------------------- two recipients for one id

  /** On a whole connection, with the right key and a fresh clock, a known recipient and a sink that accepts. */
  lemma WholeTalk(cfg: S.Config, o: G.Outgoing, w: Wire)
    requires Ready(cfg) && cfg.p.Lawful() && w.pub == cfg.p.publicKey(cfg.key)
    requires L.LetterFits(cfg, o.domain, EnvOf(w, S.Accepted(o.messageId)), LetterOf(o, w))
    requires G.UserHalf(o.recipient) != "" && S.Known(w.env, G.UserHalf(o.recipient))
    ensures var t := Talk(cfg, o, w, S.Accepted(o.messageId), L.WHOLE); t.calls != [] && t.end == G.Exchanged(L.Done)
  {
    hide L.ReadGreeting, L.Dial, L.SendInvoiceOver, L.LetterFits, L.LineFits, L.LetterCall, G.UserHalf;
    L.ConnectInStep(cfg, o.domain);
    var l := L.ReadGreeting(L.Dial(cfg, o.domain, L.WHOLE)).0;
    L.SendInvoiceInStep(cfg, l, EnvOf(w, S.Accepted(o.messageId)), LetterOf(o, w));
  }

  lemma FirstDelivery(cfg: S.Config, o: G.Outgoing, r: G.Rendering, now: int)
    requires G.UserHalf(o.recipient) != ""
    ensures var there := UidRuns.OneUser(G.UserHalf(o.recipient), 0);
            var d := LetterDelivery(cfg, there, o, r, now);
            d.outcome == S.Accepted(o.messageId) && d.db.users == there.users
  {
    var user := G.UserHalf(o.recipient);
    var there := UidRuns.OneUser(user, 0);
    UserHalfAgain(o.recipient, cfg.domain);
    hide G.UserHalf, G.RecordInbound;
    assert NamedUser(there, 1, user) && GetUser(there, user) == Some(1);
    assert INBOX[0] != SENT[0];
    assert NamedMailbox(there, 1, 1, INBOX) && MailboxNamed(there, 1, INBOX) == Some(1);
    assert forall id :: !HoldsMessage(there, id, 1, o.messageId);
    var m := NewMessage(o.messageId, r.subject, r.body, 0, o.senderUser + "@" + o.domain, r.trustState);
    var a := AppendMessage(there, 1, INBOX, m, now);
    assert a.Appended? && a.db.users == there.users;
    InboundKeepsMail(a.db, o.senderUser + "@" + o.domain, G.UserHalf(o.recipient) + "@" + cfg.domain, "", o.messageId, a.rowId);
  }

  /** The sender failed to reach a first recipient; the receiver knows only the second. */
  function TwoRecipients(o: G.Outgoing, first: string): Net {
    Net(EMPTY.(transactions := map[1 := G.OutboundRow(o.(recipient := first), Failed)]),
        UidRuns.OneUser(G.UserHalf(o.recipient), 0), map[])
  }

  lemma TwoRecipientsBase(cfg: S.Config, o: G.Outgoing, first: string)
    ensures var n := TwoRecipients(o, first); Base(cfg, n) && SentIsReceived(n.here, n.there) && HoldsTx(n.here, 1, Out, o.messageId)
  {
    assert INBOX[0] != SENT[0];
  }

  /** Why one recipient a message id: the id is sent again, to somebody else, and that send succeeds. The row then says
      Sent and still names the first recipient, who has nothing. */
  lemma SecondRecipientMisrecorded(cfg: S.Config, o: G.Outgoing, w: Wire, first: string, r: G.Rendering, now: int)
    requires Ready(cfg) && cfg.p.Lawful() && w.pub == cfg.p.publicKey(cfg.key) && Sized(cfg, o, w)
    requires L.LetterFits(cfg, o.domain, EnvOf(w, S.Accepted(o.messageId)), LetterOf(o, w))
    requires G.HasDomain(o.recipient) && G.UserHalf(o.recipient) != "" && S.Known(w.env, G.UserHalf(o.recipient))
    requires o.senderUser != "" && G.UserHalf(first) != G.UserHalf(o.recipient)
    ensures var n := TwoRecipients(o, first);
            var steps := [Begin(0, o, w), Arrive(0, L.WHOLE, r, now), Finish(0, L.WHOLE, false, r, now)];
            && SentIsReceived(n.here, n.there) && ProperRun(cfg, n, steps)
            && !SentIsReceived(After(cfg, n, steps).here, After(cfg, n, steps).there)
  {
    hide Talk, Sized, Base, SentIsReceived, Ready, G.UserHalf, LetterDelivery, L.LetterFits, G.OutboundRow, Record;
    var n := TwoRecipients(o, first);
    var steps := [Begin(0, o, w), Arrive(0, L.WHOLE, r, now), Finish(0, L.WHOLE, false, r, now)];
    TwoRecipientsBase(cfg, o, first);
    WholeTalk(cfg, o, w);
    FirstDelivery(cfg, o, r, now);
    var n1 := Next(cfg, n, steps[0]);
    assert n1 == n.(attempts := map[0 := Attempt(o, w, None, false)]);
    StepKeepsBase(cfg, n, steps[0]);
    StepExactly(cfg, n, steps[0]);
    var d := LetterDelivery(cfg, n1.there, o, r, now);
    ArrivalIs(cfg, n1, 0, L.WHOLE, r, now);
    StepKeepsBase(cfg, n1, steps[1]);
    StepExactly(cfg, n1, steps[1]);
    var n2 := Next(cfg, n1, steps[1]);
    FinishExactly(cfg, n2, 0, L.WHOLE, false, r, now);
    NobodyThere(n2.there, G.UserHalf(o.recipient), G.UserHalf(first), o.messageId);
    assert n2.here.transactions[1].recipientMailbox == first by { FirstNamed(o, first); }
    ThreeSteps(cfg, n, steps, n1, n2);
  }

  lemma FirstNamed(o: G.Outgoing, first: string)
    ensures G.OutboundRow(o.(recipient := first), Failed).recipientMailbox == first
  {
  }

  lemma NobodyThere(db: Db, user: string, other: string, messageId: string)
    requires db.users == UidRuns.OneUser(user, 0).users && other != user
    ensures !InInbox(db, other, messageId)
  {
  }

  lemma ThreeSteps(cfg: S.Config, n: Net, steps: seq<Step>, n1: Net, n2: Net)
    requires |steps| == 3 && n1 == Next(cfg, n, steps[0]) && n2 == Next(cfg, n1, steps[1])
    ensures After(cfg, n, steps) == Next(cfg, n2, steps[2])
    ensures ProperRun(cfg, n, steps) <==> Proper(cfg, n, steps[0]) && Proper(cfg, n1, steps[1]) && Proper(cfg, n2, steps[2])
  {
    hide Next, Proper;
    var s1 := steps[1..];
    var s2 := s1[1..];
    assert s1[0] == steps[1] && s2[0] == steps[2] && s2[1..] == [];
    var n3 := Next(cfg, n2, steps[2]);
    assert After(cfg, n3, []) == n3 && ProperRun(cfg, n3, []);
    assert After(cfg, n2, s2) == After(cfg, n3, s2[1..]) && (ProperRun(cfg, n2, s2) <==> Proper(cfg, n2, steps[2]));
    assert After(cfg, n1, s1) == After(cfg, n2, s2);
    assert ProperRun(cfg, n1, s1) <==> Proper(cfg, n1, steps[1]) && ProperRun(cfg, n2, s2);
  }
}
