/** What a delivery and a sending attempt leave in the store. */
module LedgerRecords {
  import opened Utf8
  import opened Text
  import opened Codec
  import opened MailStore
  import G = Ledger
  import S = ZsmtpServer
  import L = ZsmtpLink

  /** The only change to the mail: one message more, in the mailbox, under the UID its counter was at. */
  ghost predicate OneMore(db: Db, later: Db, box: nat, row: nat, msg: NewMessage, now: int) {
    && box in db.mailboxes && row !in db.messages
    && later.messages == db.messages[row := MessageRow(box, msg.messageId, db.mailboxes[box].uidnext, now, msg.flags, msg.subject, msg.body,
                                                       msg.sender, msg.trustState)]
    && later.mailboxes == db.mailboxes[box := db.mailboxes[box].(uidnext := db.mailboxes[box].uidnext + 1)]
  }

  lemma AppendIs(db: Db, userId: nat, mailbox: string, msg: NewMessage, now: int)
    ensures var a := AppendMessage(db, userId, mailbox, msg, now);
            && (a.Appended? ==> exists box :: NamedMailbox(db, box, userId, mailbox) && OneMore(db, a.db, box, a.rowId, msg, now)
                                              && a.db == db.(messages := a.db.messages, mailboxes := a.db.mailboxes)
                                              && forall id :: !HoldsMessage(db, id, box, msg.messageId))
            && (a.Duplicate? ==> exists box, id :: NamedMailbox(db, box, userId, mailbox) && HoldsMessage(db, id, box, msg.messageId))
            && (a.StorageError? ==> forall box :: !NamedMailbox(db, box, userId, mailbox))
  {
    var box := MailboxNamed(db, userId, mailbox);
    if box.Some? { assert NamedMailbox(db, box.value, userId, mailbox); }
  }

  // ------------------------------------------------------------------ inbound

  /** The ledger after a delivery: a row for it, linked to the message; or, when the message id has an inbound row already, as
      before. */
  ghost predicate InboundRecorded(was: map<nat, TxRow>, now: map<nat, TxRow>, sender: string, recipient: string, amount: string,
                                  messageId: string, row: nat) {
    if exists t | t in was :: was[t].direction == In && was[t].messageId == messageId then now == was
    else exists t: nat :: t !in was
           && now == was[t := TxRow(In, Opaque, sender, recipient, amount, None, messageId, Some(row), None, "sealed")]
  }

  lemma RecordInboundIs(db: Db, sender: string, recipient: string, amount: string, messageId: string, row: nat)
    ensures var d := G.RecordInbound(db, sender, recipient, amount, messageId, row);
            && d == db.(transactions := d.transactions)
            && InboundRecorded(db.transactions, d.transactions, sender, recipient, amount, messageId, row)
  {
    var d := G.RecordInbound(db, sender, recipient, amount, messageId, row);
    if exists t | t in db.transactions :: db.transactions[t].direction == In && db.transactions[t].messageId == messageId {
      var t :| t in db.transactions && db.transactions[t].direction == In && db.transactions[t].messageId == messageId;
      assert HoldsTx(db, t, In, messageId);
    } else {
      assert forall t :: !HoldsTx(db, t, In, messageId);
      var t := NextId(db.transactions.Keys);
      assert d.transactions == db.transactions[t := TxRow(In, Opaque, sender, recipient, amount, None, messageId, Some(row), None, "sealed")];
    }
  }

  /** A delivery is accepted exactly when the text before the `@` names a user with an INBOX that does not hold the message id.
      Then the INBOX has one message more, unflagged, with the sender, the rendered subject and body, and the trust state;
      and the ledger one inbound row more, of those parties and linked to it. Otherwise nothing changes. */
  lemma DeliverExactly(db: Db, sender: string, messageId: string, recipient: string, amount: string, r: G.Rendering, now: int)
    requires Sound(db)
    ensures var d, name := G.Deliver(db, sender, messageId, recipient, amount, r, now), G.UserHalf(recipient);
            && (d.outcome.Accepted? <==> exists user, box :: name != "" && NamedUser(db, user, name) && NamedMailbox(db, box, user, "INBOX")
                                                             && forall id :: !HoldsMessage(db, id, box, messageId))
            && (d.outcome.Accepted? ==>
                  && d.outcome == S.Accepted(messageId)
                  && exists user, box, row :: NamedUser(db, user, name) && NamedMailbox(db, box, user, "INBOX")
                       && OneMore(db, d.db, box, row, NewMessage(messageId, r.subject, r.body, 0, sender, r.trustState), now)
                       && d.db == db.(messages := d.db.messages, mailboxes := d.db.mailboxes, transactions := d.db.transactions)
                       && InboundRecorded(db.transactions, d.db.transactions, sender, recipient, amount, messageId, row))
            && (!d.outcome.Accepted? ==> d.db == db)
            && (d.outcome.RetryLater? <==> exists user :: name != "" && NamedUser(db, user, name)
                                                          && forall box :: !NamedMailbox(db, box, user, "INBOX"))
  {
    hide AppendMessage, G.RecordInbound, OneMore, InboundRecorded, UniqueMessages, UniqueTransactions, ForeignKeys, G.UserHalf;
    var name := G.UserHalf(recipient);
    var user := GetUser(db, name);
    forall u: nat | NamedUser(db, u, name) ensures user == Some(u) { GetUserIs(db, u, name); }
    if name != "" && user.Some? {
      var msg := NewMessage(messageId, r.subject, r.body, 0, sender, r.trustState);
      AppendIs(db, user.value, INBOX, msg, now);
      var a := AppendMessage(db, user.value, INBOX, msg, now);
      forall b: nat, c: nat | NamedMailbox(db, b, user.value, INBOX) && NamedMailbox(db, c, user.value, INBOX) ensures b == c {
        MailboxNamedIs(db, b, user.value, INBOX);
        MailboxNamedIs(db, c, user.value, INBOX);
      }
      if a.Appended? {
        RecordInboundIs(a.db, sender, recipient, amount, messageId, a.rowId);
        var d := G.RecordInbound(a.db, sender, recipient, amount, messageId, a.rowId);
        var box :| NamedMailbox(db, box, user.value, INBOX) && OneMore(db, a.db, box, a.rowId, msg, now)
                   && forall id :: !HoldsMessage(db, id, box, messageId);
        SameMail(db, a.db, d, box, a.rowId, msg, now);
        assert NamedUser(db, user.value, name) && NamedMailbox(db, box, user.value, "INBOX");
      }
      assert NamedUser(db, user.value, name);
    }
  }

  lemma SameMail(db: Db, a: Db, d: Db, box: nat, row: nat, msg: NewMessage, now: int)
    requires OneMore(db, a, box, row, msg, now) && d.messages == a.messages && d.mailboxes == a.mailboxes
    ensures OneMore(db, d, box, row, msg, now)
  {
  }

  // ----------------------------------------------------------------- outbound

  /** The outbound row of an attempt: made with the attempt's own letter, or the one there is, moved to the state; in either
      case perhaps linked to a copy. */
  ghost predicate OutboundRecorded(was: map<nat, TxRow>, now: map<nat, TxRow>, o: G.Outgoing, state: TxState) {
    exists t :: t in now
      && now == was[t := now[t]]
      && (if t in was then was[t].direction == Out && was[t].messageId == o.messageId
                           && now[t] == was[t].(state := state, messageRowId := now[t].messageRowId)
          else (forall i | i in was :: was[i].direction != Out || was[i].messageId != o.messageId)
               && now[t] == TxRow(Out, state, o.senderUser + "@" + o.domain, o.recipient, "", None, o.messageId, now[t].messageRowId,
                                  Some(o.body), match o.payload case Sealed => "sealed" case Plaintext => "plaintext"))
  }

  lemma RecordStateIs(db: Db, o: G.Outgoing, state: TxState)
    ensures var c := G.RecordState(db, o, state);
            && c.db == db.(transactions := c.db.transactions) && c.id in c.db.transactions
            && c.db.transactions == db.transactions[c.id := c.db.transactions[c.id]]
            && (if c.id in db.transactions
                then HoldsTx(db, c.id, Out, o.messageId) && c.db.transactions[c.id] == db.transactions[c.id].(state := state)
                else (forall i :: !HoldsTx(db, i, Out, o.messageId))
                     && c.db.transactions[c.id] == TxRow(Out, state, o.senderUser + "@" + o.domain, o.recipient, "", None, o.messageId, None,
                                                         Some(o.body), PayloadWord(o.payload)))
  {
    hide NextId;
  }

  /** Recording an attempt: the ledger holds the letter, in the state; the sender's Sent, if there is room for it, one copy more,
      addressed to the recipient; and nothing else changes. */
  lemma OutboundExactly(db: Db, o: G.Outgoing, state: TxState, r: G.Rendering, now: int)
    ensures var d := G.RecordOutbound(db, o, state, r, now);
            && OutboundRecorded(db.transactions, d.transactions, o, state)
            && d == db.(messages := d.messages, mailboxes := d.mailboxes, transactions := d.transactions)
            && ((d.messages == db.messages && d.mailboxes == db.mailboxes)
                || exists user, box, row :: NamedUser(db, user, o.senderUser) && NamedMailbox(db, box, user, "Sent")
                     && OneMore(db, d, box, row, NewMessage(o.messageId, r.subject, r.body, 0, o.recipient, "unverified"), now))
  {
    hide AppendMessage, G.RecordState, OneMore;
    RecordStateIs(db, o, state);
    var c := G.RecordState(db, o, state);
    var d := G.RecordOutbound(db, o, state, r, now);
    var msg := NewMessage(o.messageId, r.subject, r.body, 0, o.recipient, "unverified");
    var user := GetUser(c.db, o.senderUser);
    NoHolder(db, o.messageId);
    if user.Some? {
      AppendIs(c.db, user.value, SENT, msg, now);
      var a := AppendMessage(c.db, user.value, SENT, msg, now);
      if a.Appended? {
        var box :| NamedMailbox(c.db, box, user.value, SENT) && OneMore(c.db, a.db, box, a.rowId, msg, now);
        OneMoreSame(c.db, db, a.db, d, box, a.rowId, msg, now);
        assert NamedUser(db, user.value, o.senderUser) && NamedMailbox(db, box, user.value, "Sent");
        RecordedWith(db.transactions, d.transactions, c.id, o, state);
      } else {
        RecordedWith(db.transactions, d.transactions, c.id, o, state);
      }
    } else {
      RecordedWith(db.transactions, d.transactions, c.id, o, state);
    }
  }

  /** A send without a sender, or to a recipient without an `@`, records nothing; every other is recorded. A retry records only
      on an outbound row with a body and such a recipient. */
  lemma RefusedRecordsNothing(db: Db, o: G.Outgoing, end: G.Ending, id: nat, domain: string, r: G.Rendering, now: int)
    ensures G.Next(db, G.Send(o, end, r, now))
         == if o.senderUser != "" && (exists i | 0 <= i < |o.recipient| :: o.recipient[i] == '@') then G.RecordOutbound(db, o, G.Classify(end), r, now) else db
    ensures id !in db.transactions || db.transactions[id].direction == In || db.transactions[id].outboundBody.None?
            || (forall i | 0 <= i < |db.transactions[id].recipientMailbox| :: db.transactions[id].recipientMailbox[i] != '@') ==>
              G.Next(db, G.Retry(id, domain, end, r, now)) == db
  {
    hide G.RecordOutbound, G.Classify;
  }

  lemma NoHolder(db: Db, messageId: string)
    ensures (forall i :: !HoldsTx(db, i, Out, messageId))
       <==> forall i | i in db.transactions :: db.transactions[i].direction != Out || db.transactions[i].messageId != messageId
  {
    if forall i :: !HoldsTx(db, i, Out, messageId) {
      forall i | i in db.transactions ensures db.transactions[i].direction != Out || db.transactions[i].messageId != messageId {
        assert !HoldsTx(db, i, Out, messageId);
      }
    }
  }

  lemma RecordedWith(was: map<nat, TxRow>, now: map<nat, TxRow>, t: nat, o: G.Outgoing, state: TxState)
    requires t in now && now == was[t := now[t]]
    requires if t in was then was[t].direction == Out && was[t].messageId == o.messageId
                              && now[t] == was[t].(state := state, messageRowId := now[t].messageRowId)
             else (forall i | i in was :: was[i].direction != Out || was[i].messageId != o.messageId)
                  && now[t] == TxRow(Out, state, o.senderUser + "@" + o.domain, o.recipient, "", None, o.messageId, now[t].messageRowId,
                                     Some(o.body), PayloadWord(o.payload))
    ensures OutboundRecorded(was, now, o, state)
  {
  }

  lemma OneMoreSame(c: Db, db: Db, a: Db, d: Db, box: nat, row: nat, msg: NewMessage, now: int)
    requires OneMore(c, a, box, row, msg, now) && db.messages == c.messages && db.mailboxes == c.mailboxes
    requires d.messages == a.messages && d.mailboxes == a.mailboxes
    ensures OneMore(db, d, box, row, msg, now)
  {
  }

  // ---------------------------------------------------------------- settling

  /** Settling by hand changes one row, and of that its state alone, or its binding too. An inbound row is resolved, with the
      binding if one is given, or spent; an outbound row is left alone by both; either is failed. */
  lemma SettleExactly(db: Db, id: nat, binding: Option<string>)
    ensures var t := db.transactions;
            var inbound := id in t && t[id].direction == In;
            && G.Next(db, G.Resolve(id, binding))
               == (if inbound then db.(transactions := t[id := t[id].(state := Resolved, binding := if binding.Some? then binding else t[id].binding)]) else db)
            && G.Next(db, G.MarkSpent(id)) == (if inbound then db.(transactions := t[id := t[id].(state := Spent)]) else db)
            && G.Next(db, G.Fail(id)) == (if id in t then db.(transactions := t[id := t[id].(state := Failed)]) else db)
  {
  }

  /** A new user: with the name and the password hash given, and two empty mailboxes, INBOX and Sent, whose validity is the time
      as a 32-bit number; a name in use is refused. Nothing else changes. */
  lemma RegisterExactly(db: Db, username: string, passwordHash: string, now: nat)
    ensures var r := CreateUser(db, username, passwordHash, now);
            if exists id :: NamedUser(db, id, username) then r == NameTaken
            else r.Registered? && r.id !in db.users
                 && exists box: nat :: box !in db.mailboxes && box + 1 !in db.mailboxes
                      && r.db == db.(users := db.users[r.id := UserRow(username, passwordHash)],
                                     mailboxes := db.mailboxes[box := MailboxRow(r.id, "INBOX", now % 0x1_0000_0000, 1)]
                                                              [box + 1 := MailboxRow(r.id, "Sent", now % 0x1_0000_0000, 1)])
  {
    var box := NextId(db.mailboxes.Keys);
    assert box !in db.mailboxes && box + 1 !in db.mailboxes;
  }

  // -------------------------------------------------------------- the verdicts

  /** The state a send to a server in step is recorded in: Sent if the sink accepted, Retrying if it asked to be tried later,
      Failed if it refused or the recipient is unknown; and a retry from the command line records the same. */
  lemma VerdictRecorded(cfg: S.Config, l: L.Link, env: S.Env, m: L.Letter)
    requires cfg.p.Lawful() && L.InStep(cfg, l) && l.client.state == L.Connected && env.hasSink
    requires L.LetterFits(cfg, l.client.senderDomain, env, m)
    ensures var end := G.Exchanged(L.SendInvoiceOver(cfg, l, env, cfg.p.publicKey(cfg.key), m).1);
            var state := if m.recipient == "" || !S.Known(env, m.recipient) || env.outcome.Rejected? then Failed
                         else if env.outcome.Accepted? then Sent else Retrying;
            G.Classify(end) == state && G.ClassifyDirect(end) == Some(state)
  {
    hide L.SendInvoiceOver, L.LetterFits, L.InStep, S.Known, S.StatusLine;
    L.SendInvoiceInStep(cfg, l, env, m);
  }

  /** A send that never reached the server: the daemon fails what it cannot look up and retries what it cannot connect; the
      command line records no failed lookup, and fails what it cannot connect. Any error of the exchange but a request to
      come back later is a failure for both. */
  lemma UnreachedRecorded(end: G.Ending)
    ensures G.Classify(end) == Sent <==> end == G.Exchanged(L.Done)
    ensures G.Classify(end) == Retrying <==> end == G.ConnectFailed || (exists line :: end == G.Exchanged(L.Failed(L.RetryLaterBy(line))))
    ensures G.Classify(end) == Sent || G.Classify(end) == Retrying || G.Classify(end) == Failed
    ensures G.ClassifyDirect(end) == if end == G.KeyUnresolved || end == G.EndpointUnresolved then None
                                     else if end == G.ConnectFailed then Some(Failed) else Some(G.Classify(end))
  {
    if end.Exchanged? && end.outcome.Failed? && end.outcome.error.RetryLaterBy? {
      assert end == G.Exchanged(L.Failed(L.RetryLaterBy(end.outcome.error.line)));
    }
  }
}
