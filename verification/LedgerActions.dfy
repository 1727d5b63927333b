/** The callers of the store that deliver, send and settle: each does its updates in order, and is proved to be the
    step of the ledger it stands for. */
module LedgerActions {
  import opened Utf8
  import opened Text
  import opened MailStore
  import opened Ledger
  import opened SqliteStore
  import S = ZsmtpServer

  class StoreDeliverySink {
    const store: SqliteMailStore

    constructor (store: SqliteMailStore)
      ensures this.store == store
    {
      this.store := store;
    }

    /** `recipient_user`: the user, or the outcome that refuses the delivery. */
    method RecipientUser(recipient: string) returns (user: Option<nat>, refusal: S.DeliveryOutcome)
      requires store.Valid()
      ensures user == if UserHalf(recipient) == "" then None else GetUser(store.Model(), UserHalf(recipient))
      ensures user.None? ==> refusal.Rejected?
      ensures user.None? ==> forall sender, messageId, amount, r, now ::
                Deliver(store.Model(), sender, messageId, recipient, amount, r, now) == Delivered(store.Model(), refusal)
    {
      var name := UserHalf(recipient);
      if name == "" { return None, S.Rejected("malformed recipient mailbox"); }
      user := store.FindUser(name);
      refusal := S.Rejected("no such recipient: " + name);
    }

    /** `record_inbound_tx`: a refused row is logged and the delivery stands. */
    method RecordInboundTx(sender: string, recipient: string, amount: string, messageId: string, rowId: nat)
      requires store.Valid()
      modifies store`transactions
      ensures store.Valid() && store.Model() == RecordInbound(old(store.Model()), sender, recipient, amount, messageId, rowId)
    {
      hide Sound;
      var id := store.CreateTx(TxRow(In, Opaque, sender, recipient, amount, None, messageId, None, None, "sealed"));
      if id.Some? {
        store.LinkTx(id.value, rowId);
      }
    }

    /** `deliver` and `deliver_emulated`: the message into the INBOX, then the ledger row, then the link. */
    method DeliverTo(sender: string, messageId: string, recipient: string, amount: string, r: Rendering, now: int)
      returns (outcome: S.DeliveryOutcome)
      requires store.Valid()
      modifies store`mailboxes, store`messages, store`transactions
      ensures store.Valid()
      ensures Delivered(store.Model(), outcome) == Deliver(old(store.Model()), sender, messageId, recipient, amount, r, now)
    {
      hide Sound, AppendMessage, RecordInbound;
      var user, refusal := RecipientUser(recipient);
      if user.None? { return refusal; }
      var appended := store.AppendMessageTo(user.value, INBOX, NewMessage(messageId, r.subject, r.body, 0, sender, r.trustState), now);
      match appended
      case DuplicateId => return S.Rejected("duplicate message id: " + messageId);
      case NoMailbox => return S.RetryLater("storage error");
      case Stored(rowId) =>
        RecordInboundTx(sender, recipient, amount, messageId, rowId);
        return S.Accepted(messageId);
    }
  }

  /** `record_outbound_tx` of the daemon and `record_outbound` of the command-line tool. */
  method RecordOutboundTx(store: SqliteMailStore, o: Outgoing, state: TxState, r: Rendering, now: int)
    requires store.Valid()
    modifies store`mailboxes, store`messages, store`transactions
    ensures store.Valid() && store.Model() == RecordOutbound(old(store.Model()), o, state, r, now)
  {
    hide Sound, AppendMessage, TxCreate, TxTransition;
    ghost var recorded := RecordState(store.Model(), o, state);
    var txId: nat;
    var found := store.FindTx(Out, o.messageId);
    if found.Some? {
      var _ := store.TransitionTx(found.value, state);
      txId := found.value;
    } else {
      assert recorded == TxCreate(store.Model(), OutboundRow(o, state));
      var made := store.CreateTx(OutboundRow(o, state));
      txId := made.value;
    }
    assert store.Model() == recorded.db && txId == recorded.id;
    hide RecordState;
    var user := store.FindUser(o.senderUser);
    if user.None? { return; }
    var copy := store.AppendMessageTo(user.value, SENT, NewMessage(o.messageId, r.subject, r.body, 0, o.recipient, "unverified"), now);
    if copy.Stored? {
      store.LinkTx(txId, copy.rowId);
    }
  }

  /** `send`, given how the attempt ended. */
  method SendInvoice(store: SqliteMailStore, o: Outgoing, end: Ending, r: Rendering, now: int)
    requires store.Valid()
    modifies store`mailboxes, store`messages, store`transactions
    ensures store.Valid() && store.Model() == Next(old(store.Model()), Send(o, end, r, now))
  {
    hide Sound, RecordOutbound;
    if o.senderUser == "" || !HasDomain(o.recipient) { return; }
    RecordOutboundTx(store, o, Classify(end), r, now);
  }

  /** `tx retry`. */
  method RetryTx(store: SqliteMailStore, id: nat, domain: string, end: Ending, r: Rendering, now: int)
    requires store.Valid()
    modifies store`mailboxes, store`messages, store`transactions
    ensures store.Valid() && store.Model() == Next(old(store.Model()), Retry(id, domain, end, r, now))
  {
    hide Sound, RecordOutbound;
    if id !in store.transactions { return; }
    var tx := store.transactions[id];
    if tx.direction != Out || tx.outboundBody.None? || !HasDomain(tx.recipientMailbox) { return; }
    var state := ClassifyDirect(end);
    if state.None? { return; }
    RecordOutboundTx(store, Resent(tx, domain), state.value, r, now);
  }

  /** `tx resolve`. */
  method ResolveTx(store: SqliteMailStore, id: nat, binding: Option<string>) returns (ok: bool)
    requires store.Valid()
    modifies store`transactions
    ensures store.Valid() && store.Model() == Next(old(store.Model()), Resolve(id, binding))
    ensures ok == (id in old(store.transactions) && old(store.transactions)[id].direction == In)
  {
    hide Sound;
    if id !in store.transactions || store.transactions[id].direction != In { return false; }
    if binding.Some? {
      var _ := store.BindTx(id, binding);
    }
    ok := store.TransitionTx(id, Resolved);
  }

  /** `tx mark-spent`. */
  method MarkTxSpent(store: SqliteMailStore, id: nat) returns (ok: bool)
    requires store.Valid()
    modifies store`transactions
    ensures store.Valid() && store.Model() == Next(old(store.Model()), MarkSpent(id))
    ensures ok == (id in old(store.transactions) && old(store.transactions)[id].direction == In)
  {
    hide Sound;
    if id !in store.transactions || store.transactions[id].direction != In { return false; }
    ok := store.TransitionTx(id, Spent);
  }

  /** `tx fail`: no check of the direction. */
  method FailTx(store: SqliteMailStore, id: nat) returns (ok: bool)
    requires store.Valid()
    modifies store`transactions
    ensures store.Valid() && store.Model() == Next(old(store.Model()), Fail(id))
    ensures ok == (id in old(store.transactions))
  {
    hide Sound;
    ok := store.TransitionTx(id, Failed);
  }
}
