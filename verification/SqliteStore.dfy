/** The store as an object: each method runs its statements on the tables, and is proved to be the step of the
    same name on their contents. */
module SqliteStore {
  import opened Utf8
  import opened MailStore
  import opened Listing
  import UserDeletion

  /** The messages an expunge of the mailbox takes away. */
  function DoomedIn(db: Db, mailboxId: nat): (ids: set<nat>)
    ensures ids <= db.messages.Keys
  {
    set id | id in db.messages && Doomed(db.messages[id], mailboxId)
  }

  /** Their UIDs as reported, ascending. */
  function DoomedUids(db: Db, mailboxId: nat): (uids: seq<nat>)
    ensures |uids| == |DoomedIn(db, mailboxId)|
  {
    Reported(db.messages, ByUid(db.messages, DoomedIn(db, mailboxId)))
  }

  function AsU32(n: nat): nat {
    n % U32
  }

  /** UIDs of rows in listing order, turned round. */
  function Reported(t: map<nat, MessageRow>, rows: seq<nat>): (uids: seq<nat>)
    requires forall i | 0 <= i < |rows| :: rows[i] in t
    ensures |uids| == |rows| && forall i | 0 <= i < |uids| :: uids[i] == AsU32(t[rows[|rows| - 1 - i]].uid)
  {
    if rows == [] then [] else Reported(t, rows[1..]) + [AsU32(t[rows[0]].uid)]
  }

  /** An expunge removes the messages marked deleted in its mailbox and nothing else. */
  lemma ExpungeRemoves(db: Db, mailboxId: nat)
    ensures Expunge(db, mailboxId).messages.Keys == db.messages.Keys - DoomedIn(db, mailboxId)
    ensures forall id | id in Expunge(db, mailboxId).messages :: Expunge(db, mailboxId).messages[id] == db.messages[id]
  {
    hide Doomed;
  }

  /** What an expunge reports is what it removes: a number for each message that goes, and in ascending order when
      the UIDs fit 32 bits. */
  lemma ExpungeReportsRemoved(db: Db, mailboxId: nat)
    ensures forall id | id in DoomedIn(db, mailboxId) :: AsU32(db.messages[id].uid) in DoomedUids(db, mailboxId)
    ensures (forall id | id in DoomedIn(db, mailboxId) :: db.messages[id].uid < U32) ==>
              var uids := DoomedUids(db, mailboxId); forall i, j | 0 <= i < j < |uids| :: uids[i] <= uids[j]
  {
    hide Doomed, ByUid, DoomedIn, AsU32, Reported;
    var ids := DoomedIn(db, mailboxId);
    var rows := ByUid(db.messages, ids);
    ByUidOrdered(db.messages, ids);
    forall id | id in ids ensures AsU32(db.messages[id].uid) in DoomedUids(db, mailboxId) {
      ReportedHas(db.messages, rows, id);
    }
    if forall id | id in ids :: db.messages[id].uid < U32 {
      ReportedUp(db.messages, rows);
      assert DoomedUids(db, mailboxId) == Reported(db.messages, rows);
    }
  }

  lemma ReportedHas(t: map<nat, MessageRow>, rows: seq<nat>, id: nat)
    requires (forall i | 0 <= i < |rows| :: rows[i] in t) && id in rows
    ensures AsU32(t[id].uid) in Reported(t, rows)
  {
    hide AsU32, Reported;
    var k :| 0 <= k < |rows| && rows[k] == id;
    assert Reported(t, rows)[|rows| - 1 - k] == AsU32(t[id].uid);
  }

  lemma ReportedUp(t: map<nat, MessageRow>, rows: seq<nat>)
    requires forall i | 0 <= i < |rows| :: rows[i] in t && t[rows[i]].uid < U32
    requires forall i, j | 0 <= i < j < |rows| :: Newer(t, rows[i], rows[j])
    ensures var uids := Reported(t, rows); forall i, j | 0 <= i < j < |uids| :: uids[i] <= uids[j]
  {
    hide Reported;
    var uids := Reported(t, rows);
    forall i, j | 0 <= i < j < |uids| ensures uids[i] <= uids[j] {
      assert Newer(t, rows[|rows| - 1 - j], rows[|rows| - 1 - i]);
    }
  }

  datatype AppendOutcome = Stored(rowId: nat) | DuplicateId | NoMailbox

  lemma RefusedIs(db: Db, id: nat, mailboxId: nat, uid: nat, msg: NewMessage, now: int)
    requires HoldsMessage(db, id, mailboxId, msg.messageId)
    ensures InsertMessage(db, mailboxId, uid, msg, now) == Duplicate
  {
  }

  lemma InsertedIs(db: Db, mailboxId: nat, uid: nat, msg: NewMessage, now: int)
    requires forall id :: !HoldsMessage(db, id, mailboxId, msg.messageId)
    ensures InsertMessage(db, mailboxId, uid, msg, now)
         == if mailboxId !in db.mailboxes then StorageError
            else
              var box := db.mailboxes[mailboxId];
              Appended(Db(db.users, db.keyring, db.shares,
                          db.mailboxes[mailboxId := box.(uidnext := box.uidnext + 1)],
                          db.messages[NextId(db.messages.Keys) := MessageRowOf(mailboxId, uid, msg, now)],
                          db.transactions), NextId(db.messages.Keys))
  {
  }

  lemma DeletedIs(db: Db, id: nat, username: string)
    requires Sound(db)
    ensures UserDeletion.DeleteUser(db, id, username)
         == Db(db.users - {id}, UserDeletion.OthersKeyring(db.keyring, id), UserDeletion.OthersShares(db.shares, id),
               UserDeletion.OthersMailboxes(db.mailboxes, id), UserDeletion.OthersMessages(db.mailboxes, db.messages, id),
               UserDeletion.OthersLedger(db.mailboxes, db.messages, db.transactions, id, username))
    ensures Sound(UserDeletion.DeleteUser(db, id, username))
  {
    hide Sound;
    UserDeletion.AfterStatementsAre(db, id, username, 6);
    UserDeletion.EveryStatementKeepsForeignKeys(db, id, username, 6);
  }

  lemma CreatedIs(db: Db, username: string, passwordHash: string, now: nat)
    ensures CreateUser(db, username, passwordHash, now)
         == if exists id :: NamedUser(db, id, username) then NameTaken
            else
              var id := NextId(db.users.Keys);
              Registered(Db(db.users[id := UserRow(username, passwordHash)], db.keyring, db.shares,
                            WithMailboxes(db.mailboxes, NextId(db.mailboxes.Keys), id, now % U32), db.messages, db.transactions), id)
  {
  }

  lemma WithMailboxesIs(t: map<nat, MailboxRow>, box: nat, userId: nat, validity: nat)
    ensures WithMailboxes(t, box, userId, validity)
         == t[box := MailboxRow(userId, INBOX, validity, 1)][box + 1 := MailboxRow(userId, SENT, validity, 1)]
  {
  }

  class SqliteMailStore {
    var users: map<nat, UserRow>
    var keyring: map<(nat, string), string>
    var shares: map<(nat, string), (Bytes, bool)>
    var mailboxes: map<nat, MailboxRow>
    var messages: map<nat, MessageRow>
    var transactions: map<nat, TxRow>

    function Model(): Db
      reads this
    {
      Db(users, keyring, shares, mailboxes, messages, transactions)
    }

    /** The schema's constraints hold. */
    ghost predicate Valid()
      reads this
    {
      Sound(Model())
    }

    constructor ()
      ensures Valid() && Model() == EMPTY
    {
      users, keyring, shares, mailboxes, messages, transactions := map[], map[], map[], map[], map[], map[];
    }

    method FindUser(username: string) returns (r: Option<nat>)
      requires Valid()
      ensures r == GetUser(Model(), username)
    {
      r := None;
      if id :| id in users && users[id].username == username {
        assert NamedUser(Model(), id, username);
        GetUserIs(Model(), id, username);
        r := Some(id);
      }
    }

    method FindMailbox(userId: nat, name: string) returns (r: Option<nat>)
      requires Valid()
      ensures r == MailboxNamed(Model(), userId, name)
    {
      r := None;
      if id :| id in mailboxes && mailboxes[id].userId == userId && mailboxes[id].name == name {
        assert NamedMailbox(Model(), id, userId, name);
        MailboxNamedIs(Model(), id, userId, name);
        r := Some(id);
      }
    }

    method Register(username: string, passwordHash: string, now: nat) returns (r: Option<nat>)
      requires Valid()
      modifies this
      ensures Valid()
      ensures var spec := CreateUser(old(Model()), username, passwordHash, now);
              if spec.Registered? then r == Some(spec.id) && Model() == spec.db else r == None && Model() == old(Model())
    {
      hide Sound, NextId, CreateUser, WithMailboxes;
      ghost var db := Model();
      var taken := FindUser(username);
      CreatedIs(db, username, passwordHash, now);
      if taken.Some? {
        assert NamedUser(db, taken.value, username);
        return None;
      }
      CreateUserSound(db, username, passwordHash, now);
      var id := NextId(users.Keys);
      users := users[id := UserRow(username, passwordHash)];
      var box := NextId(mailboxes.Keys);
      WithMailboxesIs(mailboxes, box, id, now % U32);
      mailboxes := mailboxes[box := MailboxRow(id, INBOX, now % U32, 1)];
      mailboxes := mailboxes[box + 1 := MailboxRow(id, SENT, now % U32, 1)];
      return Some(id);
    }

    method AppendMessageTo(userId: nat, mailbox: string, msg: NewMessage, now: int) returns (r: AppendOutcome)
      requires Valid()
      modifies this`mailboxes, this`messages
      ensures Valid()
      ensures match AppendMessage(old(Model()), userId, mailbox, msg, now)
              case Appended(db, rowId) => r == Stored(rowId) && Model() == db
              case Duplicate => r == DuplicateId && Model() == old(Model())
              case StorageError => r == NoMailbox && Model() == old(Model())
    {
      var box := FindMailbox(userId, mailbox);
      if box.None? { return NoMailbox; }
      r := InsertInto(box.value, mailboxes[box.value].uidnext, msg, now);
    }

    /** The second half of an append, under its own lock. */
    method InsertInto(mailboxId: nat, uid: nat, msg: NewMessage, now: int) returns (r: AppendOutcome)
      requires Valid()
      modifies this`mailboxes, this`messages
      ensures Valid()
      ensures match InsertMessage(old(Model()), mailboxId, uid, msg, now)
              case Appended(db, rowId) => r == Stored(rowId) && Model() == db
              case Duplicate => r == DuplicateId && Model() == old(Model())
              case StorageError => r == NoMailbox && Model() == old(Model())
    {
      hide Sound, NextId, MessageRowOf, InsertMessage;
      ghost var db := Model();
      InsertMessageSound(db, mailboxId, uid, msg, now);
      if id :| id in messages && messages[id].mailboxId == mailboxId && messages[id].messageId == msg.messageId {
        RefusedIs(db, id, mailboxId, uid, msg, now);
        return DuplicateId;
      }
      assert forall id :: !HoldsMessage(db, id, mailboxId, msg.messageId);
      InsertedIs(db, mailboxId, uid, msg, now);
      if mailboxId !in mailboxes { return NoMailbox; }
      var id := NextId(messages.Keys);
      messages := messages[id := MessageRowOf(mailboxId, uid, msg, now)];
      mailboxes := mailboxes[mailboxId := mailboxes[mailboxId].(uidnext := mailboxes[mailboxId].uidnext + 1)];
      return Stored(id);
    }

    method ListMessagesIn(userId: nat, mailbox: string) returns (r: Option<seq<Meta>>)
      requires Valid()
      ensures var box := MailboxNamed(Model(), userId, mailbox);
              r == if box.Some? then Some(ListMailbox(Model(), box.value)) else None
    {
      var box := FindMailbox(userId, mailbox);
      if box.None? { return None; }
      return Some(ListMailbox(Model(), box.value));
    }

    method FetchBodyIn(userId: nat, mailbox: string, rowId: nat) returns (r: Option<Bytes>)
      requires Valid()
      ensures var box := MailboxNamed(Model(), userId, mailbox);
              r == if box.Some? && rowId in messages && messages[rowId].mailboxId == box.value then Some(messages[rowId].body) else None
    {
      var box := FindMailbox(userId, mailbox);
      if box.Some? && rowId in messages && messages[rowId].mailboxId == box.value {
        return Some(messages[rowId].body);
      }
      return None;
    }

    method UidnextIn(userId: nat, mailbox: string) returns (r: Option<nat>)
      requires Valid()
      ensures var box := MailboxNamed(Model(), userId, mailbox);
              r == if box.Some? then Some(mailboxes[box.value].uidnext % U32) else None
    {
      var box := FindMailbox(userId, mailbox);
      return if box.Some? then Some(mailboxes[box.value].uidnext % U32) else None;
    }

    method SetFlagsIn(userId: nat, mailbox: string, rowId: nat, mask: bv32, value: bool) returns (found: bool)
      requires Valid()
      modifies this`messages
      ensures Valid()
      ensures var box := MailboxNamed(old(Model()), userId, mailbox);
              found == box.Some? && Model() == if box.Some? then SetFlags(old(Model()), box.value, rowId, mask, value) else old(Model())
    {
      var box := FindMailbox(userId, mailbox);
      if box.None? { return false; }
      SetFlagsSound(Model(), box.value, rowId, mask, value);
      hide Sound, Flagged;
      if rowId in messages && messages[rowId].mailboxId == box.value {
        var m := messages[rowId];
        messages := messages[rowId := m.(flags := Flagged(m.flags, mask, value))];
      }
      return true;
    }

    method ExpungeIn(userId: nat, mailbox: string) returns (r: Option<seq<nat>>)
      requires Valid()
      modifies this`messages
      ensures Valid()
      ensures var box := MailboxNamed(old(Model()), userId, mailbox);
              if box.Some? then r == Some(DoomedUids(old(Model()), box.value)) && Model() == Expunge(old(Model()), box.value)
              else r == None && Model() == old(Model())
    {
      var box := FindMailbox(userId, mailbox);
      if box.None? { return None; }
      ExpungeSound(Model(), box.value);
      hide Sound, Doomed;
      var uids := DoomedUids(Model(), box.value);
      messages := map id | id in messages && !Doomed(messages[id], box.value) :: messages[id];
      return Some(uids);
    }

    /** `delete_user`: six statements in one transaction. */
    method DeleteUser(username: string) returns (found: bool)
      requires Valid()
      modifies this
      ensures Valid()
      ensures var user := GetUser(old(Model()), username);
              found == user.Some? && Model() == if user.Some? then UserDeletion.DeleteUser(old(Model()), user.value, username) else old(Model())
    {
      hide Sound, UserDeletion.DeleteUser, UserDeletion.OthersKeyring, UserDeletion.OthersShares, UserDeletion.OthersLedger, UserDeletion.OthersMessages,
           UserDeletion.OthersMailboxes;
      ghost var db := Model();
      var user := FindUser(username);
      if user.None? { return false; }
      var id := user.value;
      DeletedIs(db, id, username);
      keyring := UserDeletion.OthersKeyring(keyring, id);
      shares := UserDeletion.OthersShares(shares, id);
      transactions := UserDeletion.OthersLedger(mailboxes, messages, transactions, id, username);
      messages := UserDeletion.OthersMessages(mailboxes, messages, id);
      mailboxes := UserDeletion.OthersMailboxes(mailboxes, id);
      users := users - {id};
      return true;
    }

    // ------------------------------------------------------------- the ledger

    method FindTx(direction: TxDirection, messageId: string) returns (r: Option<nat>)
      requires Valid()
      ensures r == TxByMessageId(Model(), direction, messageId)
    {
      r := None;
      if id :| id in transactions && transactions[id].direction == direction && transactions[id].messageId == messageId {
        assert HoldsTx(Model(), id, direction, messageId);
        assert TxByMessageId(Model(), direction, messageId) == Some(id);
        r := Some(id);
      }
    }

    /** `tx_create`: the UNIQUE constraint refuses a second row for a direction and message id. */
    method CreateTx(row: TxRow) returns (r: Option<nat>)
      requires Valid()
      modifies this`transactions
      ensures Valid()
      ensures var spec := TxCreate(old(Model()), row);
              if spec.Created? then r == Some(spec.id) && Model() == spec.db else r == None && Model() == old(Model())
    {
      ghost var db := Model();
      TxCreateSound(db, row);
      var found := FindTx(row.direction, row.messageId);
      hide Sound;
      if found.Some? {
        assert HoldsTx(db, found.value, row.direction, row.messageId);
        return None;
      }
      var id := NextId(transactions.Keys);
      transactions := transactions[id := row.(messageRowId := None)];
      return Some(id);
    }

    method LinkTx(txId: nat, rowId: nat)
      requires Valid()
      modifies this`transactions
      ensures Valid() && Model() == TxLink(old(Model()), txId, rowId)
    {
      LedgerUpdatesSound(Model(), rowId, txId, Opaque, None);
      hide Sound;
      if txId in transactions {
        transactions := transactions[txId := transactions[txId].(messageRowId := Some(rowId))];
      }
    }

    method TransitionTx(txId: nat, state: TxState) returns (found: bool)
      requires Valid()
      modifies this`transactions
      ensures found == (txId in old(transactions))
      ensures Valid() && Model() == TxTransition(old(Model()), txId, state)
    {
      LedgerUpdatesSound(Model(), 0, txId, state, None);
      hide Sound;
      found := txId in transactions;
      if found {
        transactions := transactions[txId := transactions[txId].(state := state)];
      }
    }

    method BindTx(txId: nat, binding: Option<string>) returns (found: bool)
      requires Valid()
      modifies this`transactions
      ensures found == (txId in old(transactions))
      ensures Valid() && Model() == TxSetBinding(old(Model()), txId, binding)
    {
      LedgerUpdatesSound(Model(), 0, txId, Opaque, binding);
      hide Sound;
      found := txId in transactions;
      if found {
        transactions := transactions[txId := transactions[txId].(binding := binding)];
      }
    }
  }
}
