/** The mail store: its tables, the statements that change them, and the object that runs them. */
module MailStore {
  import opened Utf8
  import opened Text

  const INBOX: string := "INBOX"
  const SENT: string := "Sent"

  const SEEN: bv32 := 1
  const ANSWERED: bv32 := 2
  const FLAGGED: bv32 := 4
  const DELETED: bv32 := 8

  const U32: nat := 0x1_0000_0000

  datatype TxDirection = In | Out
  datatype TxState = Opaque | Resolved | Spent | Sent | Failed | Retrying

  datatype UserRow = UserRow(username: string, passwordHash: string)
  datatype MailboxRow = MailboxRow(userId: nat, name: string, uidvalidity: nat, uidnext: nat)
  datatype MessageRow = MessageRow(mailboxId: nat, messageId: string, uid: nat, internaldate: int, flags: bv32,
                                   subject: string, body: Bytes, sender: string, trustState: string)
  datatype TxRow = TxRow(direction: TxDirection, state: TxState, senderMailbox: string, recipientMailbox: string,
                         amount: string, binding: Option<string>, messageId: string, messageRowId: Option<nat>,
                         outboundBody: Option<Bytes>, payload: string)

  /** All tables, by primary key. */
  datatype Db = Db(
    users: map<nat, UserRow>,
    keyring: map<(nat, string), string>,
    shares: map<(nat, string), (Bytes, bool)>,
    mailboxes: map<nat, MailboxRow>,
    messages: map<nat, MessageRow>,
    transactions: map<nat, TxRow>)

  const EMPTY: Db := Db(map[], map[], map[], map[], map[], map[])

  datatype NewMessage = NewMessage(messageId: string, subject: string, body: Bytes, flags: bv32, sender: string, trustState: string)

  // ------------------------------------------------------- row ids and lookups

  lemma MaxExists(ids: set<nat>)
    requires ids != {}
    ensures exists m :: m in ids && forall j | j in ids :: j <= m
  {
    var x :| x in ids;
    if ids != {x} {
      MaxExists(ids - {x});
      var m :| m in ids - {x} && forall j | j in ids - {x} :: j <= m;
      var top := if x <= m then m else x;
      forall j | j in ids ensures j <= top {
        assert j == x || j in ids - {x};
      }
      assert top in ids;
    }
  }

  /** The id SQLite gives the next row of a table with an `INTEGER PRIMARY KEY`: one more than the largest in
      use, so the id of the newest row is issued again once that row is gone. */
  function NextId(ids: set<nat>): (n: nat)
    ensures n > 0 && n !in ids && (forall i | i in ids :: i < n)
    ensures n == 1 || n - 1 in ids
  {
    if ids == {} then 1
    else
      MaxExists(ids);
      var m :| m in ids && forall j | j in ids :: j <= m;
      m + 1
  }

  predicate NamedUser(db: Db, id: nat, username: string) {
    id in db.users && db.users[id].username == username
  }

  /** `get_user`. */
  ghost function GetUser(db: Db, username: string): (r: Option<nat>)
    ensures r.Some? ==> NamedUser(db, r.value, username)
    ensures r.None? ==> forall id :: !NamedUser(db, id, username)
  {
    if exists id :: NamedUser(db, id, username) then
      var id :| NamedUser(db, id, username);
      Some(id)
    else None
  }

  predicate NamedMailbox(db: Db, id: nat, userId: nat, name: string) {
    id in db.mailboxes && db.mailboxes[id].userId == userId && db.mailboxes[id].name == name
  }

  /** `mailbox_named`. */
  ghost function MailboxNamed(db: Db, userId: nat, name: string): (r: Option<nat>)
    ensures r.Some? ==> NamedMailbox(db, r.value, userId, name)
    ensures r.None? ==> forall id :: !NamedMailbox(db, id, userId, name)
  {
    if exists id :: NamedMailbox(db, id, userId, name) then
      var id :| NamedMailbox(db, id, userId, name);
      Some(id)
    else None
  }

  predicate HoldsMessage(db: Db, id: nat, mailboxId: nat, messageId: string) {
    id in db.messages && db.messages[id].mailboxId == mailboxId && db.messages[id].messageId == messageId
  }

  predicate HoldsTx(db: Db, id: nat, direction: TxDirection, messageId: string) {
    id in db.transactions && db.transactions[id].direction == direction && db.transactions[id].messageId == messageId
  }

  // --------------------------------------------------------------- constraints

  ghost predicate UniqueUsers(t: map<nat, UserRow>) {
    forall i, j | i in t && j in t && t[i].username == t[j].username :: i == j
  }

  ghost predicate UniqueMailboxes(t: map<nat, MailboxRow>) {
    forall i, j | i in t && j in t && t[i].userId == t[j].userId && t[i].name == t[j].name :: i == j
  }

  ghost predicate UniqueMessages(t: map<nat, MessageRow>) {
    forall i, j | i in t && j in t && t[i].mailboxId == t[j].mailboxId && t[i].messageId == t[j].messageId :: i == j
  }

  ghost predicate UniqueTransactions(t: map<nat, TxRow>) {
    forall i, j | i in t && j in t && t[i].direction == t[j].direction && t[i].messageId == t[j].messageId :: i == j
  }

  /** The schema's UNIQUE constraints. */
  ghost predicate UniqueKeys(db: Db) {
    && UniqueUsers(db.users) && UniqueMailboxes(db.mailboxes)
    && UniqueMessages(db.messages) && UniqueTransactions(db.transactions)
  }

  predicate MailboxOwners(users: set<nat>, t: map<nat, MailboxRow>) {
    forall i | i in t :: t[i].userId in users
  }

  predicate MessageHomes(mailboxes: set<nat>, t: map<nat, MessageRow>) {
    forall i | i in t :: t[i].mailboxId in mailboxes
  }

  /** The schema's foreign keys. */
  ghost predicate ForeignKeys(db: Db) {
    && (forall k | k in db.keyring :: k.0 in db.users)
    && (forall k | k in db.shares :: k.0 in db.users)
    && MailboxOwners(db.users.Keys, db.mailboxes)
    && MessageHomes(db.mailboxes.Keys, db.messages)
  }

  ghost predicate Sound(db: Db) {
    UniqueKeys(db) && ForeignKeys(db)
  }

  lemma MailboxNamedIs(db: Db, id: nat, userId: nat, name: string)
    requires UniqueKeys(db) && NamedMailbox(db, id, userId, name)
    ensures MailboxNamed(db, userId, name) == Some(id)
  {
    assert MailboxNamed(db, userId, name).Some?;
  }

  lemma GetUserIs(db: Db, id: nat, username: string)
    requires UniqueKeys(db) && NamedUser(db, id, username)
    ensures GetUser(db, username) == Some(id)
  {
    assert GetUser(db, username).Some?;
  }

  // ---------------------------------------------------------------- statements

  datatype AppendResult = Appended(db: Db, rowId: nat) | Duplicate | StorageError

  function MessageRowOf(mailboxId: nat, uid: nat, msg: NewMessage, now: int): MessageRow {
    MessageRow(mailboxId, msg.messageId, uid, now, msg.flags, msg.subject, msg.body, msg.sender, msg.trustState)
  }

  /** The second half of an append, under its own lock: refuse a duplicate id, insert with the UID looked up
      earlier, and bump the counter. The insert fails if the mailbox is gone. */
  ghost function InsertMessage(db: Db, mailboxId: nat, uid: nat, msg: NewMessage, now: int): AppendResult {
    if exists id :: HoldsMessage(db, id, mailboxId, msg.messageId) then Duplicate
    else if mailboxId !in db.mailboxes then StorageError
    else
      var id := NextId(db.messages.Keys);
      var box := db.mailboxes[mailboxId];
      Appended(db.(messages := db.messages[id := MessageRowOf(mailboxId, uid, msg, now)],
                   mailboxes := db.mailboxes[mailboxId := box.(uidnext := box.uidnext + 1)]), id)
  }

  /** `append_message_to` when nothing runs between its two halves. */
  ghost function AppendMessage(db: Db, userId: nat, mailbox: string, msg: NewMessage, now: int): AppendResult {
    match MailboxNamed(db, userId, mailbox)
    case None => StorageError
    case Some(id) => InsertMessage(db, id, db.mailboxes[id].uidnext, msg, now)
  }

  function Flagged(flags: bv32, mask: bv32, value: bool): bv32 {
    if value then flags | mask else flags & !mask
  }

  function SetFlags(db: Db, mailboxId: nat, rowId: nat, mask: bv32, value: bool): Db {
    if rowId in db.messages && db.messages[rowId].mailboxId == mailboxId then
      var m := db.messages[rowId];
      db.(messages := db.messages[rowId := m.(flags := Flagged(m.flags, mask, value))])
    else db
  }

  predicate Doomed(m: MessageRow, mailboxId: nat) {
    m.mailboxId == mailboxId && m.flags & DELETED != 0
  }

  function Expunge(db: Db, mailboxId: nat): Db {
    db.(messages := map id | id in db.messages && !Doomed(db.messages[id], mailboxId) :: db.messages[id])
  }

  datatype TxResult = Created(db: Db, id: nat) | Refused

  ghost function TxCreate(db: Db, row: TxRow): TxResult {
    if exists id :: HoldsTx(db, id, row.direction, row.messageId) then Refused
    else
      var id := NextId(db.transactions.Keys);
      Created(db.(transactions := db.transactions[id := row.(messageRowId := None)]), id)
  }

  function TxLink(db: Db, txId: nat, rowId: nat): Db {
    if txId in db.transactions
    then db.(transactions := db.transactions[txId := db.transactions[txId].(messageRowId := Some(rowId))])
    else db
  }

  function TxTransition(db: Db, txId: nat, state: TxState): Db {
    if txId in db.transactions
    then db.(transactions := db.transactions[txId := db.transactions[txId].(state := state)])
    else db
  }

  function TxSetBinding(db: Db, txId: nat, binding: Option<string>): Db {
    if txId in db.transactions
    then db.(transactions := db.transactions[txId := db.transactions[txId].(binding := binding)])
    else db
  }

  ghost function TxByMessageId(db: Db, direction: TxDirection, messageId: string): (r: Option<nat>)
    ensures r.Some? ==> HoldsTx(db, r.value, direction, messageId)
    ensures r.None? ==> forall id :: !HoldsTx(db, id, direction, messageId)
  {
    if exists id :: HoldsTx(db, id, direction, messageId) then
      var id :| HoldsTx(db, id, direction, messageId);
      Some(id)
    else None
  }

  datatype UserResult = Registered(db: Db, id: nat) | NameTaken

  /** `create_user`: the user and the two mailboxes. */
  ghost function CreateUser(db: Db, username: string, passwordHash: string, now: nat): UserResult {
    if exists id :: NamedUser(db, id, username) then NameTaken
    else
      var id := NextId(db.users.Keys);
      var box := NextId(db.mailboxes.Keys);
      var validity := now % U32;
      Registered(db.(users := db.users[id := UserRow(username, passwordHash)],
                     mailboxes := WithMailboxes(db.mailboxes, box, id, validity)), id)
  }

  // ------------------------------------------- the statements keep the schema

  lemma InsertMessageSound(db: Db, mailboxId: nat, uid: nat, msg: NewMessage, now: int)
    requires Sound(db)
    ensures InsertMessage(db, mailboxId, uid, msg, now).Appended? ==> Sound(InsertMessage(db, mailboxId, uid, msg, now).db)
  {
    var r := InsertMessage(db, mailboxId, uid, msg, now);
    if r.Appended? {
      assert forall i | i in db.messages :: !HoldsMessage(db, i, mailboxId, msg.messageId);
      var id, row := NextId(db.messages.Keys), MessageRowOf(mailboxId, uid, msg, now);
      NewMessageUnique(db.messages, id, row);
      hide NextId, UniqueUsers, UniqueMessages, UniqueTransactions;
    }
  }

  lemma NewMessageUnique(t: map<nat, MessageRow>, id: nat, row: MessageRow)
    requires UniqueMessages(t) && forall i | i in t :: t[i].mailboxId != row.mailboxId || t[i].messageId != row.messageId
    ensures UniqueMessages(t[id := row])
  {
  }

  lemma NewMailboxes(t: map<nat, MailboxRow>, box: nat, userId: nat, validity: nat)
    requires UniqueMailboxes(t) && forall i | i in t :: t[i].userId != userId && i < box
    ensures UniqueMailboxes(WithMailboxes(t, box, userId, validity))
  {
    assert INBOX[0] != SENT[0];
  }

  lemma CreateUserSound(db: Db, username: string, passwordHash: string, now: nat)
    requires Sound(db)
    ensures CreateUser(db, username, passwordHash, now).Registered? ==> Sound(CreateUser(db, username, passwordHash, now).db)
  {
    if CreateUser(db, username, passwordHash, now).Registered? {
      assert forall i | i in db.users :: !NamedUser(db, i, username);
      var id, box := NextId(db.users.Keys), NextId(db.mailboxes.Keys);
      NewUserUnique(db.users, id, UserRow(username, passwordHash));
      NewMailboxes(db.mailboxes, box, id, now % U32);
      NewUserKeys(db, id, UserRow(username, passwordHash), box, now % U32);
      hide UniqueUsers, UniqueMailboxes, UniqueMessages, UniqueTransactions, NextId, ForeignKeys;
    }
  }

  function WithMailboxes(t: map<nat, MailboxRow>, box: nat, userId: nat, validity: nat): map<nat, MailboxRow> {
    t[box := MailboxRow(userId, INBOX, validity, 1)][box + 1 := MailboxRow(userId, SENT, validity, 1)]
  }

  lemma NewUserKeys(db: Db, id: nat, row: UserRow, box: nat, validity: nat)
    requires ForeignKeys(db)
    ensures ForeignKeys(db.(users := db.users[id := row], mailboxes := WithMailboxes(db.mailboxes, box, id, validity)))
  {
  }

  lemma NewUserUnique(t: map<nat, UserRow>, id: nat, row: UserRow)
    requires UniqueUsers(t) && forall i | i in t :: t[i].username != row.username
    ensures UniqueUsers(t[id := row])
  {
  }

  lemma TxCreateSound(db: Db, row: TxRow)
    requires Sound(db)
    ensures TxCreate(db, row).Created? ==> Sound(TxCreate(db, row).db)
  {
    var r := TxCreate(db, row);
    if r.Created? {
      assert forall i | i in db.transactions :: !HoldsTx(db, i, row.direction, row.messageId);
    }
  }

  lemma SetFlagsSound(db: Db, mailboxId: nat, rowId: nat, mask: bv32, value: bool)
    requires Sound(db)
    ensures Sound(SetFlags(db, mailboxId, rowId, mask, value))
  {
    hide Flagged;
  }

  lemma ExpungeSound(db: Db, mailboxId: nat)
    requires Sound(db)
    ensures Sound(Expunge(db, mailboxId))
  {
    hide Doomed;
  }

  lemma LedgerUpdatesSound(db: Db, rowId: nat, txId: nat, state: TxState, binding: Option<string>)
    requires Sound(db)
    ensures Sound(TxLink(db, txId, rowId)) && Sound(TxTransition(db, txId, state)) && Sound(TxSetBinding(db, txId, binding))
  {
    if txId in db.transactions {
      var t := db.transactions[txId];
      SameKeyUnique(db.transactions, txId, t.(messageRowId := Some(rowId)));
      SameKeyUnique(db.transactions, txId, t.(state := state));
      SameKeyUnique(db.transactions, txId, t.(binding := binding));
    }
    hide UniqueUsers, UniqueMailboxes, UniqueMessages, UniqueTransactions, MailboxOwners, MessageHomes;
  }

  lemma SameKeyUnique(t: map<nat, TxRow>, id: nat, row: TxRow)
    requires UniqueTransactions(t) && id in t && row.direction == t[id].direction && row.messageId == t[id].messageId
    ensures UniqueTransactions(t[id := row])
  {
  }
}
