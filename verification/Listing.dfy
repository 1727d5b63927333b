/** What listing a mailbox returns: its messages joined with the ledger, newest first. */
module Listing {
  import opened Utf8
  import opened MailStore

  datatype Meta = Meta(rowId: nat, messageId: string, uid: nat, uidvalidity: nat, internaldate: int, flags: bv32,
                       subject: string, size: nat, sender: string, trustState: string,
                       txState: Option<TxState>, txId: Option<nat>)

  /** The order of the listing: UID descending. Among equal UIDs the later row comes first. */
  predicate Newer(t: map<nat, MessageRow>, a: nat, b: nat)
    requires a in t && b in t
  {
    t[a].uid > t[b].uid || (t[a].uid == t[b].uid && a >= b)
  }

  predicate IsNewest(t: map<nat, MessageRow>, ids: set<nat>, a: nat)
    requires ids <= t.Keys
  {
    a in ids && forall b | b in ids :: Newer(t, a, b)
  }

  lemma NewestExists(t: map<nat, MessageRow>, ids: set<nat>)
    requires ids <= t.Keys && ids != {}
    ensures exists a :: IsNewest(t, ids, a)
  {
    var x :| x in ids;
    if ids == {x} {
      assert IsNewest(t, ids, x);
    } else {
      NewestExists(t, ids - {x});
      var m :| IsNewest(t, ids - {x}, m);
      assert forall b | b in ids :: b == x || b in ids - {x};
      assert IsNewest(t, ids, if Newer(t, m, x) then m else x);
    }
  }

  /** Row ids in listing order. */
  function ByUid(t: map<nat, MessageRow>, ids: set<nat>): (s: seq<nat>)
    requires ids <= t.Keys
    ensures |s| == |ids| && forall i | 0 <= i < |s| :: s[i] in ids
    decreases |ids|
  {
    if ids == {} then []
    else
      NewestExists(t, ids);
      var a :| IsNewest(t, ids, a);
      [a] + ByUid(t, ids - {a})
  }

  lemma ByUidStep(t: map<nat, MessageRow>, ids: set<nat>, a: nat)
    requires ids <= t.Keys && IsNewest(t, ids, a)
    ensures ByUid(t, ids) == [a] + ByUid(t, ids - {a})
  {
    NewestExists(t, ids);
    var c :| IsNewest(t, ids, c) && ByUid(t, ids) == [c] + ByUid(t, ids - {c});
    assert Newer(t, a, c) && Newer(t, c, a);
  }

  lemma {:induction false} ByUidOrdered(t: map<nat, MessageRow>, ids: set<nat>)
    requires ids <= t.Keys
    ensures var s := ByUid(t, ids);
            && (forall a | a in ids :: a in s)
            && (forall i, j | 0 <= i < j < |s| :: s[i] != s[j] && Newer(t, s[i], s[j]))
    decreases |ids|
  {
    if ids != {} {
      NewestExists(t, ids);
      var a :| IsNewest(t, ids, a);
      ByUidStep(t, ids, a);
      ByUidOrdered(t, ids - {a});
      hide ByUid;
      NewestFirst(t, ids, a, ByUid(t, ids - {a}));
    }
  }

  ghost predicate Ordered(t: map<nat, MessageRow>, ids: set<nat>, s: seq<nat>)
    requires ids <= t.Keys
  {
    && (forall i | 0 <= i < |s| :: s[i] in ids) && (forall a | a in ids :: a in s)
    && (forall i, j | 0 <= i < j < |s| :: s[i] != s[j] && Newer(t, s[i], s[j]))
  }

  lemma NewestFirst(t: map<nat, MessageRow>, ids: set<nat>, a: nat, tail: seq<nat>)
    requires ids <= t.Keys && IsNewest(t, ids, a) && Ordered(t, ids - {a}, tail)
    ensures Ordered(t, ids, [a] + tail)
  {
    hide Newer;
    var s := [a] + tail;
    forall b | b in ids ensures b in s {
      if b != a { assert b in tail; }
    }
    forall i, j | 0 <= i < j < |s| ensures s[i] != s[j] && Newer(t, s[i], s[j]) {
      assert s[j] == tail[j - 1];
      if i > 0 { assert s[i] == tail[i - 1]; }
    }
  }

  function InMailbox(db: Db, mailboxId: nat): (ids: set<nat>)
    ensures ids <= db.messages.Keys
  {
    set id | id in db.messages && db.messages[id].mailboxId == mailboxId
  }

  function LinkedTo(db: Db, rowId: nat): set<nat> {
    set t | t in db.transactions && db.transactions[t].messageRowId == Some(rowId)
  }

  function MetaOf(db: Db, rowId: nat, validity: nat, tx: Option<nat>): Meta
    requires rowId in db.messages && (tx.Some? ==> tx.value in db.transactions)
  {
    var m := db.messages[rowId];
    Meta(rowId, m.messageId, m.uid % U32, validity, m.internaldate, m.flags, m.subject, |m.body|, m.sender, m.trustState,
         if tx.Some? then Some(db.transactions[tx.value].state) else None, tx)
  }

  predicate IsLeast(ids: set<nat>, a: nat) {
    a in ids && forall b | b in ids :: a <= b
  }

  lemma LeastExists(ids: set<nat>)
    requires ids != {}
    ensures exists a :: IsLeast(ids, a)
  {
    var x :| x in ids;
    if ids == {x} {
      assert IsLeast(ids, x);
    } else {
      LeastExists(ids - {x});
      var m :| IsLeast(ids - {x}, m);
      assert forall b | b in ids :: b == x || b in ids - {x};
      assert IsLeast(ids, if m <= x then m else x);
    }
  }

  /** A message with each of the ledger rows `txs`, in row order. */
  function WithEach(db: Db, rowId: nat, validity: nat, txs: set<nat>): (r: seq<Meta>)
    requires rowId in db.messages && txs <= db.transactions.Keys
    ensures |r| == |txs| && forall m | m in r :: m.rowId == rowId
    decreases |txs|
  {
    if txs == {} then []
    else
      LeastExists(txs);
      var t :| IsLeast(txs, t);
      [MetaOf(db, rowId, validity, Some(t))] + WithEach(db, rowId, validity, txs - {t})
  }

  /** The LEFT JOIN for one message: a row for each ledger row linked to it, or one row without. */
  function JoinRows(db: Db, rowId: nat, validity: nat): (r: seq<Meta>)
    requires rowId in db.messages
    ensures |r| == if LinkedTo(db, rowId) == {} then 1 else |LinkedTo(db, rowId)|
    ensures forall m | m in r :: m.rowId == rowId
  {
    if LinkedTo(db, rowId) == {} then [MetaOf(db, rowId, validity, None)]
    else WithEach(db, rowId, validity, LinkedTo(db, rowId))
  }

  function JoinAll(db: Db, rows: seq<nat>, validity: nat): seq<Meta>
    requires forall i | 0 <= i < |rows| :: rows[i] in db.messages
  {
    if rows == [] then [] else JoinRows(db, rows[0], validity) + JoinAll(db, rows[1..], validity)
  }

  /** `list_messages_in` for an existing mailbox. */
  function ListMailbox(db: Db, mailboxId: nat): seq<Meta>
    requires mailboxId in db.mailboxes
  {
    JoinAll(db, ByUid(db.messages, InMailbox(db, mailboxId)), db.mailboxes[mailboxId].uidvalidity)
  }

  // -------------------------------------------------------------- properties

  predicate LinkedOnce(db: Db, rowId: nat) {
    |LinkedTo(db, rowId)| <= 1
  }

  lemma {:induction false} JoinAllCounts(db: Db, rows: seq<nat>, validity: nat)
    requires forall i | 0 <= i < |rows| :: rows[i] in db.messages
    ensures |JoinAll(db, rows, validity)| >= |rows|
    ensures |JoinAll(db, rows, validity)| == |rows| <==> forall i | 0 <= i < |rows| :: LinkedOnce(db, rows[i])
    ensures |JoinAll(db, rows, validity)| == |rows| ==>
              forall i | 0 <= i < |rows| :: [JoinAll(db, rows, validity)[i]] == JoinRows(db, rows[i], validity)
  {
    if rows != [] {
      JoinAllCounts(db, rows[1..], validity);
      var head := JoinRows(db, rows[0], validity);
      var all := JoinAll(db, rows, validity);
      assert |head| >= 1 && (|head| == 1 <==> LinkedOnce(db, rows[0]));
      assert forall i | 0 < i < |rows| :: rows[i] == rows[1..][i - 1];
      if |all| == |rows| {
        assert |head| == 1;
        forall i | 0 <= i < |rows| ensures [all[i]] == JoinRows(db, rows[i], validity) {
          if i > 0 { assert all[i] == JoinAll(db, rows[1..], validity)[i - 1]; }
        }
      }
    }
  }

  /** The listing shows every message of the mailbox exactly once if and only if no message has two ledger rows
      linked to it; and then it is in descending UID order, row by row the messages of the mailbox. */
  lemma ListedOnce(db: Db, mailboxId: nat)
    requires mailboxId in db.mailboxes
    ensures var l := ListMailbox(db, mailboxId);
            && |l| >= |InMailbox(db, mailboxId)|
            && (|l| == |InMailbox(db, mailboxId)| <==> forall id | id in InMailbox(db, mailboxId) :: LinkedOnce(db, id))
            && (|l| == |InMailbox(db, mailboxId)| ==>
                  && (forall i | 0 <= i < |l| :: l[i].rowId in InMailbox(db, mailboxId))
                  && (forall id | id in InMailbox(db, mailboxId) :: exists i | 0 <= i < |l| :: l[i].rowId == id)
                  && (forall i, j | 0 <= i < j < |l| ::
                        l[i].rowId != l[j].rowId && db.messages[l[i].rowId].uid >= db.messages[l[j].rowId].uid))
  {
    hide ByUid, JoinAll, LinkedOnce, InMailbox, JoinRows, Newer;
    var ids := InMailbox(db, mailboxId);
    var rows := ByUid(db.messages, ids);
    var validity := db.mailboxes[mailboxId].uidvalidity;
    ByUidOrdered(db.messages, ids);
    JoinAllCounts(db, rows, validity);
    if |JoinAll(db, rows, validity)| == |rows| {
      OneEach(db, rows, validity);
      NewerUid(db.messages, rows);
    }
  }

  /** A join with one entry a row lists the rows as they come. */
  lemma OneEach(db: Db, rows: seq<nat>, validity: nat)
    requires forall i | 0 <= i < |rows| :: rows[i] in db.messages
    requires var l := JoinAll(db, rows, validity);
             |l| == |rows| && forall i | 0 <= i < |rows| :: [l[i]] == JoinRows(db, rows[i], validity)
    ensures var l := JoinAll(db, rows, validity);
            && (forall i | 0 <= i < |l| :: l[i].rowId == rows[i])
            && (forall id | id in rows :: exists i | 0 <= i < |l| :: l[i].rowId == id)
  {
    hide JoinAll, JoinRows;
    var l := JoinAll(db, rows, validity);
    forall i | 0 <= i < |l| ensures l[i].rowId == rows[i] {
      assert [l[i]] == JoinRows(db, rows[i], validity);
      assert l[i] in JoinRows(db, rows[i], validity);
    }
    forall id | id in rows ensures exists i | 0 <= i < |l| :: l[i].rowId == id {
      var i :| 0 <= i < |rows| && rows[i] == id;
      assert l[i].rowId == id;
    }
  }

  lemma NewerUid(t: map<nat, MessageRow>, rows: seq<nat>)
    requires (forall i | 0 <= i < |rows| :: rows[i] in t) && forall i, j | 0 <= i < j < |rows| :: Newer(t, rows[i], rows[j])
    ensures forall i, j | 0 <= i < j < |rows| :: t[rows[i]].uid >= t[rows[j]].uid
  {
  }

  // ------------------------------------------------------- what the entries show

  lemma WithEachStep(db: Db, rowId: nat, validity: nat, txs: set<nat>, t: nat)
    requires rowId in db.messages && txs <= db.transactions.Keys && IsLeast(txs, t)
    ensures WithEach(db, rowId, validity, txs) == [MetaOf(db, rowId, validity, Some(t))] + WithEach(db, rowId, validity, txs - {t})
  {
    hide MetaOf;
    LeastExists(txs);
    var c :| IsLeast(txs, c) && WithEach(db, rowId, validity, txs)
                                == [MetaOf(db, rowId, validity, Some(c))] + WithEach(db, rowId, validity, txs - {c});
    assert c == t;
  }

  /** The entry shows its message as the store holds it, with the state of a ledger row linked to it, if there is one. */
  predicate Shows(db: Db, m: Meta, validity: nat) {
    && m.rowId in db.messages
    && (var row := db.messages[m.rowId];
        && m.messageId == row.messageId && m.uid == row.uid % 0x1_0000_0000 && m.uidvalidity == validity
        && m.internaldate == row.internaldate && m.flags == row.flags && m.subject == row.subject
        && m.size == |row.body| && m.sender == row.sender && m.trustState == row.trustState)
    && match m.txId
       case None => m.txState == None && forall t | t in db.transactions :: db.transactions[t].messageRowId != Some(m.rowId)
       case Some(t) =>
         t in db.transactions && db.transactions[t].messageRowId == Some(m.rowId) && m.txState == Some(db.transactions[t].state)
  }

  lemma {:induction false} EachShows(db: Db, id: nat, validity: nat, txs: set<nat>)
    requires id in db.messages && txs <= LinkedTo(db, id)
    ensures forall m | m in WithEach(db, id, validity, txs) :: m.rowId == id && Shows(db, m, validity)
    ensures forall t | t in txs :: exists m | m in WithEach(db, id, validity, txs) :: m.txId == Some(t)
    decreases |txs|
  {
    if txs != {} {
      LeastExists(txs);
      var t :| IsLeast(txs, t);
      WithEachStep(db, id, validity, txs, t);
      EachShows(db, id, validity, txs - {t});
      var all, first := WithEach(db, id, validity, txs), MetaOf(db, id, validity, Some(t));
      assert first in all;
      forall u | u in txs ensures exists m | m in all :: m.txId == Some(u) {
        if u != t {
          var m :| m in WithEach(db, id, validity, txs - {t}) && m.txId == Some(u);
          assert m in all;
        }
      }
    }
  }

  lemma RowShows(db: Db, id: nat, validity: nat)
    requires id in db.messages
    ensures forall m | m in JoinRows(db, id, validity) :: m.rowId == id && Shows(db, m, validity)
    ensures forall t | t in LinkedTo(db, id) :: exists m | m in JoinRows(db, id, validity) :: m.txId == Some(t)
    ensures JoinRows(db, id, validity) != []
  {
    if LinkedTo(db, id) == {} {
      assert forall t | t in db.transactions :: t !in LinkedTo(db, id);
      assert Shows(db, MetaOf(db, id, validity, None), validity);
    } else {
      EachShows(db, id, validity, LinkedTo(db, id));
    }
  }

  lemma {:induction false} JoinedShows(db: Db, order: seq<nat>, validity: nat)
    requires forall i | 0 <= i < |order| :: order[i] in db.messages
    ensures forall m | m in JoinAll(db, order, validity) :: m.rowId in order && Shows(db, m, validity)
    ensures forall id | id in order :: exists m | m in JoinAll(db, order, validity) :: m.rowId == id
    ensures forall id, t | id in order && t in LinkedTo(db, id) ::
              exists m | m in JoinAll(db, order, validity) :: m.rowId == id && m.txId == Some(t)
  {
    hide Shows, LinkedTo, JoinRows;
    if order != [] {
      var first, rest := order[0], order[1..];
      RowShows(db, first, validity);
      JoinedShows(db, rest, validity);
      var all, head, tail := JoinAll(db, order, validity), JoinRows(db, first, validity), JoinAll(db, rest, validity);
      assert forall m | m in head || m in tail :: m in all;
      assert head[0] in head;
      forall id | id in order ensures exists m | m in all :: m.rowId == id {
        if id == first {
          assert head[0] in all && head[0].rowId == id;
        } else {
          assert id in rest;
          var m :| m in tail && m.rowId == id;
          assert m in all;
        }
      }
      forall id, t | id in order && t in LinkedTo(db, id) ensures exists m | m in all :: m.rowId == id && m.txId == Some(t) {
        if id == first {
          var m :| m in head && m.txId == Some(t);
          assert m in all;
        } else {
          assert id in rest;
          var m :| m in tail && m.rowId == id && m.txId == Some(t);
          assert m in all;
        }
      }
    }
  }

  /** The listing is the join: each entry is a message of the mailbox as the store holds it; each message is listed, and with
      each ledger row linked to it. */
  lemma ListingShows(db: Db, mailboxId: nat)
    requires mailboxId in db.mailboxes
    ensures var l := ListMailbox(db, mailboxId);
            && (forall m | m in l :: Shows(db, m, db.mailboxes[mailboxId].uidvalidity) && db.messages[m.rowId].mailboxId == mailboxId)
            && (forall id | id in db.messages && db.messages[id].mailboxId == mailboxId :: exists m | m in l :: m.rowId == id)
            && (forall id, t | id in db.messages && db.messages[id].mailboxId == mailboxId && t in LinkedTo(db, id) ::
                  exists m | m in l :: m.rowId == id && m.txId == Some(t))
  {
    hide Shows, JoinAll, LinkedTo, ByUid;
    var ids := InMailbox(db, mailboxId);
    var order := ByUid(db.messages, ids);
    ByUidOrdered(db.messages, ids);
    JoinedShows(db, order, db.mailboxes[mailboxId].uidvalidity);
    assert forall id | id in db.messages && db.messages[id].mailboxId == mailboxId :: id in order;
  }

  /** What is appended is what is stored and listed, under the UID the mailbox was at; and no other message changes. */
  lemma AppendedIsListed(db: Db, userId: nat, mailbox: string, msg: NewMessage, now: int)
    requires AppendMessage(db, userId, mailbox, msg, now).Appended?
    ensures var a := AppendMessage(db, userId, mailbox, msg, now);
            exists box :: NamedMailbox(db, box, userId, mailbox) && box in a.db.mailboxes && a.rowId !in db.messages
              && a.db.messages[a.rowId] == MessageRow(box, msg.messageId, db.mailboxes[box].uidnext, now, msg.flags, msg.subject,
                                                      msg.body, msg.sender, msg.trustState)
              && (forall id | id in db.messages :: id in a.db.messages && a.db.messages[id] == db.messages[id])
              && (exists m | m in ListMailbox(a.db, box) :: m.rowId == a.rowId)
              && forall m | m in ListMailbox(a.db, box) && m.rowId == a.rowId ::
                   m == Meta(a.rowId, msg.messageId, db.mailboxes[box].uidnext % 0x1_0000_0000, db.mailboxes[box].uidvalidity, now,
                             msg.flags, msg.subject, |msg.body|, msg.sender, msg.trustState, m.txState, m.txId)
  {
    hide ListMailbox, LinkedTo;
    var a := AppendMessage(db, userId, mailbox, msg, now);
    var box := MailboxNamed(db, userId, mailbox).value;
    assert NamedMailbox(db, box, userId, mailbox);
    assert a.db.messages[a.rowId].mailboxId == box && a.rowId !in db.messages;
    ListingShows(a.db, box);
  }
}
