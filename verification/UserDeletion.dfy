/** Deleting a user and what they own, statement by statement. */
module UserDeletion {
  import opened Utf8
  import opened Text
  import opened MailStore
  import opened Listing

  /** SQL LIKE: `%` is any text, `_` any character, and ASCII letters match in either case. */
  predicate Like(pattern: string, text: string)
    decreases |pattern| + |text|
  {
    if pattern == "" then text == ""
    else if pattern[0] == '%' then Like(pattern[1..], text) || (text != "" && Like(pattern, text[1..]))
    else text != "" && (pattern[0] == '_' || UpperChar(pattern[0]) == UpperChar(text[0])) && Like(pattern[1..], text[1..])
  }

  predicate Owns(mailboxes: map<nat, MailboxRow>, messages: map<nat, MessageRow>, userId: nat, rowId: nat) {
    rowId in messages && messages[rowId].mailboxId in mailboxes && mailboxes[messages[rowId].mailboxId].userId == userId
  }

  predicate LedgerRowGoes(mailboxes: map<nat, MailboxRow>, messages: map<nat, MessageRow>, userId: nat, username: string, t: TxRow) {
    || (t.messageRowId.Some? && Owns(mailboxes, messages, userId, t.messageRowId.value))
    || Like(username + "@%", t.senderMailbox)
  }

  function OthersKeyring(t: map<(nat, string), string>, userId: nat): map<(nat, string), string> {
    map k | k in t && k.0 != userId :: t[k]
  }

  function OthersShares(t: map<(nat, string), (Bytes, bool)>, userId: nat): map<(nat, string), (Bytes, bool)> {
    map k | k in t && k.0 != userId :: t[k]
  }

  function OthersLedger(mailboxes: map<nat, MailboxRow>, messages: map<nat, MessageRow>, t: map<nat, TxRow>,
                        userId: nat, username: string): map<nat, TxRow>
  {
    map i | i in t && !LedgerRowGoes(mailboxes, messages, userId, username, t[i]) :: t[i]
  }

  function OthersMessages(mailboxes: map<nat, MailboxRow>, t: map<nat, MessageRow>, userId: nat): map<nat, MessageRow> {
    map i | i in t && !Owns(mailboxes, t, userId, i) :: t[i]
  }

  function OthersMailboxes(t: map<nat, MailboxRow>, userId: nat): map<nat, MailboxRow> {
    map i | i in t && t[i].userId != userId :: t[i]
  }

  /** The six DELETE statements, in order. */
  function Statement(db: Db, userId: nat, username: string, n: nat): Db {
    match n
    case 1 => db.(keyring := OthersKeyring(db.keyring, userId))
    case 2 => db.(shares := OthersShares(db.shares, userId))
    case 3 => db.(transactions := OthersLedger(db.mailboxes, db.messages, db.transactions, userId, username))
    case 4 => db.(messages := OthersMessages(db.mailboxes, db.messages, userId))
    case 5 => db.(mailboxes := OthersMailboxes(db.mailboxes, userId))
    case _ => db.(users := db.users - {userId})
  }

  /** The database after the first `n` of the six statements. */
  function AfterStatements(db: Db, userId: nat, username: string, n: nat): Db
    requires n <= 6
  {
    if n == 0 then db else Statement(AfterStatements(db, userId, username, n - 1), userId, username, n)
  }

  function DeleteUser(db: Db, userId: nat, username: string): Db {
    AfterStatements(db, userId, username, 6)
  }

  /** What is left of each table once `n` statements have run. */
  lemma {:induction false} AfterStatementsAre(db: Db, userId: nat, username: string, n: nat)
    requires n <= 6
    ensures AfterStatements(db, userId, username, n)
         == Db(if n >= 6 then db.users - {userId} else db.users,
               if n >= 1 then OthersKeyring(db.keyring, userId) else db.keyring,
               if n >= 2 then OthersShares(db.shares, userId) else db.shares,
               if n >= 5 then OthersMailboxes(db.mailboxes, userId) else db.mailboxes,
               if n >= 4 then OthersMessages(db.mailboxes, db.messages, userId) else db.messages,
               if n >= 3 then OthersLedger(db.mailboxes, db.messages, db.transactions, userId, username) else db.transactions)
  {
    hide OthersKeyring, OthersShares, OthersMailboxes, OthersMessages, OthersLedger;
    if n > 0 {
      AfterStatementsAre(db, userId, username, n - 1);
    }
  }

  lemma OthersUnique(db: Db, userId: nat, username: string)
    requires UniqueKeys(db)
    ensures UniqueUsers(db.users - {userId}) && UniqueMailboxes(OthersMailboxes(db.mailboxes, userId))
    ensures UniqueMessages(OthersMessages(db.mailboxes, db.messages, userId))
    ensures UniqueTransactions(OthersLedger(db.mailboxes, db.messages, db.transactions, userId, username))
  {
    hide LedgerRowGoes;
  }

  lemma OthersForeignKeys(db: Db, userId: nat)
    requires ForeignKeys(db)
    ensures var boxes := OthersMailboxes(db.mailboxes, userId);
            var messages := OthersMessages(db.mailboxes, db.messages, userId);
            && MessageHomes(db.mailboxes.Keys, messages) && MessageHomes(boxes.Keys, messages)
            && MailboxOwners(db.users.Keys, boxes) && MailboxOwners((db.users - {userId}).Keys, boxes)
    ensures forall k | k in OthersKeyring(db.keyring, userId) :: k.0 in db.users - {userId}
    ensures forall k | k in OthersShares(db.shares, userId) :: k.0 in db.users - {userId}
  {
  }

  /** No statement leaves a dangling foreign key, so none of the six can be refused. */
  lemma EveryStatementKeepsForeignKeys(db: Db, userId: nat, username: string, n: nat)
    requires n <= 6 && Sound(db)
    ensures Sound(AfterStatements(db, userId, username, n))
  {
    hide OthersKeyring, OthersShares, OthersMailboxes, OthersMessages, OthersLedger, AfterStatements;
    AfterStatementsAre(db, userId, username, n);
    OthersUnique(db, userId, username);
    OthersForeignKeys(db, userId);
  }

  /** Deleting a user leaves every other user's shares, keyring, mailboxes and messages as they were, and
      nothing of the user's own. */
  lemma DeletionIsContained(db: Db, userId: nat, username: string)
    requires Sound(db)
    ensures var d := DeleteUser(db, userId, username);
            && userId !in d.users
            && (forall v | v != userId :: v in db.users ==> v in d.users && d.users[v] == db.users[v])
            && (forall k | k in d.keyring || k in d.shares :: k.0 != userId)
            && (forall k | k in db.keyring && k.0 != userId :: k in d.keyring && d.keyring[k] == db.keyring[k])
            && (forall k | k in db.shares && k.0 != userId :: k in d.shares && d.shares[k] == db.shares[k])
            && (forall i | i in d.mailboxes :: d.mailboxes[i].userId != userId)
            && (forall i | i in db.mailboxes && db.mailboxes[i].userId != userId ::
                  i in d.mailboxes && d.mailboxes[i] == db.mailboxes[i] && InMailbox(d, i) == InMailbox(db, i)
                  && forall m | m in InMailbox(db, i) :: d.messages[m] == db.messages[m])
            && d.messages.Keys <= db.messages.Keys
  {
    hide Like, AfterStatements;
    AfterStatementsAre(db, userId, username, 6);
    var d := DeleteUser(db, userId, username);
    forall i | i in db.mailboxes && db.mailboxes[i].userId != userId
      ensures InMailbox(d, i) == InMailbox(db, i)
    {
      assert forall m | m in InMailbox(db, i) :: m in d.messages;
    }
  }

  predicate WildcardFree(s: string) {
    '%' !in s && '_' !in s
  }

  lemma {:induction false} LikeAnything(text: string)
    ensures Like("%", text)
    decreases |text|
  {
    if text == "" {
      assert "%"[1..] == "";
    } else {
      LikeAnything(text[1..]);
    }
  }

  lemma {:induction false} LikeLiteral(p: string, text: string)
    requires WildcardFree(p)
    ensures Like(p + "%", text) <==> |text| >= |p| && Upper(text[..|p|]) == Upper(p)
  {
    if p == "" {
      assert p + "%" == "%";
      LikeAnything(text);
      assert Upper(text[..0]) == Upper(p);
    } else {
      assert (p + "%")[1..] == p[1..] + "%" && (p + "%")[0] == p[0];
      assert p[0] in p && forall i | 0 <= i < |p| - 1 :: p[1..][i] in p;
      if text != "" {
        LikeLiteral(p[1..], text[1..]);
        if |text| >= |p| {
          var a, b := text[..|p|], p;
          assert text[1..][..|p| - 1] == a[1..];
          assert forall i | 1 <= i < |p| :: Upper(a)[i] == Upper(a[1..])[i - 1] && Upper(b)[i] == Upper(b[1..])[i - 1];
          assert forall i | 0 <= i < |p| - 1 :: Upper(a[1..])[i] == Upper(a)[i + 1] && Upper(b[1..])[i] == Upper(b)[i + 1];
          assert Upper(a)[0] == UpperChar(text[0]) && Upper(b)[0] == UpperChar(p[0]);
          if Upper(a) == Upper(b) {
            assert Upper(a[1..]) == Upper(b[1..]);
          }
        }
      }
    }
  }

  /** The sender's mailbox is at the name, in whatever letter case, at whatever domain. */
  predicate SentFrom(username: string, mailbox: string) {
    |mailbox| > |username| && Upper(mailbox[..|username| + 1]) == Upper(username + "@")
  }

  /** For a name without SQL wildcards the ledger rows that go by sender are exactly those sent from the name,
      in whatever letter case, at any domain. */
  lemma SenderPatternExact(username: string, mailbox: string)
    requires WildcardFree(username)
    ensures Like(username + "@%", mailbox) <==> SentFrom(username, mailbox)
  {
    assert username + "@%" == (username + "@") + "%";
    LikeLiteral(username + "@", mailbox);
  }

  /** A pattern matches a text that fits it character by character, a wildcard fitting any character. */
  lemma {:induction false} LikePointwise(p: string, q: string, text: string, t: string)
    requires |p| == |text| && Like(q, t)
    requires forall i | 0 <= i < |p| :: p[i] == text[i] || p[i] == '_' || p[i] == '%'
    ensures Like(p + q, text + t)
    decreases |p|
  {
    if p == "" {
      assert p + q == q && text + t == t;
    } else {
      LikePointwise(p[1..], q, text[1..], t);
      assert (p + q)[1..] == p[1..] + q && (text + t)[1..] == text[1..] + t;
      assert (p + q)[0] == p[0] && (text + t)[0] == text[0];
    }
  }

  ghost predicate MatchesOwnNameOnly(username: string) {
    forall mailbox :: Like(username + "@%", mailbox) <==> SentFrom(username, mailbox)
  }

  /** The pattern finds exactly the rows sent from the name if and only if the name has no SQL wildcard. */
  lemma SenderPatternExactly(username: string)
    ensures MatchesOwnNameOnly(username) <==> WildcardFree(username)
  {
    hide Like, Upper;
    if WildcardFree(username) {
      forall mailbox
        ensures Like(username + "@%", mailbox) <==> SentFrom(username, mailbox)
      {
        SenderPatternExact(username, mailbox);
      }
    } else {
      var k :| 0 <= k < |username| && (username[k] == '_' || username[k] == '%');
      var mailbox := username[k := 'x'] + "@";
      LikeOther(username, k);
      assert mailbox[..|username| + 1] == mailbox;
    }
  }

  lemma LikeAt()
    ensures Like("@%", "@")
  {
    LikeAnything("");
    assert "@%"[1..] == "%" && "@"[1..] == "";
  }

  lemma LikeOther(username: string, k: nat)
    requires k < |username| && (username[k] == '_' || username[k] == '%')
    ensures Like(username + "@%", username[k := 'x'] + "@") && Upper(username[k := 'x'] + "@") != Upper(username + "@")
  {
    LikeAt();
    hide Like;
    LikePointwise(username, "@%", username[k := 'x'], "@");
    assert Upper(username[k := 'x'] + "@")[k] == UpperChar('x') && Upper(username + "@")[k] == UpperChar(username[k]);
  }

  /** Which ledger rows of others' mail go: of the rows linked to no message of the user's, for a name without SQL wildcards,
      exactly those sent from the name, in either direction and at any domain. */
  lemma OthersRowsExactly(db: Db, userId: nat, username: string, t: nat)
    requires WildcardFree(username) && t in db.transactions
    requires var link := db.transactions[t].messageRowId; link.Some? ==> !Owns(db.mailboxes, db.messages, userId, link.value)
    ensures t !in DeleteUser(db, userId, username).transactions <==> SentFrom(username, db.transactions[t].senderMailbox)
    ensures t in DeleteUser(db, userId, username).transactions ==> DeleteUser(db, userId, username).transactions[t] == db.transactions[t]
  {
    hide Like, AfterStatements, Upper, Owns;
    AfterStatementsAre(db, userId, username, 6);
    SenderPatternExact(username, db.transactions[t].senderMailbox);
  }

  /** Such a row: what another user received from a namesake elsewhere. Its message stays, and its ledger row goes. */
  lemma NamesakesMailLosesItsRow(db: Db, userId: nat, username: string, domain: string, t: nat, m: nat)
    requires Sound(db) && WildcardFree(username) && t in db.transactions && m in db.messages && db.transactions[t].messageRowId == Some(m)
    requires db.mailboxes[db.messages[m].mailboxId].userId != userId
    requires db.transactions[t].direction == In && db.transactions[t].senderMailbox == username + "@" + domain
    ensures var d := DeleteUser(db, userId, username);
            t !in d.transactions && m in d.messages && d.messages[m] == db.messages[m] && d.messages[m].mailboxId in d.mailboxes
  {
    hide Like, AfterStatements, Upper;
    var sender := username + "@" + domain;
    assert sender[..|username| + 1] == username + "@";
    OthersRowsExactly(db, userId, username, t);
    AfterStatementsAre(db, userId, username, 6);
  }

  /** With a wildcard in the name, deleting one user also deletes ledger rows another user sent. */
  lemma WildcardNameReachesFurther(db: Db, id: nat, t: nat)
    requires t in db.transactions && db.transactions[t].senderMailbox == "axb@d" && db.transactions[t].messageRowId == None
    requires ForeignKeys(db)
    ensures t !in DeleteUser(db, id, "a_b").transactions
  {
    LikeUnderscore();
    hide Like, AfterStatements;
    AfterStatementsAre(db, id, "a_b", 6);
    assert "a_b" + "@%" == "a_b@%";
  }

  lemma LikeUnderscore()
    ensures Like("a_b@%", "axb@d")
  {
    LikeAnything("d");
    assert Like("@%", "@d") by { assert "@%"[1..] == "%" && "@d"[1..] == "d"; }
    assert Like("b@%", "b@d") by { assert "b@%"[1..] == "@%" && "b@d"[1..] == "@d"; }
    assert Like("_b@%", "xb@d") by { assert "_b@%"[1..] == "b@%" && "xb@d"[1..] == "b@d"; }
    assert "a_b@%"[1..] == "_b@%" && "axb@d"[1..] == "xb@d";
  }
}
