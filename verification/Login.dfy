/** Who a session can become. */
module Login {
  import opened Utf8
  import opened Text
  import opened MailStore
  import opened ImapSession
  import I = SessionIsolation
  import R = ImapReader

  /** A name at a domain is accepted if and only if the domain is the local one, in any case of letters. */
  lemma LocalUsernameExactly(user: string, domain: string, local: string)
    requires user != "" && domain != "" && '@' !in user && !IsWhitespace(user[0]) && !IsWhitespace(domain[|domain| - 1])
    ensures LocalUsername(user + "@" + domain, local) == if SameIgnoringCase(domain, local) then Some(user) else None
  {
    var s := user + "@" + domain;
    assert s[0] == user[0] && s[|s| - 1] == domain[|domain| - 1];
    TrimNothing(s);
    hide Trim, SameIgnoringCase;
    assert s[|user|] == '@' && s[..|user|] == user && s[|user| + 1..] == domain;
    FindIs(s, '@', |user|);
  }

  /** The name and password a LOGIN or AUTHENTICATE carries. */
  function Credentials(cfg: Config, cmd: R.Command): Option<(string, string)> {
    if |cmd.args| != 2 then None
    else if cmd.name == "AUTHENTICATE" then
      if !SameIgnoringCase(cmd.args[0], "PLAIN") || cfg.base64(cmd.args[1]).None? then None
      else
        var parts := SplitBytes(cfg.base64(cmd.args[1]).value, 0);
        if |parts| != 3 then None else Some((Lossy(parts[1]), Lossy(parts[2])))
    else Some((cmd.args[0], cmd.args[1]))
  }

  lemma SplitOnce(a: Bytes, rest: Bytes)
    requires 0 !in a
    ensures SplitBytes(a + [0] + rest, 0) == [a] + SplitBytes(rest, 0)
  {
    var b := a + [0] + rest;
    assert forall i | 0 <= i < |a| :: b[i] == a[i];
    FindIs(b, 0, |a|);
    assert b[..|a|] == a && b[|a| + 1..] == rest;
  }

  /** A SASL PLAIN token carries the name and the password between its NUL bytes, whatever identity stands before them. */
  lemma PlainToken(cfg: Config, tag: string, mechanism: string, token: string, identity: Bytes, name: string, password: string)
    requires Upper(mechanism) == "PLAIN" && '\0' !in name && '\0' !in password && 0 !in identity
    requires cfg.base64(token) == Some(identity + [0] + (Encode(name) + [0] + Encode(password)))
    ensures Credentials(cfg, R.Command(tag, "AUTHENTICATE", [mechanism, token])) == Some((name, password))
  {
    hide Encode, Lossy, Upper, SplitBytes;
    PlainUpper();
    NulFree(name);
    NulFree(password);
    PlainParts(identity, Encode(name), Encode(password));
    LossyOfText(name);
    LossyOfText(password);
  }

  lemma PlainUpper()
    ensures Upper("PLAIN") == "PLAIN"
  {
  }

  lemma NulFree(s: string)
    requires '\0' !in s
    ensures 0 !in Encode(s)
  {
    EncodeAsciiMember(s, '\0');
  }

  lemma PlainParts(a: Bytes, b: Bytes, c: Bytes)
    requires 0 !in a && 0 !in b && 0 !in c
    ensures SplitBytes(a + [0] + (b + [0] + c), 0) == [a, b, c]
  {
    hide SplitBytes;
    SplitOnce(a, b + [0] + c);
    SplitOnce(b, c);
    SplitNone(c);
    assert [a] + ([b] + [c]) == [a, b, c];
  }

  lemma SplitNone(a: Bytes)
    requires 0 !in a
    ensures SplitBytes(a, 0) == [a]
  {
  }

  /** The name a client gives, without the mark of an app password. */
  function BaseName(name: string): string {
    if |name| >= 4 && name[|name| - 4..] == ":app" then name[..|name| - 4] else name
  }

  /** The text names the user: bare, or at the local domain in any case of letters, with spaces around it. */
  ghost predicate NamesUser(text: string, domain: string, username: string) {
    username != "" && '@' !in username
    && (Trim(text) == username || exists d :: Trim(text) == username + "@" + d && Upper(d) == Upper(domain))
  }

  lemma LocalNameExactly(text: string, domain: string, username: string)
    ensures LocalUsername(text, domain) == Some(username) <==> NamesUser(text, domain, username)
  {
    hide Trim, Upper;
    var l := Trim(text);
    var k := Find(l, '@');
    if LocalUsername(text, domain) == Some(username) && k < |l| {
      assert l == l[..k] + "@" + l[k + 1..];
      assert '@' !in l[..k];
    }
    if NamesUser(text, domain, username) && l != username {
      var d :| l == username + "@" + d && Upper(d) == Upper(domain);
      assert l[|username|] == '@' && l[..|username|] == username && l[|username| + 1..] == d;
      assert forall i | 0 <= i < |username| :: l[i] == username[i];
      FindIs(l, '@', |username|);
    }
  }

  /** The shares an app password is tried on: the user's own, and none that is revoked. */
  predicate OwnShares(db: Db, id: nat, offered: map<string, Bytes>) {
    && (forall k | k in offered :: (id, k) in db.shares && !db.shares[(id, k)].1 && offered[k] == db.shares[(id, k)].0)
    && (forall k | k in db.shares && k.0 == id && !db.shares[k].1 :: k.1 in offered)
  }

  /** The password proves the user: an app password unlocks one of the user's shares; otherwise it verifies against the stored
      hash, or the user is in the local group where that is the mode. */
  ghost predicate Proves(cfg: Config, db: Db, name: string, password: string, id: nat)
    requires id in db.users
  {
    if |name| >= 4 && name[|name| - 4..] == ":app" then exists offered :: OwnShares(db, id, offered) && cfg.unlocks(password, offered)
    else if cfg.mode == Database then cfg.verify(password, db.users[id].passwordHash)
    else cfg.inGroup(db.users[id].username)
  }

  lemma AdmitsExactly(cfg: Config, db: Db, name: string, username: string, id: nat, password: string)
    requires NamedUser(db, id, username)
    ensures Admits(cfg, db, name, username, id, password) <==> Proves(cfg, db, name, password, id)
  {
    var rows := ShareRows(db.shares, id);
    assert OwnShares(db, id, rows);
    forall offered | OwnShares(db, id, offered) ensures offered == rows {
      forall k | k in offered ensures k in rows && rows[k] == offered[k] { assert (id, k) in db.shares; }
      forall k | k in rows ensures k in offered { assert (id, k) in db.shares; }
    }
  }

  /** The command logs the user in: its name is the user's, and its password proves the user. */
  ghost predicate LogsIn(cfg: Config, db: Db, cmd: R.Command, id: nat, username: string) {
    && (cmd.name == "LOGIN" || cmd.name == "AUTHENTICATE") && Credentials(cfg, cmd).Some? && NamedUser(db, id, username)
    && var (name, password) := Credentials(cfg, cmd).value;
    && NamesUser(BaseName(name), cfg.domain, username) && Proves(cfg, db, name, password, id)
  }

  lemma LogInNames(name: string)
    requires KindOf(name) == LogIn
    ensures name == "LOGIN" || name == "AUTHENTICATE"
  {
  }

  /** A login succeeds if and only if the command logs somebody in, and then the session is that user's. */
  lemma AuthExactly(cfg: Config, db: Db, s: Session, cmd: R.Command)
    requires cmd.name == "LOGIN" || cmd.name == "AUTHENTICATE"
    ensures var t := Auth(cfg, db, s, cmd);
            && t.db == db
            && (t.session != s ==> s.state == NotAuthenticated && LogsIn(cfg, db, cmd, t.session.userId, t.session.username)
                                   && t.session == s.(state := Authenticated, userId := t.session.userId, username := t.session.username))
            && (s.state == NotAuthenticated && UniqueKeys(db) ==>
                  forall id, username | LogsIn(cfg, db, cmd, id, username) ::
                    t.session == s.(state := Authenticated, userId := id, username := username))
  {
    hide SplitBytes, Lossy, LocalUsername, Tagged, SameIgnoringCase, KindOf, Admits, Proves, NamesUser, UniqueMailboxes, UniqueMessages, UniqueTransactions;
    if s.state == NotAuthenticated && Credentials(cfg, cmd).Some? {
      var (name, password) := Credentials(cfg, cmd).value;
      AppSuffix(name);
      assert Auth(cfg, db, s, cmd) == Login(cfg, db, s, cmd.tag, name, password) by { AuthIsLogin(cfg, db, s, cmd); }
      BaseIs(name);
      var local := LocalUsername(BaseName(name), cfg.domain);
      if local.Some? {
        LocalNameExactly(BaseName(name), cfg.domain, local.value);
        var user := GetUser(db, local.value);
        if user.Some? { AdmitsExactly(cfg, db, name, local.value, user.value, password); }
      }
      forall id: nat, username: string | LogsIn(cfg, db, cmd, id, username)
        ensures local == Some(username) && Admits(cfg, db, name, username, id, password)
        ensures UniqueKeys(db) ==> GetUser(db, username) == Some(id)
      {
        LocalNameExactly(BaseName(name), cfg.domain, username);
        AdmitsExactly(cfg, db, name, username, id, password);
        if UniqueKeys(db) { GetUserIs(db, id, username); }
      }
    }
  }

  lemma BaseIs(name: string)
    ensures BaseName(name) == (if IsApp(name) then name[..|name| - 4] else name)
  {
  }

  lemma AuthIsLogin(cfg: Config, db: Db, s: Session, cmd: R.Command)
    requires s.state == NotAuthenticated && Credentials(cfg, cmd).Some?
    ensures var (name, password) := Credentials(cfg, cmd).value;
            Auth(cfg, db, s, cmd) == Login(cfg, db, s, cmd.tag, name, password)
  {
    hide SplitBytes, Lossy, Tagged, SameIgnoringCase, Login;
  }

  /** One command changes who the session is only by logging in. */
  lemma UserChangesByLogin(cfg: Config, db: Db, s: Session, cmd: R.Command)
    requires Sound(db)
    ensures var t := Handle(cfg, db, s, cmd);
            s.state == NotAuthenticated && t.session.state != NotAuthenticated ==>
              LogsIn(cfg, db, cmd, t.session.userId, t.session.username)
  {
    hide Sound, Store, Fetch, Search, MailboxStatus, Auth, Select, ExpungeSelected, Close, UidCommand, Plain, LogsIn, KindOf;
    if KindOf(cmd.name) == LogIn {
      LogInNames(cmd.name);
      AuthExactly(cfg, db, s, cmd);
    }
    I.SelectKeepsStore(db, s, cmd);
    I.StoreOnlyMail(db, s, cmd);
    I.ExpungeStepOnlyMail(db, s, cmd);
    I.UidOnlyMail(cfg, db, s, cmd);
  }

  /** Over a whole run of a fresh connection: whoever the session is logged in as, some command of the run logged that
      user in, against the store as it stood then; and that user is in the store still. */
  lemma {:induction false} LoggedInByCommand(cfg: Config, db: Db, s: Session, cmds: seq<R.Command>)
    requires Sound(db) && s.state == NotAuthenticated
    ensures var r := I.Run(cfg, db, s, cmds);
            r.session.state != NotAuthenticated ==>
              && NamedUser(r.db, r.session.userId, r.session.username)
              && exists k :: 0 <= k < |cmds| && LogsIn(cfg, db, cmds[k], r.session.userId, r.session.username)
    decreases |cmds|
  {
    hide Handle, Sound, LogsIn;
    if cmds != [] {
      var t := Handle(cfg, db, s, cmds[0]);
      I.CommandIsContained(cfg, db, s, cmds[0]);
      UserChangesByLogin(cfg, db, s, cmds[0]);
      I.RunIsContained(cfg, t.db, t.session, cmds[1..]);
      var r := I.Run(cfg, db, s, cmds);
      if t.session.state == NotAuthenticated {
        LoggedInByCommand(cfg, db, t.session, cmds[1..]);
        if r.session.state != NotAuthenticated {
          var k :| 0 <= k < |cmds| - 1 && LogsIn(cfg, db, cmds[1..][k], r.session.userId, r.session.username);
          assert LogsIn(cfg, db, cmds[k + 1], r.session.userId, r.session.username);
        }
      } else {
        NamedByLogin(cfg, db, cmds[0], t.session.userId, t.session.username);
        assert LogsIn(cfg, db, cmds[0], r.session.userId, r.session.username);
      }
    }
  }

  lemma NamedByLogin(cfg: Config, db: Db, cmd: R.Command, id: nat, username: string)
    requires LogsIn(cfg, db, cmd, id, username)
    ensures NamedUser(db, id, username)
  {
  }
}
