/** The numbers a session tells: what SELECT and STATUS count, and what SEARCH finds. */
module SessionNumbers {
  import opened Utf8
  import opened Text
  import opened MailStore
  import opened Listing
  import opened FetchReply
  import opened ImapSession
  import opened SqliteStore
  import D = SessionDispatch
  import SF = SessionFlags
  import R = ImapReader

  // ------------------------------------------------------------------- SEARCH

  predicate Among(args: seq<string>, name: string) {
    exists i | 0 <= i < |args| :: Upper(args[i]) == name
  }

  /** Everything is asked for: no criterion, or an ALL with nothing but ALL and UNSEEN behind it. */
  predicate AsksAll(args: seq<string>) {
    args == [] || exists k | 0 <= k < |args| :: Upper(args[k]) == "ALL" && Mild(args[k + 1..])
  }

  predicate Mild(args: seq<string>) {
    forall i | 0 <= i < |args| :: Upper(args[i]) == "ALL" || Upper(args[i]) == "UNSEEN"
  }

  /** The message is not marked as seen, which the lowest bit of its flags says. */
  predicate NotSeen(m: Meta) {
    m.flags & 1 == 0
  }

  /** The messages found, in the order of the listing. */
  function Found(l: seq<Meta>, args: seq<string>): seq<Meta> {
    if l == [] then []
    else (if AsksAll(args) || (Among(args, "UNSEEN") && NotSeen(l[0])) then [l[0]] else []) + Found(l[1..], args)
  }

  lemma {:induction false} AllExactly(args: seq<string>)
    ensures MatchesAll(args) <==> AsksAll(args)
    decreases |args|
  {
    AllWord();
    hide Upper, Mild;
    if args != [] {
      var n := |args| - 1;
      var init, last := args[..n], args[n];
      assert args[n + 1..] == [] && Mild([]) by { NothingMild(); }
      AllExactly(init);
      if Upper(last) == "ALL" {
        assert AsksAll(args);
      } else if Upper(last) == "UNSEEN" {
        if k :| 0 <= k < |args| && Upper(args[k]) == "ALL" && Mild(args[k + 1..]) {
          assert k < n;
          MildSnoc(args, k, n);
          assert init[k] == args[k];
        }
        if init != [] && AsksAll(init) {
          var k :| 0 <= k < |init| && Upper(init[k]) == "ALL" && Mild(init[k + 1..]);
          MildSnoc(args, k, n);
          assert args[k] == init[k];
        }
      } else {
        if k :| 0 <= k < |args| && Upper(args[k]) == "ALL" && Mild(args[k + 1..]) {
          assert k < n;
          LastMild(args, k, n);
        }
      }
    }
  }

  lemma AllWord()
    ensures "ALL" != "UNSEEN"
  {
    assert |"ALL"| != |"UNSEEN"|;
  }

  lemma NothingMild()
    ensures Mild([])
  {
  }

  lemma MildSnoc(args: seq<string>, k: nat, n: nat)
    requires k < n == |args| - 1 && Upper(args[n]) == "UNSEEN"
    ensures Mild(args[k + 1..]) <==> Mild(args[..n][k + 1..])
  {
    hide Upper;
    assert args[k + 1..] == args[..n][k + 1..] + [args[n]];
  }

  lemma LastMild(args: seq<string>, k: nat, n: nat)
    requires k < n == |args| - 1 && Mild(args[k + 1..])
    ensures Upper(args[n]) == "ALL" || Upper(args[n]) == "UNSEEN"
  {
    hide Upper;
    assert args[k + 1..][n - k - 1] == args[n];
  }

  lemma {:induction false} HitsAre(l: seq<Meta>, args: seq<string>)
    ensures Hits(l, MatchesAll(args), AsksUnseen(args)) == Found(l, args)
  {
    AllExactly(args);
    hide MatchesAll, AsksAll;
    assert AsksUnseen(args) <==> Among(args, "UNSEEN");
    hide AsksUnseen, Among;
    if l != [] { HitsAre(l[1..], args); }
  }

  /** The criteria of a SEARCH, or of a UID SEARCH. */
  predicate IsSearch(cmd: R.Command, args: seq<string>) {
    (cmd.name == "SEARCH" && cmd.args == args) || (cmd.name == "UID" && cmd.args != [] && Upper(cmd.args[0]) == "SEARCH" && cmd.args[1..] == args)
  }

  lemma SearchArgsAre(cmd: R.Command, args: seq<string>)
    requires IsSearch(cmd, args)
    ensures SearchArgs(cmd) == args
  {
    assert Upper("SEARCH") == "SEARCH";
    assert |"UID"| != |"SEARCH"|;
  }

  /** SEARCH lists the UIDs of exactly the messages that meet the criteria, in the order of the listing. */
  lemma SearchFinds(cfg: Config, db: Db, s: Session, cmd: R.Command, box: nat, args: seq<string>)
    requires s.state == Selected && MailboxNamed(db, s.userId, s.selected) == Some(box) && IsSearch(cmd, args)
    ensures var t, found := Handle(cfg, db, s, cmd), Found(ListMailbox(db, box), args);
            && t.session == s && t.db == db
            && exists text :: t.reply == "* SEARCH " + text + "\r\n" + (cmd.tag + " OK SEARCH completed\r\n")
                 && |Words(text)| == |found| && forall i | 0 <= i < |found| :: Words(text)[i] == ToDecimal(found[i].uid)
  {
    hide Handle, ListMailbox, Found, MatchesAll, AsksUnseen, Hits, Join, ToDecimal, Words, SearchArgs, Upper;
    D.Dispatches(cfg, db, s, cmd);
    SearchArgsAre(cmd, args);
    var found := Found(ListMailbox(db, box), args);
    HitsAre(ListMailbox(db, box), args);
    SF.UidWordsAreWords(found);
    var text := Join(UidWords(found), " ");
    SearchLine(text);
    SearchDone(cmd.tag);
  }

  lemma SearchLine(text: string)
    ensures Untagged("SEARCH " + text) == "* SEARCH " + text + "\r\n"
  {
    assert "* " + ("SEARCH " + text) == ("* " + "SEARCH ") + text && "* " + "SEARCH " == "* SEARCH ";
  }

  lemma SearchDone(tag: string)
    ensures Completed(tag, "SEARCH") == tag + " OK SEARCH completed\r\n"
  {
    assert "SEARCH" + " completed" == "SEARCH completed" && " " + "OK" + " " + "SEARCH completed" + "\r\n" == " OK SEARCH completed\r\n";
    assert tag + " " + "OK" + " " + "SEARCH completed" + "\r\n" == tag + (" " + "OK" + " " + "SEARCH completed" + "\r\n");
  }

  // --------------------------------------------------------- SELECT and STATUS

  /** What the mailbox holds. */
  datatype Tally = Tally(count: nat, unseen: nat, uidnext: nat, uidvalidity: nat)

  /** The numbers of a mailbox: entries listed, those without \Seen, the counter, and the validity, which is 1 for an empty
      listing. */
  ghost predicate TallyIs(db: Db, box: nat, t: Tally)
    requires box in db.mailboxes
  {
    var l := ListMailbox(db, box);
    && t.count == |l| && t.unseen == CountNotSeen(l)
    && t.uidnext == db.mailboxes[box].uidnext % 0x1_0000_0000
    && t.uidvalidity == if l == [] then 1 else db.mailboxes[box].uidvalidity
  }

  function CountNotSeen(l: seq<Meta>): nat {
    if l == [] then 0 else (if NotSeen(l[0]) then 1 else 0) + CountNotSeen(l[1..])
  }

  lemma {:induction false} UnseenCount(l: seq<Meta>)
    ensures |UnseenOf(l)| == CountNotSeen(l)
  {
    if l != [] { UnseenCount(l[1..]); }
  }

  lemma TallyOf(db: Db, box: nat)
    requires box in db.mailboxes
    ensures var l := ListMailbox(db, box);
            TallyIs(db, box, Tally(|l|, |UnseenOf(l)|, db.mailboxes[box].uidnext % U32, Validity(l)))
  {
    hide ListMailbox, UnseenOf;
    var l := ListMailbox(db, box);
    UnseenCount(l);
    ListingShows(db, box);
    if l != [] { assert l[0] in l; }
  }

  /** The text stands in the reply. */
  ghost predicate Holds(reply: string, text: string) {
    exists a, b :: reply == a + text + b
  }

  /** The mailbox argument in any case of letters. */
  predicate Means(args: seq<string>, mailbox: string) {
    args != [] && (mailbox == "INBOX" || mailbox == "Sent") && Upper(args[0]) == Upper(mailbox)
  }

  lemma MeansCanonical(args: seq<string>, mailbox: string)
    requires Means(args, mailbox)
    ensures MailboxArg(args) == Some(mailbox)
  {
    assert Upper("INBOX")[0] == 'I' && Upper("Sent")[0] == 'S';
  }

  lemma HoldsIn(a: string, text: string, b: string, reply: string)
    requires reply == a + text + b
    ensures Holds(reply, text)
  {
  }

  /** SELECT opens the mailbox and tells its numbers, as 32-bit numbers, each under its own name. */
  lemma SelectTells(cfg: Config, db: Db, s: Session, cmd: R.Command, mailbox: string, box: nat)
    requires (cmd.name == "SELECT" || cmd.name == "EXAMINE") && s.state != NotAuthenticated && Means(cmd.args, mailbox)
    requires MailboxNamed(db, s.userId, mailbox) == Some(box)
    ensures var t := Handle(cfg, db, s, cmd);
            && t.db == db && t.session == s.(state := Selected, selected := mailbox)
            && exists n :: TallyIs(db, box, n)
                 && Holds(t.reply, "* " + ToDecimal(n.count % 0x1_0000_0000) + " EXISTS\r\n")
                 && Holds(t.reply, "* OK [UNSEEN " + ToDecimal(n.unseen % 0x1_0000_0000) + "]\r\n")
                 && Holds(t.reply, "* OK [UIDVALIDITY " + ToDecimal(n.uidvalidity) + "]\r\n")
                 && Holds(t.reply, "* OK [UIDNEXT " + ToDecimal(n.uidnext) + "]\r\n")
  {
    hide Handle, ListMailbox, UnseenOf, ToDecimal, Completed, SelectLines, TallyIs, Holds, Validity, Upper;
    D.Dispatches(cfg, db, s, cmd);
    MeansCanonical(cmd.args, mailbox);
    TallyOf(db, box);
    var l := ListMailbox(db, box);
    var n := Tally(|l|, |UnseenOf(l)|, db.mailboxes[box].uidnext % U32, Validity(l));
    SelectHolds(n.count % U32, n.unseen % U32, n.uidvalidity, n.uidnext, Handle(cfg, db, s, cmd).reply[|SelectLines(n.count % U32, n.unseen % U32, n.uidvalidity, n.uidnext)|..]);
  }

  lemma SelectHolds(count: nat, unseen: nat, validity: nat, uidnext: nat, rest: string)
    ensures var reply := SelectLines(count, unseen, validity, uidnext) + rest;
            && Holds(reply, "* " + ToDecimal(count) + " EXISTS\r\n")
            && Holds(reply, "* OK [UNSEEN " + ToDecimal(unseen) + "]\r\n")
            && Holds(reply, "* OK [UIDVALIDITY " + ToDecimal(validity) + "]\r\n")
            && Holds(reply, "* OK [UIDNEXT " + ToDecimal(uidnext) + "]\r\n")
  {
    hide ToDecimal, Holds;
    var c, u, v, n := ToDecimal(count), ToDecimal(unseen), ToDecimal(validity), ToDecimal(uidnext);
    var a, f := Untagged(c + " EXISTS"), Untagged("0 RECENT") + Untagged("FLAGS (\\Seen \\Answered \\Flagged \\Deleted)");
    var d, e, g := Untagged("OK [UNSEEN " + u + "]"), Untagged("OK [UIDVALIDITY " + v + "]"), Untagged("OK [UIDNEXT " + n + "]");
    Lines(c, u, v, n);
    hide Untagged;
    var reply := SelectLines(count, unseen, validity, uidnext) + rest;
    Pieces(a, Untagged("0 RECENT"), Untagged("FLAGS (\\Seen \\Answered \\Flagged \\Deleted)"), d, e, g, rest);
    HoldsIn("", a, f + d + e + g + rest, reply);
    HoldsIn(a + f, d, e + g + rest, reply);
    HoldsIn(a + f + d, e, g + rest, reply);
    HoldsIn(a + f + d + e, g, rest, reply);
  }

  lemma Pieces(a: string, x: string, y: string, d: string, e: string, g: string, rest: string)
    ensures var f := x + y; var reply := a + x + y + d + e + g + rest;
            && reply == "" + a + (f + d + e + g + rest) && reply == (a + f) + d + (e + g + rest)
            && reply == (a + f + d) + e + (g + rest) && reply == (a + f + d + e) + g + rest
  {
  }

  lemma Lines(c: string, u: string, v: string, n: string)
    ensures Untagged(c + " EXISTS") == "* " + c + " EXISTS\r\n" && Untagged("OK [UNSEEN " + u + "]") == "* OK [UNSEEN " + u + "]\r\n"
    ensures Untagged("OK [UIDVALIDITY " + v + "]") == "* OK [UIDVALIDITY " + v + "]\r\n" && Untagged("OK [UIDNEXT " + n + "]") == "* OK [UIDNEXT " + n + "]\r\n"
  {
    LineOf("", c, " EXISTS");
    LineOf("OK [UNSEEN ", u, "]");
    LineOf("OK [UIDVALIDITY ", v, "]");
    LineOf("OK [UIDNEXT ", n, "]");
    assert "" + c == c && "* " + "" == "* ";
    assert "* " + "OK [UNSEEN " == "* OK [UNSEEN " && "* " + "OK [UIDVALIDITY " == "* OK [UIDVALIDITY " && "* " + "OK [UIDNEXT " == "* OK [UIDNEXT ";
    assert " EXISTS" + "\r\n" == " EXISTS\r\n" && "]" + "\r\n" == "]\r\n";
  }

  lemma LineOf(a: string, n: string, b: string)
    ensures Untagged(a + n + b) == ("* " + a) + n + (b + "\r\n")
  {
  }

  /** STATUS tells the same numbers, uncut, of the mailbox it names, and changes nothing. */
  lemma StatusTells(cfg: Config, db: Db, s: Session, cmd: R.Command, mailbox: string, box: nat)
    requires cmd.name == "STATUS" && s.state != NotAuthenticated && Means(cmd.args, mailbox) && MailboxNamed(db, s.userId, mailbox) == Some(box)
    ensures var t := Handle(cfg, db, s, cmd);
            && t.db == db && t.session == s
            && exists n :: TallyIs(db, box, n)
                 && t.reply == "* STATUS \"" + mailbox + "\" (MESSAGES " + ToDecimal(n.count) + " RECENT 0 UNSEEN " + ToDecimal(n.unseen)
                               + " UIDNEXT " + ToDecimal(n.uidnext) + " UIDVALIDITY " + ToDecimal(n.uidvalidity) + ")\r\n"
                               + (cmd.tag + " OK STATUS completed\r\n")
  {
    hide Handle, ListMailbox, UnseenOf, ToDecimal, TallyIs, Validity, Upper;
    D.Dispatches(cfg, db, s, cmd);
    MeansCanonical(cmd.args, mailbox);
    TallyOf(db, box);
    var l := ListMailbox(db, box);
    var n := Tally(|l|, |UnseenOf(l)|, db.mailboxes[box].uidnext % U32, Validity(l));
    StatusIs(mailbox, n, cmd.tag);
    hide StatusLine, Completed;
  }

  lemma StatusIs(mailbox: string, n: Tally, tag: string)
    ensures StatusLine(mailbox, n.count, n.unseen, n.uidnext, n.uidvalidity)
         == "* STATUS \"" + mailbox + "\" (MESSAGES " + ToDecimal(n.count) + " RECENT 0 UNSEEN " + ToDecimal(n.unseen)
            + " UIDNEXT " + ToDecimal(n.uidnext) + " UIDVALIDITY " + ToDecimal(n.uidvalidity) + ")\r\n"
    ensures Completed(tag, "STATUS") == tag + " OK STATUS completed\r\n"
  {
    hide ToDecimal;
    StatusText(mailbox, ToDecimal(n.count), ToDecimal(n.unseen), ToDecimal(n.uidnext), ToDecimal(n.uidvalidity));
    assert "STATUS" + " completed" == "STATUS completed" && " " + "OK" + " " + "STATUS completed" + "\r\n" == " OK STATUS completed\r\n";
    assert tag + " " + "OK" + " " + "STATUS completed" + "\r\n" == tag + (" " + "OK" + " " + "STATUS completed" + "\r\n");
  }

  lemma Flattened(x: string, p: string, m: string, a: string, c: string, b: string, u: string, d: string, n: string, e: string, v: string, q: string, z: string)
    ensures x + (p + m + a + c + b + u + d + n + e + v + q) + z == (x + p) + m + a + c + b + u + d + n + e + v + (q + z)
  {
  }

  lemma StatusText(mailbox: string, c: string, u: string, n: string, v: string)
    ensures Untagged("STATUS \"" + mailbox + "\" (MESSAGES " + c + " RECENT 0 UNSEEN " + u + " UIDNEXT " + n + " UIDVALIDITY " + v + ")")
         == "* STATUS \"" + mailbox + "\" (MESSAGES " + c + " RECENT 0 UNSEEN " + u + " UIDNEXT " + n + " UIDVALIDITY " + v + ")\r\n"
  {
    Flattened("* ", "STATUS \"", mailbox, "\" (MESSAGES ", c, " RECENT 0 UNSEEN ", u, " UIDNEXT ", n, " UIDVALIDITY ", v, ")", "\r\n");
    assert "* " + "STATUS \"" == "* STATUS \"" && ")" + "\r\n" == ")\r\n";
  }

  // ------------------------------------------------------- EXPUNGE, CLOSE and LIST

  function ExpungedLines(uids: seq<nat>): string {
    if uids == [] then "" else "* " + ToDecimal(uids[0]) + " EXPUNGE\r\n" + ExpungedLines(uids[1..])
  }

  lemma {:induction false} ExpungedAre(uids: seq<nat>)
    ensures ExpungeLines(uids) == ExpungedLines(uids)
  {
    hide ToDecimal;
    if uids != [] {
      LineOf("", ToDecimal(uids[0]), " EXPUNGE");
      ExpungedAre(uids[1..]);
      assert "" + ToDecimal(uids[0]) == ToDecimal(uids[0]) && "* " + "" == "* " && " EXPUNGE" + "\r\n" == " EXPUNGE\r\n";
    }
  }

  predicate Gone(db: Db, box: nat, id: nat) {
    id in db.messages && db.messages[id].mailboxId == box && db.messages[id].flags & 8 != 0
  }

  /** The store without the deleted messages of the mailbox, and nothing else changed. */
  ghost predicate Cleared(db: Db, later: Db, box: nat) {
    && later == db.(messages := later.messages)
    && (forall id :: id in later.messages <==> (id in db.messages && !Gone(db, box, id)))
    && (forall id | id in later.messages :: later.messages[id] == db.messages[id])
  }

  lemma ExpungeClears(db: Db, box: nat)
    ensures Cleared(db, Expunge(db, box), box)
  {
  }

  /** EXPUNGE removes exactly the messages of the selected mailbox marked deleted, and tells a UID for each. */
  lemma ExpungeTells(cfg: Config, db: Db, s: Session, cmd: R.Command, box: nat)
    requires cmd.name == "EXPUNGE" && s.state == Selected && MailboxNamed(db, s.userId, s.selected) == Some(box)
    ensures var t := Handle(cfg, db, s, cmd);
            && t.session == s && Cleared(db, t.db, box)
            && exists uids: seq<nat> :: t.reply == ExpungedLines(uids) + (cmd.tag + " OK EXPUNGE completed\r\n")
                 && |uids| == |set id | id in db.messages && Gone(db, box, id)|
                 && forall id | Gone(db, box, id) :: db.messages[id].uid % 0x1_0000_0000 in uids
  {
    hide Handle, ExpungeLines, Cleared, Completed;
    D.Dispatches(cfg, db, s, cmd);
    ExpungeClears(db, box);
    var uids := DoomedUids(db, box);
    ExpungedAre(uids);
    ExpungeReportsRemoved(db, box);
    assert DoomedIn(db, box) == set id | id in db.messages && Gone(db, box, id);
    ExpungeDone(cmd.tag);
    hide DoomedUids;
    assert forall id | Gone(db, box, id) :: id in DoomedIn(db, box) && db.messages[id].uid % 0x1_0000_0000 == AsU32(db.messages[id].uid);
  }

  lemma ExpungeDone(tag: string)
    ensures Completed(tag, "EXPUNGE") == tag + " OK EXPUNGE completed\r\n" && Completed(tag, "CLOSE") == tag + " OK CLOSE completed\r\n"
  {
    DoneIs(tag, "EXPUNGE");
    DoneIs(tag, "CLOSE");
    assert " OK " + "EXPUNGE" + " completed\r\n" == " OK EXPUNGE completed\r\n" && " OK " + "CLOSE" + " completed\r\n" == " OK CLOSE completed\r\n";
    hide Completed;
  }

  lemma DoneIs(tag: string, what: string)
    ensures Completed(tag, what) == tag + (" OK " + what + " completed\r\n")
  {
    assert " " + "OK" + " " == " OK " && " completed" + "\r\n" == " completed\r\n";
    assert tag + " " + "OK" + " " + (what + " completed") + "\r\n" == tag + ((" " + "OK" + " ") + what + (" completed" + "\r\n"));
  }

  /** CLOSE leaves the selected state and clears the INBOX, and tells no UIDs. */
  lemma CloseTells(cfg: Config, db: Db, s: Session, cmd: R.Command, inbox: nat)
    requires cmd.name == "CLOSE" && s.state == Selected && MailboxNamed(db, s.userId, "INBOX") == Some(inbox)
    ensures var t := Handle(cfg, db, s, cmd);
            t.session == s.(state := Authenticated) && Cleared(db, t.db, inbox) && t.reply == cmd.tag + " OK CLOSE completed\r\n"
  {
    hide Handle, Cleared, Completed;
    D.Dispatches(cfg, db, s, cmd);
    ExpungeClears(db, inbox);
    ExpungeDone(cmd.tag);
  }

  function ListedAs(name: string): string {
    "* LIST (\\HasNoChildren) \"/\" \"" + name + "\"\r\n"
  }

  /** LIST, once logged in, lists each of the two mailboxes that the pattern names, in any case of letters, and both when it is
      missing, empty or a star. */
  lemma ListTells(cfg: Config, db: Db, s: Session, cmd: R.Command)
    requires cmd.name == "LIST" && s.state != NotAuthenticated
    ensures var t := Handle(cfg, db, s, cmd);
            var pattern := if |cmd.args| > 1 then cmd.args[1] else "";
            var both := pattern == "" || pattern == "*";
            && t.session == s && t.db == db
            && t.reply == (if both || Upper(pattern) == Upper("INBOX") then ListedAs("INBOX") else "")
                          + (if both || Upper(pattern) == Upper("Sent") then ListedAs("Sent") else "")
                          + (cmd.tag + (" OK " + "LIST" + " completed\r\n"))
  {
    ListKind();
    hide KindOf, Upper;
    DoneIs(cmd.tag, "LIST");
    hide Completed;
    ListLineIs(INBOX);
    ListLineIs(SENT);
    hide Untagged, ListedAs;
  }

  lemma ListKind()
    ensures KindOf("LIST") == Lists
  {
  }

  lemma ListLineIs(name: string)
    ensures Untagged("LIST (\\HasNoChildren) \"/\" \"" + name + "\"") == ListedAs(name)
  {
    LineOf("LIST (\\HasNoChildren) \"/\" \"", name, "\"");
    hide Untagged;
    assert "* " + "LIST (\\HasNoChildren) \"/\" \"" == "* LIST (\\HasNoChildren) \"/\" \"" && "\"" + "\r\n" == "\"\r\n";
  }

  /** Commands that need no login change nothing and say so: NOOP, CAPABILITY, and LOGOUT, which says goodbye first. */
  lemma PlainTells(cfg: Config, db: Db, s: Session, cmd: R.Command)
    requires cmd.name == "NOOP" || cmd.name == "CAPABILITY" || cmd.name == "LOGOUT"
    ensures var t := Handle(cfg, db, s, cmd);
            && t.session == s && t.db == db
            && t.reply == (if cmd.name == "CAPABILITY" then "* " + "CAPABILITY IMAP4rev1 IDLE NAMESPACE AUTH=PLAIN" + "\r\n"
                           else if cmd.name == "LOGOUT" then "* " + "BYE Talk IMAP server logging out" + "\r\n" else "")
                          + (cmd.tag + (" OK " + cmd.name + " completed\r\n"))
  {
    PlainKinds();
    hide KindOf;
    DoneIs(cmd.tag, cmd.name);
    hide Completed;
    assert "" + Completed(cmd.tag, cmd.name) == Completed(cmd.tag, cmd.name);
  }

  lemma PlainKinds()
    ensures KindOf("NOOP") == Noop && KindOf("CAPABILITY") == Capability && KindOf("LOGOUT") == Logout
    ensures "NOOP" != "CAPABILITY" && "NOOP" != "LOGOUT" && "CAPABILITY" != "LOGOUT"
  {
    assert |"NOOP"| == 4 && |"CAPABILITY"| == 10 && |"LOGOUT"| == 6;
  }
}
