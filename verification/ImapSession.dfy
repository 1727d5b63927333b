/** An IMAP session over the store: its states, its commands and their replies. */
module ImapSession {
  import opened Utf8
  import opened Text
  import opened MailStore
  import opened Listing
  import opened SqliteStore
  import opened FetchReply
  import Q = SequenceSet
  import F = FetchItems
  import R = ImapReader

  datatype State = NotAuthenticated | Authenticated | Selected
  datatype AuthMode = Database | LocalAuth
  datatype Status = OK | NO | BAD

  /** What a session remembers. */
  datatype Session = Session(state: State, username: string, userId: nat, selected: string)

  const FRESH: Session := Session(NotAuthenticated, "", 0, INBOX)

  /** The server's settings, and the library functions a login and a listing depend on. */
  datatype Config = Config(domain: string, mode: AuthMode, base64: string -> Option<Bytes>,
                           verify: (string, string) -> bool, unlocks: (string, map<string, Bytes>) -> bool,
                           inGroup: string -> bool, formats: Formats)

  /** A command's reply, and the session and store after it. */
  datatype Turn = Turn(reply: string, session: Session, db: Db)

  function StatusWord(s: Status): string {
    match s
    case OK => "OK"
    case NO => "NO"
    case BAD => "BAD"
  }

  function Tagged(tag: string, status: Status, text: string): string {
    tag + " " + StatusWord(status) + " " + text + CRLF
  }

  // -------------------------------------------------------------------- login

  /** `local_username`: a bare name, or a name at the local domain. */
  function LocalUsername(login: string, domain: string): Option<string> {
    var l := Trim(login);
    var k := Find(l, '@');
    if l == "" then None
    else if k == |l| then Some(l)
    else if k == 0 || !SameIgnoringCase(l[k + 1..], domain) then None
    else Some(l[..k])
  }

  const APP: string := ":app"

  predicate IsApp(username: string) {
    |username| >= 4 && username[|username| - 4..] == APP
  }

  function ShareRows(shares: map<(nat, string), (Bytes, bool)>, userId: nat): map<string, Bytes> {
    map k | k in shares && k.0 == userId && !shares[k].1 :: k.1 := shares[k].0
  }

  predicate Admits(cfg: Config, db: Db, username: string, local: string, id: nat, password: string)
    requires id in db.users
  {
    if IsApp(username) then cfg.unlocks(password, ShareRows(db.shares, id))
    else if cfg.mode == Database then cfg.verify(password, db.users[id].passwordHash)
    else cfg.inGroup(local)
  }

  ghost function Login(cfg: Config, db: Db, s: Session, tag: string, username: string, password: string): Turn {
    var failed := Turn(Tagged(tag, NO, "Authentication failed"), s, db);
    match LocalUsername(if IsApp(username) then username[..|username| - 4] else username, cfg.domain)
    case None => failed
    case Some(local) =>
      match GetUser(db, local)
      case None => failed
      case Some(id) =>
        if Admits(cfg, db, username, local, id, password) then
          Turn(Tagged(tag, OK, if IsApp(username) then "LOGIN completed (app password)" else "LOGIN completed"),
               s.(userId := id, username := local, state := Authenticated), db)
        else failed
  }

  /** The parts of a SASL PLAIN token: between its NUL bytes. */
  function SplitBytes(b: Bytes, c: Byte): (parts: seq<Bytes>)
    ensures parts != []
    decreases |b|
  {
    var k := Find(b, c);
    if k == |b| then [b] else [b[..k]] + SplitBytes(b[k + 1..], c)
  }

  ghost function Auth(cfg: Config, db: Db, s: Session, cmd: R.Command): Turn {
    var tag, args := cmd.tag, cmd.args;
    if s.state != NotAuthenticated then Turn(Tagged(tag, BAD, "Already authenticated"), s, db)
    else if cmd.name == "AUTHENTICATE" then
      if |args| != 2 || !SameIgnoringCase(args[0], "PLAIN") then Turn(Tagged(tag, BAD, "Only AUTHENTICATE PLAIN <token> supported"), s, db)
      else
        match cfg.base64(args[1])
        case None => Turn(Tagged(tag, BAD, "Invalid base64"), s, db)
        case Some(token) =>
          var parts := SplitBytes(token, 0);
          if |parts| != 3 then Turn(Tagged(tag, BAD, "Invalid SASL PLAIN payload"), s, db)
          else Login(cfg, db, s, tag, Lossy(parts[1]), Lossy(parts[2]))
    else if |args| != 2 then Turn(Tagged(tag, BAD, "LOGIN requires username and password"), s, db)
    else Login(cfg, db, s, tag, args[0], args[1])
  }

  // ------------------------------------------------------- mailboxes as listed

  ghost function List(db: Db, userId: nat, mailbox: string): Option<seq<Meta>> {
    var box := MailboxNamed(db, userId, mailbox);
    if box.Some? then Some(ListMailbox(db, box.value)) else None
  }

  predicate Unseen(m: Meta) {
    m.flags & SEEN == 0
  }

  function UnseenOf(l: seq<Meta>): seq<Meta> {
    if l == [] then [] else (if Unseen(l[0]) then [l[0]] else []) + UnseenOf(l[1..])
  }

  /** The messages a sequence set selects; the count is a 32-bit number. */
  function Chosen(l: seq<Meta>, range: string, count: nat): (r: seq<Meta>)
    ensures forall m | m in r :: m in l && Q.InRange(range, m.uid, count)
  {
    if l == [] then [] else (if Q.InRange(range, l[0].uid, count) then [l[0]] else []) + Chosen(l[1..], range, count)
  }

  function Canonical(name: string): Option<string> {
    if SameIgnoringCase(INBOX, name) then Some(INBOX) else if SameIgnoringCase(SENT, name) then Some(SENT) else None
  }

  function MailboxArg(args: seq<string>): Option<string> {
    if args == [] then None else Canonical(args[0])
  }

  function Validity(l: seq<Meta>): nat {
    if l == [] then 1 else l[0].uidvalidity
  }

  function StoreError(tag: string): string {
    Tagged(tag, NO, "Storage error: mailbox not found")
  }

  function SelectLines(exists_: nat, unseen: nat, validity: nat, uidnext: nat): string {
    Untagged(ToDecimal(exists_) + " EXISTS") + Untagged("0 RECENT") + Untagged("FLAGS (\\Seen \\Answered \\Flagged \\Deleted)")
    + Untagged("OK [UNSEEN " + ToDecimal(unseen) + "]") + Untagged("OK [UIDVALIDITY " + ToDecimal(validity) + "]")
    + Untagged("OK [UIDNEXT " + ToDecimal(uidnext) + "]")
  }

  function Completed(tag: string, what: string): string {
    Tagged(tag, OK, what + " completed")
  }

  ghost function Select(db: Db, s: Session, cmd: R.Command): Turn {
    var tag := cmd.tag;
    if s.state == NotAuthenticated then Turn(Tagged(tag, BAD, "Not authenticated"), s, db)
    else
      match MailboxArg(cmd.args)
      case None => Turn(Tagged(tag, NO, "Mailbox does not exist"), s, db)
      case Some(mailbox) =>
        match MailboxNamed(db, s.userId, mailbox)
        case None => Turn(StoreError(tag), s, db)
        case Some(id) =>
          var l := ListMailbox(db, id);
          Turn(SelectLines(|l| % U32, |UnseenOf(l)| % U32, Validity(l), db.mailboxes[id].uidnext % U32)
               + Completed(tag, if cmd.name == "EXAMINE" then "[READ-ONLY] EXAMINE" else "[READ-WRITE] SELECT"),
               s.(selected := mailbox, state := Selected), db)
  }

  function StatusLine(mailbox: string, count: nat, unseen: nat, uidnext: nat, validity: nat): string {
    Untagged("STATUS \"" + mailbox + "\" (MESSAGES " + ToDecimal(count) + " RECENT 0 UNSEEN " + ToDecimal(unseen)
             + " UIDNEXT " + ToDecimal(uidnext) + " UIDVALIDITY " + ToDecimal(validity) + ")")
  }

  ghost function MailboxStatus(db: Db, s: Session, cmd: R.Command): string {
    var tag := cmd.tag;
    if s.state == NotAuthenticated then Tagged(tag, BAD, "Not authenticated")
    else
      match MailboxArg(cmd.args)
      case None => Tagged(tag, NO, "Mailbox does not exist")
      case Some(mailbox) =>
        match MailboxNamed(db, s.userId, mailbox)
        case None => StoreError(tag)
        case Some(id) =>
          var l := ListMailbox(db, id);
          StatusLine(mailbox, |l|, |UnseenOf(l)|, db.mailboxes[id].uidnext % U32, Validity(l)) + Completed(tag, "STATUS")
  }

  function ListLine(pattern: string, name: string): string {
    if pattern == "" || pattern == "*" || SameIgnoringCase(pattern, name)
    then Untagged("LIST (\\HasNoChildren) \"/\" \"" + name + "\"") else ""
  }

  function ListMailboxes(s: Session, cmd: R.Command): string {
    if s.state == NotAuthenticated then Tagged(cmd.tag, BAD, "Not authenticated")
    else
      var pattern := if |cmd.args| > 1 then cmd.args[1] else "";
      ListLine(pattern, INBOX) + ListLine(pattern, SENT) + Completed(cmd.tag, "LIST")
  }

  // -------------------------------------------------------------------- FETCH

  /** The sequence set and the items, from a FETCH or a UID FETCH. */
  function FetchArgs(cmd: R.Command): Option<(string, string)> {
    var args := if cmd.name == "UID" then cmd.args[(if |cmd.args| > 0 then 1 else 0)..] else cmd.args;
    if cmd.name == "UID" && |args| < 2 then None
    else if |args| == 0 then None
    else Some((args[0], if |args| > 1 then Join(args[1..], " ") else "BODY[]"))
  }

  predicate NeedsBody(s: F.Section) {
    s.Full? || s.TextPart? || s.Mime? || s.Other?
  }

  function BodyFor(db: Db, m: Meta, s: F.Section): Bytes {
    if NeedsBody(s) && m.rowId in db.messages then db.messages[m.rowId].body else []
  }

  function IdentityOf(cfg: Config, s: Session, m: Meta): Identity {
    var local := s.username + "@" + cfg.domain;
    if s.selected == SENT then Identity(local, m.sender) else Identity(m.sender, local)
  }

  function FetchLine(cfg: Config, db: Db, s: Session, m: Meta, req: F.Request): string {
    Response(m, req, BodyFor(db, m, req.body), IdentityOf(cfg, s, m), cfg.formats)
  }

  function FetchLines(cfg: Config, db: Db, s: Session, l: seq<Meta>, req: F.Request): string {
    if l == [] then "" else FetchLine(cfg, db, s, l[0], req) + FetchLines(cfg, db, s, l[1..], req)
  }

  function RequestOf(cmd: R.Command, items: string): F.Request {
    var req := F.RequestFor(items);
    if cmd.name == "UID" then req.(uid := true) else req
  }

  ghost function Fetch(cfg: Config, db: Db, s: Session, cmd: R.Command): string {
    var tag := cmd.tag;
    if s.state != Selected then Tagged(tag, BAD, "No mailbox selected")
    else
      match FetchArgs(cmd)
      case None => Tagged(tag, BAD, if cmd.name == "UID" then "UID FETCH requires arguments" else "FETCH requires a sequence set")
      case Some((range, items)) =>
        match List(db, s.userId, s.selected)
        case None => StoreError(tag)
        case Some(l) =>
          FetchLines(cfg, db, s, Chosen(l, range, |l| % U32), RequestOf(cmd, items)) + Completed(tag, "FETCH")
  }

  // -------------------------------------------------------------------- STORE

  predicate IsMarkChar(c: char) {
    c == '(' || c == ')' || c == '\\' || c == ';'
  }

  /** `trim_matches` of list marks and backslashes. */
  function StripMarks(w: string): string {
    if w != "" && IsMarkChar(w[0]) then StripMarks(w[1..])
    else if w != "" && IsMarkChar(w[|w| - 1]) then StripMarks(w[..|w| - 1])
    else w
  }

  function FlagOf(w: string): bv32 {
    var name := Upper(StripMarks(w));
    if name == "SEEN" then SEEN
    else if name == "ANSWERED" then ANSWERED
    else if name == "FLAGGED" then FLAGGED
    else if name == "DELETED" then DELETED
    else 0
  }

  function Either(a: bv32, b: bv32): bv32 {
    a | b
  }

  function FlagMask(words: seq<string>): bv32 {
    if words == [] then 0 else Either(FlagMask(words[..|words| - 1]), FlagOf(words[|words| - 1]))
  }

  /** The sequence set, the mode and the flag list, from a STORE or a UID STORE. */
  function StoreArgs(cmd: R.Command): Option<(string, string, string)> {
    var k := if cmd.name == "UID" then 1 else 0;
    if |cmd.args| < k + 3 then None else Some((cmd.args[k], cmd.args[k + 1], cmd.args[k + 2]))
  }

  /** A mode that does not start with a minus sets the flags, with or without a plus. */
  predicate Sets(mode: string) {
    !StartsWith(TrimStart(mode), "-")
  }

  function SetAll(db: Db, mailboxId: nat, l: seq<Meta>, mask: bv32, value: bool): Db
    decreases |l|
  {
    if l == [] then db else SetAll(SetFlags(db, mailboxId, l[0].rowId, mask, value), mailboxId, l[1..], mask, value)
  }

  function StoredLine(m: Meta, mask: bv32, value: bool): string {
    Untagged(ToDecimal(m.uid) + " FETCH (FLAGS (" + FlagsDisplay(Flagged(m.flags, mask, value)) + "))")
  }

  function StoredLines(l: seq<Meta>, mask: bv32, value: bool): string {
    if l == [] then "" else StoredLine(l[0], mask, value) + StoredLines(l[1..], mask, value)
  }

  ghost function Store(db: Db, s: Session, cmd: R.Command): Turn {
    var tag := cmd.tag;
    if s.state != Selected then Turn(Tagged(tag, BAD, "No mailbox selected"), s, db)
    else
      match StoreArgs(cmd)
      case None => Turn(Tagged(tag, BAD, if cmd.name == "UID" then "UID STORE requires arguments" else "STORE requires arguments"), s, db)
      case Some((range, mode, spec)) =>
        match MailboxNamed(db, s.userId, s.selected)
        case None => Turn(StoreError(tag), s, db)
        case Some(id) =>
          var l := ListMailbox(db, id);
          var mask := FlagMask(Words(spec));
          if mask == 0 then Turn(Tagged(tag, BAD, "No supported flags in flag list"), s, db)
          else
            var chosen := Chosen(l, range, |l| % U32);
            Turn(StoredLines(chosen, mask, Sets(mode)) + Completed(tag, "STORE"), s, SetAll(db, id, chosen, mask, Sets(mode)))
  }

  // ------------------------------------------------- SEARCH, EXPUNGE and CLOSE

  function SearchArgs(cmd: R.Command): seq<string> {
    if cmd.name == "UID" && cmd.args != [] && SameIgnoringCase(cmd.args[0], "SEARCH") then cmd.args[1..] else cmd.args
  }

  /** The last criterion that is not UNSEEN decides whether everything matches. */
  function MatchesAll(args: seq<string>): bool {
    if args == [] then true
    else if Upper(args[|args| - 1]) == "ALL" then true
    else if Upper(args[|args| - 1]) == "UNSEEN" then |args| > 1 && MatchesAll(args[..|args| - 1])
    else false
  }

  predicate AsksUnseen(args: seq<string>) {
    exists i | 0 <= i < |args| :: Upper(args[i]) == "UNSEEN"
  }

  function Hits(l: seq<Meta>, all: bool, unseen: bool): seq<Meta> {
    if all then l else if unseen then UnseenOf(l) else []
  }

  function UidWords(l: seq<Meta>): (r: seq<string>)
    ensures |r| == |l| && forall i | 0 <= i < |l| :: r[i] == ToDecimal(l[i].uid)
  {
    seq(|l|, i requires 0 <= i < |l| => ToDecimal(l[i].uid))
  }

  ghost function Search(db: Db, s: Session, cmd: R.Command): string {
    var tag := cmd.tag;
    if s.state != Selected then Tagged(tag, BAD, "No mailbox selected")
    else
      match List(db, s.userId, s.selected)
      case None => StoreError(tag)
      case Some(l) =>
        var args := SearchArgs(cmd);
        Untagged("SEARCH " + Join(UidWords(Hits(l, MatchesAll(args), AsksUnseen(args))), " ")) + Completed(tag, "SEARCH")
  }

  function ExpungeLines(uids: seq<nat>): string {
    if uids == [] then "" else Untagged(ToDecimal(uids[0]) + " EXPUNGE") + ExpungeLines(uids[1..])
  }

  ghost function ExpungeSelected(db: Db, s: Session, cmd: R.Command): Turn {
    if s.state != Selected then Turn(Tagged(cmd.tag, BAD, "No mailbox selected"), s, db)
    else
      match MailboxNamed(db, s.userId, s.selected)
      case None => Turn(StoreError(cmd.tag), s, db)
      case Some(id) => Turn(ExpungeLines(DoomedUids(db, id)) + Completed(cmd.tag, "EXPUNGE"), s, Expunge(db, id))
  }

  /** CLOSE expunges the INBOX, whichever mailbox is selected. */
  ghost function Close(db: Db, s: Session, cmd: R.Command): Turn {
    if s.state != Selected then Turn(Tagged(cmd.tag, BAD, "No mailbox selected"), s, db)
    else
      match MailboxNamed(db, s.userId, INBOX)
      case None => Turn(StoreError(cmd.tag), s, db)
      case Some(id) => Turn(Completed(cmd.tag, "CLOSE"), s.(state := Authenticated), Expunge(db, id))
  }

  // ----------------------------------------------------------------- dispatch

  datatype Kind = Capability | Noop | Logout | LogIn | Open | Lists | Namespace | Statuses | Fetches | Uid | Stores
    | Searches | Expunges | Closes | Idle | Unsupported | Unknown

  function KindOf(name: string): Kind {
    match name
    case "CAPABILITY" => Capability
    case "NOOP" => Noop
    case "LOGOUT" => Logout
    case "LOGIN" => LogIn
    case "AUTHENTICATE" => LogIn
    case "SELECT" => Open
    case "EXAMINE" => Open
    case "LIST" => Lists
    case "NAMESPACE" => Namespace
    case "STATUS" => Statuses
    case "FETCH" => Fetches
    case "UID" => Uid
    case "STORE" => Stores
    case "SEARCH" => Searches
    case "EXPUNGE" => Expunges
    case "CLOSE" => Closes
    case "IDLE" => Idle
    case _ =>
      if name in ["APPEND", "COPY", "MOVE", "SORT", "THREAD", "CREATE", "DELETE", "RENAME", "SUBSCRIBE", "UNSUBSCRIBE",
                  "LSUB", "CHECK", "LANGUAGE"]
      then Unsupported else Unknown
  }

  datatype UidKind = UidFetch | UidStore | UidSearch | UidOther | UidNothing

  function UidKindOf(args: seq<string>): UidKind {
    if args == [] then UidNothing
    else
      match Upper(args[0])
      case "FETCH" => UidFetch
      case "STORE" => UidStore
      case "SEARCH" => UidSearch
      case _ => UidOther
  }

  ghost function UidCommand(cfg: Config, db: Db, s: Session, cmd: R.Command): Turn {
    if s.state != Selected then Turn(Tagged(cmd.tag, BAD, "No mailbox selected"), s, db)
    else
      match UidKindOf(cmd.args)
      case UidFetch => Turn(Fetch(cfg, db, s, cmd), s, db)
      case UidStore => Store(db, s, cmd)
      case UidSearch => Turn(Search(db, s, cmd), s, db)
      case UidOther => Turn(Tagged(cmd.tag, BAD, "Unsupported UID subcommand"), s, db)
      case UidNothing => Turn(Tagged(cmd.tag, BAD, "UID requires a subcommand"), s, db)
  }

  /** Commands that read neither the session's mailboxes nor the store. */
  function Plain(s: Session, cmd: R.Command, kind: Kind): string {
    match kind
    case Capability => Untagged("CAPABILITY IMAP4rev1 IDLE NAMESPACE AUTH=PLAIN") + Completed(cmd.tag, "CAPABILITY")
    case Noop => Completed(cmd.tag, "NOOP")
    case Logout => Untagged("BYE Talk IMAP server logging out") + Completed(cmd.tag, "LOGOUT")
    case Lists => ListMailboxes(s, cmd)
    case Namespace =>
      if s.state == NotAuthenticated then Tagged(cmd.tag, BAD, "Not authenticated")
      else Untagged("NAMESPACE ((\"\" \"/\")) NIL NIL") + Completed(cmd.tag, "NAMESPACE")
    case Idle => if s.state != Selected then Tagged(cmd.tag, BAD, "No mailbox selected") else "+ idle" + CRLF
    case Unsupported => Tagged(cmd.tag, NO, "command not supported")
    case _ => Tagged(cmd.tag, BAD, "Unknown command")
  }

  /** `handle`. */
  ghost function Handle(cfg: Config, db: Db, s: Session, cmd: R.Command): Turn {
    match KindOf(cmd.name)
    case LogIn => Auth(cfg, db, s, cmd)
    case Open => Select(db, s, cmd)
    case Statuses => Turn(MailboxStatus(db, s, cmd), s, db)
    case Fetches => Turn(Fetch(cfg, db, s, cmd), s, db)
    case Uid => UidCommand(cfg, db, s, cmd)
    case Stores => Store(db, s, cmd)
    case Searches => Turn(Search(db, s, cmd), s, db)
    case Expunges => ExpungeSelected(db, s, cmd)
    case Closes => Close(db, s, cmd)
    case kind => Turn(Plain(s, cmd, kind), s, db)
  }

  // ---------------------------------------------------------------- the object

  lemma {:induction false} FetchLinesSnoc(cfg: Config, db: Db, s: Session, l: seq<Meta>, m: Meta, req: F.Request)
    ensures FetchLines(cfg, db, s, l + [m], req) == FetchLines(cfg, db, s, l, req) + FetchLine(cfg, db, s, m, req)
  {
    hide FetchLine;
    if l == [] {
      assert [] + [m] == [m] && FetchLines(cfg, db, s, [], req) == "";
      assert [m][1..] == [];
    } else {
      assert (l + [m])[1..] == l[1..] + [m];
      FetchLinesSnoc(cfg, db, s, l[1..], m, req);
    }
  }

  lemma {:induction false} StoredLinesSnoc(l: seq<Meta>, m: Meta, mask: bv32, value: bool)
    ensures StoredLines(l + [m], mask, value) == StoredLines(l, mask, value) + StoredLine(m, mask, value)
  {
    hide StoredLine;
    if l == [] {
      assert [] + [m] == [m] && StoredLines([], mask, value) == "";
      assert [m][1..] == [];
    } else {
      assert (l + [m])[1..] == l[1..] + [m];
      StoredLinesSnoc(l[1..], m, mask, value);
    }
  }

  lemma {:induction false} SetAllSnoc(db: Db, mailboxId: nat, l: seq<Meta>, m: Meta, mask: bv32, value: bool)
    ensures SetAll(db, mailboxId, l + [m], mask, value)
         == SetFlags(SetAll(db, mailboxId, l, mask, value), mailboxId, m.rowId, mask, value)
    decreases |l|
  {
    hide SetFlags;
    if l == [] {
      assert [] + [m] == [m] && [m][1..] == [];
    } else {
      assert (l + [m])[1..] == l[1..] + [m];
      SetAllSnoc(SetFlags(db, mailboxId, l[0].rowId, mask, value), mailboxId, l[1..], m, mask, value);
    }
  }

  lemma {:induction false} ChosenSnoc(l: seq<Meta>, m: Meta, range: string, count: nat)
    ensures Chosen(l + [m], range, count) == Chosen(l, range, count) + (if Q.InRange(range, m.uid, count) then [m] else [])
  {
    hide Q.InRange;
    var all := l + [m];
    ChosenCons(all, range, count);
    if l == [] {
      assert all[0] == m && all[1..] == [];
      assert Chosen(all[1..], range, count) == [];
    } else {
      ChosenCons(l, range, count);
      ChosenSnoc(l[1..], m, range, count);
      hide Chosen;
      assert all[0] == l[0] && all[1..] == l[1..] + [m];
    }
  }

  lemma ChosenCons(l: seq<Meta>, range: string, count: nat)
    requires l != []
    ensures Chosen(l, range, count) == (if Q.InRange(range, l[0].uid, count) then [l[0]] else []) + Chosen(l[1..], range, count)
  {
    hide Q.InRange;
  }

  lemma ChosenNext(l: seq<Meta>, i: nat, range: string, count: nat)
    requires i < |l|
    ensures Chosen(l[..i + 1], range, count)
         == Chosen(l[..i], range, count) + (if Q.InRange(range, l[i].uid, count) then [l[i]] else [])
  {
    hide Q.InRange, Chosen;
    ChosenSnoc(l[..i], l[i], range, count);
    assert l[..i + 1] == l[..i] + [l[i]];
  }

  class ImapConnection {
    var state: State
    var username: string
    var userId: nat
    var selected: string
    const store: SqliteMailStore
    const cfg: Config

    /** `new_session`. */
    constructor (store: SqliteMailStore, cfg: Config)
      ensures this.store == store && this.cfg == cfg && View() == FRESH
    {
      state, username, userId, selected := NotAuthenticated, "", 0, INBOX;
      this.store, this.cfg := store, cfg;
    }

    function View(): Session
      reads this
    {
      Session(state, username, userId, selected)
    }

    method LogInAs(tag: string, name: string, password: string) returns (reply: string)
      requires store.Valid()
      modifies this
      ensures Turn(reply, View(), store.Model()) == Login(cfg, store.Model(), old(View()), tag, name, password)
    {
      hide Sound, LocalUsername, Admits, Tagged, IsApp;
      var app := IsApp(name);
      AppSuffix(name);
      var local := LocalUsername(if app then name[..|name| - 4] else name, cfg.domain);
      if local.None? { return Tagged(tag, NO, "Authentication failed"); }
      var user := store.FindUser(local.value);
      if user.None? { return Tagged(tag, NO, "Authentication failed"); }
      if !Admits(cfg, store.Model(), name, local.value, user.value, password) {
        return Tagged(tag, NO, "Authentication failed");
      }
      userId, username, state := user.value, local.value, Authenticated;
      return Tagged(tag, OK, if app then "LOGIN completed (app password)" else "LOGIN completed");
    }

    method CmdAuth(cmd: R.Command) returns (reply: string)
      requires store.Valid()
      modifies this
      ensures Turn(reply, View(), store.Model()) == Auth(cfg, store.Model(), old(View()), cmd)
    {
      hide Sound, Login, Tagged, Lossy, SplitBytes;
      if state != NotAuthenticated { return Tagged(cmd.tag, BAD, "Already authenticated"); }
      if cmd.name == "AUTHENTICATE" {
        if |cmd.args| != 2 || !SameIgnoringCase(cmd.args[0], "PLAIN") {
          return Tagged(cmd.tag, BAD, "Only AUTHENTICATE PLAIN <token> supported");
        }
        var token := cfg.base64(cmd.args[1]);
        if token.None? { return Tagged(cmd.tag, BAD, "Invalid base64"); }
        var parts := SplitBytes(token.value, 0);
        if |parts| != 3 { return Tagged(cmd.tag, BAD, "Invalid SASL PLAIN payload"); }
        reply := LogInAs(cmd.tag, Lossy(parts[1]), Lossy(parts[2]));
      } else {
        if |cmd.args| != 2 { return Tagged(cmd.tag, BAD, "LOGIN requires username and password"); }
        reply := LogInAs(cmd.tag, cmd.args[0], cmd.args[1]);
      }
    }

    method CmdSelect(cmd: R.Command) returns (reply: string)
      requires store.Valid()
      modifies this
      ensures Turn(reply, View(), store.Model()) == Select(store.Model(), old(View()), cmd)
    {
      hide Sound, Tagged, SelectLines, UnseenOf, ListMailbox, Completed, Validity, StoreError, MailboxArg;
      if state == NotAuthenticated { return Tagged(cmd.tag, BAD, "Not authenticated"); }
      var mailbox := MailboxArg(cmd.args);
      if mailbox.None? { return Tagged(cmd.tag, NO, "Mailbox does not exist"); }
      var l := store.ListMessagesIn(userId, mailbox.value);
      if l.None? { return StoreError(cmd.tag); }
      var uidnext := store.UidnextIn(userId, mailbox.value);
      reply := SelectLines(|l.value| % U32, |UnseenOf(l.value)| % U32, Validity(l.value), uidnext.value)
        + Completed(cmd.tag, if cmd.name == "EXAMINE" then "[READ-ONLY] EXAMINE" else "[READ-WRITE] SELECT");
      selected := mailbox.value;
      state := Selected;
    }

    method CmdStatus(cmd: R.Command) returns (reply: string)
      requires store.Valid()
      ensures reply == MailboxStatus(store.Model(), View(), cmd)
    {
      hide Sound, Tagged, StatusLine, UnseenOf, ListMailbox, Completed, Validity, StoreError, MailboxArg;
      if state == NotAuthenticated { return Tagged(cmd.tag, BAD, "Not authenticated"); }
      var mailbox := MailboxArg(cmd.args);
      if mailbox.None? { return Tagged(cmd.tag, NO, "Mailbox does not exist"); }
      var l := store.ListMessagesIn(userId, mailbox.value);
      if l.None? { return StoreError(cmd.tag); }
      var uidnext := store.UidnextIn(userId, mailbox.value);
      return StatusLine(mailbox.value, |l.value|, |UnseenOf(l.value)|, uidnext.value, Validity(l.value)) + Completed(cmd.tag, "STATUS");
    }

    /** The loop of FETCH over the listed messages. */
    method FetchEach(l: seq<Meta>, range: string, req: F.Request) returns (out: string)
      requires store.Valid() && forall m | m in l :: Held(store.Model(), userId, selected, m.rowId)
      ensures out == FetchLines(cfg, store.Model(), View(), Chosen(l, range, |l| % U32), req)
    {
      hide Sound, FetchLine, Q.InRange, NeedsBody;
      out := "";
      for i := 0 to |l|
        invariant out == FetchLines(cfg, store.Model(), View(), Chosen(l[..i], range, |l| % U32), req)
      {
        ChosenNext(l, i, range, |l| % U32);
        var within := Q.SelectedBy(range, l[i].uid, |l| % U32);
        if within {
          FetchLinesSnoc(cfg, store.Model(), View(), Chosen(l[..i], range, |l| % U32), l[i], req);
          var line := FetchOne(l[i], req);
          out := out + line;
        } else {
          assert Chosen(l[..i], range, |l| % U32) + [] == Chosen(l[..i], range, |l| % U32);
        }
      }
      assert l[..|l|] == l;
    }

    method FetchOne(m: Meta, req: F.Request) returns (line: string)
      requires store.Valid() && Held(store.Model(), userId, selected, m.rowId)
      ensures line == FetchLine(cfg, store.Model(), View(), m, req)
    {
      hide Sound, Response;
      var body: Bytes := [];
      if NeedsBody(req.body) {
        var stored := store.FetchBodyIn(userId, selected, m.rowId);
        body := stored.value;
      }
      line := Response(m, req, body, IdentityOf(cfg, View(), m), cfg.formats);
    }

    method CmdFetch(cmd: R.Command) returns (reply: string)
      requires store.Valid()
      ensures reply == Fetch(cfg, store.Model(), View(), cmd)
    {
      hide Sound, Tagged, ListMailbox, Completed, StoreError, FetchArgs, FetchLines, Chosen, F.RequestFor;
      if state != Selected { return Tagged(cmd.tag, BAD, "No mailbox selected"); }
      var parsed := FetchArgs(cmd);
      if parsed.None? {
        return Tagged(cmd.tag, BAD, if cmd.name == "UID" then "UID FETCH requires arguments" else "FETCH requires a sequence set");
      }
      var (range, items) := parsed.value;
      var l := store.ListMessagesIn(userId, selected);
      if l.None? { return StoreError(cmd.tag); }
      ListingHeld(store.Model(), userId, selected);
      var req := F.ParseFetchItems(items);
      if cmd.name == "UID" { req := req.(uid := true); }
      var out := FetchEach(l.value, range, req);
      return out + Completed(cmd.tag, "FETCH");
    }

    /** The loop of STORE: each chosen message is updated in the store and answered with its new flags. */
    method StoreEach(l: seq<Meta>, range: string, mask: bv32, value: bool) returns (out: string)
      requires store.Valid() && MailboxNamed(store.Model(), userId, selected).Some?
      modifies store`messages
      ensures store.Valid()
      ensures var chosen := Chosen(l, range, |l| % U32);
              && out == StoredLines(chosen, mask, value)
              && store.Model() == SetAll(old(store.Model()), MailboxNamed(old(store.Model()), userId, selected).value, chosen, mask, value)
    {
      hide Sound, StoredLine, Q.InRange, SetFlags;
      ghost var db := store.Model();
      ghost var id := MailboxNamed(db, userId, selected).value;
      out := "";
      for i := 0 to |l|
        invariant store.Valid() && store.mailboxes == db.mailboxes
        invariant MailboxNamed(store.Model(), userId, selected) == Some(id)
        invariant out == StoredLines(Chosen(l[..i], range, |l| % U32), mask, value)
        invariant store.Model() == SetAll(db, id, Chosen(l[..i], range, |l| % U32), mask, value)
      {
        ChosenNext(l, i, range, |l| % U32);
        var within := Q.SelectedBy(range, l[i].uid, |l| % U32);
        if within {
          StoredLinesSnoc(Chosen(l[..i], range, |l| % U32), l[i], mask, value);
          SetAllSnoc(db, id, Chosen(l[..i], range, |l| % U32), l[i], mask, value);
          var _ := store.SetFlagsIn(userId, selected, l[i].rowId, mask, value);
          SameMailbox(store.Model(), id, userId, selected);
          out := out + StoredLine(l[i], mask, value);
        } else {
          assert Chosen(l[..i], range, |l| % U32) + [] == Chosen(l[..i], range, |l| % U32);
        }
      }
      assert l[..|l|] == l;
    }

    method CmdStore(cmd: R.Command) returns (reply: string)
      requires store.Valid()
      modifies store`messages
      ensures store.Valid()
      ensures Turn(reply, View(), store.Model()) == Store(old(store.Model()), old(View()), cmd)
    {
      hide Sound, Tagged, ListMailbox, Completed, StoreError, StoreArgs, StoredLines, Chosen, SetAll, FlagMask, Words, Sets;
      if state != Selected { return Tagged(cmd.tag, BAD, "No mailbox selected"); }
      var parsed := StoreArgs(cmd);
      if parsed.None? {
        return Tagged(cmd.tag, BAD, if cmd.name == "UID" then "UID STORE requires arguments" else "STORE requires arguments");
      }
      var (range, mode, spec) := parsed.value;
      var l := store.ListMessagesIn(userId, selected);
      if l.None? { return StoreError(cmd.tag); }
      var mask := ParseFlags(spec);
      if mask == 0 { return Tagged(cmd.tag, BAD, "No supported flags in flag list"); }
      var out := StoreEach(l.value, range, mask, Sets(mode));
      return out + Completed(cmd.tag, "STORE");
    }

    method CmdSearch(cmd: R.Command) returns (reply: string)
      requires store.Valid()
      ensures reply == Search(store.Model(), View(), cmd)
    {
      hide Sound, Tagged, ListMailbox, Completed, StoreError, SearchArgs, Hits, Join, MatchesAll, AsksUnseen;
      if state != Selected { return Tagged(cmd.tag, BAD, "No mailbox selected"); }
      var l := store.ListMessagesIn(userId, selected);
      if l.None? { return StoreError(cmd.tag); }
      var all, unseen := Criteria(SearchArgs(cmd));
      return Untagged("SEARCH " + Join(UidWords(Hits(l.value, all, unseen)), " ")) + Completed(cmd.tag, "SEARCH");
    }

    method CmdExpunge(cmd: R.Command) returns (reply: string)
      requires store.Valid()
      modifies store`messages
      ensures store.Valid()
      ensures Turn(reply, View(), store.Model()) == ExpungeSelected(old(store.Model()), old(View()), cmd)
    {
      hide Sound, Tagged, Completed, StoreError, DoomedUids, Expunge, ExpungeLines;
      if state != Selected { return Tagged(cmd.tag, BAD, "No mailbox selected"); }
      var uids := store.ExpungeIn(userId, selected);
      if uids.None? { return StoreError(cmd.tag); }
      var out := ExpungeEach(uids.value);
      return out + Completed(cmd.tag, "EXPUNGE");
    }

    method CmdClose(cmd: R.Command) returns (reply: string)
      requires store.Valid()
      modifies this`state, store`messages
      ensures store.Valid()
      ensures Turn(reply, View(), store.Model()) == Close(old(store.Model()), old(View()), cmd)
    {
      hide Sound, Tagged, Completed, StoreError, DoomedUids, Expunge;
      if state != Selected { return Tagged(cmd.tag, BAD, "No mailbox selected"); }
      var uids := store.ExpungeIn(userId, INBOX);
      if uids.None? { return StoreError(cmd.tag); }
      state := Authenticated;
      return Completed(cmd.tag, "CLOSE");
    }

    method CmdUid(cmd: R.Command) returns (reply: string)
      requires store.Valid()
      modifies store`messages
      ensures store.Valid()
      ensures Turn(reply, View(), store.Model()) == UidCommand(cfg, old(store.Model()), old(View()), cmd)
    {
      hide Sound, Tagged, Fetch, Store, Search, UidKindOf;
      if state != Selected { return Tagged(cmd.tag, BAD, "No mailbox selected"); }
      match UidKindOf(cmd.args)
      case UidFetch => reply := CmdFetch(cmd);
      case UidStore => reply := CmdStore(cmd);
      case UidSearch => reply := CmdSearch(cmd);
      case UidOther => return Tagged(cmd.tag, BAD, "Unsupported UID subcommand");
      case UidNothing => return Tagged(cmd.tag, BAD, "UID requires a subcommand");
    }

    /** `handle`: dispatch on the command name. */
    method HandleCommand(cmd: R.Command) returns (reply: string)
      requires store.Valid()
      modifies this, store`messages
      ensures store.Valid()
      ensures Turn(reply, View(), store.Model()) == Handle(cfg, old(store.Model()), old(View()), cmd)
    {
      hide Sound, KindOf, Auth, Select, MailboxStatus, Fetch, UidCommand, Store, Search, ExpungeSelected, Close, Plain;
      match KindOf(cmd.name)
      case LogIn => reply := CmdAuth(cmd);
      case Open => reply := CmdSelect(cmd);
      case Statuses => reply := CmdStatus(cmd);
      case Fetches => reply := CmdFetch(cmd);
      case Uid => reply := CmdUid(cmd);
      case Stores => reply := CmdStore(cmd);
      case Searches => reply := CmdSearch(cmd);
      case Expunges => reply := CmdExpunge(cmd);
      case Closes => reply := CmdClose(cmd);
      case kind => reply := Plain(View(), cmd, kind);
    }
  }

  lemma AppSuffix(name: string)
    ensures IsApp(name) ==> |name| >= 4
  {
  }

  /** The message row is in the named mailbox. */
  ghost predicate Held(db: Db, userId: nat, mailbox: string, rowId: nat) {
    var box := MailboxNamed(db, userId, mailbox);
    box.Some? && rowId in db.messages && db.messages[rowId].mailboxId == box.value
  }

  lemma {:induction false} JoinedRows(db: Db, rows: seq<nat>, validity: nat)
    requires forall i | 0 <= i < |rows| :: rows[i] in db.messages
    ensures forall m | m in JoinAll(db, rows, validity) :: m.rowId in rows
  {
    if rows != [] {
      JoinedRows(db, rows[1..], validity);
    }
  }

  lemma ListingHeld(db: Db, userId: nat, mailbox: string)
    ensures var l := List(db, userId, mailbox); l.Some? ==> forall m | m in l.value :: Held(db, userId, mailbox, m.rowId)
  {
    var box := MailboxNamed(db, userId, mailbox);
    if box.Some? {
      JoinedRows(db, ByUid(db.messages, InMailbox(db, box.value)), db.mailboxes[box.value].uidvalidity);
    }
  }

  lemma SameMailbox(db: Db, id: nat, userId: nat, mailbox: string)
    requires Sound(db) && NamedMailbox(db, id, userId, mailbox)
    ensures MailboxNamed(db, userId, mailbox) == Some(id)
  {
    MailboxNamedIs(db, id, userId, mailbox);
  }

  /** `parse_flags`. */
  method ParseFlags(spec: string) returns (mask: bv32)
    ensures mask == FlagMask(Words(spec))
  {
    hide FlagOf, Either, Words;
    var words := Words(spec);
    mask := 0;
    for i := 0 to |words|
      invariant mask == FlagMask(words[..i])
    {
      assert words[..i + 1][..i] == words[..i];
      mask := Either(mask, FlagOf(words[i]));
    }
    assert words[..|words|] == words;
  }

  /** The loop of SEARCH over its criteria. */
  method Criteria(args: seq<string>) returns (all: bool, unseen: bool)
    ensures all == MatchesAll(args) && unseen == AsksUnseen(args)
  {
    hide Upper;
    all, unseen := args == [], false;
    for i := 0 to |args|
      invariant all == if i == 0 then args == [] else MatchesAll(args[..i])
      invariant unseen == exists k | 0 <= k < i :: Upper(args[k]) == "UNSEEN"
    {
      assert args[..i + 1][..i] == args[..i];
      assert "ALL"[0] != "UNSEEN"[0];
      var a := Upper(args[i]);
      if a == "ALL" {
        all := true;
      } else if a == "UNSEEN" {
        unseen := true;
      } else {
        all := false;
      }
    }
    assert args[..|args|] == args;
  }

  /** The loop of EXPUNGE over the removed UIDs. */
  method ExpungeEach(uids: seq<nat>) returns (out: string)
    ensures out == ExpungeLines(uids)
  {
    hide ToDecimal;
    out := "";
    for i := 0 to |uids|
      invariant out + ExpungeLines(uids[i..]) == ExpungeLines(uids)
    {
      assert uids[i..][1..] == uids[i + 1..];
      out := out + Untagged(ToDecimal(uids[i]) + " EXPUNGE");
    }
  }
}
