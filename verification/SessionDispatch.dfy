/** Which command does what. */
module SessionDispatch {
  import opened Text
  import opened MailStore
  import opened ImapSession
  import R = ImapReader

  /** The command is one of the name, or a UID command of that sub-command in any case of letters. */
  predicate Is(cmd: R.Command, name: string) {
    cmd.name == name || (cmd.name == "UID" && cmd.args != [] && Upper(cmd.args[0]) == name)
  }

  lemma KindsAre()
    ensures KindOf("FETCH") == Fetches && KindOf("STORE") == Stores && KindOf("SEARCH") == Searches && KindOf("UID") == Uid
    ensures KindOf("SELECT") == Open && KindOf("EXAMINE") == Open && KindOf("STATUS") == Statuses
    ensures KindOf("LOGIN") == LogIn && KindOf("AUTHENTICATE") == LogIn && KindOf("EXPUNGE") == Expunges && KindOf("CLOSE") == Closes
  {
    assert |"SELECT"| == 6 && "SELECT"[1] == 'E' && "SEARCH"[1] == 'E' && "SEARCH"[2] == 'A' && "SELECT"[2] == 'L';
  }

  /** A command that works on the selected mailbox is answered by its own step, and refused when none is selected. */
  lemma Dispatches(cfg: Config, db: Db, s: Session, cmd: R.Command)
    ensures Is(cmd, "STORE") && s.state == Selected ==> Handle(cfg, db, s, cmd) == Store(db, s, cmd)
    ensures Is(cmd, "FETCH") && s.state == Selected ==> Handle(cfg, db, s, cmd) == Turn(Fetch(cfg, db, s, cmd), s, db)
    ensures Is(cmd, "SEARCH") && s.state == Selected ==> Handle(cfg, db, s, cmd) == Turn(Search(db, s, cmd), s, db)
    ensures (Is(cmd, "STORE") || Is(cmd, "FETCH") || Is(cmd, "SEARCH") || cmd.name == "EXPUNGE" || cmd.name == "CLOSE") && s.state != Selected ==>
              Handle(cfg, db, s, cmd) == Turn(cmd.tag + " BAD No mailbox selected\r\n", s, db)
    ensures cmd.name == "SELECT" || cmd.name == "EXAMINE" ==> Handle(cfg, db, s, cmd) == Select(db, s, cmd)
    ensures cmd.name == "STATUS" ==> Handle(cfg, db, s, cmd) == Turn(MailboxStatus(db, s, cmd), s, db)
    ensures cmd.name == "LOGIN" || cmd.name == "AUTHENTICATE" ==> Handle(cfg, db, s, cmd) == Auth(cfg, db, s, cmd)
    ensures cmd.name == "EXPUNGE" ==> Handle(cfg, db, s, cmd) == ExpungeSelected(db, s, cmd)
    ensures cmd.name == "CLOSE" ==> Handle(cfg, db, s, cmd) == Close(db, s, cmd)
  {
    KindsAre();
    UidKindsAre(cmd.args);
    BadIs(cmd.tag);
    hide KindOf, UidKindOf, Auth, Plain, Tagged, StoreArgs, FetchArgs, FlagMask, Words, Sets, SetAll, StoredLines, Chosen, FetchLines, Hits, UidWords, MatchesAll;
  }

  lemma UidKindsAre(args: seq<string>)
    ensures args != [] && Upper(args[0]) == "STORE" ==> UidKindOf(args) == UidStore
    ensures args != [] && Upper(args[0]) == "FETCH" ==> UidKindOf(args) == UidFetch
    ensures args != [] && Upper(args[0]) == "SEARCH" ==> UidKindOf(args) == UidSearch
  {
    hide Upper;
  }

  lemma BadIs(tag: string)
    ensures Tagged(tag, BAD, "No mailbox selected") == tag + " BAD No mailbox selected\r\n"
  {
    assert tag + " " + "BAD" + " " + "No mailbox selected" + "\r\n" == tag + (" " + "BAD" + " " + "No mailbox selected" + "\r\n");
    assert " " + "BAD" + " " + "No mailbox selected" + "\r\n" == " BAD No mailbox selected\r\n";
  }
}
