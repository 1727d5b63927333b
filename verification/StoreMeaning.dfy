/** What STORE does to the flags of a mailbox, and what it tells the client. */
module StoreMeaning {
  import opened Utf8
  import opened Text
  import opened MailStore
  import opened Listing
  import opened FetchReply
  import opened ImapSession
  import opened FlagWords
  import SF = SessionFlags
  import D = SessionDispatch
  import Q = SequenceSet
  import R = ImapReader

  /** The mode takes flags away: its first character that is no space is a minus. */
  predicate Removes(mode: string) {
    exists k | 0 <= k < |mode| :: mode[k] == '-' && forall i | 0 <= i < k :: IsWhitespace(mode[i])
  }

  lemma {:induction false} SignExactly(mode: string)
    ensures Sets(mode) <==> !Removes(mode)
  {
    if mode == "" {
    } else if IsWhitespace(mode[0]) {
      SignExactly(mode[1..]);
      if Removes(mode) {
        var k :| 0 <= k < |mode| && mode[k] == '-' && forall i | 0 <= i < k :: IsWhitespace(mode[i]);
        assert mode[1..][k - 1] == '-' && forall i | 0 <= i < k - 1 :: IsWhitespace(mode[1..][i]);
      }
      if Removes(mode[1..]) {
        var k :| 0 <= k < |mode| - 1 && mode[1..][k] == '-' && forall i | 0 <= i < k :: IsWhitespace(mode[1..][i]);
        assert mode[k + 1] == '-' && forall i | 0 < i < k + 1 :: mode[i] == mode[1..][i - 1];
      }
    } else {
      assert StartsWith(mode, "-") <==> mode[0] == '-';
    }
  }

  /** One flag after a STORE: given or taken if the list names it, and as before otherwise. */
  ghost predicate BitStored(before: bv32, after: bv32, mode: string, spec: string, name: string) {
    after & BitOf(name) != 0 <==> if ListNames(spec, name) then !Removes(mode) else before & BitOf(name) != 0
  }

  /** All flags after a STORE; other bits are as before. */
  ghost predicate FlagsStored(before: bv32, after: bv32, mode: string, spec: string) {
    && BitStored(before, after, mode, spec, "SEEN") && BitStored(before, after, mode, spec, "ANSWERED")
    && BitStored(before, after, mode, spec, "FLAGGED") && BitStored(before, after, mode, spec, "DELETED")
    && Rest(after) == Rest(before)
  }

  lemma SetBits(flags: bv32, mask: bv32, bit: bv32)
    requires bit == 1 || bit == 2 || bit == 4 || bit == 8
    ensures (flags | mask) & bit != 0 <==> flags & bit != 0 || mask & bit != 0
  {
    OrBits(flags, mask, bit);
    OrZero(flags & bit, mask & bit);
  }

  lemma ClearBits(flags: bv32, mask: bv32, bit: bv32)
    requires bit == 1 || bit == 2 || bit == 4 || bit == 8
    ensures (flags & !mask) & bit != 0 <==> flags & bit != 0 && mask & bit == 0
  {
    if bit == 1 { Clear1(flags, mask); } else if bit == 2 { Clear2(flags, mask); } else if bit == 4 { Clear4(flags, mask); } else { Clear8(flags, mask); }
  }

  lemma Clear1(flags: bv32, mask: bv32) ensures (flags & !mask) & 1 != 0 <==> flags & 1 != 0 && mask & 1 == 0 { }
  lemma Clear2(flags: bv32, mask: bv32) ensures (flags & !mask) & 2 != 0 <==> flags & 2 != 0 && mask & 2 == 0 { }
  lemma Clear4(flags: bv32, mask: bv32) ensures (flags & !mask) & 4 != 0 <==> flags & 4 != 0 && mask & 4 == 0 { }
  lemma Clear8(flags: bv32, mask: bv32) ensures (flags & !mask) & 8 != 0 <==> flags & 8 != 0 && mask & 8 == 0 { }

  /** The bits that are none of the four flags. */
  function Rest(flags: bv32): bv32 {
    flags & !15
  }

  lemma OtherSet(flags: bv32, mask: bv32)
    requires Rest(mask) == 0
    ensures Rest(flags | mask) == Rest(flags)
  {
    OrBits(flags, mask, !15);
    OrNone(flags & !15);
  }

  lemma OrNone(a: bv32)
    ensures a | 0 == a
  {
  }

  lemma OtherClear(flags: bv32, mask: bv32)
    requires Rest(mask) == 0
    ensures Rest(flags & !mask) == Rest(flags)
  {
  }

  lemma BitIsStored(flags: bv32, mode: string, spec: string, name: string)
    requires name == "SEEN" || name == "ANSWERED" || name == "FLAGGED" || name == "DELETED"
    ensures BitStored(flags, Flagged(flags, FlagMask(Words(spec)), Sets(mode)), mode, spec, name)
  {
    hide FlagMask, Words, ListNames, Sets, Removes, BitOf;
    SignExactly(mode);
    ListExactly(spec, name);
    OneBit(name);
    SetBits(flags, FlagMask(Words(spec)), BitOf(name));
    ClearBits(flags, FlagMask(Words(spec)), BitOf(name));
  }

  lemma FlagsAreStored(flags: bv32, mode: string, spec: string)
    ensures FlagsStored(flags, Flagged(flags, FlagMask(Words(spec)), Sets(mode)), mode, spec)
  {
    hide FlagMask, Words, Sets, BitStored, Flagged, Rest;
    BitIsStored(flags, mode, spec, "SEEN");
    BitIsStored(flags, mode, spec, "ANSWERED");
    BitIsStored(flags, mode, spec, "FLAGGED");
    BitIsStored(flags, mode, spec, "DELETED");
    OthersStay(flags, mode, spec);
  }

  lemma OthersStay(flags: bv32, mode: string, spec: string)
    ensures Rest(Flagged(flags, FlagMask(Words(spec)), Sets(mode))) == Rest(flags)
  {
    hide FlagMask, Words, Sets, Flagged, Rest;
    FourOnly(spec);
    OtherFlags(flags, FlagMask(Words(spec)), Sets(mode));
  }

  lemma FourOnly(spec: string)
    ensures Rest(FlagMask(Words(spec))) == 0
  {
    hide FlagMask, Words, ListNames, BitOf;
    ListExactly(spec, "SEEN");
  }

  lemma OtherFlags(flags: bv32, mask: bv32, value: bool)
    requires Rest(mask) == 0
    ensures Rest(Flagged(flags, mask, value)) == Rest(flags)
  {
    hide Rest;
    if value { OtherSet(flags, mask); } else { OtherClear(flags, mask); }
  }

  // ------------------------------------------------------------------ the store

  /** The command is a STORE, or a UID STORE, of these. */
  predicate IsStore(cmd: R.Command, range: string, mode: string, spec: string) {
    || (cmd.name == "STORE" && |cmd.args| >= 3 && cmd.args[..3] == [range, mode, spec])
    || (cmd.name == "UID" && |cmd.args| >= 4 && Upper(cmd.args[0]) == "STORE" && cmd.args[1..4] == [range, mode, spec])
  }

  /** A row after a STORE: only its flags may change, and they do if its mailbox is the selected one and its UID in the set. */
  ghost predicate RowStored(before: MessageRow, after: MessageRow, box: nat, range: string, count: nat, mode: string, spec: string) {
    if before.mailboxId == box && Q.InRange(range, before.uid % 0x1_0000_0000, count)
    then after == before.(flags := after.flags) && FlagsStored(before.flags, after.flags, mode, spec)
    else after == before
  }

  lemma ArgsAre(cmd: R.Command, range: string, mode: string, spec: string)
    requires IsStore(cmd, range, mode, spec)
    ensures StoreArgs(cmd) == Some((range, mode, spec))
  {
    if cmd.name == "STORE" {
      var three := cmd.args[..3];
      assert cmd.args[0] == three[0] && cmd.args[1] == three[1] && cmd.args[2] == three[2];
      assert |"UID"| != |"STORE"|;
    } else {
      var three := cmd.args[1..4];
      assert cmd.args[1] == three[0] && cmd.args[2] == three[1] && cmd.args[3] == three[2];
    }
  }

  lemma StoreHandled(cfg: Config, db: Db, s: Session, cmd: R.Command, range: string, mode: string, spec: string)
    requires s.state == Selected && IsStore(cmd, range, mode, spec)
    ensures Handle(cfg, db, s, cmd) == Store(db, s, cmd)
  {
    hide Handle, Store, Upper;
    D.Dispatches(cfg, db, s, cmd);
  }

  ghost predicate NamesSome(spec: string) {
    ListNames(spec, "SEEN") || ListNames(spec, "ANSWERED") || ListNames(spec, "FLAGGED") || ListNames(spec, "DELETED")
  }

  /** STORE on the store. Every message of the selected mailbox whose UID is in the set has each flag the list names, or has it
      no longer when the mode begins with a minus; every other flag, field, message and table is as before. A list that
      names no flag changes nothing. */
  lemma StoreSets(cfg: Config, db: Db, s: Session, cmd: R.Command, box: nat, range: string, mode: string, spec: string)
    requires s.state == Selected && MailboxNamed(db, s.userId, s.selected) == Some(box) && IsStore(cmd, range, mode, spec)
    ensures var t, count := Handle(cfg, db, s, cmd), |ListMailbox(db, box)| % 0x1_0000_0000;
            && t.session == s && t.db == db.(messages := t.db.messages) && t.db.messages.Keys == db.messages.Keys
            && (NamesSome(spec) ==> forall id | id in db.messages :: RowStored(db.messages[id], t.db.messages[id], box, range, count, mode, spec))
            && (!NamesSome(spec) ==> t.db == db)
  {
    hide ListMailbox, FlagMask, Words, ListNames, SetAll, Chosen, Sets, StoreArgs, StoredLines, Tagged, Completed, Q.InRange, FlagsStored, Flagged, Handle;
    ArgsAre(cmd, range, mode, spec);
    ListEmptyExactly(spec);
    StoreHandled(cfg, db, s, cmd, range, mode, spec);
    var t, count, mask := Handle(cfg, db, s, cmd), |ListMailbox(db, box)| % 0x1_0000_0000, FlagMask(Words(spec));
    if NamesSome(spec) {
      var chosen := Chosen(ListMailbox(db, box), range, count);
      SF.SetAllIs(db, box, chosen, mask, Sets(mode));
      forall id | id in db.messages
        ensures RowStored(db.messages[id], t.db.messages[id], box, range, count, mode, spec)
      {
        FlagsAreStored(db.messages[id].flags, mode, spec);
        if db.messages[id].mailboxId == box { SF.ChosenExactly(db, box, range, count, id); }
      }
    }
  }

  // ------------------------------------------------------------------ the reply

  function FlagLine(uid: nat, flags: string): string {
    "* " + ToDecimal(uid) + " FETCH (FLAGS (" + flags + "))" + "\r\n"
  }

  function FlagLines(l: seq<Meta>, texts: seq<string>): string
    requires |l| == |texts|
  {
    if l == [] then "" else FlagLine(l[0].uid, texts[0]) + FlagLines(l[1..], texts[1..])
  }

  lemma LineIs(m: Meta, mask: bv32, value: bool)
    ensures StoredLine(m, mask, value) == FlagLine(m.uid, FlagsDisplay(Flagged(m.flags, mask, value)))
  {
    hide FlagsDisplay, Flagged, ToDecimal;
    var u, d := ToDecimal(m.uid), FlagsDisplay(Flagged(m.flags, mask, value));
    assert "* " + (u + " FETCH (FLAGS (" + d + "))") + "\r\n" == "* " + u + " FETCH (FLAGS (" + d + "))" + "\r\n";
  }

  function Texts(l: seq<Meta>, mask: bv32, value: bool): (r: seq<string>)
    ensures |r| == |l| && forall i | 0 <= i < |l| :: r[i] == FlagsDisplay(Flagged(l[i].flags, mask, value))
  {
    seq(|l|, i requires 0 <= i < |l| => FlagsDisplay(Flagged(l[i].flags, mask, value)))
  }

  lemma {:induction false} LinesAre(l: seq<Meta>, mask: bv32, value: bool)
    ensures StoredLines(l, mask, value) == FlagLines(l, Texts(l, mask, value))
  {
    hide StoredLine, FlagLine, FlagsDisplay, Flagged;
    if l != [] {
      LineIs(l[0], mask, value);
      LinesAre(l[1..], mask, value);
      assert Texts(l, mask, value)[1..] == Texts(l[1..], mask, value);
    }
  }

  /** STORE's reply: for each listed message in the set, in order, a line with its UID and exactly the flags the store now
      holds for it. */
  lemma StoreTells(cfg: Config, db: Db, s: Session, cmd: R.Command, box: nat, range: string, mode: string, spec: string)
    requires s.state == Selected && MailboxNamed(db, s.userId, s.selected) == Some(box) && IsStore(cmd, range, mode, spec) && NamesSome(spec)
    ensures var t, l := Handle(cfg, db, s, cmd), ListMailbox(db, box);
            var chosen := Chosen(l, range, |l| % 0x1_0000_0000);
            exists texts: seq<string> :: |texts| == |chosen|
              && t.reply == FlagLines(chosen, texts) + (cmd.tag + " OK STORE completed\r\n")
              && forall i | 0 <= i < |texts| :: chosen[i].rowId in t.db.messages && ShowsFlags(texts[i], t.db.messages[chosen[i].rowId].flags)
  {
    hide ListMailbox, FlagMask, Words, ListNames, SetAll, Chosen, Sets, StoreArgs, StoredLines, Q.InRange, FlagsDisplay, Flagged, ShowsFlags, FlagLines, Handle;
    ArgsAre(cmd, range, mode, spec);
    ListEmptyExactly(spec);
    StoreHandled(cfg, db, s, cmd, range, mode, spec);
    var t, l, mask, value := Handle(cfg, db, s, cmd), ListMailbox(db, box), FlagMask(Words(spec)), Sets(mode);
    var chosen := Chosen(l, range, |l| % 0x1_0000_0000);
    var texts := Texts(chosen, mask, value);
    LinesAre(chosen, mask, value);
    SF.SetAllIs(db, box, chosen, mask, value);
    ListingShows(db, box);
    StoreDone(cmd.tag);
    forall i | 0 <= i < |texts|
      ensures chosen[i].rowId in t.db.messages && ShowsFlags(texts[i], t.db.messages[chosen[i].rowId].flags)
    {
      assert chosen[i] in chosen;
      var m := chosen[i];
      assert m in l && SF.Mentions(chosen, m.rowId);
      DisplayNames(Flagged(m.flags, mask, value));
    }
    assert t.reply == FlagLines(chosen, texts) + (cmd.tag + " OK STORE completed\r\n");
  }

  lemma StoreDone(tag: string)
    ensures Completed(tag, "STORE") == tag + " OK STORE completed\r\n"
  {
    assert "STORE" + " completed" == "STORE completed" && " " + "OK" + " " + "STORE completed" + "\r\n" == " OK STORE completed\r\n";
    assert tag + " " + "OK" + " " + "STORE completed" + "\r\n" == tag + (" " + "OK" + " " + "STORE completed" + "\r\n");
  }
}
