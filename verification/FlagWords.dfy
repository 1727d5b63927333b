/** Flags as words: the list a client sends, and the list a reply shows. */
module FlagWords {
  import opened Utf8
  import opened Text
  import opened MailStore
  import opened FetchReply
  import opened ImapSession

  // ------------------------------------------------ flag lists printed and parsed

  lemma StripFront(c: char, w: string)
    requires IsMarkChar(c)
    ensures StripMarks([c] + w) == StripMarks(w)
  {
    assert ([c] + w)[1..] == w;
  }

  /** Marks at the end fall away too. */
  lemma {:induction false} StripBack(w: string, c: char)
    requires IsMarkChar(c)
    ensures StripMarks(w + [c]) == StripMarks(w)
    decreases |w|
  {
    var s := w + [c];
    if w == "" {
      assert s[1..] == "";
    } else if IsMarkChar(w[0]) {
      assert s[0] == w[0] && s[1..] == w[1..] + [c];
      StripBack(w[1..], c);
    } else {
      assert s[0] == w[0] && s[..|s| - 1] == w;
    }
  }

  /** The words of a flag list in parentheses: the first and the last carry one. */
  function Dressed(ws: seq<string>, open: string): seq<string> {
    if ws == [] then [open + ")"]
    else if |ws| == 1 then [open + ws[0] + ")"]
    else [open + ws[0]] + Dressed(ws[1..], "")
  }

  lemma {:induction false} WordsDressed(ws: seq<string>, open: string)
    requires (forall i | 0 <= i < |ws| :: IsWord(ws[i])) && (open == "" || open == "(")
    ensures Words(open + Join(ws, " ") + ")") == Dressed(ws, open)
  {
    hide Words;
    if |ws| <= 1 {
      var w := open + Join(ws, " ") + ")";
      assert IsWord(w);
      assert open + "" == open;
      WordsOfWord(w, "");
      assert w + "" == w;
      NoWords();
    } else {
      var w, tail := open + ws[0], Join(ws[1..], " ") + ")";
      assert IsWord(w);
      WordsSp(w, tail);
      assert open + Join(ws, " ") + ")" == Sp(w, tail);
      WordsDressed(ws[1..], "");
      assert "" + Join(ws[1..], " ") + ")" == tail;
    }
  }

  lemma DressedFlag(open: string, w: string, close: string)
    requires (open == "" || open == "(") && (close == "" || close == ")")
    ensures FlagOf(open + w + close) == FlagOf(w)
  {
    assert "" + w == w && w + "" == w;
    var s := open + w;
    assert s + "" == s;
    if open == "(" { StripFront('(', w); }
    if close == ")" { StripBack(s, ')'); }
    hide StripMarks;
  }

  lemma {:induction false} MaskAppend(a: seq<string>, b: seq<string>)
    ensures FlagMask(a + b) == Either(FlagMask(a), FlagMask(b))
  {
    hide FlagOf;
    if b == [] {
      assert a + b == a;
    } else {
      var init := b[..|b| - 1];
      MaskAppend(a, init);
      assert (a + b)[..|a + b| - 1] == a + init;
    }
  }

  lemma {:induction false} MaskDressed(ws: seq<string>, open: string)
    requires open == "" || open == "("
    ensures FlagMask(Dressed(ws, open)) == FlagMask(ws)
  {
    hide FlagOf;
    if ws == [] {
      DressedFlag(open, "", ")");
      assert open + "" + ")" == open + ")";
      NothingFlagged();
      OneFlag(open + ")");
    } else if |ws| == 1 {
      DressedFlag(open, ws[0], ")");
      OneFlag(open + ws[0] + ")");
      OneFlag(ws[0]);
      assert ws == [ws[0]];
    } else {
      DressedFlag(open, ws[0], "");
      assert open + ws[0] + "" == open + ws[0];
      MaskDressed(ws[1..], "");
      OneFlag(open + ws[0]);
      OneFlag(ws[0]);
      MaskAppend([open + ws[0]], Dressed(ws[1..], ""));
      MaskAppend([ws[0]], ws[1..]);
      assert [ws[0]] + ws[1..] == ws;
    }
  }

  lemma NothingFlagged()
    ensures FlagOf("") == 0
  {
  }

  lemma OneFlag(w: string)
    ensures FlagMask([w]) == FlagOf(w)
  {
    hide FlagOf;
    assert [w][..0] == [];
  }

  lemma NameOfFlag()
    ensures FlagOf("\\Seen") == SEEN && FlagOf("\\Answered") == ANSWERED
    ensures FlagOf("\\Flagged") == FLAGGED && FlagOf("\\Deleted") == DELETED
  {
    SeenAnswered();
    FlaggedDeleted();
    hide FlagOf;
  }

  lemma SeenAnswered()
    ensures FlagOf("\\Seen") == SEEN && FlagOf("\\Answered") == ANSWERED
  {
    NameReads("Seen", "SEEN");
    NameReads("Answered", "ANSWERED");
    assert "\\" + "Seen" == "\\Seen" && "\\" + "Answered" == "\\Answered";
    hide StripMarks, Upper;
    assert |"SEEN"| == 4 && |"ANSWERED"| == 8;
  }

  lemma FlaggedDeleted()
    ensures FlagOf("\\Flagged") == FLAGGED && FlagOf("\\Deleted") == DELETED
  {
    NameReads("Flagged", "FLAGGED");
    NameReads("Deleted", "DELETED");
    assert "\\" + "Flagged" == "\\Flagged" && "\\" + "Deleted" == "\\Deleted";
    hide StripMarks, Upper;
    assert |"SEEN"| == 4 && |"ANSWERED"| == 8 && |"FLAGGED"| == 7 && |"DELETED"| == 7 && "FLAGGED"[0] != "DELETED"[0];
  }

  lemma NameReads(name: string, upper: string)
    requires name != "" && !IsMarkChar(name[0]) && !IsMarkChar(name[|name| - 1]) && Upper(name) == upper
    ensures Upper(StripMarks("\\" + name)) == upper
  {
    StripFront('\\', name);
  }

  function Bit(flags: bv32, bit: bv32): bv32 {
    flags & bit
  }

  lemma NamedMask(a: seq<string>, flags: bv32, bit: bv32, name: string)
    requires FlagOf(name) == bit && (bit == SEEN || bit == ANSWERED || bit == FLAGGED || bit == DELETED)
    ensures FlagMask(a + Named(flags, bit, name)) == Either(FlagMask(a), Bit(flags, bit))
  {
    hide FlagOf, FlagMask;
    MaskAppend(a, Named(flags, bit, name));
    OneFlag(name);
    NoFlags();
    assert flags & bit == 0 || flags & bit == bit;
  }

  lemma NoFlags()
    ensures FlagMask([]) == 0
  {
  }

  lemma FourBits(flags: bv32)
    ensures Either(Either(Either(Bit(flags, SEEN), Bit(flags, ANSWERED)), Bit(flags, FLAGGED)), Bit(flags, DELETED)) == flags & 15
  {
  }

  lemma MaskOfNames(flags: bv32)
    ensures FlagMask(FlagNames(flags)) == flags & 15
  {
    hide FlagOf, FlagMask, Bit, Either, Named;
    var s := Named(flags, SEEN, "\\Seen");
    var sa := s + Named(flags, ANSWERED, "\\Answered");
    var saf := sa + Named(flags, FLAGGED, "\\Flagged");
    NameOfFlag();
    NoFlags();
    NamedMask([], flags, SEEN, "\\Seen");
    assert [] + s == s;
    EitherZero(Bit(flags, SEEN));
    NamedMask(s, flags, ANSWERED, "\\Answered");
    NamedMask(sa, flags, FLAGGED, "\\Flagged");
    NamedMask(saf, flags, DELETED, "\\Deleted");
    FourBits(flags);
  }

  lemma NamesAreWords(flags: bv32)
    ensures forall i | 0 <= i < |FlagNames(flags)| :: IsWord(FlagNames(flags)[i])
  {
    assert IsWord("\\Seen") && IsWord("\\Answered") && IsWord("\\Flagged") && IsWord("\\Deleted");
    hide IsWord;
  }

  /** Flags as FETCH prints them, put in a STORE, name exactly the flags the message has of the four there are. */
  lemma FlagsReadBack(flags: bv32)
    ensures FlagMask(Words("(" + FlagsDisplay(flags) + ")")) == flags & 15
  {
    hide FlagMask, Words, Join, Dressed, FlagNames;
    NamesAreWords(flags);
    WordsDressed(FlagNames(flags), "(");
    MaskDressed(FlagNames(flags), "(");
    MaskOfNames(flags);
  }

  lemma EitherZero(b: bv32)
    ensures Either(0, b) == b
  {
  }

  // ----------------------------------------------------------- what a list shows

  /** The word is the name of a flag the message has. */
  predicate FlagNamed(w: string, flags: bv32) {
    || (w == "\\Seen" && flags & 1 != 0) || (w == "\\Answered" && flags & 2 != 0)
    || (w == "\\Flagged" && flags & 4 != 0) || (w == "\\Deleted" && flags & 8 != 0)
  }

  /** The text names exactly the flags the message has. */
  ghost predicate ShowsFlags(text: string, flags: bv32) {
    forall w :: w in Words(text) <==> FlagNamed(w, flags)
  }

  lemma DisplayNames(flags: bv32)
    ensures ShowsFlags(FlagsDisplay(flags), flags)
  {
    NamesAreWords(flags);
    NamesListed(flags);
    hide Words, Join, FlagNames, FlagNamed;
    WordsJoin(FlagNames(flags));
  }

  lemma NamesListed(flags: bv32)
    ensures forall w :: w in FlagNames(flags) <==> FlagNamed(w, flags)
  {
  }

  // ---------------------------------------------------------- what a list names

  predicate AllMarks(s: string) {
    forall i | 0 <= i < |s| :: s[i] == '(' || s[i] == ')' || s[i] == '\\' || s[i] == ';'
  }

  /** The word is the name, in any case of letters, with marks before and after it. */
  ghost predicate Names(w: string, name: string) {
    exists a, n, b :: w == a + n + b && AllMarks(a) && AllMarks(b) && Upper(n) == name
  }

  lemma {:induction false} StripSplits(w: string)
    ensures exists a, b :: w == a + StripMarks(w) + b && AllMarks(a) && AllMarks(b)
  {
    var none: string := "";
    if w != "" && IsMarkChar(w[0]) {
      StripSplits(w[1..]);
      hide StripMarks;
      var a, b :| w[1..] == a + StripMarks(w[1..]) + b && AllMarks(a) && AllMarks(b);
      StripFront(w[0], w[1..]);
      assert [w[0]] + w[1..] == w;
      Around([w[0]], a, StripMarks(w), b, none);
      assert w == ([w[0]] + a) + StripMarks(w) + (b + none);
      assert AllMarks([w[0]] + a) && b + none == b;
    } else if w != "" && IsMarkChar(w[|w| - 1]) {
      var init, c := w[..|w| - 1], w[|w| - 1];
      StripSplits(init);
      hide StripMarks;
      var a, b :| init == a + StripMarks(init) + b && AllMarks(a) && AllMarks(b);
      StripBack(init, c);
      assert init + [c] == w;
      Around(none, a, StripMarks(w), b, [c]);
      assert AllMarks(b + [c]) && none + a == a && none + init == init;
    } else {
      assert AllMarks(none) && w == none + StripMarks(w) + none;
    }
  }

  lemma Around(p: string, a: string, n: string, b: string, q: string)
    ensures p + (a + n + b) + q == (p + a) + n + (b + q)
  {
  }

  lemma {:induction false} StripAfter(a: string, n: string)
    requires AllMarks(a)
    ensures StripMarks(a + n) == StripMarks(n)
  {
    if a == "" {
      assert a + n == n;
    } else {
      assert a + n == [a[0]] + (a[1..] + n);
      StripFront(a[0], a[1..] + n);
      StripAfter(a[1..], n);
    }
  }

  lemma {:induction false} StripBefore(n: string, b: string)
    requires AllMarks(b)
    ensures StripMarks(n + b) == StripMarks(n)
  {
    if b == "" {
      assert n + b == n;
    } else {
      var init, c := b[..|b| - 1], b[|b| - 1];
      assert n + b == (n + init) + [c];
      StripBack(n + init, c);
      StripBefore(n, init);
    }
  }

  /** A name that begins and ends in letters. */
  predicate Lettered(name: string) {
    name != "" && 'A' <= name[0] <= 'Z' && 'A' <= name[|name| - 1] <= 'Z'
  }

  lemma StripExactly(w: string, name: string)
    requires Lettered(name)
    ensures Upper(StripMarks(w)) == name <==> Names(w, name)
  {
    if Upper(StripMarks(w)) == name {
      StripSplits(w);
      hide StripMarks;
      var a, b :| w == a + StripMarks(w) + b && AllMarks(a) && AllMarks(b);
      assert w == a + StripMarks(w) + b;
    }
    if Names(w, name) {
      var a, n, b :| w == a + n + b && AllMarks(a) && AllMarks(b) && Upper(n) == name;
      StripBefore(a + n, b);
      StripAfter(a, n);
      LettersStay(n, name);
    }
  }

  lemma LettersStay(n: string, name: string)
    requires Lettered(name) && Upper(n) == name
    ensures StripMarks(n) == n
  {
    assert UpperChar(n[0]) == name[0] && UpperChar(n[|n| - 1]) == name[|name| - 1];
  }

  /** The flag list names the flag. */
  ghost predicate ListNames(spec: string, name: string) {
    exists i | 0 <= i < |Words(spec)| :: Names(Words(spec)[i], name)
  }

  function BitOf(name: string): bv32 {
    match name case "SEEN" => 1 case "ANSWERED" => 2 case "FLAGGED" => 4 case "DELETED" => 8 case _ => 0
  }

  lemma FlagOfExactly(w: string, name: string)
    requires name == "SEEN" || name == "ANSWERED" || name == "FLAGGED" || name == "DELETED"
    ensures FlagOf(w) & BitOf(name) != 0 <==> Names(w, name)
    ensures FlagOf(w) & !15 == 0
  {
    NamesApart();
    StripExactly(w, name);
    hide StripMarks, Upper, Names;
  }

  lemma NamesApart()
    ensures "SEEN" != "ANSWERED" && "SEEN" != "FLAGGED" && "SEEN" != "DELETED" && "ANSWERED" != "FLAGGED" && "ANSWERED" != "DELETED"
    ensures "FLAGGED" != "DELETED" && Lettered("SEEN") && Lettered("ANSWERED") && Lettered("FLAGGED") && Lettered("DELETED")
  {
    assert |"SEEN"| == 4 && |"ANSWERED"| == 8 && |"FLAGGED"| == 7 && |"DELETED"| == 7 && "FLAGGED"[0] == 'F' && "DELETED"[0] == 'D';
  }

  lemma EitherBits(a: bv32, b: bv32, bit: bv32)
    requires bit == 1 || bit == 2 || bit == 4 || bit == 8
    ensures Either(a, b) & bit != 0 <==> a & bit != 0 || b & bit != 0
    ensures a & !15 == 0 && b & !15 == 0 ==> Either(a, b) & !15 == 0
  {
    OrBits(a, b, bit);
    OrBits(a, b, !15);
    OrZero(a & bit, b & bit);
    OrZero(a & !15, b & !15);
  }

  lemma OrBits(a: bv32, b: bv32, bit: bv32)
    ensures (a | b) & bit == (a & bit) | (b & bit)
  {
  }

  lemma OrZero(a: bv32, b: bv32)
    ensures a | b == 0 <==> a == 0 && b == 0
  {
  }

  lemma {:induction false} MaskExactly(words: seq<string>, name: string)
    requires name == "SEEN" || name == "ANSWERED" || name == "FLAGGED" || name == "DELETED"
    ensures FlagMask(words) & BitOf(name) != 0 <==> exists i | 0 <= i < |words| :: Names(words[i], name)
    ensures FlagMask(words) & !15 == 0
  {
    hide FlagOf, Names, Either, BitOf;
    if words == [] {
      ZeroBits(BitOf(name));
    } else {
      var init, last := words[..|words| - 1], words[|words| - 1];
      MaskExactly(init, name);
      FlagOfExactly(last, name);
      OneBit(name);
      EitherBits(FlagMask(init), FlagOf(last), BitOf(name));
      if i :| 0 <= i < |words| && Names(words[i], name) {
        if i < |init| { assert Names(init[i], name); }
      }
      if i :| 0 <= i < |init| && Names(init[i], name) {
        assert Names(words[i], name);
      }
    }
  }

  lemma OneBit(name: string)
    requires name == "SEEN" || name == "ANSWERED" || name == "FLAGGED" || name == "DELETED"
    ensures BitOf(name) == 1 || BitOf(name) == 2 || BitOf(name) == 4 || BitOf(name) == 8
  {
  }

  lemma ZeroBits(bit: bv32)
    ensures 0 as bv32 & bit == 0
  {
  }

  /** What a flag list asks for: each of the four flags that a word of it names, and no other bit. */
  lemma ListExactly(spec: string, name: string)
    requires name == "SEEN" || name == "ANSWERED" || name == "FLAGGED" || name == "DELETED"
    ensures FlagMask(Words(spec)) & BitOf(name) != 0 <==> ListNames(spec, name)
    ensures FlagMask(Words(spec)) & !15 == 0
  {
    hide FlagMask, Words, Names, BitOf;
    MaskExactly(Words(spec), name);
  }

  /** The list is empty of flags exactly when it names none of the four. */
  lemma ListEmptyExactly(spec: string)
    ensures FlagMask(Words(spec)) == 0
       <==> !ListNames(spec, "SEEN") && !ListNames(spec, "ANSWERED") && !ListNames(spec, "FLAGGED") && !ListNames(spec, "DELETED")
  {
    hide FlagMask, Words, ListNames;
    ListExactly(spec, "SEEN");
    ListExactly(spec, "ANSWERED");
    ListExactly(spec, "FLAGGED");
    ListExactly(spec, "DELETED");
    NamesApart();
    FourZero(FlagMask(Words(spec)));
  }

  lemma FourZero(mask: bv32)
    requires mask & !15 == 0
    ensures mask == 0 <==> mask & 1 == 0 && mask & 2 == 0 && mask & 4 == 0 && mask & 8 == 0
  {
  }
}
