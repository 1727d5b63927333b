/** The IMAP tokenizer, and the quoting it undoes. */
module ImapTokens {
  import opened Utf8
  import opened Text

  datatype ParseError = InvalidCommand | Unterminated | UnclosedQuote

  /** `Stuck`: the code's loop makes no progress from here and never returns. */
  datatype Tokenized = Tokens(tokens: seq<string>) | Failed(error: ParseError) | Stuck

  predicate AtomChar(c: char) {
    !IsWhitespace(c) && c != '(' && c != ')' && c != '"'
  }

  function AtomLen(s: string): (n: nat)
    ensures n <= |s|
    ensures forall i | 0 <= i < n :: AtomChar(s[i])
    ensures n < |s| ==> !AtomChar(s[n])
  {
    if s == [] || !AtomChar(s[0]) then 0
    else
      assert forall i | 1 <= i < |s| :: s[i] == s[1..][i - 1];
      1 + AtomLen(s[1..])
  }

  /** How much of `s` closes `depth` open parentheses, if it does. */
  function ListLen(s: string, depth: nat): (n: Option<nat>)
    ensures n.Some? ==> n.value <= |s|
    ensures n.Some? && depth > 0 ==> n.value > 0
  {
    if depth == 0 then Some(0)
    else if s == [] then None
    else
      var d := if s[0] == '(' then depth + 1 else if s[0] == ')' then depth - 1 else depth;
      match ListLen(s[1..], d)
      case None => None
      case Some(n) => Some(n + 1)
  }

  /** The content of a quoted string whose opening quote has been read, and how much it takes with its closing quote. */
  function Quoted(s: string): (r: Option<(string, nat)>)
    ensures r.Some? ==> 1 <= r.value.1 <= |s|
    decreases |s|
  {
    if s == [] then None
    else if s[0] == '\\' && |s| > 1 then
      match Quoted(s[2..])
      case None => None
      case Some((out, n)) => Some(([s[1]] + out, n + 2))
    else if s[0] == '"' then Some(("", 1))
    else
      match Quoted(s[1..])
      case None => None
      case Some((out, n)) => Some(([s[0]] + out, n + 1))
  }

  /** What one turn of the tokenizer's loop does with the rest of the line. */
  datatype Step = Skip | Token(text: string, len: nat) | Unclosed

  function StepOf(s: string): (r: Step)
    requires s != []
    ensures r.Token? ==> r.len <= |s|
  {
    if IsWhitespace(s[0]) then Skip
    else if s[0] == '(' then
      match ListLen(s[1..], 1)
      case None => Unclosed
      case Some(n) => Token(s[..n + 1], n + 1)
    else if s[0] == '"' then
      match Quoted(s[1..])
      case None => Unclosed
      case Some((out, n)) => Token(out, n + 1)
    else Token(s[..AtomLen(s)], AtomLen(s))
  }

  /** The loop stands still exactly at a closing parenthesis that nothing opened: there it adds an
      empty token and stays, turn after turn; anywhere else it moves on. */
  lemma ProgressExactly(s: string)
    requires s != []
    ensures StepOf(s) == Token("", 0) <==> s[0] == ')'
    ensures StepOf(s).Token? && s[0] != ')' ==> StepOf(s).len > 0
  {
    assert IsWhitespace(')') == false;
  }

  function TokensOf(s: string): Tokenized
    decreases |s|
  {
    if s == [] then Tokens([])
    else
      match StepOf(s)
      case Skip => TokensOf(s[1..])
      case Unclosed => Failed(UnclosedQuote)
      case Token(text, len) => if len == 0 then Stuck else Prepend(text, TokensOf(s[len..]))
  }

  function Prepend(t: string, r: Tokenized): Tokenized {
    match r
    case Tokens(ts) => Tokens([t] + ts)
    case _ => r
  }

  // ------------------------------------------------------- as index loops

  method ListEnd(s: string, i: nat) returns (j: nat, depth: nat)
    requires i < |s| && s[i] == '('
    ensures j <= |s|
    ensures depth == 0 ==> j > i && ListLen(s[i + 1..], 1) == Some(j - i - 1)
    ensures depth != 0 ==> ListLen(s[i + 1..], 1) == None
  {
    depth, j := 1, i + 1;
    while j < |s| && depth > 0
      invariant i < j <= |s|
      invariant ListLen(s[i + 1..], 1)
             == match ListLen(s[j..], depth) case None => None case Some(n) => Some(n + (j - i - 1))
    {
      assert s[j..][0] == s[j] && s[j..][1..] == s[j + 1..];
      match s[j] {
        case '(' => depth := depth + 1;
        case ')' => depth := depth - 1;
        case _ =>
      }
      j := j + 1;
    }
  }

  /** A result of `Quoted` with text and length already read in front of it. */
  function Grown(out: string, k: nat, r: Option<(string, nat)>): Option<(string, nat)> {
    match r
    case None => None
    case Some((rest, n)) => Some((out + rest, k + n))
  }

  /** What one turn of the quoted-string loop reads. */
  lemma QuotedTurn(s: string, out: string, k: nat)
    requires s != []
    ensures Grown(out, k, Quoted(s))
         == if s[0] == '\\' && |s| > 1 then Grown(out + [s[1]], k + 2, Quoted(s[2..]))
            else if s[0] == '"' then Some((out, k + 1))
            else Grown(out + [s[0]], k + 1, Quoted(s[1..]))
  {
    QuotedIs(s);
    hide Quoted, Grown;
    if s[0] == '\\' && |s| > 1 {
      GrownTwice(out, k, [s[1]], 2, Quoted(s[2..]));
    } else if s[0] == '"' {
      GrownEnd(out, k);
    } else {
      GrownTwice(out, k, [s[0]], 1, Quoted(s[1..]));
    }
  }

  lemma QuotedIs(s: string)
    requires s != []
    ensures Quoted(s)
         == if s[0] == '\\' && |s| > 1 then Grown([s[1]], 2, Quoted(s[2..]))
            else if s[0] == '"' then Some(("", 1))
            else Grown([s[0]], 1, Quoted(s[1..]))
  {
  }

  lemma GrownTwice(out: string, k: nat, a: string, m: nat, r: Option<(string, nat)>)
    ensures Grown(out, k, Grown(a, m, r)) == Grown(out + a, k + m, r)
  {
    assert r.Some? ==> out + (a + r.value.0) == out + a + r.value.0;
  }

  lemma GrownEnd(out: string, k: nat)
    ensures Grown(out, k, Some(("", 1))) == Some((out, k + 1))
  {
    assert out + "" == out;
  }

  lemma GrownFromNothing(r: Option<(string, nat)>)
    ensures Grown("", 0, r) == r
  {
    assert r.Some? ==> "" + r.value.0 == r.value.0;
  }

  method QuotedEnd(s: string, i: nat) returns (j: nat, out: string)
    requires i < |s| && s[i] == '"'
    ensures j <= |s|
    ensures j < |s| ==> j > i && Quoted(s[i + 1..]) == Some((out, j - i))
    ensures j == |s| ==> Quoted(s[i + 1..]) == None
  {
    hide Grown, Quoted;
    j, out := i + 1, "";
    GrownFromNothing(Quoted(s[i + 1..]));
    while j < |s|
      invariant i < j <= |s|
      invariant Quoted(s[i + 1..]) == Grown(out, j - i - 1, Quoted(s[j..]))
    {
      var was := s[j..];
      QuotedTurn(was, out, j - i - 1);
      assert was[0] == s[j] && was[1..] == s[j + 1..];
      if s[j] == '\\' && j + 1 < |s| {
        assert was[1] == s[j + 1] && was[2..] == s[j + 2..];
        out := out + [s[j + 1]];
        j := j + 2;
      } else if s[j] == '"' {
        return;
      } else {
        out := out + [s[j]];
        j := j + 1;
      }
    }
    NothingQuoted(out, j - i - 1, s[j..]);
  }

  lemma NothingQuoted(out: string, k: nat, s: string)
    requires s == ""
    ensures Grown(out, k, Quoted(s)) == None
  {
  }

  function PrependAll(ts: seq<string>, r: Tokenized): Tokenized {
    match r
    case Tokens(us) => Tokens(ts + us)
    case _ => r
  }

  lemma PrependAllLaws(ts: seq<string>, t: string, r: Tokenized)
    ensures PrependAll([], r) == r
    ensures PrependAll(ts, Prepend(t, r)) == PrependAll(ts + [t], r)
  {
    if r.Tokens? {
      assert [] + r.tokens == r.tokens;
      assert ts + ([t] + r.tokens) == ts + [t] + r.tokens;
    }
  }

  method AtomEnd(s: string, i: nat) returns (j: nat)
    requires i < |s|
    ensures i <= j <= |s| && AtomLen(s[i..]) == j - i
  {
    j := i;
    while j < |s| && !IsWhitespace(s[j]) && s[j] != '(' && s[j] != ')' && s[j] != '"'
      invariant i <= j <= |s|
      invariant forall k | i <= k < j :: AtomChar(s[k])
    {
      j := j + 1;
    }
    var rest := s[i..];
    assert forall k | 0 <= k < |rest| :: rest[k] == s[i + k];
  }

  /** One turn of the loop at index `i`. */
  method StepAt(s: string, i: nat) returns (step: Step)
    requires i < |s|
    ensures step == StepOf(s[i..])
  {
    var rest := s[i..];
    assert rest[0] == s[i] && rest[1..] == s[i + 1..];
    if IsWhitespace(s[i]) {
      return Skip;
    }
    if s[i] == '(' {
      var j, depth := ListEnd(s, i);
      if depth != 0 {
        return Unclosed;
      }
      assert rest[..j - i] == s[i..j];
      return Token(s[i..j], j - i);
    }
    if s[i] == '"' {
      var j, out := QuotedEnd(s, i);
      if j >= |s| {
        return Unclosed;
      }
      return Token(out, j + 1 - i);
    }
    var j := AtomEnd(s, i);
    assert rest[..j - i] == s[i..j];
    return Token(s[i..j], j - i);
  }

  method Tokenize(line: Bytes) returns (r: Tokenized)
    ensures r == TokensOf(Lossy(line))
  {
    hide StepOf;
    var s := Lossy(line);
    var tokens: seq<string> := [];
    var i := 0;
    assert s[0..] == s;
    PrependAllLaws([], "", TokensOf(s));
    while i < |s|
      invariant 0 <= i <= |s|
      invariant TokensOf(s) == PrependAll(tokens, TokensOf(s[i..]))
    {
      var step := StepAt(s, i);
      assert s[i..][1..] == s[i + 1..];
      match step
      case Skip => i := i + 1;
      case Unclosed => return Failed(UnclosedQuote);
      case Token(text, len) =>
        if len == 0 {
          // The code would push an empty token here for ever.
          return Stuck;
        }
        assert s[i..][len..] == s[i + len..];
        PrependAllLaws(tokens, text, TokensOf(s[i + len..]));
        tokens := tokens + [text];
        i := i + len;
    }
    PrependAllLaws(tokens, "", Tokens([]));
    assert tokens + [] == tokens;
    return Tokens(tokens);
  }

  // ------------------------------------------- a reference: one pass, by mode

  datatype Mode = Top | InList(depth: nat) | InQuote | Escaped
  datatype Verdict = Fine | Open | Stray

  /** The mode after a character; `Stray` is not a mode, so a closing parenthesis at the top is kept out. */
  function NextMode(m: Mode, c: char): Mode {
    match m
    case Top => if c == '(' then InList(1) else if c == '"' then InQuote else Top
    case InList(d) => if c == '(' then InList(d + 1) else if c == ')' then (if d <= 1 then Top else InList(d - 1)) else m
    case InQuote => if c == '\\' then Escaped else if c == '"' then Top else InQuote
    case Escaped => InQuote
  }

  /** Reads a line character by character, remembering only the mode. */
  function Scan(s: string, m: Mode): Verdict {
    if s == [] then (if m == Top then Fine else Open)
    else if m == Top && s[0] == ')' then Stray
    else Scan(s[1..], NextMode(m, s[0]))
  }

  function VerdictOf(r: Tokenized): Verdict {
    match r
    case Tokens(_) => Fine
    case Failed(_) => Open
    case Stuck => Stray
  }

  lemma {:induction false} ScanList(s: string, depth: nat)
    requires depth > 0
    ensures Scan(s, InList(depth)) == match ListLen(s, depth) case None => Open case Some(n) => Scan(s[n..], Top)
  {
    if s != [] {
      var d := if s[0] == '(' then depth + 1 else if s[0] == ')' then depth - 1 else depth;
      if d == 0 {
        assert s[1..] == s[1..][0..];
      } else {
        ScanList(s[1..], d);
        if ListLen(s[1..], d).Some? {
          assert s[1..][ListLen(s[1..], d).value..] == s[ListLen(s, depth).value..];
        }
      }
    }
  }

  lemma {:induction false} ScanQuoted(s: string)
    ensures Scan(s, InQuote) == match Quoted(s) case None => Open case Some((_, n)) => Scan(s[n..], Top)
    decreases |s|
  {
    if s != [] {
      if s[0] == '\\' && |s| > 1 {
        ScanQuoted(s[2..]);
        assert s[1..][1..] == s[2..];
        assert Scan(s, InQuote) == Scan(s[1..], Escaped) == Scan(s[2..], InQuote);
        if Quoted(s[2..]).Some? {
          assert s[2..][Quoted(s[2..]).value.1..] == s[Quoted(s).value.1..];
        }
      } else if s[0] == '\\' {
        assert s[1..] == [];
        assert Scan(s, InQuote) == Scan([], Escaped);
      } else if s[0] != '"' {
        ScanQuoted(s[1..]);
        if Quoted(s[1..]).Some? {
          assert s[1..][Quoted(s[1..]).value.1..] == s[Quoted(s).value.1..];
        }
      }
    }
  }

  lemma {:induction false} ScanAtom(s: string, n: nat)
    requires n <= |s| && forall i | 0 <= i < n :: AtomChar(s[i])
    ensures Scan(s, Top) == Scan(s[n..], Top)
  {
    if n > 0 {
      ScanAtom(s[1..], n - 1);
      assert s[1..][n - 1..] == s[n..];
    } else {
      assert s[0..] == s;
    }
  }

  /** The tokenizer returns tokens, reports an unclosed item, or never returns, exactly as the one-pass scan
      of the line ends at the top, ends inside a list or quotes, or meets a `)` that nothing opened. */
  lemma {:induction false} TokenizerVerdict(s: string)
    ensures VerdictOf(TokensOf(s)) == Scan(s, Top)
    decreases |s|
  {
    if s != [] {
      match StepOf(s)
      case Skip =>
        TokenizerVerdict(s[1..]);
      case Unclosed =>
        if s[0] == '(' { ScanList(s[1..], 1); } else { ScanQuoted(s[1..]); }
      case Token(text, len) =>
        if len > 0 {
          TokenizerVerdict(s[len..]);
          assert s[1..][len - 1..] == s[len..];
          if s[0] == '(' {
            ScanList(s[1..], 1);
          } else if s[0] == '"' {
            ScanQuoted(s[1..]);
          } else {
            ScanAtom(s, len);
          }
        }
    }
  }

  // ----------------------------------------------------- coverage of the line

  /** Where in the line each token comes from. */
  function Spans(s: string, offset: nat): seq<(nat, nat)>
    decreases |s|
  {
    if s == [] then []
    else
      match StepOf(s)
      case Skip => Spans(s[1..], offset + 1)
      case Unclosed => []
      case Token(_, len) => if len == 0 then [] else [(offset, offset + len)] + Spans(s[len..], offset + len)
  }

  /** Nesting of a parenthesised text. */
  function Depth(s: string): int {
    if s == [] then 0
    else Depth(s[..|s| - 1]) + (if s[|s| - 1] == '(' then 1 else if s[|s| - 1] == ')' then -1 else 0)
  }

  ghost predicate Balanced(s: string) {
    Depth(s) == 0 && forall k | 0 < k < |s| :: Depth(s[..k]) > 0
  }

  lemma {:induction false} DepthSplit(s: string, t: string)
    ensures Depth(s + t) == Depth(s) + Depth(t)
    decreases |t|
  {
    if t == [] {
      assert s + t == s;
    } else {
      assert (s + t)[..|s + t| - 1] == s + t[..|t| - 1];
      DepthSplit(s, t[..|t| - 1]);
    }
  }

  lemma {:induction false} ListLenDepth(s: string, depth: nat, k: nat)
    requires depth > 0 && ListLen(s, depth).Some? && k <= ListLen(s, depth).value
    ensures depth + Depth(s[..k]) >= 0
    ensures depth + Depth(s[..k]) == 0 <==> k == ListLen(s, depth).value
  {
    if k > 0 {
      var c := s[..1];
      assert s[..k] == c + s[1..][..k - 1];
      DepthSplit(c, s[1..][..k - 1]);
      assert c[..0] == [];
      var d := if s[0] == '(' then depth + 1 else if s[0] == ')' then depth - 1 else depth;
      assert Depth(c) == d - depth;
      if d > 0 {
        ListLenDepth(s[1..], d, k - 1);
      } else {
        assert s[1..][..k - 1] == [];
      }
    }
  }

  lemma ListTokenBalanced(s: string)
    requires s != [] && s[0] == '(' && StepOf(s).Token?
    ensures Balanced(StepOf(s).text)
  {
    var n := StepOf(s).len;
    var t := StepOf(s).text;
    forall k | 0 < k <= n ensures Depth(t[..k]) >= 0 && (Depth(t[..k]) == 0 <==> k == n) {
      var c := s[..1];
      assert t[..k] == c + s[1..][..k - 1];
      DepthSplit(c, s[1..][..k - 1]);
      assert c[..0] == [] && Depth(c) == 1;
      ListLenDepth(s[1..], 1, k - 1);
    }
    assert t[..n] == t;
  }

  predicate InSpan(spans: seq<(nat, nat)>, i: nat) {
    exists k | 0 <= k < |spans| :: spans[k].0 <= i < spans[k].1
  }

  ghost predicate WellSpread(s: string, offset: nat, spans: seq<(nat, nat)>) {
    && (forall k | 0 <= k < |spans| :: offset <= spans[k].0 < spans[k].1 <= offset + |s|)
    && (forall k, l | 0 <= k < l < |spans| :: spans[k].1 <= spans[l].0)
    && (forall i: nat | i < |s| && !IsWhitespace(s[i]) :: InSpan(spans, offset + i))
  }

  lemma SpreadAfter(s: string, offset: nat, len: nat, tail: seq<(nat, nat)>)
    requires 0 < len <= |s| && WellSpread(s[len..], offset + len, tail)
    ensures WellSpread(s, offset, [(offset, offset + len)] + tail)
  {
    var spans := [(offset, offset + len)] + tail;
    forall i: nat | i < |s| && !IsWhitespace(s[i]) ensures InSpan(spans, offset + i) {
      if i < len {
        assert spans[0].0 <= offset + i < spans[0].1;
      } else {
        assert s[len..][i - len] == s[i];
        assert InSpan(tail, offset + len + (i - len));
        var k :| 0 <= k < |tail| && tail[k].0 <= offset + i < tail[k].1;
        assert spans[k + 1] == tail[k];
      }
    }
  }

  lemma NothingSpread(offset: nat)
    ensures WellSpread("", offset, [])
  {
  }

  /** A whitespace character in front. */
  lemma SpreadBehind(s: string, offset: nat, spans: seq<(nat, nat)>)
    requires s != [] && IsWhitespace(s[0]) && WellSpread(s[1..], offset + 1, spans)
    ensures WellSpread(s, offset, spans)
  {
    hide IsWhitespace, InSpan;
    forall i: nat | i < |s| && !IsWhitespace(s[i]) ensures InSpan(spans, offset + i) {
      assert s[1..][i - 1] == s[i];
      assert InSpan(spans, offset + 1 + (i - 1));
    }
  }

  /** On every line it finishes, the tokens come from disjoint, ordered, non-empty stretches, one each, that
      cover every character that is not whitespace. */
  lemma {:induction false} TokensCover(s: string, offset: nat)
    requires TokensOf(s).Tokens?
    ensures |Spans(s, offset)| == |TokensOf(s).tokens|
    ensures WellSpread(s, offset, Spans(s, offset))
    decreases |s|
  {
    hide WellSpread, ListLen, Quoted, AtomLen;
    if s == [] {
      NothingSpread(offset);
    } else {
      match StepOf(s)
      case Skip =>
        TokensCover(s[1..], offset + 1);
        SpreadBehind(s, offset, Spans(s, offset));
      case Token(text, len) =>
        TokensCover(s[len..], offset + len);
        SpreadAfter(s, offset, len, Spans(s[len..], offset + len));
    }
  }

  // ----------------------------------------------------------------- quoting

  function Escape(s: string): string {
    if s == [] then ""
    else (if s[0] == '\\' || s[0] == '"' then ['\\', s[0]] else [s[0]]) + Escape(s[1..])
  }

  function Quote(s: string): string {
    "\"" + Escape(s) + "\""
  }

  lemma {:induction false} EscapeSnoc(s: string, c: char)
    ensures Escape(s + [c]) == Escape(s) + if c == '\\' || c == '"' then ['\\', c] else [c]
  {
    if s == [] {
      assert s + [c] == [c] && [c][1..] == [];
    } else {
      assert (s + [c])[1..] == s[1..] + [c];
      EscapeSnoc(s[1..], c);
    }
  }

  /** `quote`, pushing onto a buffer. */
  method QuoteString(s: string) returns (out: string)
    ensures out == Quote(s)
  {
    out := "\"";
    for i := 0 to |s|
      invariant out == "\"" + Escape(s[..i])
    {
      assert s[..i + 1] == s[..i] + [s[i]];
      EscapeSnoc(s[..i], s[i]);
      if s[i] == '\\' || s[i] == '"' {
        out := out + "\\";
      }
      out := out + [s[i]];
    }
    assert s[..|s|] == s;
    out := out + "\"";
  }

  lemma {:induction false} QuotedUndoesEscape(a: string, tail: string)
    ensures Quoted(Escape(a) + ("\"" + tail)) == Some((a, |Escape(a)| + 1))
  {
    var s := Escape(a) + ("\"" + tail);
    if a != [] {
      QuotedUndoesEscape(a[1..], tail);
      var rest := Escape(a[1..]) + ("\"" + tail);
      if a[0] == '\\' || a[0] == '"' {
        assert s[0] == '\\' && s[1] == a[0] && s[2..] == rest;
      } else {
        assert s[0] == a[0] && s[1..] == rest;
      }
      assert [a[0]] + a[1..] == a;
    }
  }

  lemma QuoteIsOneToken(a: string, tail: string)
    ensures TokensOf(Quote(a) + tail) == Prepend(a, TokensOf(tail))
  {
    var s := Quote(a) + tail;
    assert s[0] == '"' && s[1..] == Escape(a) + ("\"" + tail);
    QuotedUndoesEscape(a, tail);
    assert s[|Quote(a)|..] == tail;
  }

  predicate IsAtom(s: string) {
    s != [] && forall i | 0 <= i < |s| :: AtomChar(s[i])
  }

  lemma AtomIsOneToken(a: string, tail: string)
    requires IsAtom(a) && (tail == [] || IsWhitespace(tail[0]))
    ensures TokensOf(a + tail) == Prepend(a, TokensOf(tail))
  {
    var s := a + tail;
    assert forall i | 0 <= i < |a| :: s[i] == a[i];
    assert tail != [] ==> s[|a|] == tail[0];
    assert AtomLen(s) == |a|;
    assert s[..|a|] == a && s[|a|..] == tail;
  }

  /** Arguments printed as quoted strings, each after a space. */
  function QuotedArgs(args: seq<string>): string {
    if args == [] then "" else " " + Quote(args[0]) + QuotedArgs(args[1..])
  }

  lemma {:induction false} QuotedArgsTokenize(args: seq<string>)
    ensures TokensOf(QuotedArgs(args)) == Tokens(args)
  {
    if args != [] {
      var s := QuotedArgs(args);
      assert s[1..] == Quote(args[0]) + QuotedArgs(args[1..]);
      QuoteIsOneToken(args[0], QuotedArgs(args[1..]));
      QuotedArgsTokenize(args[1..]);
      assert [args[0]] + args[1..] == args;
    }
  }

  /** A printed command line: tag, name, quoted arguments. */
  function PrintCommand(tag: string, name: string, args: seq<string>): string {
    tag + (" " + (name + QuotedArgs(args)))
  }

  lemma ArgsStart(args: seq<string>)
    ensures QuotedArgs(args) == [] || IsWhitespace(QuotedArgs(args)[0])
  {
  }

  lemma PrintedTokens(tag: string, name: string, args: seq<string>)
    requires IsAtom(tag) && IsAtom(name)
    ensures TokensOf(PrintCommand(tag, name, args)) == Tokens([tag, name] + args)
  {
    hide QuotedArgs, AtomLen;
    var tail := name + QuotedArgs(args);
    ArgsStart(args);
    AtomIsOneToken(tag, " " + tail);
    assert (" " + tail)[1..] == tail;
    AtomIsOneToken(name, QuotedArgs(args));
    QuotedArgsTokenize(args);
    assert [tag] + ([name] + args) == [tag, name] + args;
  }
}
