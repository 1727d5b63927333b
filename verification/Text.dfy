/** The string operations of Rust's standard library that the mail system is built from:
    whitespace, ASCII case, decimal numbers, `split`, `split_whitespace`, `trim`, `join`. */
module Text {
  import opened Utf8

  /** `char::is_whitespace`: the Unicode White_Space property. */
  predicate IsWhitespace(c: char) {
    var n := c as int;
    || 9 <= n <= 13 || n == 0x20 || n == 0x85 || n == 0xA0 || n == 0x1680 || 0x2000 <= n <= 0x200A
    || n == 0x2028 || n == 0x2029 || n == 0x202F || n == 0x205F || n == 0x3000
  }

  predicate NoWhitespace(s: string) {
    forall i | 0 <= i < |s| :: !IsWhitespace(s[i])
  }

  function UpperChar(c: char): char {
    if 'a' <= c <= 'z' then (c as int - 32) as char else c
  }

  /** `to_ascii_uppercase`. */
  function Upper(s: string): (r: string)
    ensures |r| == |s|
    ensures forall i | 0 <= i < |s| :: r[i] == UpperChar(s[i])
  {
    seq(|s|, i requires 0 <= i < |s| => UpperChar(s[i]))
  }

  /** `eq_ignore_ascii_case`, and comparing lower-cased text to a lower-case literal. */
  predicate SameIgnoringCase(s: string, t: string) {
    Upper(s) == Upper(t)
  }

  // ---------------------------------------------------------------- decimal

  predicate IsDigit(c: char) {
    '0' <= c <= '9'
  }

  predicate AllDigits(s: string) {
    forall i | 0 <= i < |s| :: IsDigit(s[i])
  }

  function Digit(d: nat): (c: char)
    requires d < 10
    ensures IsDigit(c)
  {
    (d + '0' as int) as char
  }

  /** How an unsigned number is displayed. */
  function ToDecimal(n: nat): (s: string)
    ensures s != [] && AllDigits(s)
  {
    if n < 10 then [Digit(n)] else ToDecimal(n / 10) + [Digit(n % 10)]
  }

  function DigitsValue(s: string): (n: nat)
    requires AllDigits(s)
  {
    if s == [] then 0 else 10 * DigitsValue(s[..|s| - 1]) + (s[|s| - 1] as int - '0' as int)
  }

  /** `str::parse` for an unsigned integer type whose largest value is `max`: an
      optional `+`, then at least one digit, and no overflow. */
  function ParseUnsigned(s: string, max: nat): (r: Option<nat>)
    ensures r.Some? ==> r.value <= max
  {
    var digits := if |s| > 1 && s[0] == '+' then s[1..] else s;
    if digits == [] || !AllDigits(digits) || DigitsValue(digits) > max then None
    else Some(DigitsValue(digits))
  }

  /** How a signed number is displayed. */
  function ToSigned(n: int): string {
    if n < 0 then "-" + ToDecimal(-n) else ToDecimal(n)
  }

  const I64_MAX: int := 0x7FFF_FFFF_FFFF_FFFF

  predicate IsI64(n: int) {
    -I64_MAX - 1 <= n <= I64_MAX
  }

  /** `str::parse::<i64>`. */
  function ParseI64(s: string): (r: Option<int>)
    ensures r.Some? ==> IsI64(r.value)
  {
    if |s| > 1 && s[0] == '-' then
      var digits := s[1..];
      if !AllDigits(digits) || DigitsValue(digits) > I64_MAX + 1 then None else Some(-(DigitsValue(digits) as int))
    else
      match ParseUnsigned(s, I64_MAX)
      case None => None
      case Some(n) => Some(n)
  }

  lemma {:induction false} DecimalValue(n: nat)
    ensures DigitsValue(ToDecimal(n)) == n
  {
    var s := ToDecimal(n);
    if n >= 10 {
      DecimalValue(n / 10);
      assert s[..|s| - 1] == ToDecimal(n / 10);
    } else {
      assert s[..0] == [];
    }
  }

  /** Reading back a displayed number, as long as it fits the type. */
  lemma ParseDecimal(n: nat, max: nat)
    ensures ParseUnsigned(ToDecimal(n), max) == if n <= max then Some(n) else None
  {
    DecimalValue(n);
    assert IsDigit(ToDecimal(n)[0]);
  }

  lemma ParseSigned(n: int)
    requires IsI64(n)
    ensures ParseI64(ToSigned(n)) == Some(n)
  {
    if n < 0 {
      DecimalValue(-n);
      assert ToSigned(n)[1..] == ToDecimal(-n);
    } else {
      ParseDecimal(n, I64_MAX);
      assert IsDigit(ToDecimal(n)[0]);
    }
  }

  // ------------------------------------------------------- finding, trimming

  /** Index of the first `c`, or the length. */
  function Find<T(==)>(s: seq<T>, c: T): (k: nat)
    ensures k <= |s|
    ensures forall i | 0 <= i < k :: s[i] != c
    ensures k < |s| ==> s[k] == c
    ensures k == |s| <==> c !in s
  {
    if s == [] then 0 else if s[0] == c then 0 else
      var k := 1 + Find(s[1..], c);
      assert forall i | 1 <= i < |s| :: s[i] == s[1..][i - 1];
      k
  }

  /** One past the last `c`, or zero. */
  function FindLast<T(==)>(s: seq<T>, c: T): (k: nat)
    ensures k <= |s|
    ensures forall i | k <= i < |s| :: s[i] != c
    ensures k > 0 ==> s[k - 1] == c
    ensures k == 0 <==> c !in s
  {
    if s == [] then 0 else if s[|s| - 1] == c then |s| else
      var k := FindLast(s[..|s| - 1], c);
      assert forall i | 0 <= i < |s| - 1 :: s[i] == s[..|s| - 1][i];
      k
  }

  lemma FindIs<T>(s: seq<T>, c: T, k: nat)
    requires k <= |s| && (forall i | 0 <= i < k :: s[i] != c) && (k < |s| ==> s[k] == c)
    ensures Find(s, c) == k
  {
    var f := Find(s, c);
    assert f <= k && k <= f;
  }

  lemma FindLastIs<T>(s: seq<T>, c: T, k: nat)
    requires 0 < k <= |s| && (forall i | k <= i < |s| :: s[i] != c) && s[k - 1] == c
    ensures FindLast(s, c) == k
  {
    var f := FindLast(s, c);
    assert f - 1 < k && k - 1 < f;
  }

  predicate StartsWith(s: string, prefix: string) {
    |prefix| <= |s| && s[..|prefix|] == prefix
  }

  /** `trim_start`. */
  function TrimStart(s: string): string {
    if s != [] && IsWhitespace(s[0]) then TrimStart(s[1..]) else s
  }

  function TrimEnd(s: string): string {
    if s != [] && IsWhitespace(s[|s| - 1]) then TrimEnd(s[..|s| - 1]) else s
  }

  /** `trim`. */
  function Trim(s: string): string {
    TrimEnd(TrimStart(s))
  }

  lemma TrimNothing(s: string)
    requires s == [] || (!IsWhitespace(s[0]) && !IsWhitespace(s[|s| - 1]))
    ensures Trim(s) == s && TrimStart(s) == s
  {
  }

  /** `rsplit_once`: cut at the last `c`. */
  function CutLast(s: string, c: char): Option<(string, string)> {
    var k := FindLast(s, c);
    if k == 0 then None else Some((s[..k - 1], s[k..]))
  }

  lemma CutLastIs(a: string, c: char, b: string)
    requires c !in b
    ensures CutLast(a + [c] + b, c) == Some((a, b))
  {
    var s := a + [c] + b;
    assert s[..|a|] == a && s[|a|] == c && s[|a| + 1..] == b;
    assert forall i | |a| + 1 <= i < |s| :: s[i] == b[i - |a| - 1];
    FindLastIs(s, c, |a| + 1);
  }

  // ------------------------------------------------------ splitting, joining

  /** `join`. */
  function Join(parts: seq<string>, sep: string): string {
    if parts == [] then "" else if |parts| == 1 then parts[0] else parts[0] + sep + Join(parts[1..], sep)
  }

  /** `split` at a character: always at least one part. */
  function Split(s: string, c: char): (parts: seq<string>)
    ensures parts != []
    ensures forall p | p in parts :: c !in p
    decreases |s|
  {
    var k := Find(s, c);
    if k == |s| then [s] else [s[..k]] + Split(s[k + 1..], c)
  }

  /** Splitting undoes joining when no part holds the separator. */
  lemma {:induction false} SplitJoin(parts: seq<string>, c: char)
    requires parts != [] && forall p | p in parts :: c !in p
    ensures Split(Join(parts, [c]), c) == parts
  {
    var s := Join(parts, [c]);
    var p := parts[0];
    assert p in parts;
    if |parts| == 1 {
      FindIs(s, c, |p|);
    } else {
      assert s == p + ([c] + Join(parts[1..], [c]));
      assert s[..|p|] == p && s[|p|] == c;
      FindIs(s, c, |p|);
      assert s[|p| + 1..] == Join(parts[1..], [c]);
      SplitJoin(parts[1..], c);
    }
  }

  /** Joining undoes splitting. */
  lemma {:induction false} JoinSplit(s: string, c: char)
    ensures Join(Split(s, c), [c]) == s
    decreases |s|
  {
    var k := Find(s, c);
    if k < |s| {
      var rest := s[k + 1..];
      JoinSplit(rest, c);
      JoinHead(s[..k], Split(rest, c), [c]);
      hide Join;
      assert s == s[..k] + [c] + rest;
    }
  }

  lemma JoinHead(p: string, parts: seq<string>, sep: string)
    requires parts != []
    ensures Join([p] + parts, sep) == p + sep + Join(parts, sep)
  {
    assert ([p] + parts)[1..] == parts;
  }

  /** The first run of non-whitespace characters of `s` ends here. */
  function WordEnd(s: string): (k: nat)
    ensures k <= |s|
    ensures NoWhitespace(s[..k])
    ensures k < |s| ==> IsWhitespace(s[k])
  {
    if s == [] || IsWhitespace(s[0]) then 0 else
      var k := 1 + WordEnd(s[1..]);
      assert s[..k] == [s[0]] + s[1..][..k - 1];
      k
  }

  /** `split_whitespace`. */
  function Words(s: string): (ws: seq<string>)
    ensures forall w | w in ws :: w != [] && NoWhitespace(w)
    decreases |s|
  {
    if s == [] then []
    else if IsWhitespace(s[0]) then Words(s[1..])
    else [s[..WordEnd(s)]] + Words(s[WordEnd(s)..])
  }

  predicate IsWord(w: string) {
    w != [] && NoWhitespace(w)
  }

  lemma WordEndIs(w: string, s: string)
    requires NoWhitespace(w) && (s == [] || IsWhitespace(s[0]))
    ensures WordEnd(w + s) == |w|
  {
    var k := WordEnd(w + s);
    assert forall i | 0 <= i < |w| :: (w + s)[i] == w[i];
    assert forall i | 0 <= i < k :: (w + s)[..k][i] == (w + s)[i];
    assert s != [] ==> (w + s)[|w|] == s[0];
    assert k >= |w|;
  }

  lemma WordsOfWord(w: string, s: string)
    requires IsWord(w) && (s == [] || IsWhitespace(s[0]))
    ensures Words(w + s) == [w] + Words(s)
  {
    WordEndIs(w, s);
    assert (w + s)[..|w|] == w && (w + s)[|w|..] == s;
    assert (w + s)[0] == w[0];
  }

  /** Splitting at whitespace undoes joining words with a space. */
  lemma {:induction false} WordsJoin(words: seq<string>)
    requires forall w | w in words :: IsWord(w)
    ensures Words(Join(words, " ")) == words
  {
    if |words| == 1 {
      WordsOfWord(words[0], "");
      assert words[0] + "" == words[0];
    } else if |words| > 1 {
      var tail := Join(words[1..], " ");
      WordsJoin(words[1..]);
      WordsOfWord(words[0], " " + tail);
      assert (" " + tail)[1..] == tail;
      assert words[0] + " " + tail == words[0] + (" " + tail);
      assert words == [words[0]] + words[1..];
    }
  }

  /** Two texts with one space between them. */
  function Sp(a: string, b: string): (s: string)
    ensures |s| == |a| + 1 + |b|
    ensures s[..|a|] == a && s[|a|] == ' ' && s[|a| + 1..] == b
  {
    a + " " + b
  }

  lemma FindSpace(a: string, b: string)
    requires ' ' !in a
    ensures Find(Sp(a, b), ' ') == |a|
  {
    var s := Sp(a, b);
    assert forall i | 0 <= i < |a| :: s[i] == s[..|a|][i];
    FindIs(s, ' ', |a|);
  }

  lemma WordsSp(w: string, t: string)
    requires IsWord(w)
    ensures Words(Sp(w, t)) == [w] + Words(t)
  {
    WordsOfWord(w, " " + t);
    assert w + " " + t == w + (" " + t);
    assert (" " + t)[1..] == t;
  }

  lemma NoSpaceInWord(w: string)
    requires NoWhitespace(w)
    ensures ' ' !in w
  {
    assert IsWhitespace(' ');
  }

  /** Whitespace between two texts separates their words. */
  lemma {:induction false} WordsAppend(s: string, t: string)
    requires t == [] || IsWhitespace(t[0])
    ensures Words(s + t) == Words(s) + Words(t)
    decreases |s|
  {
    hide IsWhitespace, Words;
    if s == [] {
      assert s + t == t;
      assert Words(s) == [] by { NoWords(); }
      assert [] + Words(t) == Words(t);
    } else if IsWhitespace(s[0]) {
      assert (s + t)[1..] == s[1..] + t;
      WordsAppend(s[1..], t);
      WordsSkip(s);
      WordsSkip(s + t);
    } else {
      var k := WordEnd(s);
      var w, rest := s[..k], s[k..];
      assert s + t == w + (rest + t);
      WordsFrom(s);
      assert rest + t == [] || IsWhitespace((rest + t)[0]);
      WordsOfWord(w, rest + t);
      WordsAppend(rest, t);
      assert [w] + (Words(rest) + Words(t)) == [w] + Words(rest) + Words(t);
    }
  }

  lemma NoWords()
    ensures Words("") == []
  {
  }

  lemma WordsSkip(s: string)
    requires s != [] && IsWhitespace(s[0])
    ensures Words(s) == Words(s[1..])
  {
  }

  lemma WordsFrom(s: string)
    requires s != [] && !IsWhitespace(s[0])
    ensures Words(s) == [s[..WordEnd(s)]] + Words(s[WordEnd(s)..]) && IsWord(s[..WordEnd(s)])
  {
    var w := s[..WordEnd(s)];
    assert w in Words(s);
  }

  predicate OccursAt(s: string, w: string, i: int) {
    0 <= i <= |s| - |w| && s[i..i + |w|] == w
  }

  /** `s.contains(w)`. */
  predicate Contains(s: string, w: string) {
    exists i | 0 <= i <= |s| :: OccursAt(s, w, i)
  }
}
