/** The data items of a FETCH: body sections printed and parsed, and the requests made of them. */
module FetchItems {
  import opened Utf8
  import opened Text
  import opened ImapTokens

  datatype Section =
    | NoBody
    | Full
    | Header
    | HeaderFields(fields: seq<string>)
    | HeaderFieldsNot(fields: seq<string>)
    | TextPart
    | Mime
    | Other(name: string)

  function FieldsPrefix(negate: bool): string {
    if negate then "HEADER.FIELDS.NOT " else "HEADER.FIELDS "
  }

  /** What stands between the brackets of a section's label. */
  function Inner(s: Section): string {
    match s
    case NoBody => ""
    case Full => ""
    case Header => "HEADER"
    case HeaderFields(fields) => FieldsPrefix(false) + "(" + Join(fields, " ") + ")"
    case HeaderFieldsNot(fields) => FieldsPrefix(true) + "(" + Join(fields, " ") + ")"
    case TextPart => "TEXT"
    case Mime => "MIME"
    case Other(name) => name
  }

  /** `label`. */
  function Label(s: Section): string {
    "BODY[" + Inner(s) + "]"
  }

  // -------------------------------------------------------- parsing a section

  /** `extract_field_list`: from the first `(` to the last `)`. */
  function FieldList(s: string): Option<string> {
    var open, close := Find(s, '('), FindLast(s, ')');
    if open == |s| || close == 0 || close - 1 <= open then None else Some(s[open + 1..close - 1])
  }

  function ParseSection(section: string): Section {
    var s := Trim(section);
    var upper := Upper(s);
    if s == "" then Full
    else if upper == "HEADER" then Header
    else if upper == "TEXT" then TextPart
    else if upper == "MIME" then Mime
    else if StartsWith(upper, "HEADER.FIELDS") && FieldList(s).Some? then
      var fields := Words(FieldList(s).value);
      if Contains(upper, ".NOT") then HeaderFieldsNot(fields) else HeaderFields(fields)
    else Other(s)
  }

  /** Names the parser leaves as they are. */
  predicate PlainOther(name: string) {
    && name != "" && Trim(name) == name
    && Upper(name) != "HEADER" && Upper(name) != "TEXT" && Upper(name) != "MIME"
    && !(StartsWith(Upper(name), "HEADER.FIELDS") && FieldList(name).Some?)
  }

  predicate AreWords(fields: seq<string>) {
    forall i | 0 <= i < |fields| :: IsWord(fields[i])
  }

  predicate MentionsNot(fields: seq<string>) {
    exists i | 0 <= i < |fields| :: Contains(Upper(fields[i]), ".NOT")
  }

  /** The sections that parsing their own label gives back. */
  predicate Readable(s: Section) {
    match s
    case NoBody => false
    case HeaderFields(fields) => AreWords(fields) && !MentionsNot(fields)
    case HeaderFieldsNot(fields) => AreWords(fields)
    case Other(name) => PlainOther(name)
    case _ => true
  }

  lemma UpperAppend(s: string, t: string)
    ensures Upper(s + t) == Upper(s) + Upper(t)
  {
    assert forall i | 0 <= i < |s| + |t| :: Upper(s + t)[i] == (Upper(s) + Upper(t))[i];
  }

  lemma ContainsInside(a: string, w: string, b: string)
    requires Contains(w, ".NOT")
    ensures Contains(a + w + b, ".NOT")
  {
    var i :| 0 <= i <= |w| && OccursAt(w, ".NOT", i);
    var s := a + w + b;
    assert s[|a| + i..|a| + i + 4] == w[i..i + 4];
    assert OccursAt(s, ".NOT", |a| + i);
  }

  lemma NothingElse(s: string, i: nat)
    requires OccursAt(s, ".NOT", i)
    ensures forall k | i <= k < i + 4 :: s[k] != ' ' && s[k] != '(' && s[k] != ')'
  {
    forall k | i <= k < i + 4 ensures s[k] == ".NOT"[k - i] {
      assert s[i..i + 4][k - i] == s[k];
    }
  }

  /** `.NOT` cannot straddle a character it does not hold. */
  lemma ContainsAcross(a: string, c: char, b: string)
    requires c == ' ' || c == '(' || c == ')'
    ensures Contains(a + [c] + b, ".NOT") <==> Contains(a, ".NOT") || Contains(b, ".NOT")
  {
    var s := a + [c] + b;
    if Contains(s, ".NOT") {
      var i :| 0 <= i <= |s| && OccursAt(s, ".NOT", i);
      NothingElse(s, i);
      assert s[|a|] == c;
      if |a| >= i + 4 {
        assert a[i..i + 4] == s[i..i + 4];
        assert OccursAt(a, ".NOT", i);
      } else {
        var j := i - |a| - 1;
        assert b[j..j + 4] == s[i..i + 4];
        assert OccursAt(b, ".NOT", j);
      }
    }
    if Contains(a, ".NOT") {
      ContainsInside("", a, [c] + b);
      assert "" + a + ([c] + b) == s;
    }
    if Contains(b, ".NOT") {
      ContainsInside(a + [c], b, "");
      assert a + [c] + b + "" == s;
    }
  }

  lemma {:induction false} JoinedMentionsNot(fields: seq<string>)
    ensures Contains(Upper(Join(fields, " ")), ".NOT") <==> MentionsNot(fields)
  {
    if |fields| == 1 {
      assert Join(fields, " ") == fields[0];
    } else if |fields| > 1 {
      var tail := Join(fields[1..], " ");
      JoinedMentionsNot(fields[1..]);
      UpperAppend(fields[0] + " ", tail);
      UpperAppend(fields[0], " ");
      assert Upper(" ") == " ";
      ContainsAcross(Upper(fields[0]), ' ', Upper(tail));
      assert forall i | 1 <= i < |fields| :: fields[i] == fields[1..][i - 1];
      if MentionsNot(fields) {
        var i :| 0 <= i < |fields| && Contains(Upper(fields[i]), ".NOT");
        if i > 0 { assert Contains(Upper(fields[1..][i - 1]), ".NOT"); }
      }
      if MentionsNot(fields[1..]) {
        var i :| 0 <= i < |fields| - 1 && Contains(Upper(fields[1..][i]), ".NOT");
        assert Contains(Upper(fields[i + 1]), ".NOT");
      }
    }
  }

  lemma FieldListOf(prefix: string, list: string)
    requires '(' !in prefix
    ensures FieldList(prefix + "(" + list + ")") == Some(list)
  {
    var s := prefix + "(" + list + ")";
    assert s[|prefix|] == '(' && s[|s| - 1] == ')' && s[|prefix| + 1..|s| - 1] == list;
    assert forall i | 0 <= i < |prefix| :: s[i] == prefix[i];
    FindIs(s, '(', |prefix|);
    FindLastIs(s, ')', |s|);
  }

  lemma WordsMakeFields(fields: seq<string>)
    ensures Words(Join(fields, " ")) == fields <==> AreWords(fields)
  {
    if AreWords(fields) { WordsJoin(fields); }
    if Words(Join(fields, " ")) == fields {
      assert forall i | 0 <= i < |fields| :: fields[i] in fields;
    }
  }

  /** A `HEADER.FIELDS` section with spaces around it parses to its fields. */
  lemma ParseFields(negate: bool, fields: seq<string>, pad: string)
    requires pad == "" || pad == " "
    ensures ParseSection(FieldsPrefix(negate) + "(" + Join(fields, " ") + ")" + pad)
         == if negate || MentionsNot(fields)
            then HeaderFieldsNot(Words(Join(fields, " "))) else HeaderFields(Words(Join(fields, " ")))
  {
    var prefix := FieldsPrefix(negate);
    var list := Join(fields, " ");
    var s := prefix + "(" + list + ")";
    FieldListOf(prefix, list);
    FieldsUpper(negate, list);
    JoinedMentionsNot(fields);
    hide Join, Words, MentionsNot, Contains, FieldList, Upper, ParseSection;
    ParseListed(s, pad, list);
  }

  lemma ParseListed(s: string, pad: string, list: string)
    requires |s| > 6 && !IsWhitespace(s[0]) && !IsWhitespace(s[|s| - 1]) && (pad == "" || pad == " ")
    requires StartsWith(Upper(s), "HEADER.FIELDS") && FieldList(s) == Some(list)
    ensures ParseSection(s + pad) == if Contains(Upper(s), ".NOT") then HeaderFieldsNot(Words(list)) else HeaderFields(Words(list))
  {
    TrimPadded(s, pad);
    hide Words, Contains, FieldList, Trim, StartsWith;
    assert |Upper(s)| > 6;
  }

  lemma TrimPadded(s: string, pad: string)
    requires s != "" && !IsWhitespace(s[0]) && !IsWhitespace(s[|s| - 1]) && (pad == "" || pad == " ")
    ensures Trim(s + pad) == s
  {
    var t := s + pad;
    assert t[0] == s[0];
    if pad == " " {
      assert t[|t| - 1] == ' ' && t[..|t| - 1] == s;
      assert IsWhitespace(' ');
      assert TrimEnd(t) == TrimEnd(s);
    } else {
      assert t == s;
    }
  }

  lemma FieldsUpper(negate: bool, list: string)
    ensures StartsWith(Upper(FieldsPrefix(negate) + "(" + list + ")"), "HEADER.FIELDS")
    ensures Contains(Upper(FieldsPrefix(negate) + "(" + list + ")"), ".NOT") <==> negate || Contains(Upper(list), ".NOT")
  {
    hide FieldsPrefix, Upper, Contains;
    var prefix := FieldsPrefix(negate);
    PrefixFacts(negate);
    UpperAppend(prefix + "(" + list, ")");
    UpperAppend(prefix + "(", list);
    UpperAppend(prefix, "(");
    var u := Upper(list);
    ContainsAcross(prefix + "(" + u, ')', "");
    assert prefix + "(" + u + ")" == (prefix + "(" + u) + [')'] + "";
    assert (prefix + "(" + u + ")")[..13] == prefix[..13];
    ContainsAcross(prefix, '(', u);
    assert prefix + "(" + u == prefix + ['('] + u;
  }

  lemma PrefixFacts(negate: bool)
    ensures var prefix := FieldsPrefix(negate);
            && Upper(prefix) == prefix && StartsWith(prefix, "HEADER.FIELDS") && (Contains(prefix, ".NOT") <==> negate)
            && Upper("(") == "(" && Upper(")") == ")" && !Contains("", ".NOT")
  {
    var prefix := FieldsPrefix(negate);
    assert prefix[..13] == "HEADER.FIELDS";
    if negate {
      assert prefix[13..17] == ".NOT";
      assert OccursAt(prefix, ".NOT", 13);
    } else {
      forall i | 0 <= i <= |prefix| ensures !OccursAt(prefix, ".NOT", i) {
        if i <= 10 { assert prefix[i..i + 4][1] == prefix[i + 1] && ".NOT"[1] == 'N'; }
      }
    }
  }

  /** Parsing what stands between the brackets gives the section back exactly for the readable ones. */
  lemma ParseInnerExactly(s: Section)
    ensures ParseSection(Inner(s)) == s <==> Readable(s)
  {
    match s
    case HeaderFields(fields) => FieldsExactly(s);
    case HeaderFieldsNot(fields) => FieldsExactly(s);
    case Other(name) => OtherExactly(name);
    case _ => WordSection(s);
  }

  lemma FieldsExactly(s: Section)
    requires s.HeaderFields? || s.HeaderFieldsNot?
    ensures ParseSection(Inner(s)) == s <==> Readable(s)
  {
    hide ParseSection, Words, Join, MentionsNot, AreWords, FieldsPrefix;
    ParseFields(s.HeaderFieldsNot?, s.fields, "");
    assert Inner(s) + "" == Inner(s);
    WordsMakeFields(s.fields);
  }

  lemma WordSection(s: Section)
    requires s.NoBody? || s.Full? || s.Header? || s.TextPart? || s.Mime?
    ensures ParseSection(Inner(s)) == if s.NoBody? then Full else s
  {
    TrimNothing(Inner(s));
    assert Upper(Inner(s)) == Inner(s);
    hide Trim, Upper, FieldList, Words, Contains;
    if s.TextPart? { assert "TEXT"[0] == 'T'; }
    if s.Mime? { assert "MIME"[0] == 'M'; }
  }

  lemma OtherExactly(name: string)
    ensures ParseSection(name) == Other(name) <==> PlainOther(name)
  {
    hide Trim, Upper, FieldList, Words, Contains;
  }

  // ----------------------------------------------------- extracting a section

  /** `u8::is_ascii_whitespace`. */
  predicate AsciiSpace(c: char) {
    c == ' ' || c == '\t' || c == '\n' || c == '\U{0C}' || c == '\r'
  }

  predicate Boundary(s: string, i: nat)
    requires i <= |s|
  {
    i == 0 || AsciiSpace(s[i - 1]) || s[i - 1] == '(' || s[i - 1] == '['
  }

  predicate BodyAt(s: string, i: nat)
    requires i <= |s|
    ensures BodyAt(s, i) ==> i + 4 <= |s|
  {
    StartsWith(Upper(s[i..]), "BODY")
  }

  /** Where the brackets opened so far, `depth` of them, are closed. */
  function CloseOf(s: string, k: nat, depth: int): (r: Option<nat>)
    requires k <= |s|
    ensures r.Some? ==> k <= r.value < |s|
    decreases |s| - k
  {
    if k == |s| then None
    else if s[k] == '[' then CloseOf(s, k + 1, depth + 1)
    else if s[k] == ']' then
      if depth == 1 then Some(k) else CloseOf(s, k + 1, depth - 1)
    else CloseOf(s, k + 1, depth)
  }

  /** The brackets of a body item that begins at `i`. */
  function SectionAt(s: string, i: nat): (r: Option<(nat, nat)>)
    requires i <= |s|
    ensures r.Some? ==> i < r.value.0 < r.value.1 < |s|
  {
    if Boundary(s, i) && BodyAt(s, i) then
      var j := i + 4 + Find(s[i + 4..], '[');
      if j == |s| then None
      else
        match CloseOf(s, j, 0)
        case None => None
        case Some(k) => Some((j, k))
    else None
  }

  /** The first body item with closed brackets, and what is left without it. */
  function Extract(s: string, i: nat): (r: (string, Option<string>))
    requires i <= |s|
    decreases |s| - i
  {
    if i == |s| then (s, None)
    else
      match SectionAt(s, i)
      case None => Extract(s, i + 1)
      case Some((j, k)) => (s[..i] + s[k + 1..], Some(s[j + 1..k]))
  }

  /** `extract_body_section`: a loop over starting points, one to the opening bracket, one to the closing one. */
  method ExtractBodySection(items: string) returns (rest: string, section: Option<string>)
    ensures (rest, section) == Extract(items, 0)
  {
    hide SectionAt;
    var n := |items|;
    var i := 0;
    while i < n
      invariant 0 <= i <= n
      invariant Extract(items, 0) == Extract(items, i)
    {
      var found := BodyItemAt(items, i);
      if found.Some? {
        rest := items[..i] + items[found.value.1 + 1..];
        section := Some(items[found.value.0 + 1..found.value.1]);
        return;
      }
      i := i + 1;
    }
    rest, section := items, None;
  }

  method BodyItemAt(items: string, i: nat) returns (r: Option<(nat, nat)>)
    requires i < |items|
    ensures r == SectionAt(items, i)
  {
    hide BodyAt, Boundary, CloseOf;
    if Boundary(items, i) && BodyAt(items, i) {
      var j := OpeningBracket(items, i + 4);
      if j < |items| {
        var k, closed := ClosingBracket(items, j);
        return if closed then Some((j, k)) else None;
      }
    }
    return None;
  }

  method OpeningBracket(items: string, from: nat) returns (j: nat)
    requires from <= |items|
    ensures j == from + Find(items[from..], '[')
  {
    j := from;
    while j < |items| && items[j] != '['
      invariant from <= j <= |items|
      invariant forall x | from <= x < j :: items[x] != '['
    {
      j := j + 1;
    }
    FindIs(items[from..], '[', j - from);
  }

  method ClosingBracket(items: string, j: nat) returns (k: nat, closed: bool)
    requires j < |items| && items[j] == '['
    ensures closed <==> CloseOf(items, j, 0).Some?
    ensures closed ==> j < k < |items| && CloseOf(items, j, 0) == Some(k)
  {
    var depth: int := 0;
    k := j;
    while k < |items|
      invariant j <= k <= |items|
      invariant CloseOf(items, j, 0) == CloseOf(items, k, depth)
      invariant k == j ==> depth == 0
    {
      if items[k] == '[' {
        depth := depth + 1;
      } else if items[k] == ']' {
        depth := depth - 1;
        if depth == 0 {
          break;
        }
      }
      k := k + 1;
    }
    closed := k < |items| && depth == 0;
  }

  // ------------------------------------------------------- balanced brackets

  function BracketDepth(s: string): int {
    if s == "" then 0
    else
      var c := s[|s| - 1];
      BracketDepth(s[..|s| - 1]) + (if c == '[' then 1 else if c == ']' then -1 else 0)
  }

  ghost predicate BracketsMatch(s: string) {
    BracketDepth(s) == 0 && forall x | 0 <= x <= |s| :: BracketDepth(s[..x]) >= 0
  }

  lemma {:induction false} ClosesExactly(pre: string, inner: string, after: string, m: nat)
    requires m <= |inner| && BracketDepth(inner[..m]) >= 0
    ensures CloseOf(pre + inner + "]" + after, |pre| + m, 1 + BracketDepth(inner[..m])) == Some(|pre| + |inner|)
       <==> (BracketDepth(inner) == 0 && forall x | m <= x <= |inner| :: BracketDepth(inner[..x]) >= 0)
    decreases |inner| - m
  {
    var s := pre + inner + "]" + after;
    assert inner[..|inner|] == inner;
    if m == |inner| {
      assert s[|pre| + m] == ']';
    } else {
      assert s[|pre| + m] == inner[m];
      var next := inner[..m + 1];
      assert next[..m] == inner[..m] && next[m] == inner[m];
      if BracketDepth(next) >= 0 {
        ClosesExactly(pre, inner, after, m + 1);
      } else {
        assert CloseOf(s, |pre| + m, 1 + BracketDepth(inner[..m])) == Some(|pre| + m);
      }
    }
  }

  // ------------------------------------------------ where the section is found

  /** A body item: a mark such as `BODY` or `BODY.PEEK` in any case, and the section in brackets. */
  predicate IsMark(mark: string) {
    StartsWith(Upper(mark), "BODY") && '[' !in mark
  }

  function Item(mark: string, inner: string): string {
    mark + "[" + inner + "]"
  }

  lemma BodyAtItem(before: string, mark: string, tail: string)
    requires IsMark(mark)
    ensures BodyAt(before + mark + tail, |before|)
  {
    var s := before + mark + tail;
    assert s[|before|..] == mark + tail;
    UpperAppend(mark, tail);
    assert Upper(s[|before|..])[..4] == Upper(mark)[..4];
  }

  lemma OpenAtItem(before: string, mark: string, tail: string)
    requires IsMark(mark) && tail != "" && tail[0] == '['
    ensures |mark| >= 4
    ensures |before| + 4 + Find((before + mark + tail)[|before| + 4..], '[') == |before| + |mark|
  {
    var s := before + mark + tail;
    var r := s[|before| + 4..];
    assert |Upper(mark)| == |mark|;
    assert forall i | 0 <= i < |mark| - 4 :: r[i] == mark[i + 4];
    assert r[|mark| - 4] == '[';
    FindIs(r, '[', |mark| - 4);
  }

  lemma CloseAtItem(before: string, mark: string, inner: string, after: string)
    requires BracketsMatch(inner)
    ensures CloseOf(before + Item(mark, inner) + after, |before| + |mark|, 0) == Some(|before| + |mark| + 1 + |inner|)
  {
    var pre := before + mark + "[";
    var s := pre + inner + "]" + after;
    assert s == before + Item(mark, inner) + after;
    assert s[|before| + |mark|] == '[';
    assert inner[..0] == "";
    ClosesExactly(pre, inner, after, 0);
  }

  lemma SectionPlaced(before: string, mark: string, inner: string, after: string)
    requires IsMark(mark) && BracketsMatch(inner)
    ensures |before| <= |before + Item(mark, inner) + after|
    ensures Boundary(before + Item(mark, inner) + after, |before|) ==>
              SectionAt(before + Item(mark, inner) + after, |before|) == Some((|before| + |mark|, |before| + |mark| + 1 + |inner|))
  {
    hide BodyAt, Boundary, CloseOf, BracketsMatch, IsMark, Item, SectionAt;
    var s := before + Item(mark, inner) + after;
    var tail := "[" + inner + "]" + after;
    ItemShape(before, mark, inner, after);
    OpenAtItem(before, mark, tail);
    BodyAtItem(before, mark, tail);
    CloseAtItem(before, mark, inner, after);
    if Boundary(s, |before|) {
      SectionIs(s, |before|, |before| + |mark|, |before| + |mark| + 1 + |inner|);
    }
  }

  lemma ItemShape(before: string, mark: string, inner: string, after: string)
    ensures before + Item(mark, inner) + after == before + mark + ("[" + inner + "]" + after)
    ensures |Item(mark, inner)| == |mark| + |inner| + 2
  {
  }

  lemma SectionIs(s: string, i: nat, j: nat, k: nat)
    requires i <= |s| && Boundary(s, i) && BodyAt(s, i) && j < |s|
    requires i + 4 + Find(s[i + 4..], '[') == j && CloseOf(s, j, 0) == Some(k)
    ensures SectionAt(s, i) == Some((j, k))
  {
    hide BodyAt, Boundary, CloseOf;
  }

  lemma {:induction false} ExtractFrom(s: string, i: nat, k: nat)
    requires i <= k <= |s| && forall x | i <= x < k :: SectionAt(s, x).None?
    ensures Extract(s, i) == Extract(s, k)
    decreases k - i
  {
    hide SectionAt;
    if i < k { ExtractFrom(s, i + 1, k); }
  }

  lemma ExtractPlaced(before: string, mark: string, inner: string, after: string)
    requires IsMark(mark) && BracketsMatch(inner)
    requires Boundary(before + Item(mark, inner) + after, |before|)
    requires forall x | 0 <= x < |before| :: SectionAt(before + Item(mark, inner) + after, x).None?
    ensures Extract(before + Item(mark, inner) + after, 0) == (before + after, Some(inner))
  {
    var s := before + Item(mark, inner) + after;
    hide SectionAt, BracketsMatch, IsMark, Boundary, Item;
    SectionPlaced(before, mark, inner, after);
    ExtractFrom(s, 0, |before|);
    ItemSlices(before, mark, inner, after);
  }

  lemma ItemSlices(before: string, mark: string, inner: string, after: string)
    ensures var s := before + Item(mark, inner) + after;
            && |s| == |before| + |mark| + 2 + |inner| + |after| && s[..|before|] == before
            && s[|before| + |mark| + 1 + |inner| + 1..] == after
            && s[|before| + |mark| + 1..|before| + |mark| + 1 + |inner|] == inner
  {
  }

  lemma {:induction false} ExtractKeepsBefore(s: string, i: nat)
    requires i <= |s|
    ensures Extract(s, i).1.Some? ==> |Extract(s, i).0| >= i
    decreases |s| - i
  {
    hide SectionAt;
    if i < |s| && SectionAt(s, i).None? { ExtractKeepsBefore(s, i + 1); }
  }

  /** Printing and parsing: extracting the label of a section takes all of it and parsing gives the section back,
      if and only if the section is readable and its brackets match. */
  lemma LabelReadsBackExactly(section: Section)
    ensures (var (rest, inner) := Extract(Label(section), 0);
             rest == "" && inner.Some? && ParseSection(inner.value) == section)
       <==> Readable(section) && BracketsMatch(Inner(section))
  {
    var inner := Inner(section);
    ParseInnerExactly(section);
    LabelExtracts(inner);
    hide ParseSection, Readable, BracketsMatch, Inner, Extract;
  }

  lemma LabelExtracts(inner: string)
    ensures Extract("BODY[" + inner + "]", 0) == ("", Some(inner)) <==> BracketsMatch(inner)
    ensures Extract("BODY[" + inner + "]", 0).0 == "" ==> Extract("BODY[" + inner + "]", 0) == ("", Some(inner))
  {
    hide BracketsMatch, SectionAt, CloseOf;
    var s := "BODY[" + inner + "]";
    LabelSection(inner);
    LabelCloses(inner);
    var close := CloseOf(s, 4, 0);
    if close.None? {
      ExtractKeepsBefore(s, 1);
      LongRest(s);
    } else if close.value == |s| - 1 {
      assert s[5..|s| - 1] == inner && s[..0] + s[|s|..] == "";
    } else {
      assert |s[close.value + 1..]| > 0;
    }
  }

  lemma LabelSection(inner: string)
    ensures var s := "BODY[" + inner + "]";
            SectionAt(s, 0) == if CloseOf(s, 4, 0).Some? then Some((4, CloseOf(s, 4, 0).value)) else None
  {
    hide BodyAt, CloseOf, Upper, Item;
    var s, tail := "BODY[" + inner + "]", "[" + inner + "]";
    MarkBody();
    BodyAtItem("", "BODY", tail);
    OpenAtItem("", "BODY", tail);
    LabelShape(inner);
    assert Boundary(s, 0);
  }

  lemma LabelShape(inner: string)
    ensures "BODY[" + inner + "]" == "" + "BODY" + ("[" + inner + "]") && |"BODY[" + inner + "]"| == |inner| + 6
  {
    assert "BODY" + "[" == "BODY[";
  }

  lemma LabelCloses(inner: string)
    ensures CloseOf("BODY[" + inner + "]", 4, 0) == Some(5 + |inner|) <==> BracketsMatch(inner)
  {
    hide CloseOf, BracketsMatch;
    ClosesFrom("BODY[", inner);
  }

  lemma ClosesFrom(pre: string, inner: string)
    requires pre != "" && pre[|pre| - 1] == '['
    ensures CloseOf(pre + inner + "]", |pre| - 1, 0) == Some(|pre| + |inner|) <==> BracketsMatch(inner)
  {
    var s := pre + inner + "]";
    assert s == pre + inner + "]" + "";
    assert s[|pre| - 1] == '[';
    assert CloseOf(s, |pre| - 1, 0) == CloseOf(s, |pre|, 1);
    assert inner[..0] == "" && BracketDepth("") == 0;
    hide CloseOf, BracketDepth;
    ClosesExactly(pre, inner, "", 0);
  }

  /** When nothing was extracted at the start, something is left over. */
  lemma LongRest(s: string)
    requires |s| >= 1 && (Extract(s, 1).1.Some? ==> |Extract(s, 1).0| >= 1)
    ensures Extract(s, 1).0 != ""
  {
    NothingExtracted(s, 1);
    hide Extract;
  }

  lemma {:induction false} NothingExtracted(s: string, i: nat)
    requires i <= |s|
    ensures Extract(s, i).1.None? ==> Extract(s, i).0 == s
    decreases |s| - i
  {
    hide SectionAt;
    if i < |s| && SectionAt(s, i).None? { NothingExtracted(s, i + 1); }
  }

  // ------------------------------------------------- the other requested items

  /** Items written before the section, each followed by a space. */
  function Before(ws: seq<string>): string {
    if ws == [] then "" else Before(ws[..|ws| - 1]) + (ws[|ws| - 1] + " ")
  }

  predicate PlainWord(w: string) {
    IsWord(w) && '(' !in w && '[' !in w
  }

  predicate StartsBody(w: string) {
    StartsWith(Upper(w), "BODY")
  }

  /** How many items come before the first that starts with BODY. */
  function FirstBody(ws: seq<string>): (p: nat)
    ensures p <= |ws| && (forall i | 0 <= i < p :: !StartsBody(ws[i])) && (p < |ws| ==> StartsBody(ws[p]))
  {
    if ws == [] || StartsBody(ws[0]) then 0
    else
      assert forall i | 1 <= i < |ws| :: ws[i] == ws[1..][i - 1];
      1 + FirstBody(ws[1..])
  }

  lemma NotBodyHere(w: string, tail: string)
    requires !StartsBody(w)
    ensures !StartsWith(Upper(w + " " + tail), "BODY")
  {
    var s := w + " " + tail;
    if |w| >= 4 {
      assert Upper(s)[..4] == Upper(w)[..4];
    } else {
      assert s[|w|] == ' ';
      assert Upper(s)[|w|] == ' ' && "BODY"[|w|] != ' ';
      if |s| >= 4 { assert Upper(s)[..4][|w|] == ' '; }
    }
  }

  lemma InsideWord(before: string, w: string, tail: string, x: nat)
    requires PlainWord(w) && |before| < x <= |before| + |w|
    ensures !Boundary(before + w + tail, x)
  {
    assert (before + w + tail)[x - 1] == w[x - 1 - |before|];
  }

  /** None of the positions before the section begins a body item when none of the words does. */
  lemma {:induction false} NoBodyBefore(ws: seq<string>, tail: string, x: nat)
    requires (forall i | 0 <= i < |ws| :: PlainWord(ws[i]) && !StartsBody(ws[i])) && x < |Before(ws)|
    ensures SectionAt(Before(ws) + tail, x).None?
  {
    hide PlainWord, StartsBody, CloseOf;
    var start, w := Before(ws[..|ws| - 1]), ws[|ws| - 1];
    var s := Before(ws) + tail;
    assert s == start + (w + " " + tail);
    if x < |start| {
      NoBodyBefore(ws[..|ws| - 1], w + " " + tail, x);
    } else if x == |start| {
      NotBodyHere(w, tail);
      assert s[x..] == w + " " + tail;
    } else {
      InsideWord(start, w, " " + tail, x);
      assert s == start + w + (" " + tail);
    }
  }

  lemma {:induction false} BeforeSplits(ws: seq<string>, p: nat)
    requires p <= |ws|
    ensures Before(ws) == Before(ws[..p]) + Before(ws[p..])
  {
    if p < |ws| {
      var init := ws[..|ws| - 1];
      BeforeSplits(init, p);
      assert init[..p] == ws[..p] && init[p..] == ws[p..][..|ws| - p - 1];
      assert ws[p..][|ws| - p - 1] == ws[|ws| - 1];
    } else {
      assert ws[..p] == ws;
    }
  }

  lemma {:induction false} BeforeIsMark(ws: seq<string>, mark: string)
    requires (forall i | 0 <= i < |ws| :: PlainWord(ws[i])) && IsMark(mark) && (ws != [] ==> StartsBody(ws[0]))
    ensures IsMark(Before(ws) + mark)
  {
    if ws != [] {
      var w := ws[0];
      var tail := Before(ws[1..]) + mark;
      BeforeSplits(ws, 1);
      assert ws[..1] == [w] && [w][..0] == [];
      assert Before([w]) == w + " ";
      assert Before(ws) + mark == w + (" " + tail);
      NoBracketBefore(ws);
      hide Before, PlainWord;
      BodyFirst(w, " " + tail);
    } else {
      assert Before(ws) + mark == mark;
    }
  }

  lemma BodyFirst(w: string, tail: string)
    requires StartsBody(w)
    ensures StartsWith(Upper(w + tail), "BODY")
  {
    UpperAppend(w, tail);
    hide Upper;
    assert Upper(w + tail)[..4] == Upper(w)[..4];
  }

  lemma {:induction false} NoBracketBefore(ws: seq<string>)
    requires forall i | 0 <= i < |ws| :: PlainWord(ws[i])
    ensures '[' !in Before(ws)
  {
    if ws != [] { NoBracketBefore(ws[..|ws| - 1]); }
  }

  /** Extraction with items on both sides: the section is found, and what is lost with it is exactly the items from
      the first one that starts with BODY. */
  lemma ExtractAmongItems(ws: seq<string>, mark: string, inner: string, after: string)
    requires (forall i | 0 <= i < |ws| :: PlainWord(ws[i])) && IsMark(mark) && BracketsMatch(inner)
    ensures Extract(Before(ws) + Item(mark, inner) + after, 0) == (Before(ws[..FirstBody(ws)]) + after, Some(inner))
  {
    hide PlainWord, StartsBody, BracketsMatch, IsMark, Extract, SectionAt, Before;
    var p := FirstBody(ws);
    var before, mark' := Before(ws[..p]), Before(ws[p..]) + mark;
    BeforeSplits(ws, p);
    BeforeIsMark(ws[p..], mark);
    var s := Before(ws) + Item(mark, inner) + after;
    assert s == before + Item(mark', inner) + after;
    forall x | 0 <= x < |before| ensures SectionAt(s, x).None? {
      NoBodyBefore(ws[..p], Item(mark', inner) + after, x);
      assert s == before + (Item(mark', inner) + after);
    }
    BeforeEnds(ws[..p], Item(mark', inner) + after);
    assert s == before + (Item(mark', inner) + after);
    ExtractPlaced(before, mark', inner, after);
  }

  lemma BeforeEnds(ws: seq<string>, tail: string)
    ensures Boundary(Before(ws) + tail, |Before(ws)|)
  {
    if ws != [] {
      assert Before(ws)[|Before(ws)| - 1] == ' ';
    }
  }

  lemma {:induction false} WordsBefore(ws: seq<string>, after: string)
    requires forall i | 0 <= i < |ws| :: IsWord(ws[i])
    ensures Words(Before(ws) + after) == ws + Words(after)
  {
    hide Words, IsWord;
    if ws == [] {
      assert "" + after == after && [] + Words(after) == Words(after);
    } else {
      var init, w := ws[..|ws| - 1], ws[|ws| - 1];
      assert Before(ws) + after == Before(init) + Sp(w, after);
      WordsBefore(init, Sp(w, after));
      WordsSp(w, after);
      assert ws == init + [w];
    }
  }

  // ------------------------------------------------------------------ requests

  datatype Request = Request(flags: bool, uid: bool, size: bool, internaldate: bool, envelope: bool, bodystructure: bool, body: Section)

  predicate Asks(words: seq<string>, name: string) {
    exists i | 0 <= i < |words| :: Upper(words[i]) == name
  }

  function RequestOf(words: seq<string>, body: Section): Request {
    var trio := !body.NoBody?;
    Request(Asks(words, "FLAGS") || trio, Asks(words, "UID") || trio, Asks(words, "RFC822.SIZE") || trio,
            Asks(words, "INTERNALDATE"), Asks(words, "ENVELOPE"), Asks(words, "BODYSTRUCTURE"), body)
  }

  /** The items without the parentheses around the whole list. */
  function Unwrapped(items: string): string {
    var inner := Trim(items);
    if |inner| > 1 && inner[0] == '(' && inner[|inner| - 1] == ')' then inner[1..|inner| - 1] else inner
  }

  function BodyOf(section: Option<string>): Section {
    if section.Some? then ParseSection(section.value) else NoBody
  }

  function RequestIn(inner: string): Request {
    var upper := Upper(inner);
    if upper == "" || upper == "*" then Request(true, true, true, true, true, true, Full)
    else if upper == "ALL" || upper == "FULL" then Request(true, false, true, true, true, false, Full)
    else if upper == "FAST" then Request(true, false, true, true, false, false, NoBody)
    else
      var (rest, section) := Extract(inner, 0);
      RequestOf(Words(rest), BodyOf(section))
  }

  function RequestFor(items: string): Request {
    RequestIn(Unwrapped(items))
  }

  /** What the items of a list ask for, each by its own name in any case of letters; with a section, flags, UID and size are
      always told. */
  lemma ItemsAsk(words: seq<string>, body: Section)
    ensures var req := RequestOf(words, body);
            && req.body == body
            && (req.flags <==> !body.NoBody? || exists i | 0 <= i < |words| :: Upper(words[i]) == "FLAGS")
            && (req.uid <==> !body.NoBody? || exists i | 0 <= i < |words| :: Upper(words[i]) == "UID")
            && (req.size <==> !body.NoBody? || exists i | 0 <= i < |words| :: Upper(words[i]) == "RFC822.SIZE")
            && (req.internaldate <==> exists i | 0 <= i < |words| :: Upper(words[i]) == "INTERNALDATE")
            && (req.envelope <==> exists i | 0 <= i < |words| :: Upper(words[i]) == "ENVELOPE")
            && (req.bodystructure <==> exists i | 0 <= i < |words| :: Upper(words[i]) == "BODYSTRUCTURE")
  {
    hide Upper;
  }

  /** The macros, in any case of letters, with spaces or parentheses around them: FAST asks for flags, size and date; ALL and FULL
      for the envelope and the whole message as well; nothing, or a star, for everything. */
  lemma MacrosAsk(items: string, name: string)
    requires Upper(name) == "FAST" || Upper(name) == "ALL" || Upper(name) == "FULL" || name == "*" || name == ""
    requires Trim(items) == name || (Trim(items) == "(" + name + ")" && name != "")
    ensures var req := RequestFor(items);
            if Upper(name) == "FAST" then req == Request(true, false, true, true, false, false, NoBody)
            else if name == "*" || name == "" then req == Request(true, true, true, true, true, true, Full)
            else req == Request(true, false, true, true, true, false, Full)
  {
    hide Extract, Trim, Words;
    if Trim(items) == name {
      if name != "" { assert Upper(name)[0] == UpperChar(name[0]); }
    } else {
      assert Trim(items)[1..|Trim(items)| - 1] == name;
    }
    assert |"FAST"| == 4 && |"FULL"| == 4 && |"ALL"| == 3 && |"*"| == 1 && "FAST"[1] != "FULL"[1];
    assert Upper("*") == "*" && Upper("") == "";
  }

  /** `parse_fetch_items`: the macros, or the section taken out and then the loop over the other items. */
  method ParseFetchItems(items: string) returns (req: Request)
    ensures req == RequestFor(items)
  {
    hide Extract, Trim, Words, ParseSection, Asks;
    var inner := Unwrapped(items);
    var upper := Upper(inner);
    if upper == "" || upper == "*" { return Request(true, true, true, true, true, true, Full); }
    if upper == "ALL" || upper == "FULL" { return Request(true, false, true, true, true, false, Full); }
    if upper == "FAST" { return Request(true, false, true, true, false, false, NoBody); }
    var rest, section := ExtractBodySection(inner);
    req := MarkItems(Words(rest), BodyOf(section));
  }

  method MarkItems(words: seq<string>, body: Section) returns (req: Request)
    ensures req == RequestOf(words, body)
  {
    hide Asks, Upper;
    NothingAsked(body);
    req := Request(false, false, false, false, false, false, body);
    for i := 0 to |words|
      invariant req == Asked(words[..i], body)
    {
      AskedNext(words, i, body);
      var item := Upper(words[i]);
      if item == "FLAGS" {
        req := req.(flags := true);
      } else if item == "UID" {
        req := req.(uid := true);
      } else if item == "RFC822.SIZE" {
        req := req.(size := true);
      } else if item == "INTERNALDATE" {
        req := req.(internaldate := true);
      } else if item == "ENVELOPE" {
        req := req.(envelope := true);
      } else if item == "BODYSTRUCTURE" {
        req := req.(bodystructure := true);
      }
    }
    assert words[..|words|] == words;
    if !body.NoBody? {
      req := req.(flags := true, uid := true, size := true);
    }
  }

  function Asked(words: seq<string>, body: Section): Request {
    Request(Asks(words, "FLAGS"), Asks(words, "UID"), Asks(words, "RFC822.SIZE"),
            Asks(words, "INTERNALDATE"), Asks(words, "ENVELOPE"), Asks(words, "BODYSTRUCTURE"), body)
  }

  lemma NothingAsked(body: Section)
    ensures Asked([], body) == Request(false, false, false, false, false, false, body)
  {
  }

  lemma AsksNext(words: seq<string>, i: nat, name: string)
    requires i < |words|
    ensures Asks(words[..i + 1], name) <==> Asks(words[..i], name) || Upper(words[i]) == name
  {
    hide Upper;
    var now, was := words[..i + 1], words[..i];
    assert now[i] == words[i] && forall k | 0 <= k < i :: now[k] == was[k];
  }

  lemma AskedNext(words: seq<string>, i: nat, body: Section)
    requires i < |words|
    ensures Asked(words[..i + 1], body).flags == (Asked(words[..i], body).flags || Upper(words[i]) == "FLAGS")
    ensures Asked(words[..i + 1], body).uid == (Asked(words[..i], body).uid || Upper(words[i]) == "UID")
    ensures Asked(words[..i + 1], body).size == (Asked(words[..i], body).size || Upper(words[i]) == "RFC822.SIZE")
    ensures Asked(words[..i + 1], body).internaldate == (Asked(words[..i], body).internaldate || Upper(words[i]) == "INTERNALDATE")
    ensures Asked(words[..i + 1], body).envelope == (Asked(words[..i], body).envelope || Upper(words[i]) == "ENVELOPE")
    ensures Asked(words[..i + 1], body).bodystructure == (Asked(words[..i], body).bodystructure || Upper(words[i]) == "BODYSTRUCTURE")
  {
    hide Upper, Asks;
    AsksNext(words, i, "FLAGS");
    AsksNext(words, i, "UID");
    AsksNext(words, i, "RFC822.SIZE");
    AsksNext(words, i, "INTERNALDATE");
    AsksNext(words, i, "ENVELOPE");
    AsksNext(words, i, "BODYSTRUCTURE");
  }

  lemma UnwrapList(s: string)
    ensures Unwrapped("(" + s + ")") == s
  {
    var w := "(" + s + ")";
    assert w[0] == '(' && w[|w| - 1] == ')';
    TrimNothing(w);
    hide Trim;
    assert w[1..|w| - 1] == s;
  }

  /** A FETCH list with a body section: the section is the one written, the trio that goes with a body is on, and the
      other items asked for are those of the list except the ones from the first earlier item that starts with BODY
      up to the section. */
  lemma RequestAmongItems(ws: seq<string>, mark: string, inner: string, after: string)
    requires (forall i | 0 <= i < |ws| :: PlainWord(ws[i])) && IsMark(mark) && BracketsMatch(inner)
    ensures RequestFor("(" + (Before(ws) + Item(mark, inner) + after) + ")")
         == RequestOf(ws[..FirstBody(ws)] + Words(after), ParseSection(inner))
  {
    var s := Before(ws) + Item(mark, inner) + after;
    assert s == (Before(ws) + mark) + "[" + (inner + "]" + after);
    hide Extract, BracketsMatch, IsMark, Before, Item, Words, ParseSection, Unwrapped, RequestOf, RequestIn;
    UnwrapList(s);
    ExtractAmongItems(ws, mark, inner, after);
    RequestWith(Before(ws) + mark, inner + "]" + after, Before(ws[..FirstBody(ws)]) + after, inner);
    WordsBefore(ws[..FirstBody(ws)], after);
  }

  lemma RequestWith(a: string, b: string, rest: string, inner: string)
    requires Extract(a + "[" + b, 0) == (rest, Some(inner))
    ensures RequestIn(a + "[" + b) == RequestOf(Words(rest), ParseSection(inner))
  {
    NotAMacro(a, b);
    hide Extract, Upper, Words, ParseSection, RequestOf;
  }

  lemma NotAMacro(a: string, b: string)
    ensures var u := Upper(a + "[" + b); u != "" && u != "*" && u != "ALL" && u != "FULL" && u != "FAST"
  {
    var s := a + "[" + b;
    assert s[|a|] == '[' && Upper(s)[|a|] == '[';
  }

  lemma AsksEither(xs: seq<string>, ys: seq<string>, name: string)
    ensures Asks(xs + ys, name) <==> Asks(xs, name) || Asks(ys, name)
  {
    hide Upper;
    var all := xs + ys;
    if Asks(xs, name) {
      var i :| 0 <= i < |xs| && Upper(xs[i]) == name;
      assert Upper(all[i]) == name;
    }
    if Asks(ys, name) {
      var i :| 0 <= i < |ys| && Upper(ys[i]) == name;
      assert Upper(all[|xs| + i]) == name;
    }
  }

  /** An item among the lost ones is asked for among the kept ones as well. */
  predicate Spared(lost: seq<string>, kept: seq<string>, name: string) {
    Asks(lost, name) ==> Asks(kept, name)
  }

  /** The request of a FETCH list with a section is the one its items ask for, if and only if each of the items lost to
      an earlier one that starts with BODY is asked for elsewhere in the list, is one of the trio, or is no item. */
  lemma RecognisedExactly(ws: seq<string>, mark: string, inner: string, after: string)
    requires (forall i | 0 <= i < |ws| :: PlainWord(ws[i])) && IsMark(mark) && BracketsMatch(inner)
    ensures var lost, kept := ws[FirstBody(ws)..], ws[..FirstBody(ws)] + Words(after);
            RequestFor("(" + (Before(ws) + Item(mark, inner) + after) + ")") == RequestOf(ws + Words(after), ParseSection(inner))
            <==> Spared(lost, kept, "INTERNALDATE") && Spared(lost, kept, "ENVELOPE") && Spared(lost, kept, "BODYSTRUCTURE")
    ensures (forall i | 0 <= i < |ws| :: !StartsBody(ws[i])) ==>
              RequestFor("(" + (Before(ws) + Item(mark, inner) + after) + ")") == RequestOf(ws + Words(after), ParseSection(inner))
  {
    hide PlainWord, IsMark, BracketsMatch, RequestFor, Before, Item, Words, StartsBody, Asks, ParseSection;
    RequestAmongItems(ws, mark, inner, after);
    SomeSection(inner);
    var p := FirstBody(ws);
    AskedAmong(ws, p, Words(after), "INTERNALDATE");
    AskedAmong(ws, p, Words(after), "ENVELOPE");
    AskedAmong(ws, p, Words(after), "BODYSTRUCTURE");
    if forall i | 0 <= i < |ws| :: !StartsBody(ws[i]) {
      assert ws[..p] == ws;
    }
  }

  lemma SomeSection(inner: string)
    ensures !ParseSection(inner).NoBody?
  {
    hide Trim, Upper, FieldList, Words, Contains, StartsWith;
  }

  /** The whole list asks for what its kept and its lost items ask for. */
  lemma AskedAmong(ws: seq<string>, p: nat, others: seq<string>, name: string)
    requires p <= |ws|
    ensures Asks(ws + others, name) <==> Asks(ws[..p] + others, name) || Asks(ws[p..], name)
  {
    hide Asks;
    AsksEither(ws, others, name);
    AsksEither(ws[..p], ws[p..], name);
    AsksEither(ws[..p], others, name);
    assert ws == ws[..p] + ws[p..];
  }

  /** `BODYSTRUCTURE` asked for before a section is lost; asked for after it, it is not. */
  lemma BodystructureOrder()
    ensures !RequestFor("(" + (Before(["BODYSTRUCTURE"]) + Item("BODY", "TEXT") + "") + ")").bodystructure
    ensures RequestFor("(" + (Before([]) + Item("BODY", "TEXT") + " BODYSTRUCTURE") + ")").bodystructure
  {
    hide RequestFor, Before, Item, ParseSection, BracketsMatch, Words;
    BracketFree("TEXT");
    UppercaseBody();
    RequestAmongItems(["BODYSTRUCTURE"], "BODY", "TEXT", "");
    RequestAmongItems([], "BODY", "TEXT", " BODYSTRUCTURE");
    BodystructureWord();
    assert Asks(["BODYSTRUCTURE"], "BODYSTRUCTURE") by { assert Upper(["BODYSTRUCTURE"][0]) == "BODYSTRUCTURE"; }
    assert [] + ["BODYSTRUCTURE"] == ["BODYSTRUCTURE"];
    assert ["BODYSTRUCTURE"][..0] + [] == [];
  }

  lemma BodystructureWord()
    ensures Words(" BODYSTRUCTURE") == ["BODYSTRUCTURE"] && Words("") == []
  {
    WordsOfWord("BODYSTRUCTURE", "");
    assert "BODYSTRUCTURE" + "" == "BODYSTRUCTURE" && " BODYSTRUCTURE"[1..] == "BODYSTRUCTURE";
  }

  lemma UppercaseBody()
    ensures IsMark("BODY") && PlainWord("BODYSTRUCTURE") && FirstBody(["BODYSTRUCTURE"]) == 0 && Upper("BODYSTRUCTURE") == "BODYSTRUCTURE"
  {
    assert Upper("BODY") == "BODY" && Upper("BODYSTRUCTURE") == "BODYSTRUCTURE";
    assert StartsBody(["BODYSTRUCTURE"][0]);
  }

  lemma {:induction false} BracketFree(s: string)
    requires '[' !in s && ']' !in s
    ensures BracketsMatch(s)
  {
    forall x | 0 <= x <= |s| ensures BracketDepth(s[..x]) == 0 { FlatDepth(s[..x]); }
    assert s[..|s|] == s;
  }

  lemma {:induction false} FlatDepth(s: string)
    requires '[' !in s && ']' !in s
    ensures BracketDepth(s) == 0
  {
    if s != "" { FlatDepth(s[..|s| - 1]); }
  }

  // -------------------------------------------------- through the tokenizer

  predicate HasList(s: Section) {
    s.HeaderFields? || s.HeaderFieldsNot?
  }

  function ListHead(negate: bool): string {
    if negate then "BODY[HEADER.FIELDS.NOT" else "BODY[HEADER.FIELDS"
  }

  /** The tokens a label is cut into: a list of header fields stands alone. */
  function LabelTokens(s: Section): seq<string> {
    if HasList(s) then [ListHead(s.HeaderFieldsNot?), "(" + Join(s.fields, " ") + ")", "]"] else [Label(s)]
  }

  predicate AreAtoms(fields: seq<string>) {
    forall i | 0 <= i < |fields| :: IsAtom(fields[i])
  }

  predicate AtomSection(s: Section) {
    match s
    case HeaderFields(fields) => AreAtoms(fields)
    case HeaderFieldsNot(fields) => AreAtoms(fields)
    case Other(name) => IsAtom(name)
    case _ => true
  }

  predicate ParenFree(s: string) {
    forall i | 0 <= i < |s| :: s[i] != '(' && s[i] != ')'
  }

  lemma {:induction false} JoinedParenFree(fields: seq<string>)
    requires AreAtoms(fields)
    ensures ParenFree(Join(fields, " "))
  {
    if |fields| == 1 {
      assert IsAtom(fields[0]);
    } else if |fields| > 1 {
      assert IsAtom(fields[0]);
      JoinedParenFree(fields[1..]);
    }
  }

  lemma {:induction false} FlatList(list: string, tail: string)
    requires ParenFree(list)
    ensures ListLen(list + ")" + tail, 1) == Some(|list| + 1)
  {
    var s := list + ")" + tail;
    if list == "" {
      assert s[0] == ')';
    } else {
      assert s[0] == list[0] && s[1..] == list[1..] + ")" + tail;
      FlatList(list[1..], tail);
    }
  }

  lemma ListIsOneToken(list: string, tail: string)
    requires ParenFree(list)
    ensures TokensOf("(" + list + ")" + tail) == Prepend("(" + list + ")", TokensOf(tail))
  {
    var s := "(" + list + ")" + tail;
    var n := |list| + 2;
    assert s[1..] == list + ")" + tail;
    FlatList(list, tail);
    assert s[..n] == "(" + list + ")" && s[n..] == tail;
    hide ListLen;
    assert StepOf(s) == Token(s[..n], n);
  }

  lemma SkipSpace(tail: string)
    ensures TokensOf(" " + tail) == TokensOf(tail)
  {
    assert (" " + tail)[1..] == tail;
  }

  lemma HeadIsAtom(negate: bool)
    ensures IsAtom(ListHead(negate)) && IsAtom("]")
  {
  }

  lemma ListLabelTokens(negate: bool, list: string, tail: string)
    requires ParenFree(list) && (tail == "" || IsWhitespace(tail[0]))
    ensures TokensOf(ListHead(negate) + (" " + ("(" + list + ")" + ("]" + tail))))
         == PrependAll([ListHead(negate), "(" + list + ")", "]"], TokensOf(tail))
  {
    hide TokensOf, ListHead, AtomLen;
    HeadIsAtom(negate);
    var third := "]" + tail;
    AtomIsOneToken("]", tail);
    ListIsOneToken(list, third);
    SkipSpace("(" + list + ")" + third);
    AtomIsOneToken(ListHead(negate), " " + ("(" + list + ")" + third));
  }

  lemma AtomLabel(s: Section)
    requires AtomSection(s) && !HasList(s)
    ensures IsAtom(Label(s))
  {
    var l := Label(s);
    var inner := Inner(s);
    forall i | 0 <= i < |l| ensures AtomChar(l[i]) {
      if 5 <= i < |l| - 1 { assert l[i] == inner[i - 5]; }
    }
  }

  lemma HeadIs(negate: bool)
    ensures ListHead(negate) + " " == "BODY[" + FieldsPrefix(negate)
  {
  }

  lemma ListLabelIs(negate: bool, list: string, pad: string, tail: string)
    ensures "BODY[" + (FieldsPrefix(negate) + "(" + list + ")" + pad) + "]" + tail
         == ListHead(negate) + (" " + ("(" + list + ")" + (pad + "]" + tail)))
  {
    HeadIs(negate);
    hide ListHead, FieldsPrefix;
    var h, p := ListHead(negate), FieldsPrefix(negate);
    var rest := "(" + list + ")" + (pad + "]" + tail);
    assert "BODY[" + (p + "(" + list + ")" + pad) + "]" + tail == ("BODY[" + p) + rest;
    assert h + (" " + rest) == (h + " ") + rest;
  }

  /** The tokenizer cuts a label, with whatever follows it, into these tokens. */
  lemma LabelTokenizes(s: Section, tail: string)
    requires AtomSection(s) && (tail == "" || IsWhitespace(tail[0]))
    ensures TokensOf(Label(s) + tail) == PrependAll(LabelTokens(s), TokensOf(tail))
  {
    hide TokensOf, Join;
    if HasList(s) {
      var list := Join(s.fields, " ");
      JoinedParenFree(s.fields);
      ListLabelTokens(s.HeaderFieldsNot?, list, tail);
      ListLabelIs(s.HeaderFieldsNot?, list, "", tail);
      hide ListHead, FieldsPrefix;
      assert "" + "]" + tail == "]" + tail && Inner(s) + "" == Inner(s);
    } else {
      AtomLabel(s);
      AtomIsOneToken(Label(s), tail);
    }
  }

  /** What follows the label when the tokens are joined again. */
  function JoinedAfter(ts: seq<string>): string {
    if ts == [] then "" else " " + Join(ts, " ")
  }

  function Pad(s: Section): string {
    if HasList(s) then " " else ""
  }

  lemma JoinCons(t: string, ts: seq<string>)
    ensures Join([t] + ts, " ") == t + JoinedAfter(ts)
  {
    assert ([t] + ts)[1..] == ts;
    if ts == [] { assert t + "" == t; }
  }

  lemma RejoinedIs(s: Section, ts: seq<string>)
    ensures Join(LabelTokens(s) + ts, " ") == Item("BODY", Inner(s) + Pad(s)) + JoinedAfter(ts)
  {
    if HasList(s) {
      hide Join, LabelTokens, Item, Inner, JoinedAfter, Pad;
      RejoinedList(s, ts);
    } else {
      hide Join, Inner, JoinedAfter, Item;
      JoinCons(Label(s), ts);
      assert Inner(s) + Pad(s) == Inner(s);
      ItemIs(Inner(s), JoinedAfter(ts));
    }
  }

  lemma RejoinedList(s: Section, ts: seq<string>)
    requires HasList(s)
    ensures Join(LabelTokens(s) + ts, " ") == Item("BODY", Inner(s) + Pad(s)) + JoinedAfter(ts)
  {
    hide Join, ListHead, FieldsPrefix, JoinedAfter;
    var negate, list := s.HeaderFieldsNot?, Join(s.fields, " ");
    JoinThree(ListHead(negate), "(" + list + ")", ts);
    ListLabelIs(negate, list, " ", JoinedAfter(ts));
    assert Inner(s) + Pad(s) == FieldsPrefix(negate) + "(" + list + ")" + " ";
    ItemIs(Inner(s) + Pad(s), JoinedAfter(ts));
  }

  lemma ItemIs(inner: string, tail: string)
    ensures Item("BODY", inner) + tail == "BODY[" + inner + "]" + tail
  {
    assert "BODY" + "[" == "BODY[";
  }

  lemma JoinThree(a: string, b: string, ts: seq<string>)
    ensures Join([a, b, "]"] + ts, " ") == a + (" " + (b + (" " + "]" + JoinedAfter(ts))))
  {
    hide Join;
    JoinCons(a, [b, "]"] + ts);
    JoinCons(b, ["]"] + ts);
    JoinCons("]", ts);
    assert [a, b, "]"] + ts == [a] + ([b, "]"] + ts) && [b, "]"] + ts == [b] + (["]"] + ts);
    var after := JoinedAfter(ts);
    assert JoinedAfter(["]"] + ts) == " " + ("]" + after) && JoinedAfter([b, "]"] + ts) == " " + (b + (" " + ("]" + after)));
    hide JoinedAfter;
    assert " " + ("]" + after) == " " + "]" + after;
  }

  lemma PadMatches(s: string, pad: string)
    requires BracketsMatch(s) && (pad == "" || pad == " ")
    ensures BracketsMatch(s + pad)
  {
    var t := s + pad;
    if pad == "" {
      assert t == s;
    } else {
      assert t[..|s|] == s;
      forall x | 0 <= x <= |t| ensures BracketDepth(t[..x]) >= 0 {
        if x <= |s| { assert t[..x] == s[..x]; } else { assert t[..x] == t; }
      }
    }
  }

  lemma PaddedParses(s: Section)
    requires Readable(s)
    ensures ParseSection(Inner(s) + Pad(s)) == s
  {
    hide ParseSection, Words, Join, MentionsNot, FieldsPrefix;
    if HasList(s) {
      ParseFields(s.HeaderFieldsNot?, s.fields, " ");
      WordsMakeFields(s.fields);
    } else {
      ParseInnerExactly(s);
      assert Inner(s) + "" == Inner(s);
    }
  }

  /** A label sent outside a list is cut at its field list and joined again with spaces; extracting and parsing that
      still gives the section, takes all of it, and leaves what followed. */
  lemma RejoinedReadsBack(s: Section, ts: seq<string>)
    requires Readable(s) && BracketsMatch(Inner(s))
    ensures (var (rest, inner) := Extract(Join(LabelTokens(s) + ts, " "), 0);
             rest == JoinedAfter(ts) && inner.Some? && ParseSection(inner.value) == s)
  {
    var inner, after := Inner(s) + Pad(s), JoinedAfter(ts);
    hide Readable, BracketsMatch, Join, Inner, Extract, ParseSection, Item, JoinedAfter;
    RejoinedIs(s, ts);
    PadMatches(Inner(s), Pad(s));
    PaddedParses(s);
    MarkBody();
    ExtractPlacedFirst(inner, after);
  }

  lemma MarkBody()
    ensures IsMark("BODY")
  {
    assert Upper("BODY") == "BODY";
  }

  lemma ExtractPlacedFirst(inner: string, after: string)
    requires BracketsMatch(inner)
    ensures Extract(Item("BODY", inner) + after, 0) == (after, Some(inner))
  {
    hide BracketsMatch, Extract, Item, SectionAt;
    MarkBody();
    assert "" + Item("BODY", inner) + after == Item("BODY", inner) + after;
    ExtractPlaced("", "BODY", inner, after);
    assert "" + after == after;
  }
}
