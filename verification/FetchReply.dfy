/** What FETCH writes for a message, and the client that reads it back. */
module FetchReply {
  import opened Utf8
  import opened Text
  import opened MailStore
  import opened Listing
  import opened FetchItems
  import T = ImapTokens
  import R = ImapReader

  /** Date formatting belongs to a library; any functions will do. */
  datatype Formats = Formats(internalDate: int -> string, mailDate: int -> string)

  datatype Identity = Identity(from: string, to: string)

  const CRLF: string := "\r\n"

  function Untagged(text: string): string {
    "* " + text + CRLF
  }

  // ---------------------------------------------------------------- metadata

  function Named(flags: bv32, bit: bv32, name: string): seq<string> {
    if flags & bit != 0 then [name] else []
  }

  function FlagNames(flags: bv32): seq<string> {
    Named(flags, SEEN, "\\Seen") + Named(flags, ANSWERED, "\\Answered")
    + Named(flags, FLAGGED, "\\Flagged") + Named(flags, DELETED, "\\Deleted")
  }

  /** `flags_display`. */
  function FlagsDisplay(flags: bv32): string {
    Join(FlagNames(flags), " ")
  }

  function AddressGroup(s: string): string {
    if s == "" || s == "(unknown sender)" || s == "(unknown recipient)" then "NIL"
    else
      match CutLast(s, '@')
      case Some((local, host)) => "((" + T.Quote(local) + " NIL " + T.Quote(local) + " " + T.Quote(host) + "))"
      case None => "((" + T.Quote(s) + " NIL NIL NIL))"
  }

  function Envelope(m: Meta, id: Identity, f: Formats): string {
    var from, to := AddressGroup(id.from), AddressGroup(id.to);
    Join([f.mailDate(m.internaldate), T.Quote(m.subject), from, from, from, to, "NIL NIL NIL", T.Quote(m.messageId)], " ")
  }

  function LineFeeds(b: Bytes): nat {
    if b == [] then 0 else LineFeeds(b[..|b| - 1]) + (if b[|b| - 1] == LF then 1 else 0)
  }

  function If(asked: bool, text: string): seq<string> {
    if asked then [text] else []
  }

  const HTML: string := "(\"text\" \"html\" "
  const NILS: string := "NIL NIL NIL NIL "

  function Structure(size: nat, lines: nat): string {
    "BODYSTRUCTURE " + HTML + NILS + ToDecimal(size) + " " + ToDecimal(lines) + ")"
  }

  function FlagsPart(flags: bv32): string { "FLAGS (" + FlagsDisplay(flags) + ")" }
  function UidPart(uid: nat): string { "UID " + ToDecimal(uid) }
  function SizePart(size: nat): string { "RFC822.SIZE " + ToDecimal(size) }
  function DatePart(date: string): string { "INTERNALDATE \"" + date + "\"" }
  function EnvelopePart(envelope: string): string { "ENVELOPE (" + envelope + ")" }

  function Parts(m: Meta, req: Request, body: Bytes, id: Identity, f: Formats): seq<string> {
    If(req.flags, FlagsPart(m.flags))
    + If(req.uid, UidPart(m.uid))
    + If(req.size, SizePart(m.size))
    + If(req.internaldate, DatePart(f.internalDate(m.internaldate)))
    + If(req.envelope, EnvelopePart(Envelope(m, id, f)))
    + If(req.bodystructure, Structure(m.size, if body == [] then 1 else LineFeeds(body) + 1))
  }

  // ----------------------------------------------------------------- contents

  function StateWord(s: TxState): string {
    match s
    case Opaque => "opaque"
    case Resolved => "resolved"
    case Spent => "spent"
    case Sent => "sent"
    case Failed => "failed"
    case Retrying => "retrying"
  }

  function OrElse(s: string, default: string): string {
    if s == "" then default else s
  }

  function HeaderFieldsOf(m: Meta, id: Identity, f: Formats): seq<(string, string)> {
    var from, to := OrElse(id.from, "(unknown sender)"), OrElse(id.to, "(unknown recipient)");
    [("Content-Type", "text/html; charset=utf-8"), ("From", from), ("To", to), ("Reply-To", from)]
    + (if m.subject == "" then [] else [("Subject", m.subject)])
    + [("Date", f.mailDate(m.internaldate)), ("Message-ID", "<" + m.messageId + ">")]
    + (if m.txState.None? then [] else [("X-Talk-Txn-Status", StateWord(m.txState.value))])
    + (if m.txState.None? || m.txId.None? then [] else [("X-Talk-Txn-Id", ToDecimal(m.txId.value))])
  }

  datatype Filter = Everything | Only(fields: seq<string>) | Except(fields: seq<string>)

  predicate Listed(fields: seq<string>, name: string) {
    exists i | 0 <= i < |fields| :: SameIgnoringCase(fields[i], name)
  }

  predicate Keeps(filter: Filter, name: string) {
    match filter
    case Everything => true
    case Only(fields) => Listed(fields, name)
    case Except(fields) => !Listed(fields, name)
  }

  function HeaderText(headers: seq<(string, string)>, filter: Filter): string {
    if headers == [] then ""
    else
      var (name, value) := headers[|headers| - 1];
      HeaderText(headers[..|headers| - 1], filter) + (if Keeps(filter, name) then name + ": " + value + CRLF else "")
  }

  /** `header_lines`: the loop over the synthesized headers. */
  method HeaderLines(headers: seq<(string, string)>, filter: Filter) returns (out: string)
    ensures out == HeaderText(headers, filter) + "\n"
  {
    out := "";
    for i := 0 to |headers|
      invariant out == HeaderText(headers[..i], filter)
    {
      assert headers[..i + 1][..i] == headers[..i];
      var (name, value) := headers[i];
      if Keeps(filter, name) {
        out := out + (name + ": " + value + CRLF);
      } else {
        assert out + "" == out;
      }
    }
    assert headers[..|headers|] == headers;
    out := out + "\n";
  }

  function FilterOf(s: Section): Filter {
    match s
    case HeaderFields(fields) => Only(fields)
    case HeaderFieldsNot(fields) => Except(fields)
    case _ => Everything
  }

  /** `content`. */
  function Content(s: Section, m: Meta, body: Bytes, id: Identity, f: Formats): Bytes {
    match s
    case NoBody => []
    case Full => body
    case TextPart => body
    case Other(_) => body
    case Mime => Encode("Content-Type: text/plain\r\n")
    case _ => Encode(HeaderText(HeaderFieldsOf(m, id, f), FilterOf(s)) + "\n")
  }

  // -------------------------------------------------------------- the response

  function Marker(n: nat): string {
    "{" + ToDecimal(n) + "}"
  }

  /** What stands before the marker. */
  function Head(m: Meta, req: Request, body: Bytes, id: Identity, f: Formats): string {
    ToDecimal(m.uid) + " FETCH (" + Join(Parts(m, req, body, id, f), " ") + " " + Label(req.body) + " "
  }

  /** A literal as the server writes it: the count is of the bytes, the text after it is their lossy decoding. */
  function WithLiteral(head: string, content: Bytes): string {
    Untagged(head + Marker(|content|)) + Lossy(content) + ")" + CRLF
  }

  /** `fetch_response`. */
  function Response(m: Meta, req: Request, body: Bytes, id: Identity, f: Formats): string {
    if req.body.NoBody? then Untagged(ToDecimal(m.uid) + " FETCH (" + Join(Parts(m, req, body, id, f), " ") + ")")
    else WithLiteral(Head(m, req, body, id, f), Content(req.body, m, body, id, f))
  }

  // ---------------------------------------------------------------- the client

  /** A response line and the literal that came with it. */
  datatype Item = Item(line: Bytes, literal: Option<Bytes>)

  /** The count in a `{n}` at the end of a line. */
  function MarkerCount(line: Bytes): Option<nat> {
    var k := FindLast(line, R.OPEN_BRACE);
    if k == 0 || k == |line| || line[|line| - 1] != R.CLOSE_BRACE then None
    else
      match Decode(line[k..|line| - 1])
      case None => None
      case Some(text) => if text == "" || !AllDigits(text) then None else Some(DigitsValue(text))
  }

  const CLOSING: Bytes := [41, CR, LF]

  /** Read a line up to CRLF; if it ends in `{n}`, read n bytes and then `)` CRLF. */
  function ReadItem(wire: Bytes): Option<(Item, Bytes)> {
    var k := Find(wire, LF);
    if k == |wire| || k == 0 || wire[k - 1] != CR then None
    else
      var line, rest := wire[..k - 1], wire[k + 1..];
      match MarkerCount(line)
      case None => Some((Item(line, None), rest))
      case Some(n) =>
        if |rest| < n + 3 || rest[n..n + 3] != CLOSING then None
        else Some((Item(line, Some(rest[..n])), rest[n + 3..]))
  }

  function ReadItems(wire: Bytes, count: nat): Option<(seq<Item>, Bytes)> {
    if count == 0 then Some(([], wire))
    else
      match ReadItem(wire)
      case None => None
      case Some((item, rest)) =>
        match ReadItems(rest, count - 1)
        case None => None
        case Some((items, left)) => Some(([item] + items, left))
  }

  // -------------------------------------------------------------- properties

  lemma MarkerBytes(head: string, n: nat)
    ensures var line := Encode(head + Marker(n));
            var digits := Encode(ToDecimal(n));
            && line == Encode(head) + [R.OPEN_BRACE] + digits + [R.CLOSE_BRACE]
            && R.OPEN_BRACE !in digits && |digits| > 0 && Decode(digits) == Some(ToDecimal(n))
  {
    hide ToDecimal, Encode, Decode;
    var d := ToDecimal(n);
    BracedBytes(d);
    DigitBytes(d);
    EncodeConcat(head, Marker(n));
    DecodeEncode(d);
    Associate(Encode(head), [R.OPEN_BRACE], Encode(d), [R.CLOSE_BRACE]);
  }

  lemma Associate(a: Bytes, b: Bytes, c: Bytes, d: Bytes)
    ensures a + (b + c + d) == a + b + c + d
  {
  }

  lemma BracedBytes(d: string)
    ensures Encode("{" + d + "}") == [R.OPEN_BRACE] + Encode(d) + [R.CLOSE_BRACE]
  {
    BraceBytes();
    hide Encode;
    EncodeConcat("{" + d, "}");
    EncodeConcat("{", d);
  }

  lemma BraceBytes()
    ensures Encode("{") == [R.OPEN_BRACE] && Encode("}") == [R.CLOSE_BRACE]
  {
    EncodeAscii("{");
    EncodeAscii("}");
  }

  lemma DigitBytes(d: string)
    requires d != "" && AllDigits(d)
    ensures R.OPEN_BRACE !in Encode(d) && |Encode(d)| > 0
  {
    EncodeAscii(d);
    hide Encode;
  }

  lemma MarkerFound(head: Bytes, digits: Bytes)
    requires R.OPEN_BRACE !in digits
    ensures var line := head + [R.OPEN_BRACE] + digits + [R.CLOSE_BRACE];
            && FindLast(line, R.OPEN_BRACE) == |head| + 1
            && line[|head| + 1..|line| - 1] == digits && line[|line| - 1] == R.CLOSE_BRACE
  {
    var line := head + [R.OPEN_BRACE] + digits + [R.CLOSE_BRACE];
    assert forall i | |head| + 1 <= i < |line| - 1 :: line[i] == digits[i - |head| - 1];
    FindLastIs(line, R.OPEN_BRACE, |head| + 1);
  }

  /** Both readings of a line that ends in braces around a decimal number. */
  lemma CountIs(line: Bytes, k: nat, n: nat)
    requires FindLast(line, R.OPEN_BRACE) == k && 0 < k < |line| && line[|line| - 1] == R.CLOSE_BRACE
    requires Decode(line[k..|line| - 1]) == Some(ToDecimal(n))
    ensures MarkerCount(line) == Some(n)
    ensures R.LiteralCount(line) == if n <= R.MAX_LITERAL then Some((n, 1 + |line| - k)) else None
  {
    hide FindLast, Decode, ParseUnsigned, Trim, ToDecimal;
    DecimalValue(n);
    ParseDecimal(n, R.USIZE_MAX);
    TrimDecimal(n);
  }

  /** The server's own reader takes the written marker as exactly that count, up to its limit of 1 MiB; a client
      takes it whatever the count. */
  lemma MarkerReadsBack(head: string, n: nat)
    ensures MarkerCount(Encode(head + Marker(n))) == Some(n)
    ensures R.LiteralCount(Encode(head + Marker(n))) == if n <= R.MAX_LITERAL then Some((n, 2 + |Encode(ToDecimal(n))|)) else None
  {
    hide ToDecimal, Encode, Decode, FindLast, MarkerCount, R.LiteralCount, Marker;
    MarkerBytes(head, n);
    MarkerFound(Encode(head), Encode(ToDecimal(n)));
    CountIs(Encode(head + Marker(n)), |Encode(head)| + 1, n);
  }

  lemma TrimDecimal(n: nat)
    ensures Trim(ToDecimal(n)) == ToDecimal(n)
  {
    var s := ToDecimal(n);
    assert IsDigit(s[0]) && IsDigit(s[|s| - 1]);
    TrimNothing(s);
  }

  /** The bytes of a literal response, split at what the client reads. */
  lemma LiteralBytes(head: string, content: Bytes)
    ensures Encode(WithLiteral(head, content))
         == Encode("* " + (head + Marker(|content|))) + [CR, LF] + (Encode(Lossy(content)) + CLOSING)
  {
    hide Lossy, Marker, Encode;
    var line := "* " + (head + Marker(|content|));
    var text := Lossy(content);
    ClosingBytes();
    EncodeConcat(line + CRLF + text + ")", CRLF);
    EncodeConcat(line + CRLF + text, ")");
    EncodeConcat(line + CRLF, text);
    EncodeConcat(line, CRLF);
    Regroup(Encode(line) + [CR, LF], Encode(text), [41], [CR, LF]);
  }

  lemma Regroup(a: Bytes, b: Bytes, c: Bytes, d: Bytes)
    ensures a + b + c + d == a + (b + (c + d))
  {
  }

  lemma ClosingBytes()
    ensures Encode(CRLF) == [CR, LF] && Encode(")") == [41] && [41] + [CR, LF] == CLOSING
  {
    EncodeAscii(CRLF);
    EncodeAscii(")");
  }

  lemma ReadLine(line: Bytes, tail: Bytes)
    requires LF !in line
    ensures var wire := line + [CR, LF] + tail;
            && Find(wire, LF) == |line| + 1 && wire[|line|] == CR && wire[..|line|] == line && wire[|line| + 2..] == tail
  {
    var wire := line + [CR, LF] + tail;
    assert forall i | 0 <= i < |line| :: wire[i] == line[i];
    FindIs(wire, LF, |line| + 1);
  }

  /** What the client makes of a line with a marker, whatever bytes come after it. */
  lemma ReadMarked(line: Bytes, n: nat, tail: Bytes)
    requires LF !in line && MarkerCount(line) == Some(n)
    ensures ReadItem(line + [CR, LF] + tail)
         == if |tail| < n + 3 || tail[n..n + 3] != CLOSING then None else Some((Item(line, Some(tail[..n])), tail[n + 3..]))
  {
    hide MarkerCount;
    ReadLine(line, tail);
    var wire := line + [CR, LF] + tail;
    assert wire[|line| + 1 + 1..] == tail && wire[..|line| + 1 - 1] == line;
  }

  lemma LossyExactly(b: Bytes)
    ensures Encode(Lossy(b)) == b <==> Decode(b).Some?
  {
    if Decode(b).Some? {
      EncodeDecode(b);
      LossyOfText(Decode(b).value);
    }
    DecodeEncode(Lossy(b));
  }

  lemma TailReadsExactly(content: Bytes, sent: Bytes, rest: Bytes)
    ensures var tail := sent + CLOSING + rest;
            (|tail| >= |content| + 3 && tail[|content|..|content| + 3] == CLOSING && tail[..|content|] == content
             && tail[|content| + 3..] == rest) <==> sent == content
  {
    var tail := sent + CLOSING + rest;
    if |sent| == |content| {
      assert tail[..|content|] == sent && tail[|content|..|content| + 3] == CLOSING && tail[|content| + 3..] == rest;
    } else if |tail| >= |content| + 3 {
      assert |tail[|content| + 3..]| != |rest|;
    }
  }

  /** Literal framing, exactly: for a head on one line the client recovers the content and stands at what follows,
      if and only if the content is valid UTF-8. */
  lemma LiteralFramedExactly(head: string, content: Bytes, rest: Bytes)
    requires '\n' !in head
    ensures ReadItem(Encode(WithLiteral(head, content)) + rest)
         == Some((Item(Encode("* " + (head + Marker(|content|))), Some(content)), rest))
       <==> Decode(content).Some?
  {
    hide Encode, Lossy, Decode, MarkerCount, ReadItem, WithLiteral, Marker;
    var n := |content|;
    var text := "* " + (head + Marker(n));
    OneLine(head, n);
    MarkerReadsBack("* " + head, n);
    assert text == "* " + head + Marker(n);
    LiteralBytes(head, content);
    LossyExactly(content);
    FramedLine(Encode(text), content, Encode(Lossy(content)), rest);
  }

  lemma FramedLine(line: Bytes, content: Bytes, sent: Bytes, rest: Bytes)
    requires LF !in line && MarkerCount(line) == Some(|content|)
    ensures ReadItem(line + [CR, LF] + (sent + CLOSING) + rest) == Some((Item(line, Some(content)), rest)) <==> sent == content
  {
    hide MarkerCount, ReadItem;
    var tail := sent + CLOSING + rest;
    assert line + [CR, LF] + (sent + CLOSING) + rest == line + [CR, LF] + tail;
    ReadMarked(line, |content|, tail);
    TailReadsExactly(content, sent, rest);
  }

  lemma OneLine(head: string, n: nat)
    requires '\n' !in head
    ensures LF !in Encode("* " + (head + Marker(n)))
  {
    var d := ToDecimal(n);
    assert forall i | 0 <= i < |d| :: IsDigit(d[i]);
    hide ToDecimal;
    EncodeAsciiMember("* " + (head + Marker(n)), '\n');
  }

  /** A message as FETCH answers it. */
  datatype Answer = Answer(head: string, content: Bytes)

  function Reply(answers: seq<Answer>): string {
    if answers == [] then "" else WithLiteral(answers[0].head, answers[0].content) + Reply(answers[1..])
  }

  function Line(a: Answer): Bytes {
    Encode("* " + (a.head + Marker(|a.content|)))
  }

  predicate Framable(a: Answer) {
    '\n' !in a.head && Decode(a.content).Some?
  }

  function Items(answers: seq<Answer>): (items: seq<Item>)
    ensures |items| == |answers| && forall i | 0 <= i < |items| :: items[i] == Item(Line(answers[i]), Some(answers[i].content))
  {
    if answers == [] then [] else [Item(Line(answers[0]), Some(answers[0].content))] + Items(answers[1..])
  }

  /** For any number of messages in one reply, the client recovers every content and stands at what follows. */
  lemma {:induction false} RepliesReadBack(answers: seq<Answer>, rest: Bytes)
    requires forall i | 0 <= i < |answers| :: Framable(answers[i])
    ensures ReadItems(Encode(Reply(answers)) + rest, |answers|) == Some((Items(answers), rest))
  {
    hide ReadItem, WithLiteral, Decode, Marker;
    if answers == [] {
      EmptyText();
      assert [] + rest == rest;
    } else {
      hide Encode;
      var a, more := answers[0], answers[1..];
      ReplyBytes(answers, rest);
      RepliesReadBack(more, rest);
      assert Framable(a);
      hide Reply;
      LiteralFramedExactly(a.head, a.content, Encode(Reply(more)) + rest);
    }
  }

  lemma ReplyBytes(answers: seq<Answer>, rest: Bytes)
    requires answers != []
    ensures Encode(Reply(answers)) + rest
         == Encode(WithLiteral(answers[0].head, answers[0].content)) + (Encode(Reply(answers[1..])) + rest)
  {
    hide Encode, WithLiteral;
    EncodeConcat(WithLiteral(answers[0].head, answers[0].content), Reply(answers[1..]));
  }

  // -------------------------------------------------- which heads are one line

  predicate OnOneLine(s: string) {
    '\n' !in s
  }

  ghost predicate CalmMeta(m: Meta, id: Identity, f: Formats) {
    && OnOneLine(m.subject) && OnOneLine(m.messageId) && OnOneLine(id.from) && OnOneLine(id.to)
    && OnOneLine(f.internalDate(m.internaldate)) && OnOneLine(f.mailDate(m.internaldate))
  }

  lemma DecimalOnOneLine(n: nat)
    ensures OnOneLine(ToDecimal(n))
  {
    var d := ToDecimal(n);
    assert forall i | 0 <= i < |d| :: IsDigit(d[i]);
  }

  lemma {:induction false} JoinOnOneLine(parts: seq<string>)
    requires forall i | 0 <= i < |parts| :: OnOneLine(parts[i])
    ensures OnOneLine(Join(parts, " "))
  {
    if |parts| > 1 {
      assert OnOneLine(parts[0]);
      JoinOnOneLine(parts[1..]);
    } else if |parts| == 1 {
      assert OnOneLine(parts[0]);
    }
  }

  lemma QuoteOnOneLine(s: string)
    requires OnOneLine(s)
    ensures OnOneLine(T.Quote(s))
  {
    R.EscapeOnOneLine(s);
  }

  lemma FlagsOnOneLine(flags: bv32)
    ensures OnOneLine(FlagsDisplay(flags))
  {
    hide Join;
    JoinOnOneLine(FlagNames(flags));
  }

  lemma AddressOnOneLine(s: string)
    requires OnOneLine(s)
    ensures OnOneLine(AddressGroup(s))
  {
    hide T.Quote;
    QuoteOnOneLine(s);
    if CutLast(s, '@').Some? {
      var (local, host) := CutLast(s, '@').value;
      assert OnOneLine(local) && OnOneLine(host);
      QuoteOnOneLine(local);
      QuoteOnOneLine(host);
    }
  }

  lemma EnvelopeOnOneLine(m: Meta, id: Identity, f: Formats)
    requires CalmMeta(m, id, f)
    ensures OnOneLine(Envelope(m, id, f))
  {
    AddressOnOneLine(id.from);
    AddressOnOneLine(id.to);
    QuoteOnOneLine(m.subject);
    QuoteOnOneLine(m.messageId);
    hide T.Quote, AddressGroup, Join;
    var from, to := AddressGroup(id.from), AddressGroup(id.to);
    JoinOnOneLine([f.mailDate(m.internaldate), T.Quote(m.subject), from, from, from, to, "NIL NIL NIL", T.Quote(m.messageId)]);
  }

  ghost predicate AllOnOneLine(parts: seq<string>) {
    forall i | 0 <= i < |parts| :: OnOneLine(parts[i])
  }

  lemma AddOnOneLine(parts: seq<string>, asked: bool, text: string)
    requires AllOnOneLine(parts) && OnOneLine(text)
    ensures AllOnOneLine(parts + If(asked, text))
  {
  }

  lemma PartsOnOneLine(m: Meta, req: Request, body: Bytes, id: Identity, f: Formats)
    requires CalmMeta(m, id, f)
    ensures AllOnOneLine(Parts(m, req, body, id, f))
  {
    EnvelopeOnOneLine(m, id, f);
    assert AllOnOneLine([]);
    hide Structure, FlagsPart, UidPart, SizePart, DatePart, EnvelopePart, Envelope, LineFeeds, AllOnOneLine, If, OnOneLine;
    var lines := if body == [] then 1 else LineFeeds(body) + 1;
    PartTextsOnOneLine(m, lines, f.internalDate(m.internaldate), Envelope(m, id, f));
    var date, envelope := f.internalDate(m.internaldate), Envelope(m, id, f);
    ThreeOnOneLine([], req.flags, FlagsPart(m.flags), req.uid, UidPart(m.uid), req.size, SizePart(m.size));
    var three := [] + If(req.flags, FlagsPart(m.flags)) + If(req.uid, UidPart(m.uid)) + If(req.size, SizePart(m.size));
    ThreeOnOneLine(three, req.internaldate, DatePart(date), req.envelope, EnvelopePart(envelope), req.bodystructure, Structure(m.size, lines));
    assert [] + If(req.flags, FlagsPart(m.flags)) == If(req.flags, FlagsPart(m.flags));
  }

  lemma ThreeOnOneLine(parts: seq<string>, a: bool, s: string, b: bool, t: string, c: bool, u: string)
    requires AllOnOneLine(parts) && OnOneLine(s) && OnOneLine(t) && OnOneLine(u)
    ensures AllOnOneLine(parts + If(a, s) + If(b, t) + If(c, u))
  {
    hide AllOnOneLine, If, OnOneLine;
    AddOnOneLine(parts, a, s);
    AddOnOneLine(parts + If(a, s), b, t);
    AddOnOneLine(parts + If(a, s) + If(b, t), c, u);
  }

  lemma PartTextsOnOneLine(m: Meta, lines: nat, date: string, envelope: string)
    requires OnOneLine(date) && OnOneLine(envelope)
    ensures OnOneLine(FlagsPart(m.flags)) && OnOneLine(UidPart(m.uid)) && OnOneLine(SizePart(m.size))
    ensures OnOneLine(DatePart(date)) && OnOneLine(EnvelopePart(envelope)) && OnOneLine(Structure(m.size, lines))
  {
    FlagsOnOneLine(m.flags);
    DecimalOnOneLine(m.uid);
    DecimalOnOneLine(m.size);
    DecimalOnOneLine(lines);
    hide FlagsDisplay, ToDecimal;
  }

  /** With metadata and a section label on one line, the head of the response is on one line. */
  lemma HeadOnOneLine(m: Meta, req: Request, body: Bytes, id: Identity, f: Formats)
    requires CalmMeta(m, id, f) && OnOneLine(Label(req.body))
    ensures OnOneLine(Head(m, req, body, id, f))
  {
    hide Parts, Join, ToDecimal, Label, CalmMeta;
    PartsOnOneLine(m, req, body, id, f);
    JoinOnOneLine(Parts(m, req, body, id, f));
    DecimalOnOneLine(m.uid);
  }

  /** Synthesized headers and MIME parts are valid UTF-8 by themselves; the other sections are when the body is. */
  lemma ContentIsText(s: Section, m: Meta, body: Bytes, id: Identity, f: Formats)
    requires (s.Full? || s.TextPart? || s.Other?) ==> Decode(body).Some?
    ensures Decode(Content(s, m, body, id, f)).Some?
  {
    hide Encode, Decode;
    if s.Mime? {
      DecodeEncode("Content-Type: text/plain\r\n");
    } else if s.NoBody? {
      DecodeEncode("");
      EmptyText();
    } else if s.Header? || s.HeaderFields? || s.HeaderFieldsNot? {
      DecodeEncode(HeaderText(HeaderFieldsOf(m, id, f), FilterOf(s)) + "\n");
    }
  }

  lemma EmptyText()
    ensures Encode("") == []
  {
  }
}
