/** The header block FETCH makes up for a message, as a client reads it. */
module FetchHeaders {
  import opened Utf8
  import opened Text
  import opened MailStore
  import opened Listing
  import opened FetchReply
  import opened ImapSession
  import F = FetchItems

  /** The client: lines ended by CRLF, each a name and a value with a colon and a space between, up to a line that is not. */
  function ReadFields(text: string): seq<(string, string)>
    decreases |text|
  {
    var k := Find(text, '\n');
    if k == |text| || k == 0 || text[k - 1] != '\r' then []
    else
      var line := text[..k - 1];
      var c := Find(line, ':');
      if c + 2 > |line| then [] else [(line[..c], line[c + 2..])] + ReadFields(text[k + 1..])
  }

  predicate CleanField(field: (string, string)) {
    ':' !in field.0 && '\n' !in field.0 && '\n' !in field.1
  }

  function Printed(field: (string, string)): string {
    field.0 + ": " + field.1 + CRLF
  }

  lemma LineFound(line: string, rest: string)
    requires '\n' !in line
    ensures var text := line + "\r\n" + rest;
            Find(text, '\n') == |line| + 1 && text[|line|] == '\r' && text[..|line|] == line && text[|line| + 2..] == rest
  {
    var text := line + "\r\n" + rest;
    assert forall i | 0 <= i < |line| :: text[i] == line[i];
    FindIs(text, '\n', |line| + 1);
  }

  lemma NameFound(name: string, value: string)
    requires ':' !in name
    ensures var line := name + ": " + value; Find(line, ':') == |name| && line[..|name|] == name && line[|name| + 2..] == value
  {
    var line := name + ": " + value;
    assert forall i | 0 <= i < |name| :: line[i] == name[i];
    FindIs(line, ':', |name|);
  }

  lemma ReadOne(text: string, k: nat, c: nat)
    requires 0 < k < |text| && Find(text, '\n') == k && text[k - 1] == '\r' && Find(text[..k - 1], ':') == c && c + 2 <= k - 1
    ensures ReadFields(text) == [(text[..k - 1][..c], text[..k - 1][c + 2..])] + ReadFields(text[k + 1..])
  {
    hide Find;
  }

  lemma FieldRead(field: (string, string), rest: string)
    requires CleanField(field)
    ensures ReadFields(Printed(field) + rest) == [field] + ReadFields(rest)
  {
    hide Find, ReadFields;
    var line := field.0 + ": " + field.1;
    LineFound(line, rest);
    NameFound(field.0, field.1);
    var text := line + "\r\n" + rest;
    PrintedIs(field, rest);
    ReadOne(text, |line| + 1, |field.0|);
  }

  lemma PrintedIs(field: (string, string), rest: string)
    ensures Printed(field) + rest == field.0 + ": " + field.1 + "\r\n" + rest
  {
  }

  function KeptOf(headers: seq<(string, string)>, filter: Filter): seq<(string, string)> {
    if headers == [] then []
    else (if Keeps(filter, headers[0].0) then [headers[0]] else []) + KeptOf(headers[1..], filter)
  }

  lemma {:induction false} KeptExactly(headers: seq<(string, string)>, filter: Filter, field: (string, string))
    ensures field in KeptOf(headers, filter) <==> field in headers && Keeps(filter, field.0)
  {
    hide Keeps;
    if headers != [] { KeptExactly(headers[1..], filter, field); }
  }

  /** What is printed for a header. */
  function PartOf(filter: Filter, field: (string, string)): string {
    if Keeps(filter, field.0) then Printed(field) else ""
  }

  lemma {:induction false} HeaderTextFirst(headers: seq<(string, string)>, filter: Filter)
    requires headers != []
    ensures HeaderText(headers, filter) == PartOf(filter, headers[0]) + HeaderText(headers[1..], filter)
    decreases |headers|
  {
    hide PartOf, HeaderText;
    var init, last := headers[..|headers| - 1], headers[|headers| - 1];
    HeaderTextLast(headers, filter);
    NoHeaders(filter);
    if |headers| == 1 {
      assert init == [] && headers[1..] == [];
      assert "" + PartOf(filter, last) == PartOf(filter, last) + "";
    } else {
      HeaderTextFirst(init, filter);
      var tail := headers[1..];
      assert tail[..|tail| - 1] == init[1..] && tail[|tail| - 1] == last;
      HeaderTextLast(tail, filter);
      Associate(PartOf(filter, headers[0]), HeaderText(init[1..], filter), PartOf(filter, last));
    }
  }

  lemma Associate(a: string, b: string, c: string)
    ensures a + b + c == a + (b + c)
  {
  }

  lemma NoHeaders(filter: Filter)
    ensures HeaderText([], filter) == ""
  {
  }

  lemma HeaderTextLast(headers: seq<(string, string)>, filter: Filter)
    requires headers != []
    ensures HeaderText(headers, filter) == HeaderText(headers[..|headers| - 1], filter) + PartOf(filter, headers[|headers| - 1])
  {
    hide Keeps;
  }

  /** The client reads back exactly the headers kept, in order. */
  lemma {:induction false} HeadersReadBack(headers: seq<(string, string)>, filter: Filter)
    requires forall i | 0 <= i < |headers| :: CleanField(headers[i])
    ensures ReadFields(HeaderText(headers, filter) + "\n") == KeptOf(headers, filter)
  {
    hide Keeps, Printed, ReadFields, CleanField;
    if headers == [] {
      assert HeaderText(headers, filter) + "\n" == "\n";
      EndRead();
    } else {
      HeaderTextFirst(headers, filter);
      HeadersReadBack(headers[1..], filter);
      var rest := HeaderText(headers[1..], filter) + "\n";
      if Keeps(filter, headers[0].0) {
        FieldRead(headers[0], rest);
        assert HeaderText(headers, filter) + "\n" == Printed(headers[0]) + rest;
      } else {
        assert HeaderText(headers, filter) + "\n" == rest && [] + KeptOf(headers[1..], filter) == KeptOf(headers[1..], filter);
      }
    }
  }

  lemma EndRead()
    ensures ReadFields("\n") == []
  {
    FindIs("\n", '\n', 0);
  }

  // ---------------------------------------------------- what the headers must be

  function OrUnknown(address: string, unknown: string): string {
    if address == "" then unknown else address
  }

  /** The header a message must have: From and To are the message's sender and the user's own address, the other way round
      in Sent; a message without a subject has no Subject; the last two tell of a ledger row. */
  predicate HeaderIs(cfg: Config, s: Session, row: MessageRow, state: Option<TxState>, tx: Option<nat>, name: string, value: string) {
    var own := s.username + "@" + cfg.domain;
    var (from, to) := if s.selected == "Sent" then (own, row.sender) else (row.sender, own);
    match name
    case "Content-Type" => value == "text/html; charset=utf-8"
    case "From" => value == OrUnknown(from, "(unknown sender)")
    case "Reply-To" => value == OrUnknown(from, "(unknown sender)")
    case "To" => value == OrUnknown(to, "(unknown recipient)")
    case "Subject" => value == row.subject && value != ""
    case "Date" => value == cfg.formats.mailDate(row.internaldate)
    case "Message-ID" => value == "<" + row.messageId + ">"
    case "X-Talk-Txn-Status" => state.Some? && value == Word(state.value)
    case "X-Talk-Txn-Id" => state.Some? && tx.Some? && value == ToDecimal(tx.value)
    case _ => false
  }

  function Word(s: TxState): string {
    match s case Opaque => "opaque" case Resolved => "resolved" case Spent => "spent" case Sent => "sent" case Failed => "failed" case Retrying => "retrying"
  }

  /** The section asks for the field: all of them, those listed, or those not listed, whatever the case of letters. */
  predicate Asked(section: F.Section, name: string) {
    match section
    case HeaderFields(fields) => exists i | 0 <= i < |fields| :: Upper(fields[i]) == Upper(name)
    case HeaderFieldsNot(fields) => forall i | 0 <= i < |fields| :: Upper(fields[i]) != Upper(name)
    case _ => true
  }

  lemma AskedIsKept(section: F.Section, name: string)
    ensures Keeps(FilterOf(section), name) <==> Asked(section, name)
  {
  }

  /** The entry shows the row. */
  predicate ShowsRow(m: Meta, row: MessageRow) {
    m.subject == row.subject && m.sender == row.sender && m.messageId == row.messageId && m.internaldate == row.internaldate
  }

  lemma HeadersAre(cfg: Config, s: Session, m: Meta, row: MessageRow, field: (string, string))
    requires ShowsRow(m, row)
    ensures field in HeaderFieldsOf(m, IdentityOf(cfg, s, m), cfg.formats) <==> HeaderIs(cfg, s, row, m.txState, m.txId, field.0, field.1)
  {
    var id := IdentityOf(cfg, s, m);
    var from, to := OrElse(id.from, "(unknown sender)"), OrElse(id.to, "(unknown recipient)");
    var a := [("Content-Type", "text/html; charset=utf-8"), ("From", from), ("To", to), ("Reply-To", from)];
    var b := if m.subject == "" then [] else [("Subject", m.subject)];
    var c := [("Date", cfg.formats.mailDate(m.internaldate)), ("Message-ID", "<" + m.messageId + ">")];
    var d := if m.txState.None? then [] else [("X-Talk-Txn-Status", StateWord(m.txState.value))];
    var e := if m.txState.None? || m.txId.None? then [] else [("X-Talk-Txn-Id", ToDecimal(m.txId.value))];
    assert HeaderFieldsOf(m, id, cfg.formats) == a + b + c + d + e;
    hide ToDecimal;
    assert field in a + b + c + d + e <==> field in a || field in b || field in c || field in d || field in e;
  }

  predicate AllClean(fields: seq<(string, string)>) {
    forall i | 0 <= i < |fields| :: CleanField(fields[i])
  }

  lemma BothClean(a: seq<(string, string)>, b: seq<(string, string)>)
    requires AllClean(a) && AllClean(b)
    ensures AllClean(a + b)
  {
    hide CleanField;
  }

  lemma OneClean(name: string, value: string, asked: bool)
    requires ':' !in name && '\n' !in name && (asked ==> '\n' !in value)
    ensures AllClean(if asked then [(name, value)] else [])
  {
  }

  lemma OrElseClean(a: string, default: string)
    requires '\n' !in a && '\n' !in default
    ensures '\n' !in OrElse(a, default)
  {
  }

  lemma FirstClean(from: string, to: string)
    requires '\n' !in from && '\n' !in to
    ensures AllClean([("Content-Type", "text/html; charset=utf-8"), ("From", from), ("To", to), ("Reply-To", from)])
  {
  }

  lemma MiddleClean(subject: string, date: string, id: string)
    requires '\n' !in subject && '\n' !in date && '\n' !in id
    ensures AllClean(if subject == "" then [] else [("Subject", subject)])
    ensures AllClean([("Date", date), ("Message-ID", "<" + id + ">")])
  {
  }

  lemma LastClean(m: Meta)
    ensures AllClean(if m.txState.None? then [] else [("X-Talk-Txn-Status", StateWord(m.txState.value))])
    ensures AllClean(if m.txState.None? || m.txId.None? then [] else [("X-Talk-Txn-Id", ToDecimal(m.txId.value))])
  {
    if m.txState.Some? { OneClean("X-Talk-Txn-Status", StateWord(m.txState.value), true); }
    if m.txId.Some? {
      DecimalOnOneLine(m.txId.value);
      hide ToDecimal;
      OneClean("X-Talk-Txn-Id", ToDecimal(m.txId.value), true);
    }
  }

  lemma HeadersClean(cfg: Config, s: Session, m: Meta)
    requires CalmMeta(m, IdentityOf(cfg, s, m), cfg.formats)
    ensures AllClean(HeaderFieldsOf(m, IdentityOf(cfg, s, m), cfg.formats))
  {
    hide IdentityOf, AllClean, OrElse, ToDecimal, StateWord;
    var id, date := IdentityOf(cfg, s, m), cfg.formats.mailDate(m.internaldate);
    var from, to := OrElse(id.from, "(unknown sender)"), OrElse(id.to, "(unknown recipient)");
    OrElseClean(id.from, "(unknown sender)");
    OrElseClean(id.to, "(unknown recipient)");
    FirstClean(from, to);
    MiddleClean(m.subject, date, m.messageId);
    LastClean(m);
    FiveClean([("Content-Type", "text/html; charset=utf-8"), ("From", from), ("To", to), ("Reply-To", from)],
              if m.subject == "" then [] else [("Subject", m.subject)],
              [("Date", date), ("Message-ID", "<" + m.messageId + ">")],
              if m.txState.None? then [] else [("X-Talk-Txn-Status", StateWord(m.txState.value))],
              if m.txState.None? || m.txId.None? then [] else [("X-Talk-Txn-Id", ToDecimal(m.txId.value))]);
  }

  lemma FiveClean(a: seq<(string, string)>, b: seq<(string, string)>, c: seq<(string, string)>, d: seq<(string, string)>, e: seq<(string, string)>)
    requires AllClean(a) && AllClean(b) && AllClean(c) && AllClean(d) && AllClean(e)
    ensures AllClean(a + b + c + d + e)
  {
    hide AllClean;
    BothClean(a, b);
    BothClean(a + b, c);
    BothClean(a + b + c, d);
    BothClean(a + b + c + d, e);
  }

  /** A header section is text in which the client reads exactly the fields asked for, each as it must be. */
  lemma HeadersServed(cfg: Config, s: Session, m: Meta, row: MessageRow, section: F.Section, body: Bytes)
    requires section.Header? || section.HeaderFields? || section.HeaderFieldsNot?
    requires ShowsRow(m, row) && CalmMeta(m, IdentityOf(cfg, s, m), cfg.formats)
    ensures var text := Decode(Content(section, m, body, IdentityOf(cfg, s, m), cfg.formats));
            && text.Some?
            && forall name, value :: (name, value) in ReadFields(text.value)
                                     <==> Asked(section, name) && HeaderIs(cfg, s, row, m.txState, m.txId, name, value)
  {
    hide HeaderFieldsOf, HeaderText, ReadFields, HeaderIs, Asked, KeptOf, Keeps, Encode, Decode, CalmMeta, CleanField;
    var headers := HeaderFieldsOf(m, IdentityOf(cfg, s, m), cfg.formats);
    var text := HeaderText(headers, FilterOf(section)) + "\n";
    DecodeEncode(text);
    HeadersClean(cfg, s, m);
    HeadersReadBack(headers, FilterOf(section));
    forall name, value
      ensures (name, value) in ReadFields(text) <==> Asked(section, name) && HeaderIs(cfg, s, row, m.txState, m.txId, name, value)
    {
      KeptExactly(headers, FilterOf(section), (name, value));
      HeadersAre(cfg, s, m, row, (name, value));
      AskedIsKept(section, name);
    }
  }
}
