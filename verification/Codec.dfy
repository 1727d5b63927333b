/** The ZSMTP command vocabulary and its line encoding. */
module Codec {
  import opened Utf8
  import opened Text

  datatype AddrMode = Ephemeral | Attested
  datatype Payload = Sealed | Plaintext

  datatype Command =
    | Hello(domain: string)
    | Auth(challenge: Bytes)
    | Addr(mode: AddrMode, user: string)
    | Invoice(sender: string, messageId: string, payload: Payload, body: Bytes)
    | Status(code: nat, message: string)
    | Quit

  datatype Decoded = Ok(command: Command) | Unknown | Malformed

  /** Standard base64, of which only the round trip and the alphabet matter. */
  datatype Base64 = Base64(encode: Bytes -> string, decode: string -> Option<Bytes>) {
    ghost predicate Lawful() {
      forall b: Bytes :: decode(encode(b)) == Some(b) && IsAscii(encode(b)) && NoWhitespace(encode(b))
    }
  }

  function ModeWord(mode: AddrMode): string {
    match mode case Ephemeral => "ephemeral" case Attested => "attested"
  }

  function PayloadWord(payload: Payload): string {
    match payload case Sealed => "sealed" case Plaintext => "plaintext"
  }

  /** The line of a command; an invoice's body travels separately as a blob. */
  function EncodeLine(b64: Base64, cmd: Command): string {
    match cmd
    case Hello(domain) => Sp("HELLO", domain)
    case Auth(challenge) => Sp("AUTH", b64.encode(challenge))
    case Addr(mode, user) => Sp("ADDR", Sp(ModeWord(mode), user))
    case Invoice(sender, messageId, payload, _) =>
      Sp("INVOICE", Sp(sender, Sp(messageId, PayloadWord(payload))))
    case Status(code, message) => Sp("STATUS", Sp(ToDecimal(code), message))
    case Quit => "QUIT"
  }

  /** `splitn(3, ' ')`: at most three parts, the last keeping its spaces. */
  function SplitThree(line: string): (parts: seq<string>)
    ensures 1 <= |parts| <= 3
  {
    var i := Find(line, ' ');
    if i == |line| then [line]
    else
      var rest := line[i + 1..];
      var j := Find(rest, ' ');
      if j == |rest| then [line[..i], rest] else [line[..i], rest[..j], rest[j + 1..]]
  }

  function DecodePayload(word: string): Option<Payload> {
    if SameIgnoringCase(word, "sealed") then Some(Sealed)
    else if SameIgnoringCase(word, "plaintext") then Some(Plaintext)
    else None
  }

  function DecodeMode(word: string): Option<AddrMode> {
    if SameIgnoringCase(word, "ephemeral") then Some(Ephemeral)
    else if SameIgnoringCase(word, "attested") then Some(Attested)
    else None
  }

  function DecodeInvoice(line: string): Decoded {
    var tokens := Words(line);
    if |tokens| != 4 then Malformed
    else
      match DecodePayload(tokens[3])
      case None => Malformed
      case Some(payload) => Ok(Invoice(tokens[1], tokens[2], payload, []))
  }

  datatype Verb = HelloVerb | AuthVerb | AddrVerb | InvoiceVerb | StatusVerb | QuitVerb | OtherVerb

  function VerbOf(word: string): Verb {
    var verb := Upper(word);
    if verb == "HELLO" then HelloVerb
    else if verb == "AUTH" then AuthVerb
    else if verb == "ADDR" then AddrVerb
    else if verb == "INVOICE" then InvoiceVerb
    else if verb == "STATUS" then StatusVerb
    else if verb == "QUIT" then QuitVerb
    else OtherVerb
  }

  function DecodeLine(b64: Base64, line: string): Decoded {
    var parts := SplitThree(line);
    match VerbOf(parts[0])
    case HelloVerb => if |parts| < 2 then Malformed else Ok(Hello(parts[1]))
    case AuthVerb =>
      if |parts| < 2 then Malformed
      else (
        match b64.decode(parts[1])
        case None => Malformed
        case Some(challenge) => Ok(Auth(challenge)))
    case AddrVerb =>
      if |parts| < 3 then Malformed
      else (
        match DecodeMode(parts[1])
        case None => Malformed
        case Some(mode) => Ok(Addr(mode, parts[2])))
    case InvoiceVerb => DecodeInvoice(line)
    case StatusVerb =>
      if |parts| < 2 then Malformed
      else (
        match ParseUnsigned(parts[1], 0xFFFF)
        case None => Malformed
        case Some(code) => Ok(Status(code, if |parts| == 3 then parts[2] else "")))
    case QuitVerb => Ok(Quit)
    case OtherVerb => Unknown
  }

  // -------------------------------------------------------------- properties

  /** What a command must look like to survive its own encoding. */
  predicate Clean(cmd: Command) {
    match cmd
    case Hello(domain) => ' ' !in domain
    case Invoice(sender, messageId, _, body) => IsWord(sender) && IsWord(messageId) && body == []
    case Status(code, _) => code <= 0xFFFF
    case _ => true
  }

  lemma SplitVerb(verb: string, arg: string)
    requires ' ' !in verb
    ensures var parts := SplitThree(Sp(verb, arg));
            && |parts| >= 2
            && parts[0] == verb
            && ' ' !in parts[1]
            && (' ' !in arg ==> parts[1] == arg)
  {
    FindSpace(verb, arg);
  }

  lemma SplitVerbAndWord(verb: string, word: string, tail: string)
    requires ' ' !in verb && ' ' !in word
    ensures SplitThree(Sp(verb, Sp(word, tail))) == [verb, word, tail]
  {
    FindSpace(verb, Sp(word, tail));
    FindSpace(word, tail);
  }

  lemma Verbs()
    ensures VerbOf("HELLO") == HelloVerb && VerbOf("AUTH") == AuthVerb && VerbOf("ADDR") == AddrVerb
    ensures VerbOf("INVOICE") == InvoiceVerb && VerbOf("STATUS") == StatusVerb && VerbOf("QUIT") == QuitVerb
  {
    assert Upper("HELLO") == "HELLO" && Upper("AUTH") == "AUTH" && Upper("ADDR") == "ADDR";
    assert Upper("INVOICE") == "INVOICE" && Upper("STATUS") == "STATUS" && Upper("QUIT") == "QUIT";
  }

  lemma KeywordsDecode(mode: AddrMode, payload: Payload)
    ensures DecodeMode(ModeWord(mode)) == Some(mode) && IsWord(ModeWord(mode))
    ensures DecodePayload(PayloadWord(payload)) == Some(payload) && IsWord(PayloadWord(payload))
  {
    hide DecodeMode, DecodePayload, ModeWord, PayloadWord, IsWord;
    ModeDecodes(mode);
    PayloadDecodes(payload);
  }

  lemma ModeDecodes(mode: AddrMode)
    ensures DecodeMode(ModeWord(mode)) == Some(mode) && IsWord(ModeWord(mode))
  {
    assert |Upper("ephemeral")| == 9 && |Upper("attested")| == 8;
  }

  lemma PayloadDecodes(payload: Payload)
    ensures DecodePayload(PayloadWord(payload)) == Some(payload) && IsWord(PayloadWord(payload))
  {
    assert |Upper("sealed")| == 6 && |Upper("plaintext")| == 9;
  }

  lemma InvoiceRoundTrip(b64: Base64, cmd: Command)
    requires cmd.Invoice?
    ensures DecodeLine(b64, EncodeLine(b64, cmd)) == Ok(cmd) <==> Clean(cmd)
  {
    var arg := Sp(cmd.sender, Sp(cmd.messageId, PayloadWord(cmd.payload)));
    InvoiceVerbDecodes(b64, arg);
    hide DecodeLine, DecodeInvoice, Sp, IsWord, PayloadWord;
    if Clean(cmd) {
      InvoiceDecodes(b64, cmd.sender, cmd.messageId, cmd.payload);
    } else if DecodeInvoice(Sp("INVOICE", arg)).Ok? {
      DecodedInvoiceIsClean(Sp("INVOICE", arg));
    }
  }

  lemma TwoWords(a: string, b: string)
    requires IsWord(a) && IsWord(b)
    ensures Words(Sp(a, b)) == [a, b]
  {
    WordsOfWord(b, "");
    assert b + "" == b;
    WordsSp(a, b);
  }

  lemma TwoMoreWords(a: string, b: string, t: string)
    requires IsWord(a) && IsWord(b)
    ensures Words(Sp(a, Sp(b, t))) == [a, b] + Words(t)
  {
    WordsSp(b, t);
    WordsSp(a, Sp(b, t));
  }

  lemma InvoiceWords(verb: string, sender: string, messageId: string, word: string)
    requires IsWord(verb) && IsWord(sender) && IsWord(messageId) && IsWord(word)
    ensures Words(Sp(verb, Sp(sender, Sp(messageId, word)))) == [verb, sender, messageId, word]
  {
    TwoWords(messageId, word);
    TwoMoreWords(verb, sender, Sp(messageId, word));
  }

  lemma HelloDecodes(b64: Base64, domain: string)
    ensures DecodeLine(b64, Sp("HELLO", domain)) == Ok(Hello(domain)) <==> ' ' !in domain
  {
    SplitVerb("HELLO", domain);
    Verbs();
  }

  lemma AuthDecodes(b64: Base64, challenge: Bytes)
    requires b64.Lawful()
    ensures DecodeLine(b64, Sp("AUTH", b64.encode(challenge))) == Ok(Auth(challenge))
  {
    var text := b64.encode(challenge);
    assert b64.decode(text) == Some(challenge) && NoWhitespace(text);
    NoSpaceInWord(text);
    SplitVerb("AUTH", text);
    Verbs();
  }

  lemma AddrDecodes(b64: Base64, mode: AddrMode, user: string)
    ensures DecodeLine(b64, Sp("ADDR", Sp(ModeWord(mode), user))) == Ok(Addr(mode, user))
  {
    KeywordsDecode(mode, Sealed);
    NoSpaceInWord(ModeWord(mode));
    SplitVerbAndWord("ADDR", ModeWord(mode), user);
    Verbs();
  }

  lemma InvoiceVerbDecodes(b64: Base64, arg: string)
    ensures DecodeLine(b64, Sp("INVOICE", arg)) == DecodeInvoice(Sp("INVOICE", arg))
  {
    SplitVerb("INVOICE", arg);
    Verbs();
  }

  lemma DecodedInvoiceIsClean(line: string)
    requires DecodeInvoice(line).Ok?
    ensures DecodeInvoice(line).command.Invoice? && Clean(DecodeInvoice(line).command)
  {
    var tokens := Words(line);
    assert tokens[1] in tokens && tokens[2] in tokens;
  }

  lemma WordsMakeInvoice(line: string, verb: string, sender: string, messageId: string, payload: Payload)
    requires Words(line) == [verb, sender, messageId, PayloadWord(payload)]
    ensures DecodeInvoice(line) == Ok(Invoice(sender, messageId, payload, []))
  {
    KeywordsDecode(Ephemeral, payload);
  }

  lemma InvoiceTail(verb: string, sender: string, messageId: string, payload: Payload)
    requires IsWord(verb) && IsWord(sender) && IsWord(messageId)
    ensures DecodeInvoice(Sp(verb, Sp(sender, Sp(messageId, PayloadWord(payload)))))
         == Ok(Invoice(sender, messageId, payload, []))
  {
    var word := PayloadWord(payload);
    KeywordsDecode(Ephemeral, payload);
    InvoiceWords(verb, sender, messageId, word);
    WordsMakeInvoice(Sp(verb, Sp(sender, Sp(messageId, word))), verb, sender, messageId, payload);
  }

  /** An invoice line decodes to the same sender, id and payload; its body comes as a blob. */
  lemma InvoiceDecodes(b64: Base64, sender: string, messageId: string, payload: Payload)
    requires IsWord(sender) && IsWord(messageId)
    ensures DecodeLine(b64, Sp("INVOICE", Sp(sender, Sp(messageId, PayloadWord(payload)))))
         == Ok(Invoice(sender, messageId, payload, []))
  {
    InvoiceTail("INVOICE", sender, messageId, payload);
    InvoiceVerbDecodes(b64, Sp(sender, Sp(messageId, PayloadWord(payload))));
  }

  lemma StatusDecodes(b64: Base64, code: nat, message: string)
    ensures DecodeLine(b64, Sp("STATUS", Sp(ToDecimal(code), message)))
         == if code <= 0xFFFF then Ok(Status(code, message)) else Malformed
  {
    assert forall i | 0 <= i < |ToDecimal(code)| :: IsDigit(ToDecimal(code)[i]);
    SplitVerbAndWord("STATUS", ToDecimal(code), message);
    ParseDecimal(code, 0xFFFF);
    Verbs();
  }

  lemma QuitDecodes(b64: Base64)
    ensures DecodeLine(b64, "QUIT") == Ok(Quit)
  {
    FindIs("QUIT", ' ', 4);
    Verbs();
  }

  /** Decoding undoes encoding exactly for the clean commands. */
  lemma DecodeEncodeLine(b64: Base64, cmd: Command)
    requires b64.Lawful()
    ensures DecodeLine(b64, EncodeLine(b64, cmd)) == Ok(cmd) <==> Clean(cmd)
  {
    hide DecodeLine, Sp, IsWord, ToDecimal, ModeWord, PayloadWord;
    match cmd
    case Hello(domain) => HelloDecodes(b64, domain);
    case Auth(challenge) => AuthDecodes(b64, challenge);
    case Addr(mode, user) => AddrDecodes(b64, mode, user);
    case Invoice(sender, messageId, payload, _) => InvoiceRoundTrip(b64, cmd);
    case Status(code, message) => StatusDecodes(b64, code, message);
    case Quit => QuitDecodes(b64);
  }
}
