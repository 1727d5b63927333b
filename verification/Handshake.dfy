/** Challenges, attestations, and the byte strings the domain key signs. */
module Handshake {
  import opened Utf8
  import opened Text
  import opened Codec

  // ------------------------------------------------------------ hexadecimal

  function HexDigit(d: nat): (c: char)
    requires d < 16
  {
    if d < 10 then (d + '0' as int) as char else (d - 10 + 'a' as int) as char
  }

  /** Two lower-case digits a byte. */
  function Hex(data: Bytes): (s: string)
    ensures |s| == 2 * |data|
  {
    if data == [] then "" else [HexDigit(data[0] / 16), HexDigit(data[0] % 16)] + Hex(data[1..])
  }

  /** `to_digit(16)` of a byte taken as a character. */
  function HexValue(b: Byte): (r: Option<nat>)
    ensures r.Some? ==> r.value < 16
  {
    if 48 <= b <= 57 then Some(b - 48)
    else if 97 <= b <= 102 then Some(b - 87)
    else if 65 <= b <= 70 then Some(b - 55)
    else None
  }

  function Glue(done: Bytes, rest: Option<Bytes>): Option<Bytes> {
    match rest case None => None case Some(t) => Some(done + t)
  }

  /** Pairs of digits back to bytes, in either case. */
  function UnhexPairs(e: Bytes): Option<Bytes> {
    if e == [] then Some([])
    else if |e| == 1 then None
    else
      match (HexValue(e[0]), HexValue(e[1]))
      case (Some(hi), Some(lo)) => Glue([16 * hi + lo], UnhexPairs(e[2..]))
      case _ => None
  }

  /** The hex crate's `decode`. */
  function HexDecode(s: string): Option<Bytes> {
    UnhexPairs(Encode(s))
  }

  predicate HexText(s: string) {
    forall i | 0 <= i < |s| :: IsDigit(s[i]) || 'a' <= s[i] <= 'f'
  }

  lemma {:induction false} HexIsHexText(data: Bytes)
    ensures HexText(Hex(data))
  {
    if data != [] {
      HexIsHexText(data[1..]);
    }
  }

  lemma HexDigitReads(d: nat)
    requires d < 16
    ensures EncodeChar(HexDigit(d)) == [HexDigit(d) as int]
    ensures HexValue(HexDigit(d) as int) == Some(d)
  {
  }

  lemma EncodeHexPair(b: Byte, rest: string)
    ensures Encode([HexDigit(b / 16), HexDigit(b % 16)] + rest)
         == [HexDigit(b / 16) as int, HexDigit(b % 16) as int] + Encode(rest)
  {
    var hi, lo := HexDigit(b / 16), HexDigit(b % 16);
    HexDigitReads(b / 16);
    HexDigitReads(b % 16);
    EncodeConcat([hi, lo], rest);
    assert [hi, lo][1..] == [lo] && [lo][1..] == [];
    assert Encode([lo]) == [lo as int];
    assert Encode([hi, lo]) == [hi as int, lo as int];
  }

  lemma {:induction false} HexReadsBack(data: Bytes)
    ensures |Encode(Hex(data))| == 2 * |data|
    ensures HexDecode(Hex(data)) == Some(data)
  {
    if data != [] {
      HexDigitReads(data[0] / 16);
      HexDigitReads(data[0] % 16);
      EncodeHexPair(data[0], Hex(data[1..]));
      HexReadsBack(data[1..]);
      var e := Encode(Hex(data));
      assert e[2..] == Encode(Hex(data[1..]));
      assert [data[0]] + data[1..] == data;
    }
  }

  lemma GlueLaws(done: Bytes, b: Byte, rest: Option<Bytes>)
    ensures Glue([], rest) == rest
    ensures Glue(done, Glue([b], rest)) == Glue(done + [b], rest)
  {
    if rest.Some? {
      assert [] + rest.value == rest.value;
      assert done + ([b] + rest.value) == done + [b] + rest.value;
    }
  }

  /** The nonce reader: sixteen bytes filled in place, pair by pair. */
  method Unhex(s: string) returns (r: Option<Bytes>)
    ensures r == if |Encode(s)| == 32 then HexDecode(s) else None
  {
    var e := Encode(s);
    if |e| != 32 {
      return None;
    }
    var out := new Byte[16];
    var i := 0;
    assert e[0..] == e && out[..0] == [];
    GlueLaws([], 0, UnhexPairs(e));
    while i < 16
      invariant 0 <= i <= 16
      invariant UnhexPairs(e) == Glue(out[..i], UnhexPairs(e[2 * i..]))
    {
      var hi, lo := HexValue(e[2 * i]), HexValue(e[2 * i + 1]);
      ghost var tail := e[2 * i..];
      assert tail[0] == e[2 * i] && tail[1] == e[2 * i + 1] && tail[2..] == e[2 * (i + 1)..];
      if hi.None? || lo.None? {
        return None;
      }
      ghost var before := out[..i];
      out[i] := 16 * hi.value + lo.value;
      i := i + 1;
      assert out[..i] == before + [16 * hi.value + lo.value];
      GlueLaws(before, 16 * hi.value + lo.value, UnhexPairs(e[2 * i..]));
    }
    assert e[2 * i..] == [] && out[..i] + [] == out[..];
    return Some(out[..]);
  }

  // -------------------------------------------------------------- challenges

  datatype Challenge = Challenge(senderDomain: string, receiverDomain: string, nonce: Bytes, issuedAt: int) {
    predicate Valid() {
      |nonce| == 16 && IsI64(issuedAt)
    }
  }

  /** `sender|receiver|nonce-hex|issued-at`. */
  function ToWire(c: Challenge): string {
    Join([c.senderDomain, c.receiverDomain, Hex(c.nonce), ToSigned(c.issuedAt)], "|")
  }

  function FromWire(s: string): (r: Option<Challenge>)
    ensures r.Some? ==> '|' !in r.value.senderDomain && '|' !in r.value.receiverDomain
  {
    var parts := Split(s, '|');
    if |parts| != 4 || |Encode(parts[2])| != 32 then None
    else
      match (ParseI64(parts[3]), HexDecode(parts[2]))
      case (Some(issuedAt), Some(nonce)) => Some(Challenge(parts[0], parts[1], nonce, issuedAt))
      case _ => None
  }

  /** The challenge wire form reads back exactly when neither domain holds a bar. */
  lemma WireRoundTrip(c: Challenge)
    requires c.Valid()
    ensures FromWire(ToWire(c)) == Some(c) <==> '|' !in c.senderDomain && '|' !in c.receiverDomain
  {
    if '|' !in c.senderDomain && '|' !in c.receiverDomain {
      var parts := [c.senderDomain, c.receiverDomain, Hex(c.nonce), ToSigned(c.issuedAt)];
      HexIsHexText(c.nonce);
      BarFreeNumber(c.issuedAt);
      SplitJoin(parts, '|');
      HexReadsBack(c.nonce);
      ParseSigned(c.issuedAt);
    }
  }

  lemma BarFreeNumber(n: int)
    ensures '|' !in ToSigned(n)
  {
    assert n < 0 ==> AllDigits(ToDecimal(-n));
    assert n >= 0 ==> AllDigits(ToDecimal(n));
  }

  /** The AUTH reply: the challenge, a bar, the signature in hex. */
  function AuthReplyText(c: Challenge, signature: Bytes): string {
    ToWire(c) + ['|'] + Hex(signature)
  }

  /** How the client takes the reply apart: at the last bar. */
  function ParseAuthReply(s: string): Option<(Challenge, Bytes)> {
    match CutLast(s, '|')
    case None => None
    case Some((wire, sigHex)) =>
      match (FromWire(wire), HexDecode(sigHex))
      case (Some(c), Some(sig)) => Some((c, sig))
      case _ => None
  }

  lemma AuthReplyRoundTrip(c: Challenge, signature: Bytes)
    requires c.Valid()
    ensures ParseAuthReply(AuthReplyText(c, signature)) == Some((c, signature))
            <==> '|' !in c.senderDomain && '|' !in c.receiverDomain
  {
    HexIsHexText(signature);
    HexReadsBack(signature);
    CutLastIs(ToWire(c), '|', Hex(signature));
    WireRoundTrip(c);
  }

  // ----------------------------------------------------------- signed bytes

  datatype Attestation = Attestation(
    domain: string, user: string, mode: AddrMode, address: string, pubkey: string, signature: Bytes)

  datatype Registration = Registration(
    domain: string, username: string, masterPubkey: string, ivk: Option<string>, registeredAt: int)

  /** Eight bytes, most significant first, of a 64-bit two's complement number. */
  function BigEndian(v: nat, k: nat): (r: Bytes)
    ensures |r| == k
  {
    if k == 0 then [] else BigEndian(v / 256, k - 1) + [v % 256]
  }

  function I64Bytes(n: int): (r: Bytes)
    requires IsI64(n)
    ensures |r| == 8
  {
    BigEndian(if n < 0 then n + 0x1_0000_0000_0000_0000 else n, 8)
  }

  const CHALLENGE_TAG: string := "zsmtp-v1"
  const ATTESTATION_TAG: string := "zsmtp-attest-v1"
  const REGISTRATION_TAG: string := "reg-v1"

  function Field(s: string): Bytes {
    Encode(s) + [0]
  }

  function ChallengeFields(c: Challenge): Bytes
    requires c.Valid()
  {
    Field(c.senderDomain) + (Field(c.receiverDomain) + (c.nonce + I64Bytes(c.issuedAt)))
  }

  /** What `Challenge::digest` hashes. */
  function ChallengePreimage(c: Challenge): Bytes
    requires c.Valid()
  {
    Encode(CHALLENGE_TAG) + ChallengeFields(c)
  }

  function AttestationFields(a: Attestation): Bytes {
    Field(a.domain) + (Field(a.user) + (Field(ModeWord(a.mode)) + (Field(a.address) + Encode(a.pubkey))))
  }

  /** What `Attestation::canonical_digest` hashes. */
  function AttestationPreimage(a: Attestation): Bytes {
    Encode(ATTESTATION_TAG) + AttestationFields(a)
  }

  function IvkText(r: Registration): string {
    match r.ivk case None => "" case Some(s) => s
  }

  function RegistrationFields(r: Registration): Bytes
    requires IsI64(r.registeredAt)
  {
    Field(r.domain) + (Field(r.username) + (Field(r.masterPubkey) + (Field(IvkText(r)) + I64Bytes(r.registeredAt))))
  }

  /** What `RegistrationAttestation::digest` hashes. */
  function RegistrationPreimage(r: Registration): Bytes
    requires IsI64(r.registeredAt)
  {
    Encode(REGISTRATION_TAG) + RegistrationFields(r)
  }

  predicate NulFree(s: string) {
    '\0' !in s
  }

  lemma SamePrefix(p: Bytes, x: Bytes, y: Bytes)
    requires p + x == p + y
    ensures x == y
  {
    assert (p + x)[|p|..] == x && (p + y)[|p|..] == y;
  }

  lemma FirstFieldUnique(s: string, x: Bytes, t: string, y: Bytes)
    requires NulFree(s) && NulFree(t) && Field(s) + x == Field(t) + y
    ensures s == t && x == y
  {
    var u := Field(s) + x;
    EncodeAsciiMember(s, '\0');
    EncodeAsciiMember(t, '\0');
    assert forall i | 0 <= i < |Encode(s)| :: u[i] == Encode(s)[i];
    assert forall i | 0 <= i < |Encode(t)| :: u[i] == Encode(t)[i];
    FindIs(u, 0, |Encode(s)|);
    FindIs(u, 0, |Encode(t)|);
    assert u[..|Encode(s)|] == Encode(s) && u[..|Encode(t)|] == Encode(t);
    EncodeInjective(s, t);
    SamePrefix(Field(s), x, y);
  }

  lemma {:induction false} BigEndianInjective(v: nat, w: nat, k: nat)
    requires BigEndian(v, k) == BigEndian(w, k) && v < Pow256(k) && w < Pow256(k)
    ensures v == w
  {
    if k > 0 {
      var a, b := BigEndian(v, k), BigEndian(w, k);
      assert a[..k - 1] == BigEndian(v / 256, k - 1) && b[..k - 1] == BigEndian(w / 256, k - 1);
      assert a[k - 1] == v % 256 && b[k - 1] == w % 256;
      BigEndianInjective(v / 256, w / 256, k - 1);
    }
  }

  function Pow256(k: nat): nat {
    if k == 0 then 1 else 256 * Pow256(k - 1)
  }

  lemma I64BytesInjective(m: int, n: int)
    requires IsI64(m) && IsI64(n) && I64Bytes(m) == I64Bytes(n)
    ensures m == n
  {
    assert Pow256(8) == 0x1_0000_0000_0000_0000;
    BigEndianInjective(if m < 0 then m + 0x1_0000_0000_0000_0000 else m,
                       if n < 0 then n + 0x1_0000_0000_0000_0000 else n, 8);
  }

  /** Two challenges hash the same bytes only if they are the same challenge. */
  lemma ChallengePreimageInjective(c: Challenge, d: Challenge)
    requires c.Valid() && d.Valid()
    requires NulFree(c.senderDomain) && NulFree(c.receiverDomain) && NulFree(d.senderDomain) && NulFree(d.receiverDomain)
    ensures ChallengePreimage(c) == ChallengePreimage(d) <==> c == d
  {
    if ChallengePreimage(c) == ChallengePreimage(d) {
      var x, y := c.nonce + I64Bytes(c.issuedAt), d.nonce + I64Bytes(d.issuedAt);
      SamePrefix(Encode(CHALLENGE_TAG), Field(c.senderDomain) + (Field(c.receiverDomain) + x),
                 Field(d.senderDomain) + (Field(d.receiverDomain) + y));
      FirstFieldUnique(c.senderDomain, Field(c.receiverDomain) + x, d.senderDomain, Field(d.receiverDomain) + y);
      FirstFieldUnique(c.receiverDomain, x, d.receiverDomain, y);
      assert c.nonce == x[..16] && d.nonce == y[..16];
      SamePrefix(c.nonce, I64Bytes(c.issuedAt), I64Bytes(d.issuedAt));
      I64BytesInjective(c.issuedAt, d.issuedAt);
    }
  }

  predicate NulFreeAttestation(a: Attestation) {
    NulFree(a.domain) && NulFree(a.user) && NulFree(a.address) && NulFree(a.pubkey)
  }

  lemma ModeWordsDiffer(m: AddrMode, n: AddrMode)
    ensures NulFree(ModeWord(m))
    ensures ModeWord(m) == ModeWord(n) ==> m == n
  {
    assert |ModeWord(Ephemeral)| == 9 && |ModeWord(Attested)| == 8;
  }

  /** Two attestations hash the same bytes only if everything but the signature agrees. */
  lemma AttestationPreimageInjective(a: Attestation, b: Attestation)
    requires NulFreeAttestation(a) && NulFreeAttestation(b)
    ensures AttestationPreimage(a) == AttestationPreimage(b) <==> a.(signature := []) == b.(signature := [])
  {
    if AttestationPreimage(a) == AttestationPreimage(b) {
      ModeWordsDiffer(a.mode, b.mode);
      ModeWordsDiffer(b.mode, a.mode);
      var a3, b3 := Field(a.address) + Encode(a.pubkey), Field(b.address) + Encode(b.pubkey);
      var a2, b2 := Field(ModeWord(a.mode)) + a3, Field(ModeWord(b.mode)) + b3;
      var a1, b1 := Field(a.user) + a2, Field(b.user) + b2;
      SamePrefix(Encode(ATTESTATION_TAG), Field(a.domain) + a1, Field(b.domain) + b1);
      FirstFieldUnique(a.domain, a1, b.domain, b1);
      FirstFieldUnique(a.user, a2, b.user, b2);
      FirstFieldUnique(ModeWord(a.mode), a3, ModeWord(b.mode), b3);
      FirstFieldUnique(a.address, Encode(a.pubkey), b.address, Encode(b.pubkey));
      EncodeInjective(a.pubkey, b.pubkey);
    }
  }

  predicate NulFreeRegistration(r: Registration) {
    NulFree(r.domain) && NulFree(r.username) && NulFree(r.masterPubkey) && NulFree(IvkText(r))
  }

  /** Registrations likewise, except that an absent IVK and an empty one hash alike. */
  lemma RegistrationPreimageInjective(r: Registration, q: Registration)
    requires IsI64(r.registeredAt) && IsI64(q.registeredAt) && NulFreeRegistration(r) && NulFreeRegistration(q)
    ensures RegistrationPreimage(r) == RegistrationPreimage(q)
            <==> r.(ivk := None) == q.(ivk := None) && IvkText(r) == IvkText(q)
  {
    if RegistrationPreimage(r) == RegistrationPreimage(q) {
      var r3, q3 := Field(IvkText(r)) + I64Bytes(r.registeredAt), Field(IvkText(q)) + I64Bytes(q.registeredAt);
      var r2, q2 := Field(r.masterPubkey) + r3, Field(q.masterPubkey) + q3;
      var r1, q1 := Field(r.username) + r2, Field(q.username) + q2;
      SamePrefix(Encode(REGISTRATION_TAG), Field(r.domain) + r1, Field(q.domain) + q1);
      FirstFieldUnique(r.domain, r1, q.domain, q1);
      FirstFieldUnique(r.username, r2, q.username, q2);
      FirstFieldUnique(r.masterPubkey, r3, q.masterPubkey, q3);
      FirstFieldUnique(IvkText(r), I64Bytes(r.registeredAt), IvkText(q), I64Bytes(q.registeredAt));
      I64BytesInjective(r.registeredAt, q.registeredAt);
    }
  }

  lemma TagsDiffer(t: string, x: Bytes, u: string, y: Bytes, i: nat)
    requires IsAscii(t) && IsAscii(u) && i < |t| && i < |u| && t[i] != u[i]
    ensures Encode(t) + x != Encode(u) + y
  {
    EncodeAscii(t);
    EncodeAscii(u);
    assert (Encode(t) + x)[i] == t[i] as int;
    assert (Encode(u) + y)[i] == u[i] as int;
  }

  lemma TagsAreAscii()
    ensures IsAscii(CHALLENGE_TAG) && IsAscii(ATTESTATION_TAG) && IsAscii(REGISTRATION_TAG)
    ensures |CHALLENGE_TAG| == 8 && |ATTESTATION_TAG| == 15 && |REGISTRATION_TAG| == 6
    ensures CHALLENGE_TAG[6] != ATTESTATION_TAG[6]
    ensures CHALLENGE_TAG[0] != REGISTRATION_TAG[0] && ATTESTATION_TAG[0] != REGISTRATION_TAG[0]
  {
  }

  /** A signature over one kind of statement is never one over another: the three kinds
      of hashed bytes never coincide, whatever the fields hold. */
  lemma PreimageKindsDisjoint(c: Challenge, a: Attestation, r: Registration)
    requires c.Valid() && IsI64(r.registeredAt)
    ensures ChallengePreimage(c) != AttestationPreimage(a)
    ensures ChallengePreimage(c) != RegistrationPreimage(r)
    ensures AttestationPreimage(a) != RegistrationPreimage(r)
  {
    TagsAreAscii();
    TagsDiffer(CHALLENGE_TAG, ChallengeFields(c), ATTESTATION_TAG, AttestationFields(a), 6);
    TagsDiffer(CHALLENGE_TAG, ChallengeFields(c), REGISTRATION_TAG, RegistrationFields(r), 0);
    TagsDiffer(ATTESTATION_TAG, AttestationFields(a), REGISTRATION_TAG, RegistrationFields(r), 0);
  }

  lemma EncodeWithNul(x: string, y: string)
    ensures Encode(x + "\0" + y) == Field(x) + Encode(y)
  {
    EncodeConcat(x + "\0", y);
    EncodeConcat(x, "\0");
    assert Encode("\0") == [0];
  }

  lemma Reassociate(a: Bytes, b: Bytes, c: Bytes)
    ensures ((a + b) + [0]) + (c + [0]) == a + (((b + [0]) + c) + [0])
  {
  }

  lemma NulMoves(x: string, y: string, z: string)
    ensures Field(x + "\0" + y) + Field(z) == Field(x) + Field(y + "\0" + z)
  {
    EncodeWithNul(x, y);
    EncodeWithNul(y, z);
    Reassociate(Field(x), Encode(y), Encode(z));
  }

  /** NUL-freeness is what carries injectivity: with a NUL inside a field, two different
      attestations hash the same bytes. */
  lemma NulFieldsCollide(x: string, y: string, z: string, a: Attestation)
    ensures var l := a.(domain := x + "\0" + y, user := z);
            var m := a.(domain := x, user := y + "\0" + z);
            l != m && AttestationPreimage(l) == AttestationPreimage(m)
  {
    var tail := Field(ModeWord(a.mode)) + (Field(a.address) + Encode(a.pubkey));
    NulMoves(x, y, z);
    SameHead(Field(x + "\0" + y), Field(z), Field(x), Field(y + "\0" + z), tail);
    assert |x + "\0" + y| > |x|;
  }

  lemma SameHead(a: Bytes, b: Bytes, c: Bytes, d: Bytes, tail: Bytes)
    requires a + b == c + d
    ensures a + (b + tail) == c + (d + tail)
  {
    assert a + (b + tail) == (a + b) + tail;
    assert c + (d + tail) == (c + d) + tail;
  }

  // -------------------------------------------------------------- signatures

  /** The cryptographic and serialisation libraries, of which only correctness laws matter. */
  datatype Primitives = Primitives(
    b64: Base64,
    hash: Bytes -> Bytes,
    publicKey: Bytes -> Bytes,
    sign: (Bytes, Bytes) -> Bytes,
    verify: (Bytes, Bytes, Bytes) -> bool,
    toJson: Attestation -> string,
    fromJson: string -> Option<Attestation>)
  {
    ghost predicate Lawful() {
      && b64.Lawful()
      && (forall k, d :: |sign(k, d)| == 64 && verify(publicKey(k), d, sign(k, d)))
      && (forall a :: fromJson(toJson(a)) == Some(a))
    }
  }

  const MAX_CHALLENGE_AGE: int := 300

  /** `ChallengeResponse::verify` at time `now`. */
  predicate VerifyResponse(p: Primitives, c: Challenge, signature: Bytes, publicKey: Bytes, now: int)
    requires c.Valid()
  {
    && c.senderDomain != "" && c.receiverDomain != ""
    && 0 <= now - c.issuedAt <= MAX_CHALLENGE_AGE
    && |signature| == 64
    && p.verify(publicKey, p.hash(ChallengePreimage(c)), signature)
  }

  /** `Attestation::sign`. */
  function SignAttestation(p: Primitives, key: Bytes, domain: string, user: string, mode: AddrMode,
                           address: string, pubkey: string): Attestation
  {
    var a := Attestation(domain, user, mode, address, pubkey, []);
    a.(signature := p.sign(key, p.hash(AttestationPreimage(a))))
  }

  /** `Attestation::verify`. */
  predicate VerifyAttestation(p: Primitives, a: Attestation, publicKey: Bytes, expectedDomain: string) {
    && a.domain == expectedDomain
    && |a.signature| == 64
    && p.verify(publicKey, p.hash(AttestationPreimage(a)), a.signature)
  }
}
