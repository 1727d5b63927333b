/** Sequence sets of FETCH, STORE and their UID forms: what the server selects, and what the set denotes. */
module SequenceSet {
  import opened Utf8
  import opened Text

  const U32_MAX: nat := 0xFFFF_FFFF

  function Max(a: nat, b: nat): nat {
    if a < b then b else a
  }

  function Min(a: nat, b: nat): nat {
    if a < b then a else b
  }

  /** `seq_num`: `*` is the message count, and what does not parse is 1. */
  function SeqNum(s: string, count: nat): nat {
    if s == "*" then Max(count, 1)
    else
      match ParseUnsigned(s, U32_MAX)
      case Some(n) => Max(n, 1)
      case None => 1
  }

  predicate InPart(part: string, uid: nat, count: nat) {
    var k := Find(part, ':');
    if k < |part| then
      var a, b := SeqNum(part[..k], count), SeqNum(part[k + 1..], count);
      Min(a, b) <= uid <= Max(a, b)
    else uid == SeqNum(part, count)
  }

  predicate InRange(range: string, uid: nat, count: nat) {
    exists part | part in Split(range, ',') :: InPart(part, uid, count)
  }

  /** `in_range`: the loop over the parts, leaving at the first that holds the number. */
  method SelectedBy(range: string, uid: nat, count: nat) returns (found: bool)
    ensures found == InRange(range, uid, count)
  {
    hide InPart, Split;
    var parts := Split(range, ',');
    for i := 0 to |parts|
      invariant forall j | 0 <= j < i :: !InPart(parts[j], uid, count)
    {
      if InPart(parts[i], uid, count) {
        assert parts[i] in parts;
        return true;
      }
    }
    return false;
  }

  /** A number in a set, whatever the client wrote: `*` is the count, a number up to 32 bits is itself, and zero, an empty
      mailbox's count and anything else are 1. */
  lemma NumbersRead(s: string, count: nat)
    ensures SeqNum("*", count) == if count == 0 then 1 else count
    ensures s != "*" && ParseUnsigned(s, 0xFFFF_FFFF).None? ==> SeqNum(s, count) == 1
    ensures forall n | 1 <= n <= 0xFFFF_FFFF :: SeqNum(ToDecimal(n), count) == n
  {
    forall n | 1 <= n <= 0xFFFF_FFFF ensures SeqNum(ToDecimal(n), count) == n {
      ParseDecimal(n, 0xFFFF_FFFF);
      assert IsDigit(ToDecimal(n)[0]) && "*"[0] == '*';
    }
  }

  // ------------------------------------------------------- the sets of RFC 3501

  /** `seq-number`, `seq-range` and `sequence-set` of section 9 of RFC 3501. */
  datatype Number = N(value: nat) | Star
  datatype Item = One(number: Number) | Range(from: Number, to: Number)

  predicate NumberOk(n: Number) {
    n.N? ==> 1 <= n.value <= U32_MAX
  }

  predicate ItemOk(i: Item) {
    match i
    case One(n) => NumberOk(n)
    case Range(a, b) => NumberOk(a) && NumberOk(b)
  }

  predicate SetOk(set_: seq<Item>) {
    set_ != [] && forall i | 0 <= i < |set_| :: ItemOk(set_[i])
  }

  function ValueOf(n: Number, largest: nat): nat {
    match n
    case N(v) => v
    case Star => largest
  }

  /** What the set denotes when `*` is the largest number in use. Both orders of a range mean the same. */
  predicate ItemDenotes(i: Item, n: nat, largest: nat) {
    match i
    case One(a) => n == ValueOf(a, largest)
    case Range(a, b) =>
      || ValueOf(a, largest) <= n <= ValueOf(b, largest)
      || ValueOf(b, largest) <= n <= ValueOf(a, largest)
  }

  predicate Denotes(set_: seq<Item>, n: nat, largest: nat) {
    exists i | 0 <= i < |set_| :: ItemDenotes(set_[i], n, largest)
  }

  function PrintNumber(n: Number): string {
    match n
    case N(v) => ToDecimal(v)
    case Star => "*"
  }

  function PrintItem(i: Item): string {
    match i
    case One(n) => PrintNumber(n)
    case Range(a, b) => PrintNumber(a) + ":" + PrintNumber(b)
  }

  function PrintItems(set_: seq<Item>): (r: seq<string>)
    ensures |r| == |set_| && forall i | 0 <= i < |r| :: r[i] == PrintItem(set_[i])
  {
    seq(|set_|, i requires 0 <= i < |set_| => PrintItem(set_[i]))
  }

  function Print(set_: seq<Item>): string {
    Join(PrintItems(set_), ",")
  }

  lemma NumberReadsBack(n: Number, count: nat)
    requires NumberOk(n)
    ensures SeqNum(PrintNumber(n), count) == ValueOf(n, Max(count, 1))
    ensures ':' !in PrintNumber(n) && ',' !in PrintNumber(n)
  {
    match n
    case N(v) =>
      ParseDecimal(v, U32_MAX);
      assert IsDigit(ToDecimal(v)[0]);
    case Star =>
  }

  lemma ItemReadsBack(i: Item, n: nat, count: nat)
    requires ItemOk(i)
    ensures InPart(PrintItem(i), n, count) <==> ItemDenotes(i, n, Max(count, 1))
    ensures ',' !in PrintItem(i)
  {
    match i
    case One(a) =>
      NumberReadsBack(a, count);
    case Range(a, b) =>
      NumberReadsBack(a, count);
      NumberReadsBack(b, count);
      var p, q := PrintNumber(a), PrintNumber(b);
      var s := p + ":" + q;
      assert s[..|p|] == p && s[|p|] == ':' && s[|p| + 1..] == q;
      FindIs(s, ':', |p|);
  }

  /** For every well-formed set the server's reading of its printed form selects exactly the numbers the set
      denotes, provided `*` is taken as the message count. */
  lemma PrintedSetSelects(set_: seq<Item>, n: nat, count: nat)
    requires SetOk(set_)
    ensures InRange(Print(set_), n, count) <==> Denotes(set_, n, Max(count, 1))
  {
    var parts := PrintItems(set_);
    forall i | 0 <= i < |set_|
      ensures ',' !in parts[i] && (InPart(parts[i], n, count) <==> ItemDenotes(set_[i], n, Max(count, 1)))
    {
      ItemReadsBack(set_[i], n, count);
    }
    SplitJoin(parts, ',');
    if Denotes(set_, n, Max(count, 1)) {
      var i :| 0 <= i < |set_| && ItemDenotes(set_[i], n, Max(count, 1));
      assert parts[i] in parts;
    }
  }

  // ----------------------------------------------------- sets against mailboxes

  /** UIDs of a mailbox in ascending order; the message with sequence number k is the k-th. */
  predicate Ascending(uids: seq<nat>) {
    && (forall i, j | 0 <= i < j < |uids| :: uids[i] < uids[j])
    && (forall i | 0 <= i < |uids| :: 1 <= uids[i] <= U32_MAX)
  }

  predicate Dense(uids: seq<nat>) {
    forall i | 0 <= i < |uids| :: uids[i] == i + 1
  }

  lemma {:induction false} AtLeastPosition(uids: seq<nat>, i: nat)
    requires Ascending(uids) && i < |uids|
    ensures uids[i] >= i + 1
  {
    if i > 0 { AtLeastPosition(uids, i - 1); }
  }

  lemma {:induction false} DenseFromTop(uids: seq<nat>, i: nat)
    requires Ascending(uids) && uids != [] && uids[|uids| - 1] == |uids| && i < |uids|
    ensures uids[i] == i + 1
    decreases |uids| - i
  {
    AtLeastPosition(uids, i);
    if i + 1 < |uids| { DenseFromTop(uids, i + 1); }
  }

  /** For every set, UID FETCH and UID STORE select the messages RFC 3501 asks for: `*` is the largest UID. */
  ghost predicate SelectsByUid(uids: seq<nat>)
    requires uids != []
  {
    forall set_, i | SetOk(set_) && 0 <= i < |uids| ::
      InRange(Print(set_), uids[i], |uids|) <==> Denotes(set_, uids[i], uids[|uids| - 1])
  }

  /** For every set, FETCH and STORE select the messages RFC 3501 asks for, by their place in the mailbox. */
  ghost predicate SelectsByPlace(uids: seq<nat>) {
    forall set_, i | SetOk(set_) && 0 <= i < |uids| ::
      InRange(Print(set_), uids[i], |uids|) <==> Denotes(set_, i + 1, |uids|)
  }

  lemma DenseSelects(uids: seq<nat>)
    requires Dense(uids)
    ensures SelectsByPlace(uids) && (uids != [] ==> SelectsByUid(uids))
  {
    hide InRange, Print, Denotes, SetOk;
    forall set_, i | SetOk(set_) && 0 <= i < |uids|
      ensures InRange(Print(set_), uids[i], |uids|) <==> Denotes(set_, i + 1, |uids|)
    {
      PrintedSetSelects(set_, uids[i], |uids|);
    }
  }

  lemma StarSelectsTop(uids: seq<nat>)
    requires uids != [] && SelectsByUid(uids)
    ensures uids[|uids| - 1] == |uids|
  {
    var n, top := |uids|, uids[|uids| - 1];
    var star := [One(Star)];
    assert SetOk(star) && ItemDenotes(star[0], top, top);
    hide InRange, Print;
    assert InRange(Print(star), top, n) <==> Denotes(star, top, top);
    PrintedSetSelects(star, top, n);
  }

  lemma NumberSelectsPlace(uids: seq<nat>, i: nat)
    requires |uids| <= U32_MAX && SelectsByPlace(uids) && i < |uids|
    ensures uids[i] == i + 1
  {
    var one := [One(N(i + 1))];
    assert SetOk(one) && ItemDenotes(one[0], i + 1, |uids|);
    hide InRange, Print;
    assert InRange(Print(one), uids[i], |uids|) <==> Denotes(one, i + 1, |uids|);
    PrintedSetSelects(one, uids[i], |uids|);
  }

  /** In any mailbox, the selection by UID is right for every set if and only if the largest UID is the number of messages. */
  lemma UidSelectionByTop(uids: seq<nat>)
    requires uids != []
    ensures SelectsByUid(uids) <==> uids[|uids| - 1] == |uids|
  {
    if uids[|uids| - 1] == |uids| {
      hide InRange, Print, Denotes, SetOk;
      forall set_, i | SetOk(set_) && 0 <= i < |uids|
        ensures InRange(Print(set_), uids[i], |uids|) <==> Denotes(set_, uids[i], uids[|uids| - 1])
      {
        PrintedSetSelects(set_, uids[i], |uids|);
      }
    }
    if SelectsByUid(uids) { StarSelectsTop(uids); }
  }

  /** The selection by UID is right for every set if and only if the UIDs are exactly 1 to the number of messages. */
  lemma UidSelectionExact(uids: seq<nat>)
    requires Ascending(uids) && uids != []
    ensures SelectsByUid(uids) <==> Dense(uids)
  {
    hide SelectsByUid;
    if Dense(uids) { DenseSelects(uids); }
    if SelectsByUid(uids) {
      StarSelectsTop(uids);
      forall i | 0 <= i < |uids| ensures uids[i] == i + 1 { DenseFromTop(uids, i); }
    }
  }

  /** The server compares sequence numbers with UIDs, so the selection by sequence number is right for every set if
      and only if the UIDs are exactly 1 to the number of messages. */
  lemma SequenceSelectionExact(uids: seq<nat>)
    requires |uids| <= U32_MAX
    ensures SelectsByPlace(uids) <==> Dense(uids)
  {
    hide SelectsByPlace;
    if Dense(uids) { DenseSelects(uids); }
    if SelectsByPlace(uids) {
      forall i | 0 <= i < |uids| ensures uids[i] == i + 1 { NumberSelectsPlace(uids, i); }
    }
  }

  /** A set without `*` selects by UID correctly in every mailbox. */
  lemma StarFreeSelection(set_: seq<Item>, n: nat, count: nat, largest: nat)
    requires SetOk(set_)
    requires forall i | 0 <= i < |set_| :: match set_[i] case One(a) => a.N? case Range(a, b) => a.N? && b.N?
    ensures InRange(Print(set_), n, count) <==> Denotes(set_, n, largest)
  {
    PrintedSetSelects(set_, n, count);
    assert forall i | 0 <= i < |set_| :: ItemDenotes(set_[i], n, Max(count, 1)) <==> ItemDenotes(set_[i], n, largest);
  }

  /** One of two messages expunged: `*` no longer selects the one that is left. */
  lemma StarAfterExpunge()
    ensures Ascending([2]) && !InRange("*", 2, 1) && Denotes([One(Star)], 2, 2)
  {
    assert ItemDenotes([One(Star)][0], 2, 2);
    PrintedSetSelects([One(Star)], 2, 1);
    assert Print([One(Star)]) == "*";
  }
}
