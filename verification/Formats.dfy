/** The assumptions about formats can be met: here are a sidecar format, a state
    file codec and a suffix for hidden names that meet them. */
module Formats {
  import opened Basics
  import opened FileStores
  import opened PartialState
  import PartialNames
  import JobRecords
  import JobStore

  // ---- A sidecar of fixed width ----

  function Power(k: nat): nat {
    if k == 0 then 1 else 256 * Power(k - 1)
  }

  /** The `k` low digits of a number in base 256. */
  function Digits(n: nat, k: nat): Bytes
    decreases k
  {
    if k == 0 then [] else [n % 256] + Digits(n / 256, k - 1)
  }

  lemma {:induction false} DigitsDiffer(n: nat, m: nat, k: nat)
    requires n < Power(k) && m < Power(k) && Digits(n, k) == Digits(m, k)
    ensures n == m
    decreases k
  {
    if k > 0 {
      assert Digits(n, k)[0] == Digits(m, k)[0] && Digits(n, k)[1..] == Digits(m, k)[1..];
      assert Digits(n, k)[1..] == Digits(n / 256, k - 1) && Digits(m, k)[1..] == Digits(m / 256, k - 1);
      DigitsDiffer(n / 256, m / 256, k - 1);
    }
  }

  lemma {:induction false} DigitsLength(n: nat, k: nat)
    ensures |Digits(n, k)| == k
    decreases k
  {
    if k > 0 { DigitsLength(n / 256, k - 1); }
  }

  lemma EightDigits()
    ensures Power(8) == 2 * SIZE_LIMIT
  {
    assert Power(2) == 0x1_0000;
    assert Power(4) == 0x1_0000_0000;
    assert Power(6) == 0x1_0000_0000_0000;
  }

  function Word(i: int): Bytes
    requires -SIZE_LIMIT <= i < SIZE_LIMIT
  {
    Digits(i + SIZE_LIMIT, 8)
  }

  function Text(d: Digest): Bytes {
    seq(|d|, i requires 0 <= i < |d| => assert Hex(d[i]); d[i] as int)
  }

  function Encoded(m: Metadata): Bytes {
    Word(m.schema) + Word(m.sourceSize) + Word(m.sourceMTime) + Word(m.prefixBytes) + Text(m.prefixSHA256)
  }

  lemma WordsDiffer(a: int, b: int)
    requires -SIZE_LIMIT <= a < SIZE_LIMIT && -SIZE_LIMIT <= b < SIZE_LIMIT && Word(a) == Word(b)
    ensures a == b
  {
    EightDigits();
    DigitsDiffer(a + SIZE_LIMIT, b + SIZE_LIMIT, 8);
  }

  lemma TextsDiffer(a: Digest, b: Digest)
    requires Text(a) == Text(b)
    ensures a == b
  {
    assert |a| == |Text(a)| == |b|;
    forall i | 0 <= i < |a| ensures a[i] == b[i] {
      assert Text(a)[i] == Text(b)[i];
    }
  }

  lemma FiveParts(a: Bytes, b: Bytes, c: Bytes, d: Bytes, e: Bytes)
    requires |a| == 8 && |b| == 8 && |c| == 8 && |d| == 8
    ensures var all := a + b + c + d + e;
            |all| == 32 + |e| && all[..8] == a && all[8..16] == b && all[16..24] == c && all[24..32] == d && all[32..] == e
  {
  }

  lemma Fields(m: Metadata)
    ensures |Encoded(m)| == 96
    ensures Encoded(m)[..8] == Word(m.schema) && Encoded(m)[8..16] == Word(m.sourceSize)
    ensures Encoded(m)[16..24] == Word(m.sourceMTime) && Encoded(m)[24..32] == Word(m.prefixBytes)
    ensures Encoded(m)[32..] == Text(m.prefixSHA256)
  {
    DigitsLength(m.schema + SIZE_LIMIT, 8);
    DigitsLength(m.sourceSize + SIZE_LIMIT, 8);
    DigitsLength(m.sourceMTime + SIZE_LIMIT, 8);
    DigitsLength(m.prefixBytes + SIZE_LIMIT, 8);
    FiveParts(Word(m.schema), Word(m.sourceSize), Word(m.sourceMTime), Word(m.prefixBytes), Text(m.prefixSHA256));
  }

  lemma EncodedDiffer(a: Metadata, b: Metadata)
    requires Encoded(a) == Encoded(b)
    ensures a == b
  {
    Fields(a);
    Fields(b);
    WordsDiffer(a.schema, b.schema);
    WordsDiffer(a.sourceSize, b.sourceSize);
    WordsDiffer(a.sourceMTime, b.sourceMTime);
    WordsDiffer(a.prefixBytes, b.prefixBytes);
    TextsDiffer(a.prefixSHA256, b.prefixSHA256);
  }

  ghost predicate Encodes(m: Metadata, b: Bytes) { Encoded(m) == b }

  ghost function Decoded(b: Bytes): Option<Metadata> {
    if exists m :: Encodes(m, b) then var m :| Encodes(m, b); Some(m) else None
  }

  /** Whatever the hash, there is a format that meets Faithful. */
  lemma FaithfulFormatExists(sha256: Bytes -> Digest)
    ensures exists f: Format :: f.sha256 == sha256 && PartialState.Faithful(f)
  {
    ghost var f := Format(sha256, Encoded, b => Decoded(b));
    forall m ensures |f.encode(m)| <= METADATA_LIMIT && f.decode(f.encode(m)) == Some(m) {
      Fields(m);
      assert Encodes(m, Encoded(m));
      var other :| Encodes(other, Encoded(m)) && Decoded(Encoded(m)) == Some(other);
      EncodedDiffer(other, m);
    }
    assert PartialState.Faithful(f);
  }

  // ---- A state file that delimits itself ----

  /** What is encoded can be told from what follows it. */
  ghost predicate PrefixFree<T(!new)>(code: T -> Bytes) {
    forall a, b, r, s :: Same(code, a, r, b, s) ==> a == b && r == s
  }

  ghost predicate Same<T>(code: T -> Bytes, a: T, r: Bytes, b: T, s: Bytes) {
    code(a) + r == code(b) + s
  }

  function Unary(n: nat): Bytes {
    if n == 0 then [0] else [1] + Unary(n - 1)
  }

  lemma {:induction false} UnaryDelimits(a: nat, r: Bytes, b: nat, s: Bytes)
    requires Unary(a) + r == Unary(b) + s
    ensures a == b && r == s
  {
    var left, right := Unary(a) + r, Unary(b) + s;
    assert left[0] == right[0] && left[1..] == right[1..];
    if a == 0 {
      assert left[1..] == r && right[0] == 0;
      assert right[1..] == s;
    } else {
      assert left[1..] == Unary(a - 1) + r && right[0] == 1;
      assert right[1..] == Unary(b - 1) + s;
      UnaryDelimits(a - 1, r, b - 1, s);
    }
  }

  function Items<T>(items: seq<T>, code: T -> Bytes): Bytes {
    if items == [] then [] else code(items[0]) + Items(items[1..], code)
  }

  lemma {:induction false} ItemsDelimit<T(!new)>(a: seq<T>, r: Bytes, b: seq<T>, s: Bytes, code: T -> Bytes)
    requires PrefixFree(code) && |a| == |b| && Items(a, code) + r == Items(b, code) + s
    ensures a == b && r == s
  {
    if a != [] {
      assert code(a[0]) + (Items(a[1..], code) + r) == Items(a, code) + r;
      assert code(b[0]) + (Items(b[1..], code) + s) == Items(b, code) + s;
      assert Same(code, a[0], Items(a[1..], code) + r, b[0], Items(b[1..], code) + s);
      ItemsDelimit(a[1..], r, b[1..], s, code);
      assert a == [a[0]] + a[1..] && b == [b[0]] + b[1..];
    } else {
      assert [] + r == r && [] + s == s;
    }
  }

  function List<T>(items: seq<T>, code: T -> Bytes): Bytes {
    Unary(|items|) + Items(items, code)
  }

  lemma ListDelimits<T(!new)>(a: seq<T>, r: Bytes, b: seq<T>, s: Bytes, code: T -> Bytes)
    requires PrefixFree(code) && List(a, code) + r == List(b, code) + s
    ensures a == b && r == s
  {
    assert List(a, code) + r == Unary(|a|) + (Items(a, code) + r);
    assert List(b, code) + s == Unary(|b|) + (Items(b, code) + s);
    UnaryDelimits(|a|, Items(a, code) + r, |b|, Items(b, code) + s);
    ItemsDelimit(a, r, b, s, code);
  }

  function Character(c: char): Bytes {
    Unary(c as int)
  }

  lemma CharacterDelimits()
    ensures PrefixFree(Character)
  {
    forall a, b, r, s | Same(Character, a, r, b, s) ensures a == b && r == s {
      UnaryDelimits(a as int, r, b as int, s);
    }
  }

  function ByteCode(b: Byte): Bytes {
    [b]
  }

  lemma ByteDelimits()
    ensures PrefixFree(ByteCode)
  {
    forall a, b, r, s | Same(ByteCode, a, r, b, s) ensures a == b && r == s {
      assert (ByteCode(a) + r)[0] == (ByteCode(b) + s)[0];
      assert (ByteCode(a) + r)[1..] == r && (ByteCode(b) + s)[1..] == s;
    }
  }

  function String(t: string): Bytes {
    List(t, Character)
  }

  lemma StringDelimits()
    ensures PrefixFree(String)
  {
    CharacterDelimits();
    forall a, b, r, s | Same(String, a, r, b, s) ensures a == b && r == s {
      ListDelimits(a, r, b, s, Character);
    }
  }

  /** The small fields of a record, as one number. */
  function Tag(r: JobRecords.Record): nat {
    (match r.status
     case Queued => 0 case Running => 1 case Cancelling => 2 case Pausing => 3 case Paused => 4
     case NeedsPassword => 5 case Verified => 6 case Interrupted => 7 case Failed => 8 case Canceled => 9)
    + (if r.auth.KeyAuth? then 0 else 10) + (if r.verified then 20 else 0)
  }

  function Zigzag(i: int): nat {
    if i >= 0 then 2 * i else -2 * i - 1
  }

  function RecordCode(r: JobRecords.Record): Bytes {
    Unary(Tag(r)) + (Unary(Zigzag(r.created)) + String(r.id))
  }

  lemma RecordDelimits()
    ensures PrefixFree(RecordCode)
  {
    forall a, b, r, s | Same(RecordCode, a, r, b, s) ensures a == b && r == s {
      OneRecordDelimits(a, r, b, s);
    }
  }

  lemma OneRecordDelimits(a: JobRecords.Record, r: Bytes, b: JobRecords.Record, s: Bytes)
    requires RecordCode(a) + r == RecordCode(b) + s
    ensures a == b && r == s
  {
    StringDelimits();
    var x, y := Unary(Zigzag(a.created)) + (String(a.id) + r), Unary(Zigzag(b.created)) + (String(b.id) + s);
    assert RecordCode(a) + r == Unary(Tag(a)) + x && RecordCode(b) + s == Unary(Tag(b)) + y;
    UnaryDelimits(Tag(a), x, Tag(b), y);
    UnaryDelimits(Zigzag(a.created), String(a.id) + r, Zigzag(b.created), String(b.id) + s);
    assert Same(String, a.id, r, b.id, s);
  }

  function StateCode(t: JobStore.State): Bytes {
    List(t.jobs, RecordCode) + (List(t.history, String) + List(t.rest, ByteCode))
  }

  lemma StatesDiffer(a: JobStore.State, b: JobStore.State)
    requires StateCode(a) == StateCode(b)
    ensures a == b
  {
    RecordDelimits();
    StringDelimits();
    ByteDelimits();
    var x, y := List(a.history, String) + List(a.rest, ByteCode), List(b.history, String) + List(b.rest, ByteCode);
    ListDelimits(a.jobs, x, b.jobs, y, RecordCode);
    ListDelimits(a.history, List(a.rest, ByteCode), b.history, List(b.rest, ByteCode), String);
    assert List(a.rest, ByteCode) + [] == List(b.rest, ByteCode) + [];
    ListDelimits(a.rest, [], b.rest, [], ByteCode);
  }

  ghost predicate Codes(t: JobStore.State, b: Bytes) { StateCode(t) == b }

  ghost function StateOf(b: Bytes): Option<JobStore.State> {
    if exists t :: Codes(t, b) then var t :| Codes(t, b); Some(t) else None
  }

  /** There is a codec that meets the assumption made of the state file. */
  lemma FaithfulCodecExists()
    ensures exists c: JobStore.Codec :: JobStore.Faithful(c)
  {
    ghost var c := JobStore.Codec(StateCode, b => StateOf(b));
    forall t ensures c.decode(c.encode(t)) == Some(t) {
      assert Codes(t, StateCode(t));
      var other :| Codes(other, StateCode(t)) && StateOf(StateCode(t)) == Some(other);
      StatesDiffer(other, t);
    }
    assert JobStore.Faithful(c);
  }

  // ---- Suffixes of hidden names ----

  lemma WellShapedSuffixExists()
    ensures exists suffix: PartialNames.SuffixOf :: PartialNames.WellShaped(suffix)
  {
    var suffix: PartialNames.SuffixOf := (d: Path, n: nat, h: Digest) => "0123456789abcdef";
    assert PartialNames.WellShaped(suffix);
  }
}
