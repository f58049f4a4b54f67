/** Log records of leaf operations as bytes: their layout, and reading them back. */
module LogRecord {
  import opened Wrappers
  import opened Diff

  // ----- bytes and 16-bit little-endian numbers

  function Num(b: byte): (r: nat)
    ensures r < 256
  {
    b as nat
  }

  /** The byte with this value. */
  function Byte(x: nat): (b: byte)
    requires x < 256
  {
    if x == 0 then 0 else Byte(x - 1) + 1
  }

  lemma NumNext(b: byte)
    requires b != 255
    ensures Num(b + 1) == Num(b) + 1
  {
  }

  lemma {:induction false} NumByte(x: nat)
    requires x < 256
    ensures Num(Byte(x)) == x
  {
    if x > 0 {
      NumByte(x - 1);
      assert Byte(x - 1) != 255;
      NumNext(Byte(x - 1));
    }
  }

  const LIMIT: nat := 0x1_0000

  function U16(x: nat): (r: seq<byte>)
    requires x < LIMIT
    ensures |r| == 2
  {
    [Byte(x % 256), Byte(x / 256)]
  }

  function Read16(s: seq<byte>): (r: nat)
    requires |s| >= 2
    ensures r < LIMIT
  {
    Num(s[0]) + 256 * Num(s[1])
  }

  lemma Read16Of(x: nat, tail: seq<byte>)
    requires x < LIMIT
    ensures Read16(U16(x) + tail) == x
  {
    NumByte(x % 256);
    NumByte(x / 256);
  }

  // ----- records

  const INSERT: byte := 1
  const UPDATE: byte := 2
  const REMOVE: byte := 3
  const MAGIC: byte := 0x55

  /** sizeof of WALInsert, WALUpdate and WALRemove. */
  const HEADER: nat := 6

  /** The top bit of key_length in insert and update records. */
  const FREEZE: nat := 0x8000

  /** pad: the byte between a descriptor's count and its slots. */
  datatype Record =
    | Insert(key: seq<byte>, value: seq<byte>, freeze: bool)
    | Update(key: seq<byte>, pad: byte, slots: seq<Slot>, diff: seq<byte>, freeze: bool)
    | Remove(key: seq<byte>, value: seq<byte>)

  /** UpdateSameSizeInPlaceDescriptor::size(). */
  function DescriptorSize(slots: seq<Slot>): (r: nat) {
    2 + 4 * |slots|
  }

  /** Field widths: 15 bits of key length, 16-bit lengths, an 8-bit count of at least one slot. */
  predicate Encodable(r: Record) {
    && |r.key| < FREEZE
    && match r
       case Insert(_, value, _) => |value| < LIMIT
       case Remove(_, value) => |value| < LIMIT
       case Update(_, _, slots, diff, _) =>
         && 1 <= |slots| <= 255 && |diff| == DiffLength(slots) && DescriptorSize(slots) + |diff| < LIMIT
         && SlotsEncodable(slots)
  }

  predicate SlotsEncodable(slots: seq<Slot>) {
    forall i | 0 <= i < |slots| :: slots[i].offset < LIMIT && slots[i].length < LIMIT
  }

  function EncodeSlots(slots: seq<Slot>): (r: seq<byte>)
    requires SlotsEncodable(slots)
    ensures |r| == 4 * |slots|
  {
    if slots == [] then []
    else
      var (n, s) := (|slots| - 1, slots[|slots| - 1]);
      EncodeSlots(slots[..n]) + (U16(s.offset) + U16(s.length))
  }

  /** The descriptor as it is copied into the record. */
  function EncodeDescriptor(pad: byte, slots: seq<Slot>): (r: seq<byte>)
    requires SlotsEncodable(slots) && |slots| <= 255
    ensures |r| == DescriptorSize(slots)
  {
    [Byte(|slots|), pad] + EncodeSlots(slots)
  }

  function KeyField(r: Record): (x: nat)
    requires Encodable(r)
    ensures x < LIMIT
  {
    |r.key| + if !r.Remove? && r.freeze then FREEZE else 0
  }

  function LengthField(r: Record): (x: nat)
    requires Encodable(r)
    ensures x < LIMIT
  {
    match r
    case Insert(_, value, _) => |value|
    case Remove(_, value) => |value|
    case Update(_, _, slots, diff, _) => DescriptorSize(slots) + |diff|
  }

  function TypeOf(r: Record): (b: byte) {
    match r
    case Insert(_, _, _) => INSERT
    case Update(_, _, _, _, _) => UPDATE
    case Remove(_, _) => REMOVE
  }

  function EncodeHeader(r: Record): (s: seq<byte>)
    requires Encodable(r)
    ensures |s| == HEADER
  {
    [TypeOf(r), MAGIC] + U16(KeyField(r)) + U16(LengthField(r))
  }

  /** What follows the key. */
  function EncodeBody(r: Record): (s: seq<byte>)
    requires Encodable(r)
    ensures |s| == LengthField(r)
  {
    match r
    case Insert(_, value, _) => value
    case Remove(_, value) => value
    case Update(_, pad, slots, diff, _) => EncodeDescriptor(pad, slots) + diff
  }

  function Encode(r: Record): (s: seq<byte>)
    requires Encodable(r)
    ensures |s| == HEADER + |r.key| + LengthField(r)
  {
    EncodeHeader(r) + r.key + EncodeBody(r)
  }

  // ----- reading

  datatype Parsed = Parsed(record: Record, size: nat)

  function ReadSlots(s: seq<byte>, n: nat): (r: seq<Slot>)
    requires |s| >= 4 * n
    ensures |r| == n
  {
    if n == 0 then []
    else ReadSlots(s, n - 1) + [Slot(Read16(s[4 * (n - 1)..]), Read16(s[4 * (n - 1) + 2..]))]
  }

  /** An update's payload after the key, and the bytes behind the record. */
  function ReadUpdate(key: seq<byte>, p: seq<byte>, freeze: bool): (r: Option<Record>) {
    if |p| < 2 then None
    else
      var n := Num(p[0]);
      if |p| < 2 + 4 * n then None
      else
        var slots := ReadSlots(p[2..], n);
        if |p| < 2 + 4 * n + DiffLength(slots) then None
        else Some(Update(key, p[1], slots, p[2 + 4 * n..2 + 4 * n + DiffLength(slots)], freeze))
  }

  function ParseBody(kind: byte, key: seq<byte>, p: seq<byte>, n: nat, freeze: bool): (r: Option<Record>) {
    if kind == UPDATE then ReadUpdate(key, p, freeze)
    else if |p| < n then None
    else if kind == INSERT then Some(Insert(key, p[..n], freeze))
    else if kind == REMOVE then Some(Remove(key, p[..n]))
    else None
  }

  /** The length of the key; only insert and update records lend its top bit to freeze. */
  function KeyLength(kind: byte, field: nat): (r: nat) {
    if kind == REMOVE then field else field % FREEZE
  }

  /** The record at the start of s; None where redo raises, traps or would read past the log. */
  function Parse(s: seq<byte>): (r: Option<Parsed>) {
    if |s| < HEADER || s[1] != MAGIC then None
    else
      var (field, n) := (Read16(s[2..]), Read16(s[4..]));
      var k := KeyLength(s[0], field);
      if |s| < HEADER + k then None
      else
        match ParseBody(s[0], s[HEADER..HEADER + k], s[HEADER + k..], n, field >= FREEZE)
        case None => None
        case Some(record) => Some(Parsed(record, HEADER + k + n))
  }

  // ----- reading what was written

  lemma ReadSlotAt(front: seq<byte>, s: Slot, tail: seq<byte>)
    requires s.offset < LIMIT && s.length < LIMIT
    ensures var bytes := front + (U16(s.offset) + U16(s.length) + tail);
            Read16(bytes[|front|..]) == s.offset && Read16(bytes[|front| + 2..]) == s.length
  {
    var bytes := front + (U16(s.offset) + U16(s.length) + tail);
    assert bytes[|front|..] == U16(s.offset) + (U16(s.length) + tail);
    assert bytes[|front| + 2..] == U16(s.length) + tail;
    Read16Of(s.offset, U16(s.length) + tail);
    Read16Of(s.length, tail);
  }

  lemma EncodeSlotsLast(slots: seq<Slot>, s: Slot, tail: seq<byte>)
    requires SlotsEncodable(slots) && s.offset < LIMIT && s.length < LIMIT
    ensures SlotsEncodable(slots + [s])
    ensures EncodeSlots(slots + [s]) + tail == EncodeSlots(slots) + (U16(s.offset) + U16(s.length) + tail)
  {
    assert (slots + [s])[..|slots|] == slots;
  }

  lemma {:induction false} SlotsRoundTrip(slots: seq<Slot>, tail: seq<byte>)
    requires SlotsEncodable(slots)
    ensures ReadSlots(EncodeSlots(slots) + tail, |slots|) == slots
    decreases |slots|
  {
    if slots != [] {
      var (rest, s) := (slots[..|slots| - 1], slots[|slots| - 1]);
      assert slots == rest + [s];
      EncodeSlotsLast(rest, s, tail);
      SlotsRoundTrip(rest, U16(s.offset) + U16(s.length) + tail);
      ReadSlotAt(EncodeSlots(rest), s, tail);
    }
  }

  lemma BodyParts(a: byte, b: byte, slots: seq<byte>, diff: seq<byte>, tail: seq<byte>, p: seq<byte>, n: nat, k: nat)
    requires p == [a, b] + slots + diff + tail && n == 2 + |slots| && k == n + |diff|
    ensures |p| >= k >= 2 && p[0] == a && p[1] == b && p[2..] == slots + (diff + tail) && p[n..k] == diff
  {
  }

  lemma UpdateRoundTrip(r: Record, tail: seq<byte>)
    requires Encodable(r) && r.Update?
    ensures ReadUpdate(r.key, EncodeBody(r) + tail, r.freeze) == Some(r)
  {
    UpdateParts(r, tail, EncodeBody(r) + tail, 2 + 4 * |r.slots|);
    ReadUpdateIs(r, EncodeBody(r) + tail);
  }

  lemma UpdateParts(r: Record, tail: seq<byte>, p: seq<byte>, n: nat)
    requires Encodable(r) && r.Update? && p == EncodeBody(r) + tail && n == 2 + 4 * |r.slots|
    ensures |p| >= n + DiffLength(r.slots) && Num(p[0]) == |r.slots| && p[1] == r.pad
    ensures ReadSlots(p[2..], |r.slots|) == r.slots && p[n..n + DiffLength(r.slots)] == r.diff
  {
    BodyParts(Byte(|r.slots|), r.pad, EncodeSlots(r.slots), r.diff, tail, p, n, n + DiffLength(r.slots));
    NumByte(|r.slots|);
    SlotsRoundTrip(r.slots, r.diff + tail);
  }

  lemma ReadUpdateIs(r: Record, p: seq<byte>)
    requires r.Update? && |p| >= 2 && Num(p[0]) == |r.slots| && p[1] == r.pad
    requires |p| >= 2 + 4 * |r.slots| + DiffLength(r.slots) && ReadSlots(p[2..], |r.slots|) == r.slots
    requires p[2 + 4 * |r.slots|..2 + 4 * |r.slots| + DiffLength(r.slots)] == r.diff
    ensures ReadUpdate(r.key, p, r.freeze) == Some(r)
  {
  }

  lemma HeaderRoundTrip(r: Record, tail: seq<byte>)
    requires Encodable(r)
    ensures var s := EncodeHeader(r) + tail;
            s[0] == TypeOf(r) && s[1] == MAGIC && Read16(s[2..]) == KeyField(r) && Read16(s[4..]) == LengthField(r)
  {
    var s := EncodeHeader(r) + tail;
    assert s[2..] == U16(KeyField(r)) + (U16(LengthField(r)) + tail);
    assert s[4..] == U16(LengthField(r)) + tail;
    Read16Of(KeyField(r), U16(LengthField(r)) + tail);
    Read16Of(LengthField(r), tail);
  }

  lemma BodyRoundTrip(r: Record, tail: seq<byte>, freeze: bool)
    requires Encodable(r) && (r.Remove? || freeze == r.freeze)
    ensures ParseBody(TypeOf(r), r.key, EncodeBody(r) + tail, LengthField(r), freeze) == Some(r)
  {
    if r.Update? {
      UpdateRoundTrip(r, tail);
    } else {
      assert (EncodeBody(r) + tail)[..LengthField(r)] == EncodeBody(r);
    }
  }

  lemma KeyFieldRoundTrip(r: Record)
    requires Encodable(r)
    ensures KeyLength(TypeOf(r), KeyField(r)) == |r.key| && (r.Remove? || (KeyField(r) >= FREEZE <==> r.freeze))
  {
  }

  lemma EncodeParts(r: Record, tail: seq<byte>)
    requires Encodable(r)
    ensures var (s, k) := (Encode(r) + tail, |r.key|);
            && s == EncodeHeader(r) + (r.key + EncodeBody(r) + tail)
            && s[HEADER..HEADER + k] == r.key && s[HEADER + k..] == EncodeBody(r) + tail
  {
    FourParts(EncodeHeader(r), r.key, EncodeBody(r), tail);
  }

  lemma FourParts(a: seq<byte>, b: seq<byte>, c: seq<byte>, d: seq<byte>)
    ensures a + b + c + d == a + (b + c + d)
    ensures (a + b + c + d)[|a|..|a| + |b|] == b && (a + b + c + d)[|a| + |b|..] == c + d
  {
  }

  /** Parse, once its fields are known. */
  lemma ParseIs(s: seq<byte>, field: nat, n: nat, key: seq<byte>, p: seq<byte>, r: Record)
    requires |s| >= HEADER && s[1] == MAGIC && Read16(s[2..]) == field && Read16(s[4..]) == n
    requires KeyLength(s[0], field) == |key| && |s| >= HEADER + |key|
    requires s[HEADER..HEADER + |key|] == key && s[HEADER + |key|..] == p
    requires ParseBody(s[0], key, p, n, field >= FREEZE) == Some(r)
    ensures Parse(s) == Some(Parsed(r, HEADER + |key| + n))
  {
  }

  /** A written record reads back, and its size leads to the next one. */
  lemma RoundTrip(r: Record, tail: seq<byte>)
    requires Encodable(r)
    ensures Parse(Encode(r) + tail) == Some(Parsed(r, |Encode(r)|))
  {
    EncodeParts(r, tail);
    HeaderRoundTrip(r, r.key + EncodeBody(r) + tail);
    KeyFieldRoundTrip(r);
    BodyRoundTrip(r, tail, KeyField(r) >= FREEZE);
    ParseIs(Encode(r) + tail, KeyField(r), LengthField(r), r.key, EncodeBody(r) + tail, r);
  }

  lemma BodyIsSound(kind: byte, key: seq<byte>, p: seq<byte>, n: nat, freeze: bool)
    requires ParseBody(kind, key, p, n, freeze).Some?
    ensures var r := ParseBody(kind, key, p, n, freeze).value;
            r.key == key && TypeOf(r) == kind && (r.Remove? || r.freeze == freeze)
            && (!r.Update? ==> n <= |p| && r.value == p[..n])
  {
  }

  lemma FieldOf(kind: byte, field: nat)
    requires field < 2 * FREEZE
    ensures field == KeyLength(kind, field) + (if kind != REMOVE && field >= FREEZE then FREEZE else 0)
  {
  }

  lemma SliceOfTail(s: seq<byte>, k: nat, n: nat)
    requires k + n <= |s|
    ensures s[k..][..n] == s[k..k + n]
  {
  }

  /**
    Whatever the bytes are: a record that is read has the type, the key and the size that its header says, a value is
    the bytes behind the key, and the key field holds nothing but the key's length and the freeze bit.
   */
  lemma ParseIsSound(s: seq<byte>)
    requires Parse(s).Some?
    ensures var (r, size) := (Parse(s).value.record, Parse(s).value.size);
      && |s| >= HEADER + |r.key| && s[0] == TypeOf(r) && s[1] == MAGIC && r.key == s[HEADER..HEADER + |r.key|]
      && Read16(s[2..]) == |r.key| + (if !r.Remove? && r.freeze then FREEZE else 0)
      && size == HEADER + |r.key| + Read16(s[4..])
      && (!r.Update? ==> size <= |s| && r.value == s[HEADER + |r.key|..size])
  {
    var (field, n) := (Read16(s[2..]), Read16(s[4..]));
    var k := KeyLength(s[0], field);
    BodyIsSound(s[0], s[HEADER..HEADER + k], s[HEADER + k..], n, field >= FREEZE);
    FieldOf(s[0], field);
    if HEADER + k + n <= |s| {
      SliceOfTail(s, HEADER + k, n);
    }
  }
}
