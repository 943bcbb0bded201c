/** `keyHashSlot` of `hircluster.c`: which of the 16384 hash slots a key belongs to. */
module KeySlot {
  import opened Bytes
  import opened Crc16Bits
  import Crc16

  /** The part of a key that is hashed: what lies between the first `{` and the first `}`
      after it when that is not empty, otherwise the whole key. */
  function Hashed(key: Text): Text {
    var s := FirstIndex(key, LEFT_BRACE, 0);
    if s == |key| then key else
    var e := FirstIndex(key, RIGHT_BRACE, s + 1);
    if e == |key| || e == s + 1 then key else key[s + 1..e]
  }

  /** The least significant 14 bits of the checksum. */
  function SlotOfText(t: Text): (slot: nat)
    ensures slot < SLOTS
  {
    MaskBound(Remainder(t));
    (Remainder(t) & 0x3FFF) as int
  }

  lemma MaskBound(crc: bv16)
    ensures (crc & 0x3FFF) as int < 16384
  {
    assert crc & 0x3FFF <= 0x3FFF;
  }

  function Slot(key: Text): (slot: nat)
    ensures slot < SLOTS
  {
    SlotOfText(Hashed(key))
  }

  /** The slot of a key is what is left of the checksum of its hashed part on division by the number
      of slots. */
  lemma SlotIsRemainder(key: Text)
    ensures Slot(key) == (Remainder(Hashed(key)) % 0x4000) as int
  {
    MaskDivides(Remainder(Hashed(key)));
  }

  lemma MaskDivides(crc: bv16)
    ensures crc & 0x3FFF == crc % 0x4000
  {
  }

  lemma SlotOfHashed(key: Text, t: Text)
    requires Hashed(key) == t
    ensures Slot(key) == SlotOfText(t)
  {
  }

  /** `keyHashSlot`. */
  method KeyHashSlot(key: Text) returns (slot: nat)
    ensures slot == Slot(key) < SLOTS
  {
    var s := 0;
    while s < |key| && key[s] != LEFT_BRACE
      invariant 0 <= s <= |key| && FirstIndex(key, LEFT_BRACE, s) == FirstIndex(key, LEFT_BRACE, 0)
    {
      s := s + 1;
    }
    if s == |key| {
      SlotOfHashed(key, key);
      slot := LowBits14(key);
      return;
    }
    var e := s + 1;
    while e < |key| && key[e] != RIGHT_BRACE
      invariant s < e <= |key| && FirstIndex(key, RIGHT_BRACE, e) == FirstIndex(key, RIGHT_BRACE, s + 1)
    {
      e := e + 1;
    }
    if e == |key| || e == s + 1 {
      SlotOfHashed(key, key);
      slot := LowBits14(key);
      return;
    }
    SlotOfHashed(key, key[s + 1..e]);
    slot := LowBits14(key[s + 1..e]);
  }

  method LowBits14(t: Text) returns (slot: nat)
    ensures slot == SlotOfText(t)
  {
    var crc := Crc16.Crc16(t);
    MaskBound(crc);
    slot := (crc & 0x3FFF) as int;
  }

  /** Keys that agree on their first non-empty tag share a slot, whatever else they hold. */
  lemma TagDecidesSlot(before: Text, tag: Text, after: Text)
    requires LEFT_BRACE !in before && tag != [] && RIGHT_BRACE !in tag
    ensures Slot(before + [LEFT_BRACE] + tag + [RIGHT_BRACE] + after) == SlotOfText(tag)
  {
    var key := before + [LEFT_BRACE] + tag + [RIGHT_BRACE] + after;
    var s, e := |before|, |before| + 1 + |tag|;
    assert key[s] == LEFT_BRACE && key[..s] == before;
    assert key[e] == RIGHT_BRACE && key[s + 1..e] == tag;
    FirstIndexIs(key, LEFT_BRACE, 0, s);
    FirstIndexIs(key, RIGHT_BRACE, s + 1, e);
  }

  lemma {:induction false} FirstIndexIs(s: Text, b: Byte, from: nat, i: nat)
    requires from <= i < |s| && s[i] == b && b !in s[from..i]
    ensures FirstIndex(s, b, from) == i
    decreases i - from
  {
    if from < i {
      assert s[from] == s[from..i][0] && s[from + 1..i] == s[from..i][1..];
      FirstIndexIs(s, b, from + 1, i);
    }
  }

  /** Without such a tag the whole key is hashed. */
  lemma NoTagHashesAll(key: Text)
    requires forall i, j :: 0 <= i && i + 1 < j < |key| && key[i] == LEFT_BRACE && key[j] == RIGHT_BRACE ==>
      LEFT_BRACE in key[..i] || RIGHT_BRACE in key[i + 1..j]
    ensures Slot(key) == SlotOfText(key)
  {
    var s := FirstIndex(key, LEFT_BRACE, 0);
    if s < |key| {
      var e := FirstIndex(key, RIGHT_BRACE, s + 1);
      assert key[0..s] == key[..s];
    }
  }

  // ---------- keys of zero bytes ----------

  lemma {:induction false} ZerosAppend(m: nat, n: nat)
    ensures Zeros(m) + Zeros(n) == Zeros(m + n)
  {
    if m > 0 { ZerosAppend(m - 1, n); }
  }

  lemma {:induction false} ZerosDivide(n: nat)
    ensures Divide(0, Zeros(n)) == 0
  {
    if n > 0 {
      assert Zeros(n)[1..] == Zeros(n - 1) && DivideStep(0, false) == 0;
      ZerosDivide(n - 1);
    }
  }

  lemma ZeroByte()
    ensures BitsOfByte(0) == Zeros(8)
  {
    assert Zeros(8) == [false, false, false, false, false, false, false, false] by { ZerosAppend(4, 4); }
  }

  lemma {:induction false} ZeroBits(key: Text)
    requires forall i :: 0 <= i < |key| ==> key[i] == 0
    ensures Bits(key) == Zeros(8 * |key|)
  {
    if key != [] {
      ZeroBits(key[1..]);
      ZeroByte();
      ZerosAppend(8, 8 * |key[1..]|);
    }
  }

  /** A key of zero bytes, of any length, belongs to slot 0. */
  lemma ZeroKeySlot(key: Text)
    requires forall i :: 0 <= i < |key| ==> key[i] == 0
    ensures Slot(key) == 0
  {
    assert FirstIndex(key, LEFT_BRACE, 0) == |key|;
    ZeroBits(key);
    ZerosAppend(8 * |key|, 16);
    ZerosDivide(8 * |key| + 16);
  }
}
