/** Reading debug-section bytes through a moving cursor (src/lineno.c), and the
    variable-length integers of section 7.6 of DWARF 5. */
module Leb128 {
  import opened Basics

  const MAX_LEB_BYTES: nat := 10

  function Pow128(n: nat): (p: nat)
    ensures p > 0
  {
    if n == 0 then 1 else 128 * Pow128(n - 1)
  }

  /** `x << bits*i` before truncation, for a radix of 2 to the `bits`. */
  function Shift(x: nat, radix: nat, i: nat): nat
    decreases i
  {
    if i == 0 then x else radix * Shift(x, radix, i - 1)
  }

  lemma {:induction false} ShiftDigit7(digit: nat, rest: nat, i: nat)
    ensures Shift(digit + 128 * rest, 128, i) == Shift(digit, 128, i) + Shift(rest, 128, i + 1)
  {
    if i > 0 {
      ShiftDigit7(digit, rest, i - 1);
    }
  }

  lemma {:induction false} ShiftDigit8(digit: nat, rest: nat, i: nat)
    ensures Shift(digit + 256 * rest, 256, i) == Shift(digit, 256, i) + Shift(rest, 256, i + 1)
  {
    if i > 0 {
      ShiftDigit8(digit, rest, i - 1);
    }
  }

  /** Two's complement reading of a 64-bit word. */
  function ToSigned(w: Word): int {
    if w < TWO_TO_THE_64 / 2 then w else w - TWO_TO_THE_64
  }

  /** One byte, or zero without moving at the end of the data. */
  function U8(s: seq<Byte>, pos: nat): (Byte, nat) {
    if pos < |s| then (s[pos], pos + 1) else (0, pos)
  }

  /** The base-128 digits read so far: their unbounded total, how many, the last, and where. */
  datatype Digits = Digits(total: nat, count: nat, last: Byte, pos: nat)

  function ReadDigits(s: seq<Byte>, pos: nat, left: nat): (d: Digits)
    requires left > 0
    ensures 1 <= d.count <= left && pos <= d.pos
    ensures pos <= |s| ==> d.pos <= |s|
    decreases |s| - pos
  {
    var (b, p) := U8(s, pos);
    if b < 128 || left == 1 then Digits(b % 128, 1, b, p)
    else
      var d := ReadDigits(s, p, left - 1);
      Digits(b % 128 + 128 * d.total, 1 + d.count, d.last, d.pos)
  }

  function UlebValue(d: Digits): Word {
    Wrap(d.total)
  }

  function SlebValue(d: Digits): int {
    ToSigned(Wrap(if d.last % 128 >= 64 && 7 * d.count < 64 then d.total - Shift(1, 128, d.count) else d.total))
  }

  function U16(s: seq<Byte>, pos: nat): (nat, nat) {
    if pos + 2 <= |s| then (Little(s, pos, 2).0, pos + 2) else (0, pos)
  }

  function U32(s: seq<Byte>, pos: nat): (nat, nat) {
    if pos + 4 <= |s| then (Little(s, pos, 4).0, pos + 4) else (0, pos)
  }

  /** `n` bytes, little-endian, each read on its own. */
  function Little(s: seq<Byte>, pos: nat, n: nat): (r: (nat, nat))
    ensures r.0 < Pow256(n) && pos <= r.1
    ensures pos <= |s| ==> r.1 <= |s|
    decreases n, |s|
  {
    if n == 0 then (0, pos)
    else
      var (b, p) := U8(s, pos);
      var (rest, q) := Little(s, p, n - 1);
      (b + 256 * rest, q)
  }

  // ----- the encodings, padded to any length that fits -----

  function UlebBytes(v: nat, n: nat): (s: seq<Byte>)
    requires n > 0 && v < Pow128(n)
    ensures |s| == n
    decreases n
  {
    if n == 1 then [v] else [v % 128 + 128] + UlebBytes(v / 128, n - 1)
  }

  predicate SlebFits(v: int, n: nat)
    requires n > 0
  {
    -64 * Pow128(n - 1) <= v < 64 * Pow128(n - 1)
  }

  function SlebBytes(v: int, n: nat): (s: seq<Byte>)
    requires n > 0 && SlebFits(v, n)
    ensures |s| == n
    decreases n
  {
    if n == 1 then [v % 128] else [v % 128 + 128] + SlebBytes(v / 128, n - 1)
  }

  function LittleBytes(v: nat, n: nat): (s: seq<Byte>)
    requires v < Pow256(n)
    ensures |s| == n
    decreases n
  {
    if n == 0 then [] else [v % 256] + LittleBytes(v / 256, n - 1)
  }

  lemma {:induction false} UlebDigits(s: seq<Byte>, pos: nat, v: nat, n: nat, left: nat)
    requires 0 < n <= left && v < Pow128(n)
    requires pos + n <= |s| && s[pos..pos + n] == UlebBytes(v, n)
    ensures ReadDigits(s, pos, left).total == v && ReadDigits(s, pos, left).pos == pos + n
    decreases n
  {
    assert s[pos] == s[pos..pos + n][0];
    if n > 1 {
      assert s[pos + 1..pos + 1 + (n - 1)] == s[pos..pos + n][1..];
      UlebDigits(s, pos + 1, v / 128, n - 1, left - 1);
    }
  }

  /** Every padding, up to ten bytes, of an unsigned 64-bit value reads back as that value, and
      the cursor ends right after it. */
  lemma UlebRoundTrip(s: seq<Byte>, pos: nat, v: Word, n: nat)
    requires 0 < n <= MAX_LEB_BYTES && v < Pow128(n)
    requires pos + n <= |s| && s[pos..pos + n] == UlebBytes(v, n)
    ensures var d := ReadDigits(s, pos, MAX_LEB_BYTES); UlebValue(d) == v && d.pos == pos + n
  {
    hide ReadDigits, UlebBytes, Pow128;
    UlebDigits(s, pos, v, n, MAX_LEB_BYTES);
  }

  /** The signed value of some digits: the last one's sign bit carries on above them. */
  ghost predicate Means(d: Digits, v: int) {
    v == d.total - if d.last % 128 >= 64 then Shift(1, 128, d.count) else 0
  }

  lemma MeansOne(v: int, p: nat)
    requires -64 <= v < 64
    ensures Means(Digits(v % 128, 1, v % 128, p), v)
  {
  }

  lemma MeansMore(d: Digits, v: int)
    requires Means(d, v / 128)
    ensures Means(Digits(v % 128 + 128 * d.total, 1 + d.count, d.last, d.pos), v)
  {
  }

  lemma DigitsAt(s: seq<Byte>, pos: nat, b: nat, left: nat)
    requires pos < |s| && b < 128 && left > 0
    ensures s[pos] == b ==> ReadDigits(s, pos, left) == Digits(b, 1, b, pos + 1)
    ensures s[pos] == b + 128 && left > 1 ==>
              var d := ReadDigits(s, pos + 1, left - 1);
              ReadDigits(s, pos, left) == Digits(b + 128 * d.total, 1 + d.count, d.last, d.pos)
  {
  }

  lemma {:induction false} SlebDigits(s: seq<Byte>, pos: nat, v: int, n: nat, left: nat)
    requires 0 < n <= left && SlebFits(v, n)
    requires pos + n <= |s| && s[pos..pos + n] == SlebBytes(v, n)
    ensures var d := ReadDigits(s, pos, left); d.pos == pos + n && d.count == n && Means(d, v)
    decreases n
  {
    hide Means, Shift, ReadDigits;
    assert s[pos] == s[pos..pos + n][0];
    DigitsAt(s, pos, v % 128, left);
    if n > 1 {
      assert s[pos + 1..pos + 1 + (n - 1)] == s[pos..pos + n][1..];
      SlebDigits(s, pos + 1, v / 128, n - 1, left - 1);
      MeansMore(ReadDigits(s, pos + 1, left - 1), v);
    } else {
      MeansOne(v, pos + 1);
    }
  }

  lemma TenDigits()
    ensures Shift(1, 128, 10) == 64 * TWO_TO_THE_64
  {
    assert Shift(1, 128, 5) == 128 * 128 * 128 * 128 * 128;
    assert Shift(1, 128, 10) == 128 * 128 * 128 * 128 * 128 * Shift(1, 128, 5);
  }

  lemma {:induction false} WrapMultiple(a: int, k: int)
    ensures Wrap(a + k * TWO_TO_THE_64) == Wrap(a)
  {
  }

  /** Every sign-padded encoding of a signed 64-bit value, up to ten bytes, reads back as it. */
  lemma SlebRoundTrip(s: seq<Byte>, pos: nat, v: int, n: nat)
    requires -(TWO_TO_THE_64 / 2) <= v < TWO_TO_THE_64 / 2
    requires 0 < n <= MAX_LEB_BYTES && SlebFits(v, n)
    requires pos + n <= |s| && s[pos..pos + n] == SlebBytes(v, n)
    ensures var d := ReadDigits(s, pos, MAX_LEB_BYTES); SlebValue(d) == v && d.pos == pos + n
  {
    hide ReadDigits, SlebBytes, SlebFits, Shift;
    SlebDigits(s, pos, v, n, MAX_LEB_BYTES);
    SlebMeaning(ReadDigits(s, pos, MAX_LEB_BYTES), v);
  }

  /** Sign extension undoes the encoding's reduction, or is not needed after ten digits. */
  lemma SlebMeaning(d: Digits, v: int)
    requires -(TWO_TO_THE_64 / 2) <= v < TWO_TO_THE_64 / 2 && d.count <= MAX_LEB_BYTES
    requires Means(d, v)
    ensures SlebValue(d) == v
  {
    WrapSigned(v);
    if d.count == MAX_LEB_BYTES {
      TenDigits();
      WrapMultiple(v, 64);
    }
  }

  lemma WrapSigned(v: int)
    requires -(TWO_TO_THE_64 / 2) <= v < TWO_TO_THE_64 / 2
    ensures ToSigned(Wrap(v)) == v
  {
    if v < 0 {
      WrapMultiple(v, 1);
    }
  }

  /** Ten bytes are enough for every value. */
  lemma TenBytesSuffice(v: Word, w: int)
    requires -(TWO_TO_THE_64 / 2) <= w < TWO_TO_THE_64 / 2
    ensures v < Pow128(MAX_LEB_BYTES) && SlebFits(w, MAX_LEB_BYTES)
  {
    assert Pow128(4) == 128 * 128 * 128 * 128;
    assert Pow128(8) == 128 * 128 * 128 * 128 * Pow128(4);
    assert Pow128(9) == 128 * Pow128(8);
    assert Pow128(10) == 128 * Pow128(9);
  }

  lemma {:induction false} LittleRoundTrip(s: seq<Byte>, pos: nat, v: nat, n: nat)
    requires v < Pow256(n) && pos + n <= |s| && s[pos..pos + n] == LittleBytes(v, n)
    ensures Little(s, pos, n) == (v, pos + n)
    decreases n
  {
    if n > 0 {
      assert s[pos] == s[pos..pos + n][0];
      assert s[pos + 1..pos + 1 + (n - 1)] == s[pos..pos + n][1..];
      LittleRoundTrip(s, pos + 1, v / 256, n - 1);
    }
  }

  lemma {:induction false} ShiftZero(radix: nat, i: nat)
    ensures Shift(0, radix, i) == 0
  {
    if i > 0 {
      ShiftZero(radix, i - 1);
    }
  }

  /** After `i` digits summing to `total`, the rest `r` completes the whole number `d`. */
  ghost predicate Remaining(d: Digits, r: Digits, total: nat, i: nat) {
    d == Digits(total + Shift(r.total, 128, i), i + r.count, r.last, r.pos)
  }

  lemma RemainingStep(s: seq<Byte>, pos: nat, limit: nat, d: Digits, total: nat, i: nat)
    requires i < limit && Remaining(d, ReadDigits(s, pos, limit - i), total, i)
    ensures var (b, p) := U8(s, pos);
            var total' := total + Shift(b % 128, 128, i);
            if b < 128 || i + 1 == limit then d == Digits(total', i + 1, b, p)
            else Remaining(d, ReadDigits(s, p, limit - (i + 1)), total', i + 1)
  {
    var (b, p) := U8(s, pos);
    if b >= 128 && i + 1 < limit {
      ShiftDigit7(b % 128, ReadDigits(s, p, limit - (i + 1)).total, i);
    }
  }

  lemma WrapSum(a: int, b: int)
    ensures Wrap(Wrap(a) + b) == Wrap(a + b)
  {
  }

  /** Data loaded at `base`: the pointer just past it does not wrap. */
  predicate Mapped(s: seq<Byte>, base: Word) {
    base + |s| < TWO_TO_THE_64
  }

  class Cursor {
    const bytes: seq<Byte>
    const base: Word
    var pos: nat

    constructor (bytes: seq<Byte>, base: Word)
      requires Mapped(bytes, base)
      ensures this.bytes == bytes && this.base == base && pos == 0
    {
      this.bytes, this.base := bytes, base;
      pos := 0;
    }

    method ReadU8() returns (b: Byte)
      modifies this
      ensures (b, pos) == U8(bytes, old(pos))
    {
      if pos >= |bytes| {
        return 0;
      }
      b := bytes[pos];
      pos := pos + 1;
    }

    method ReadU16() returns (v: nat)
      modifies this
      ensures (v, pos) == U16(bytes, old(pos))
    {
      if pos + 2 > |bytes| {
        return 0;
      }
      v := bytes[pos] as int + 256 * bytes[pos + 1] as int;
      assert Little(bytes, pos, 2).0 == bytes[pos] as int + 256 * Little(bytes, pos + 1, 1).0;
      pos := pos + 2;
    }

    method ReadU32() returns (v: nat)
      modifies this
      ensures (v, pos) == U32(bytes, old(pos))
    {
      if pos + 4 > |bytes| {
        return 0;
      }
      v := bytes[pos] as int + 256 * (bytes[pos + 1] as int + 256 * (bytes[pos + 2] as int + 256 * bytes[pos + 3] as int));
      assert Little(bytes, pos, 4).0 == bytes[pos] as int + 256 * Little(bytes, pos + 1, 3).0;
      assert Little(bytes, pos + 1, 3).0 == bytes[pos + 1] as int + 256 * Little(bytes, pos + 2, 2).0;
      assert Little(bytes, pos + 2, 2).0 == bytes[pos + 2] as int + 256 * Little(bytes, pos + 3, 1).0;
      pos := pos + 4;
    }

    method ReadU64() returns (v: nat)
      modifies this
      ensures (v, pos) == Little(bytes, old(pos), 8)
    {
      v := ReadLittle(8);
    }

    method ReadLittle(n: nat) returns (v: nat)
      modifies this
      ensures (v, pos) == Little(bytes, old(pos), n)
    {
      v := 0;
      var i := 0;
      ghost var all := Little(bytes, pos, n);
      while i < n
        invariant i <= n
        invariant all.1 == Little(bytes, pos, n - i).1
        invariant all.0 == v + Shift(Little(bytes, pos, n - i).0, 256, i)
      {
        ghost var here := pos;
        var b := ReadU8();
        ghost var rest := Little(bytes, pos, n - i - 1).0;
        assert Little(bytes, here, n - i).0 == b as int + 256 * rest;
        ShiftDigit8(b, rest, i);
        v := v + Shift(b, 256, i);
        i := i + 1;
      }
      ShiftZero(256, n);
    }

    /** The digit loop both readers share. Digits accumulate in a 64-bit word: a shift drops what
        does not fit, and the bits OR-ed in are disjoint from those already there, so the OR is a
        wrapping sum. */
    method ReadDigitLoop(limit: nat) returns (value: Word, b: Byte, i: nat)
      requires limit > 0
      modifies this
      ensures var d := ReadDigits(bytes, old(pos), limit);
              value == Wrap(d.total) && b == d.last && i == d.count && pos == d.pos
    {
      hide ReadDigits;
      value, b, i := 0, 0, 0;
      ghost var total: nat := 0;
      ghost var d := ReadDigits(bytes, pos, limit);
      var more := true;
      while i < limit && more
        invariant i <= limit && value == Wrap(total)
        invariant if i < limit && more then Remaining(d, ReadDigits(bytes, pos, limit - i), total, i)
                  else d == Digits(total, i, b, pos)
      {
        ghost var here := pos;
        b := ReadU8();
        RemainingStep(bytes, here, limit, d, total, i);
        var term := Shift(b % 128, 128, i);
        WrapSum(total, term);
        total := total + term;
        value := Wrap(value + term);
        i := i + 1;
        more := b >= 128;
      }
    }

    method ReadUleb128() returns (value: Word)
      modifies this
      ensures var d := ReadDigits(bytes, old(pos), MAX_LEB_BYTES); value == UlebValue(d) && pos == d.pos
    {
      var b, i;
      value, b, i := ReadDigitLoop(MAX_LEB_BYTES);
    }

    /** Sign-extended from the last digit when fewer than 64 bits were read. */
    method ReadSleb128() returns (v: int)
      modifies this
      ensures var d := ReadDigits(bytes, old(pos), MAX_LEB_BYTES); v == SlebValue(d) && pos == d.pos
    {
      ghost var total := ReadDigits(bytes, pos, MAX_LEB_BYTES).total;
      var value, b, i := ReadDigitLoop(MAX_LEB_BYTES);
      if b % 128 >= 64 && 7 * i < 64 {
        var sign: int := Shift(1, 128, i);
        WrapSum(total, -sign);
        value := Wrap(value - sign);
      }
      v := ToSigned(value);
    }
  }
}
