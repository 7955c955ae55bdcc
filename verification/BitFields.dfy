/** The two bit-field implementations of the driver: `set_bits` and `get_bits`,
    which shift the rest of the word out of the way, and the MAC_*_REG_BITS
    macros, which mask. A word is its 32 bits, the least significant first. */
module BitFields {

  const WIDTH: nat := 32

  type Word = w: seq<bool> | |w| == WIDTH witness seq(WIDTH, _ => false)

  // ------------------------------------------------------- C's operators

  function Shl(x: Word, n: nat): Word
    requires n < WIDTH
  {
    seq(WIDTH, i requires 0 <= i < WIDTH => i >= n && x[i - n])
  }

  function Shr(x: Word, n: nat): Word
    requires n < WIDTH
  {
    seq(WIDTH, i requires 0 <= i < WIDTH => i + n < WIDTH && x[i + n])
  }

  function Or(x: Word, y: Word): Word { seq(WIDTH, i requires 0 <= i < WIDTH => x[i] || y[i]) }

  function And(x: Word, y: Word): Word { seq(WIDTH, i requires 0 <= i < WIDTH => x[i] && y[i]) }

  function Not(x: Word): Word { seq(WIDTH, i requires 0 <= i < WIDTH => !x[i]) }

  function Zero(): Word { seq(WIDTH, _ => false) }

  // ------------------------------------------------ what fields should be

  /** `data` with bits l .. h replaced by the lowest bits of `v`. */
  function Put(data: Word, h: nat, l: nat, v: Word): Word
    requires l <= h < WIDTH
  {
    seq(WIDTH, i requires 0 <= i < WIDTH => if l <= i <= h then v[i - l] else data[i])
  }

  /** Bits l .. h of `data`, moved down to bit 0. */
  function Get(data: Word, h: nat, l: nat): Word
    requires l <= h < WIDTH
  {
    seq(WIDTH, i requires 0 <= i < WIDTH => i <= h - l && data[i + l])
  }

  // ------------------------------------------------------------- as coded

  /** set_bits; the two indices may come in either order. */
  method SetBits(data: Word, indexH: nat, indexL: nat, v: Word) returns (r: Word)
    requires indexH < WIDTH && indexL < WIDTH
    ensures r == if indexL <= indexH then Put(data, indexH, indexL, v) else Put(data, indexL, indexH, v)
  {
    hide Shl, Shr, Put, Or;
    var h, l := indexH, indexL;
    if h < l {
      h, l := l, h;
    }
    var low, high := Zero(), Zero();
    if l != 0 {
      low := Shr(Shl(data, 32 - l), 32 - l);
    }
    var mid := Shr(Shl(v, 31 + l - h), 31 - h);
    if h != 31 {
      high := Shl(Shr(data, h + 1), h + 1);
    }
    r := Or(Or(high, mid), low);
    Assembled(data, h, l, v, low, mid, high);
  }

  // What each of the three parts holds.
  lemma LowPart(data: Word, l: nat)
    requires 0 < l < WIDTH
    ensures Shr(Shl(data, 32 - l), 32 - l) == seq(WIDTH, i requires 0 <= i < WIDTH => i < l && data[i])
  {
  }

  lemma HighPart(data: Word, h: nat)
    requires h < WIDTH - 1
    ensures Shl(Shr(data, h + 1), h + 1) == seq(WIDTH, i requires 0 <= i < WIDTH => i > h && data[i])
  {
  }

  lemma MidPart(v: Word, h: nat, l: nat)
    requires l <= h < WIDTH
    ensures Shr(Shl(v, 31 + l - h), 31 - h) == seq(WIDTH, i requires 0 <= i < WIDTH => l <= i <= h && v[i - l])
  {
  }

  lemma Assembled(data: Word, h: nat, l: nat, v: Word, low: Word, mid: Word, high: Word)
    requires l <= h < WIDTH
    requires low == if l != 0 then Shr(Shl(data, 32 - l), 32 - l) else Zero()
    requires mid == Shr(Shl(v, 31 + l - h), 31 - h)
    requires high == if h != 31 then Shl(Shr(data, h + 1), h + 1) else Zero()
    ensures Or(Or(high, mid), low) == Put(data, h, l, v)
  {
    hide Shl, Shr;
    if l != 0 {
      LowPart(data, l);
    }
    MidPart(v, h, l);
    if h != 31 {
      HighPart(data, h);
    }
    var r := Or(Or(high, mid), low);
    assert forall i :: 0 <= i < WIDTH ==> r[i] == Put(data, h, l, v)[i];
  }

  /** get_bits, likewise. */
  method GetBits(data: Word, indexH: nat, indexL: nat) returns (r: Word)
    requires indexH < WIDTH && indexL < WIDTH
    ensures r == if indexL <= indexH then Get(data, indexH, indexL) else Get(data, indexL, indexH)
  {
    var h, l := indexH, indexL;
    if h < l {
      h, l := l, h;
    }
    r := Shr(Shl(data, 31 - h), 31 + l - h);
  }

  // GENMASK
  function Mask(h: nat, l: nat): Word
    requires l <= h < WIDTH
  {
    And(Shl(Not(Zero()), l), Shr(Not(Zero()), 31 - h))
  }

  // MAC_SET_REG_BITS(data, pos, len, v)
  function SetReg(data: Word, pos: nat, len: nat, v: Word): Word
    requires 0 < len && pos + len <= WIDTH
  {
    var m := Mask(pos + len - 1, pos);
    Or(And(data, Not(m)), And(Shl(v, pos), m))
  }

  // MAC_GET_REG_BITS(data, pos, len)
  function GetReg(data: Word, pos: nat, len: nat): Word
    requires 0 < len && pos + len <= WIDTH
  {
    Shr(And(data, Mask(pos + len - 1, pos)), pos)
  }

  // --------------------------------------------------------------- the laws

  /** The functions and the macros agree on every word, field and value. */
  lemma SameFields(data: Word, h: nat, l: nat, v: Word)
    requires l <= h < WIDTH
    ensures SetReg(data, l, h - l + 1, v) == Put(data, h, l, v)
    ensures GetReg(data, l, h - l + 1) == Get(data, h, l)
  {
    var m := Mask(h, l);
    assert forall i :: 0 <= i < WIDTH ==> m[i] == (l <= i <= h);
  }

  /** Reading a field back gives the value written, cut to the field's width. */
  lemma GetAfterPut(data: Word, h: nat, l: nat, v: Word)
    requires l <= h < WIDTH
    ensures Get(Put(data, h, l, v), h, l) == Get(v, h - l, 0)
  {
    var r := Get(Put(data, h, l, v), h, l);
    assert forall i :: 0 <= i < WIDTH ==> r[i] == Get(v, h - l, 0)[i];
  }

  /** Writing one field leaves every other field as it reads. */
  lemma GetElsewhere(data: Word, h: nat, l: nat, v: Word, a: nat, b: nat)
    requires l <= h < WIDTH && b <= a < WIDTH && (a < l || h < b)
    ensures Get(Put(data, h, l, v), a, b) == Get(data, a, b)
  {
    var r := Get(Put(data, h, l, v), a, b);
    assert forall i :: 0 <= i < WIDTH ==> r[i] == Get(data, a, b)[i];
  }

  /** Writing back what a field holds changes nothing, and the later of two
      writes to one field wins. */
  lemma PutTwice(data: Word, h: nat, l: nat, v: Word, w: Word)
    requires l <= h < WIDTH
    ensures Put(data, h, l, Get(data, h, l)) == data
    ensures Put(Put(data, h, l, v), h, l, w) == Put(data, h, l, w)
  {
    var r := Put(data, h, l, Get(data, h, l));
    assert forall i :: 0 <= i < WIDTH ==> r[i] == data[i];
  }

  // Writes to separate fields may be done in either order.
  lemma PutsCommute(data: Word, h: nat, l: nat, v: Word, a: nat, b: nat, w: Word)
    requires l <= h < WIDTH && b <= a < WIDTH && (a < l || h < b)
    ensures Put(Put(data, h, l, v), a, b, w) == Put(Put(data, a, b, w), h, l, v)
  {
    var r := Put(Put(data, h, l, v), a, b, w);
    assert forall i :: 0 <= i < WIDTH ==> r[i] == Put(Put(data, a, b, w), h, l, v)[i];
  }
}
