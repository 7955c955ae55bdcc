/** Vocabulary shared by every model of the driver. */
module Common {

  datatype Option<+T> = None | Some(value: T)

  // The range of the driver's 32-bit `unsigned int`.
  const WORD32: nat := 0x1_0000_0000

  // index++ on such an index
  function Inc(i: nat): nat { (i + 1) % WORD32 }

  lemma WordStep(x: nat)
    ensures Inc(x % WORD32) == (x + 1) % WORD32
    ensures (x % WORD32 - 1) % WORD32 == (x - 1) % WORD32
  {
  }

  // Indices less than 2^32 apart compare and subtract like unwrapped ones.
  lemma WordDist(head: nat, tail: nat)
    requires tail <= head < tail + WORD32
    ensures (head % WORD32 - tail % WORD32) % WORD32 == head - tail
    ensures head % WORD32 == tail % WORD32 <==> head == tail
  {
  }

  /** MAC_GET_DESC_DATA: both rings have 4096 entries, so the ring position of
      a wrapped index is that of the unwrapped one. */
  lemma WordRing(x: nat)
    ensures (x % WORD32) % 4096 == x % 4096
  {
    var q, r := x / WORD32, x % WORD32;
    assert x == q * WORD32 + r;
    assert WORD32 == 1048576 * 4096;
    assert x == (q * 1048576) * 4096 + r;
  }

  function Min(a: nat, b: nat): (m: nat) {
    if a < b then a else b
  }

  function Sum(s: seq<nat>): nat {
    if s == [] then 0 else Sum(s[..|s| - 1]) + s[|s| - 1]
  }

  lemma SumSnoc(s: seq<nat>, x: nat)
    ensures Sum(s + [x]) == Sum(s) + x
  {
    assert (s + [x])[..|s|] == s;
  }

  lemma {:induction false} SumConcat(a: seq<nat>, b: seq<nat>)
    ensures Sum(a + b) == Sum(a) + Sum(b)
  {
    if b == [] {
      assert a + b == a;
    } else {
      var c := b[..|b| - 1];
      assert (a + b)[..|a + b| - 1] == a + c;
      SumConcat(a, c);
    }
  }

  lemma SameSlot(i: nat, j: nat)
    requires i <= j < i + 4096
    ensures i % 4096 == j % 4096 <==> i == j
  {
  }

  lemma NextLap(i: nat)
    ensures (i + 4096) % 4096 == i % 4096
  {
  }

  // Taking a concatenation apart at its last element.
  lemma FrontOfSum<T>(a: seq<T>, b: seq<T>)
    requires b != []
    ensures (a + b)[..|a + b| - 1] == a + b[..|b| - 1] && (a + b)[|a + b| - 1] == b[|b| - 1]
  {
  }

  lemma Associative<T>(a: seq<T>, b: seq<T>, c: seq<T>)
    ensures (a + b) + c == a + (b + c)
  {
  }

  lemma SameTail<T>(a: seq<T>, b: seq<T>, x: seq<T>, y: seq<T>)
    requires |a| <= |b| && |x| <= |y|
    ensures a + x == b + y <==> a == b && x == y
  {
    if a + x == b + y {
      assert |a| + |x| == |a + x| == |b + y| == |b| + |y|;
      assert a == (a + x)[..|a|] == (b + y)[..|b|] == b;
      assert x == (a + x)[|a|..] == (b + y)[|b|..] == y;
    }
  }
}
