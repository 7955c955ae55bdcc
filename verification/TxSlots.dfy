/** The driver's private record of each transmit descriptor, the DMA mapping it
    stands for, and what releasing it does. */
module TxSlots {
  import opened Common

  /** The driver's private record of one descriptor (`mac_desc_data`). */
  datatype Slot = Slot(skb: Option<nat>, dma: nat, dmaLen: nat, asPage: bool, packets: nat, bytes: nat)

  const EMPTY: Slot := Slot(None, 0, 0, false, 0, 0)

  /** An outstanding DMA mapping: it must be undone with the same length and
      the same kind of call. */
  datatype Mapping = Mapping(addr: nat, len: nat, asPage: bool)

  function MappingIn(s: Slot): Mapping { Mapping(s.dma, s.dmaLen, s.asPage) }

  // mac_unmap_desc_data, as far as a transmit slot is concerned: bus address
  // zero is taken for "not mapped".
  function Unmapped(s: Slot): Slot {
    Slot(None, 0, if s.dma != 0 then 0 else s.dmaLen, false, 0, 0)
  }

  function Unmaps(s: Slot): seq<Mapping> {
    if s.dma != 0 then [MappingIn(s)] else []
  }

  function Frees(s: Slot): seq<nat> {
    if s.skb.Some? then [s.skb.value] else []
  }

  // What a packet's last slot keeps for the stack.
  datatype Measure = Bytes | Frames

  function Noted(s: Slot, m: Measure): nat {
    match m case Bytes => s.bytes case Frames => s.packets
  }

  // Nothing recorded, but for a length that may have been left behind.
  predicate Vacant(s: Slot) { s == EMPTY.(dmaLen := s.dmaLen) }

  // What the rollback leaves in the slots of pieces that had been mapped.
  function Leftovers(made: seq<Mapping>): (slots: seq<Slot>)
    ensures |slots| == |made|
  {
    seq(|made|, k requires 0 <= k < |made| => EMPTY.(dmaLen := if made[k].addr != 0 then 0 else made[k].len))
  }

  // ------------------------------------- mappings undone, and those left alone

  // The mappings that mac_unmap_desc_data undoes, and those it does not.
  function Live(ms: seq<Mapping>): seq<Mapping> {
    if ms == [] then []
    else Live(ms[..|ms| - 1]) + if ms[|ms| - 1].addr != 0 then [ms[|ms| - 1]] else []
  }

  function AtZero(ms: seq<Mapping>): seq<Mapping> {
    if ms == [] then []
    else AtZero(ms[..|ms| - 1]) + if ms[|ms| - 1].addr == 0 then [ms[|ms| - 1]] else []
  }

  predicate NonZero(ms: seq<Mapping>) { forall k :: 0 <= k < |ms| ==> ms[k].addr != 0 }

  lemma LiveNone()
    ensures Live([]) == []
  {
  }

  lemma LiveSnoc(ms: seq<Mapping>, m: Mapping)
    ensures Live(ms + [m]) == Live(ms) + if m.addr != 0 then [m] else []
  {
    assert (ms + [m])[..|ms|] == ms;
  }

  lemma {:induction false} LiveIff(ms: seq<Mapping>)
    ensures |Live(ms)| <= |ms|
    ensures Live(ms) == ms <==> NonZero(ms)
    ensures AtZero(ms) == [] <==> NonZero(ms)
  {
    if ms != [] {
      var front, m := ms[..|ms| - 1], ms[|ms| - 1];
      LiveIff(front);
      assert ms == front + [m];
      assert NonZero(ms) <==> NonZero(front) && m.addr != 0;
      SameTail(Live(front), front, if m.addr != 0 then [m] else [], [m]);
    }
  }

  lemma {:induction false} LiveConcat(a: seq<Mapping>, b: seq<Mapping>)
    ensures Live(a + b) == Live(a) + Live(b)
  {
    if b == [] {
      assert a + b == a;
    } else {
      assert (a + b)[..|a + b| - 1] == a + b[..|b| - 1];
      LiveConcat(a, b[..|b| - 1]);
    }
  }

  lemma {:induction false} LiveOrZero(ms: seq<Mapping>)
    ensures multiset(ms) == multiset(Live(ms)) + multiset(AtZero(ms))
  {
    if ms != [] {
      LiveOrZero(ms[..|ms| - 1]);
      assert ms == ms[..|ms| - 1] + [ms[|ms| - 1]];
    }
  }

  lemma NonZeroConcat(a: seq<Mapping>, b: seq<Mapping>)
    ensures NonZero(a + b) <==> NonZero(a) && NonZero(b)
  {
    if NonZero(a + b) {
      assert forall k :: 0 <= k < |a| ==> (a + b)[k] == a[k];
      assert forall k :: 0 <= k < |b| ==> (a + b)[|a| + k] == b[k];
    }
  }

  // ------------------------------------------------- slots released in a row

  function AllUnmaps(ss: seq<Slot>): seq<Mapping> {
    if ss == [] then [] else AllUnmaps(ss[..|ss| - 1]) + Unmaps(ss[|ss| - 1])
  }

  function AllFrees(ss: seq<Slot>): seq<nat> {
    if ss == [] then [] else AllFrees(ss[..|ss| - 1]) + Frees(ss[|ss| - 1])
  }

  lemma UnmapsEnd(ss: seq<Slot>)
    requires 0 < |ss|
    ensures AllUnmaps(ss) == AllUnmaps(ss[..|ss| - 1]) + Unmaps(ss[|ss| - 1])
  {
  }

  lemma FreesEnd(ss: seq<Slot>)
    requires 0 < |ss|
    ensures AllFrees(ss) == AllFrees(ss[..|ss| - 1]) + Frees(ss[|ss| - 1])
  {
  }

  lemma {:induction false} FreesConcat(s: seq<Slot>, t: seq<Slot>)
    ensures AllFrees(s + t) == AllFrees(s) + AllFrees(t)
  {
    if t == [] {
      assert s + t == s;
    } else {
      hide AllFrees, Frees;
      var n := |t| - 1;
      FreesConcat(s, t[..n]);
      FreesEnd(t);
      FreesEnd(s + t);
      FrontOfSum(s, t);
      Associative(AllFrees(s), AllFrees(t[..n]), Frees(t[n]));
    }
  }

  lemma {:induction false} NoFrees(ss: seq<Slot>)
    requires forall i :: 0 <= i < |ss| ==> ss[i].skb.None?
    ensures AllFrees(ss) == []
  {
    if ss != [] {
      NoFrees(ss[..|ss| - 1]);
    }
  }
}
