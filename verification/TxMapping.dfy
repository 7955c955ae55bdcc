/** Mapping a packet's pieces for DMA, slot by slot, and taking that back when a
    mapping fails (`mac_map_tx_skb`, `mac_unmap_desc_data`): what the slots hold
    after each, and what exactly the rollback undoes. */
module TxMapping {
  import opened Common
  import opened TxPacket
  import opened TxSlots
  import opened TxWire
  import P = TxProtocol

  const RING: nat := P.RING

  function MappingOf(p: Piece, addr: nat): Mapping { Mapping(addr, p.len, p.src.Frag?) }

  function Entry(p: Piece, addr: nat): Slot { Slot(None, addr, p.len, p.src.Frag?, 0, 0) }

  // What the DMA layer answers to the k-th request: an address, or failure.
  type Answers = seq<Option<nat>>

  // How many pieces get mapped before the first failure, from the k-th on.
  function Mappable(ps: seq<Piece>, answers: Answers, k: nat): (m: nat)
    requires k <= |ps| <= |answers|
    ensures k <= m <= |ps|
    ensures forall i :: k <= i < m ==> answers[i].Some?
    ensures m < |ps| ==> answers[m].None?
    decreases |ps| - k
  {
    if k < |ps| && answers[k].Some? then Mappable(ps, answers, k + 1) else k
  }

  predicate Answered(answers: Answers, m: nat) {
    m <= |answers| && forall i :: 0 <= i < m ==> answers[i].Some?
  }

  // The slots with the first `m` pieces laid out from index `base` on.
  function Lay(data: seq<Slot>, base: nat, ps: seq<Piece>, answers: Answers, m: nat): (r: seq<Slot>)
    requires |data| == RING && m <= |ps| && Answered(answers, m)
    ensures |r| == RING
  {
    if m == 0 then data
    else Lay(data, base, ps, answers, m - 1)[(base + m - 1) % RING := Entry(ps[m - 1], answers[m - 1].value)]
  }

  function Mapped(ps: seq<Piece>, answers: Answers, m: nat): (r: seq<Mapping>)
    requires m <= |ps| && Answered(answers, m)
    ensures |r| == m
  {
    if m == 0 then []
    else Mapped(ps, answers, m - 1) + [MappingOf(ps[m - 1], answers[m - 1].value)]
  }

  // The rollback loop over `n` slots from index `start` on.
  function Swept(data: seq<Slot>, start: nat, n: nat): (r: seq<Slot>)
    requires |data| == RING
    ensures |r| == RING
  {
    if n == 0 then data
    else
      var r := Swept(data, start, n - 1);
      r[(start + n - 1) % RING := Unmapped(r[(start + n - 1) % RING])]
  }

  function SweptMappings(data: seq<Slot>, start: nat, n: nat): seq<Mapping>
    requires |data| == RING
  {
    if n == 0 then []
    else SweptMappings(data, start, n - 1) + Unmaps(data[(start + n - 1) % RING])
  }

  // ------------------------------------------------------- slot by slot

  // The position of ring entry `q`, counted from index `base`.
  function Dist(q: nat, base: nat): (d: nat)
    ensures d < RING
  {
    (q - base) % RING
  }

  lemma DistOf(base: nat, k: nat)
    requires k < RING
    ensures Dist((base + k) % RING, base) == k
  {
  }

  lemma DistIs(base: nat, k: nat, q: nat)
    requires k < RING && q < RING
    ensures (base + k) % RING == q <==> Dist(q, base) == k
  {
  }

  lemma DistNext(q: nat, base: nat)
    requires q < RING
    ensures Dist(q, base + 1) == if Dist(q, base) == 0 then RING - 1 else Dist(q, base) - 1
    ensures Dist(q, base + 0) == Dist(q, base)
  {
  }

  lemma LaySnoc(data: seq<Slot>, base: nat, ps: seq<Piece>, answers: Answers, m: nat)
    requires |data| == RING && 0 < m <= |ps| && Answered(answers, m)
    ensures Lay(data, base, ps, answers, m) ==
            Lay(data, base, ps, answers, m - 1)[(base + (m - 1)) % RING := Entry(ps[m - 1], answers[m - 1].value)]
  {
  }

  lemma NothingLaid(data: seq<Slot>, base: nat, ps: seq<Piece>, answers: Answers)
    requires |data| == RING
    ensures Lay(data, base, ps, answers, 0) == data && Mapped(ps, answers, 0) == []
  {
  }

  lemma MappedSnoc(ps: seq<Piece>, answers: Answers, m: nat)
    requires m < |ps| && Answered(answers, m + 1)
    ensures Mapped(ps, answers, m + 1) == Mapped(ps, answers, m) + [MappingOf(ps[m], answers[m].value)]
  {
  }

  lemma {:induction false} MappedAt(ps: seq<Piece>, answers: Answers, m: nat, k: nat)
    requires k < m <= |ps| && Answered(answers, m)
    ensures Mapped(ps, answers, m)[k] == MappingOf(ps[k], answers[k].value)
  {
    if k < m - 1 {
      MappedAt(ps, answers, m - 1, k);
    }
  }

  lemma {:induction false} LayAt(data: seq<Slot>, base: nat, ps: seq<Piece>, answers: Answers, m: nat, q: nat)
    requires |data| == RING && m <= |ps| && m <= RING && Answered(answers, m) && q < RING
    ensures Lay(data, base, ps, answers, m)[q] ==
            if Dist(q, base) < m then Entry(ps[Dist(q, base)], answers[Dist(q, base)].value) else data[q]
  {
    if m > 0 {
      LayAt(data, base, ps, answers, m - 1, q);
      DistIs(base, m - 1, q);
      LaySnoc(data, base, ps, answers, m);
    }
  }

  lemma {:induction false} SweptAt(data: seq<Slot>, start: nat, n: nat, q: nat)
    requires |data| == RING && n <= RING && q < RING
    ensures Swept(data, start, n)[q] == if Dist(q, start) < n then Unmapped(data[q]) else data[q]
  {
    if n > 0 {
      hide Unmapped;
      SweptAt(data, start, n - 1, q);
      DistIs(start, n - 1, q);
      SweptSnoc(data, start, n);
    }
  }

  // Where the rollback's comparison of wrapped indices ends it.
  lemma RollbackEnd(start: nat, n: nat)
    requires start < WORD32 && n <= RING
    ensures if start + n < WORD32 then (start + n) % WORD32 == start + n else (start + n) % WORD32 < start
  {
  }

  lemma SweptNone(data: seq<Slot>, start: nat)
    requires |data| == RING
    ensures Swept(data, start, 0) == data && SweptMappings(data, start, 0) == []
  {
  }

  lemma SweptMappingsSnoc(data: seq<Slot>, start: nat, n: nat)
    requires |data| == RING
    ensures SweptMappings(data, start, n + 1) == SweptMappings(data, start, n) + Unmaps(data[(start + n) % RING])
  {
  }

  lemma SweptSnoc(data: seq<Slot>, start: nat, n: nat)
    requires |data| == RING && n > 0
    ensures var r := Swept(data, start, n - 1);
      Swept(data, start, n) == r[(start + (n - 1)) % RING := Unmapped(r[(start + (n - 1)) % RING])]
  {
  }

  // Ring entries other than the `n` from index `start` on are the same.
  ghost predicate SameOutside<T>(a: seq<T>, b: seq<T>, start: nat, n: nat)
    requires |a| == RING && |b| == RING
  {
    forall q :: 0 <= q < RING && Dist(q, start) >= n ==> b[q] == a[q]
  }

  ghost predicate RegionVacant(data: seq<Slot>, start: nat, n: nat)
    requires |data| == RING
  {
    forall q :: 0 <= q < RING && Dist(q, start) < n ==> Vacant(data[q])
  }

  // Piece `k` sits in its place.
  predicate Holds(laid: seq<Slot>, base: nat, ps: seq<Piece>, answers: Answers, k: nat)
    requires |laid| == RING && k < |ps| && k < |answers| && answers[k].Some?
  {
    laid[(base + k) % RING] == Entry(ps[k], answers[k].value)
  }

  lemma LaidHolds(data: seq<Slot>, base: nat, ps: seq<Piece>, answers: Answers, m: nat, k: nat)
    requires |data| == RING && k < m <= |ps| && m <= RING && Answered(answers, m)
    ensures Holds(Lay(data, base, ps, answers, m), base, ps, answers, k)
  {
    DistOf(base, k);
    LayAt(data, base, ps, answers, m, (base + k) % RING);
  }

  // Releasing a piece's slot undoes the piece's mapping, unless that is at bus
  // address zero.
  lemma UnmapsPiece(laid: seq<Slot>, base: nat, ps: seq<Piece>, answers: Answers, k: nat)
    requires |laid| == RING && k < |ps| && k < |answers| && answers[k].Some?
    requires Holds(laid, base, ps, answers, k)
    ensures Unmaps(laid[(base + k) % RING]) ==
            if answers[k].value != 0 then [MappingOf(ps[k], answers[k].value)] else []
  {
  }

  lemma SweptContext(data: seq<Slot>, start: nat, ps: seq<Piece>, answers: Answers, m: nat)
    requires |data| == RING && m <= |ps| && m < RING && Answered(answers, m)
    requires Vacant(data[start % RING])
    ensures SweptMappings(Lay(data, start + 1, ps, answers, m), start, 1) == []
  {
    var laid := Lay(data, start + 1, ps, answers, m);
    DistOf(start, 0);
    DistNext(start % RING, start);
    LayAt(data, start + 1, ps, answers, m, start % RING);
    assert SweptMappings(laid, start, 0) == [];
  }

  // ------------------------------------------------------ the rollback law

  // The rollback's comparison of wrapped indices ends it at once.
  predicate Skipped(start: nat, ctx: nat, m: nat) { start + ctx + m >= WORD32 }

  /** What the slots hold, and which mappings have been undone, once `m` pieces
      had been mapped and the next one failed. */
  function AfterRollback(data: seq<Slot>, start: nat, ctx: nat, ps: seq<Piece>, answers: Answers, m: nat): (r: seq<Slot>)
    requires |data| == RING && m <= |ps| && m <= RING && Answered(answers, m)
    ensures |r| == RING
  {
    if Skipped(start, ctx, m) then Lay(data, start + ctx, ps, answers, m)
    else P.Place(data, start + ctx, Leftovers(Mapped(ps, answers, m)))
  }

  function UndoneBy(start: nat, ctx: nat, ps: seq<Piece>, answers: Answers, m: nat): seq<Mapping>
    requires m <= |ps| && Answered(answers, m)
  {
    if Skipped(start, ctx, m) then [] else Live(Mapped(ps, answers, m))
  }

  // What the rollback leaves in ring entry `q`.
  lemma SweptEntry(data: seq<Slot>, start: nat, ctx: nat, ps: seq<Piece>, answers: Answers, m: nat, q: nat)
    requires |data| == RING && m <= |ps| && ctx <= 1 && ctx + m <= RING && Answered(answers, m) && q < RING
    requires RegionVacant(data, start, ctx + m)
    ensures Swept(Lay(data, start + ctx, ps, answers, m), start, ctx + m)[q] ==
            if Dist(q, start + ctx) < m then Unmapped(Entry(ps[Dist(q, start + ctx)], answers[Dist(q, start + ctx)].value))
            else data[q]
  {
    LayAt(data, start + ctx, ps, answers, m, q);
    SweptAt(Lay(data, start + ctx, ps, answers, m), start, ctx + m, q);
    DistNext(q, start);
  }

  lemma {:induction false} SweptAre(laid: seq<Slot>, start: nat, ctx: nat, base: nat, ps: seq<Piece>, answers: Answers, m: nat)
    requires |laid| == RING && m <= |ps| && Answered(answers, m)
    requires base == start + ctx && SweptMappings(laid, start, ctx) == []
    requires forall k: nat :: k < m ==> Holds(laid, base, ps, answers, k)
    ensures SweptMappings(laid, start, ctx + m) == Live(Mapped(ps, answers, m))
  {
    hide SweptMappings, Mapped, Unmaps, Live;
    if m == 0 {
      NothingLaid(laid, base, ps, answers);
      LiveNone();
    } else {
      SweptAre(laid, start, ctx, base, ps, answers, m - 1);
      assert Holds(laid, base, ps, answers, m - 1);
      UnmapsPiece(laid, base, ps, answers, m - 1);
      SweptMappingsSnoc(laid, start, ctx + (m - 1));
      MappedSnoc(ps, answers, m - 1);
      assert start + (ctx + (m - 1)) == base + (m - 1);
      LiveSnoc(Mapped(ps, answers, m - 1), MappingOf(ps[m - 1], answers[m - 1].value));
    }
  }

  /** If the loop runs, it leaves a piece's slot vacant and every other slot as
      it was, and undoes every mapping, with its own kind and length and in
      order, but for those at bus address zero. */
  lemma SweepRestores(data: seq<Slot>, start: nat, ctx: nat, ps: seq<Piece>, answers: Answers, m: nat)
    requires |data| == RING && m <= |ps| && ctx <= 1 && ctx + m <= RING && Answered(answers, m)
    requires RegionVacant(data, start, ctx + m)
    ensures var laid, made := Lay(data, start + ctx, ps, answers, m), Mapped(ps, answers, m);
      && Swept(laid, start, ctx + m) == P.Place(data, start + ctx, Leftovers(made))
      && SweptMappings(laid, start, ctx + m) == Live(made)
  {
    hide Lay, Swept, SweptMappings, Mapped, Live;
    var laid, base := Lay(data, start + ctx, ps, answers, m), start + ctx;
    var swept, placed := Swept(laid, start, ctx + m), P.Place(data, base, Leftovers(Mapped(ps, answers, m)));
    forall q | 0 <= q < RING ensures swept[q] == placed[q] {
      SweptEntry(data, start, ctx, ps, answers, m, q);
      if Dist(q, base) < m {
        MappedAt(ps, answers, m, Dist(q, base));
      }
    }
    ContextSwept(data, start, ctx, ps, answers, m);
    forall k: nat | k < m ensures Holds(laid, base, ps, answers, k) {
      LaidHolds(data, base, ps, answers, m, k);
    }
    SweptAre(laid, start, ctx, base, ps, answers, m);
  }

  lemma ContextSwept(data: seq<Slot>, start: nat, ctx: nat, ps: seq<Piece>, answers: Answers, m: nat)
    requires |data| == RING && m <= |ps| && ctx <= 1 && ctx + m <= RING && Answered(answers, m)
    requires RegionVacant(data, start, ctx + m)
    ensures SweptMappings(Lay(data, start + ctx, ps, answers, m), start, ctx) == []
  {
    hide Lay;
    if ctx == 1 {
      DistOf(start, 0);
      SweptContext(data, start, ps, answers, m);
    }
  }

  // The rollback as coded, whichever way the comparison goes.
  lemma RollbackIs(data: seq<Slot>, start: nat, ctx: nat, ps: seq<Piece>, answers: Answers, m: nat)
    requires |data| == RING && m <= |ps| && ctx <= 1 && ctx + m <= RING && Answered(answers, m)
    requires RegionVacant(data, start, ctx + m)
    ensures var laid, skip := Lay(data, start + ctx, ps, answers, m), Skipped(start, ctx, m);
      && AfterRollback(data, start, ctx, ps, answers, m) == (if skip then laid else Swept(laid, start, ctx + m))
      && UndoneBy(start, ctx, ps, answers, m) == (if skip then [] else SweptMappings(laid, start, ctx + m))
  {
    hide Lay, Swept, SweptMappings, Mapped, P.Place, Leftovers, Live;
    SweepRestores(data, start, ctx, ps, answers, m);
  }

  ghost predicate RegionReset(data: seq<Slot>, start: nat, n: nat)
    requires |data| == RING
  {
    forall q :: 0 <= q < RING && Dist(q, start) < n ==> data[q] == EMPTY
  }

  // Slots that were reset are reset again if and only if no piece was mapped at
  // bus address zero: the length of such a piece stays behind.
  lemma {:induction false} SweepResets(data: seq<Slot>, start: nat, ctx: nat, ps: seq<Piece>, answers: Answers, m: nat)
    requires |data| == RING && m <= |ps| && ctx <= 1 && ctx + m <= RING && Answered(answers, m)
    requires RegionReset(data, start, ctx + m) && forall k :: 0 <= k < m ==> ps[k].len > 0
    ensures P.Place(data, start + ctx, Leftovers(Mapped(ps, answers, m))) == data <==> NonZero(Mapped(ps, answers, m))
  {
    hide Mapped;
    var made := Mapped(ps, answers, m);
    var placed := P.Place(data, start + ctx, Leftovers(made));
    if NonZero(made) {
      forall q | 0 <= q < RING ensures placed[q] == data[q] {
        DistNext(q, start);
      }
    } else {
      var k :| 0 <= k < m && made[k].addr == 0;
      DistOf(start + ctx, k);
      DistOf(start, ctx + k);
      MappedAt(ps, answers, m, k);
      assert placed[(start + ctx + k) % RING].dmaLen == ps[k].len;
    }
  }

  // Pieces laid out do not look like slots that were reset.
  lemma LaidShows(data: seq<Slot>, start: nat, ctx: nat, ps: seq<Piece>, answers: Answers, m: nat)
    requires |data| == RING && m <= |ps| && ctx <= 1 && ctx + m <= RING && Answered(answers, m)
    requires RegionReset(data, start, ctx + m) && forall k :: 0 <= k < m ==> ps[k].len > 0
    ensures Lay(data, start + ctx, ps, answers, m) == data <==> m == 0
  {
    if m > 0 {
      LaidHolds(data, start + ctx, ps, answers, m, 0);
      DistOf(start, ctx);
      assert Holds(Lay(data, start + ctx, ps, answers, m), start + ctx, ps, answers, 0);
    }
  }

  /** The rollback undoes everything if and only if nothing had been mapped, or
      its index has not wrapped and no piece was mapped at bus address zero. No
      slot but the packet's own is touched; these are vacant again unless the
      index has wrapped, and reset again, where they were reset, under exactly
      the condition for undoing everything. */
  lemma RollbackLaw(data: seq<Slot>, start: nat, ctx: nat, ps: seq<Piece>, answers: Answers, m: nat)
    requires |data| == RING && m <= |ps| && ctx <= 1 && ctx + m <= RING && Answered(answers, m)
    requires RegionVacant(data, start, ctx + m)
    ensures var made, after, all := Mapped(ps, answers, m), AfterRollback(data, start, ctx, ps, answers, m),
                                    m == 0 || (!Skipped(start, ctx, m) && NonZero(Mapped(ps, answers, m)));
      && (UndoneBy(start, ctx, ps, answers, m) == made <==> all)
      && SameOutside(data, after, start, ctx + m)
      && (m == 0 || !Skipped(start, ctx, m) ==> RegionVacant(after, start, ctx + m))
      && (RegionReset(data, start, ctx + m) && (forall k :: 0 <= k < m ==> ps[k].len > 0) ==> (after == data <==> all))
  {
    hide Live, Lay, Mapped, P.Place, Leftovers;
    LiveIff(Mapped(ps, answers, m));
    RollbackSlots(data, start, ctx, ps, answers, m);
    if RegionReset(data, start, ctx + m) && forall k :: 0 <= k < m ==> ps[k].len > 0 {
      SweepResets(data, start, ctx, ps, answers, m);
      LaidShows(data, start, ctx, ps, answers, m);
    }
  }

  lemma PlacedAt(data: seq<Slot>, base: nat, slots: seq<Slot>, q: nat)
    requires |data| == RING && |slots| <= RING && q < RING
    ensures P.Place(data, base, slots)[q] == if Dist(q, base) < |slots| then slots[Dist(q, base)] else data[q]
  {
  }

  lemma RollbackSlots(data: seq<Slot>, start: nat, ctx: nat, ps: seq<Piece>, answers: Answers, m: nat)
    requires |data| == RING && m <= |ps| && ctx <= 1 && ctx + m <= RING && Answered(answers, m)
    requires RegionVacant(data, start, ctx + m)
    ensures var after := AfterRollback(data, start, ctx, ps, answers, m);
      && SameOutside(data, after, start, ctx + m)
      && (m == 0 || !Skipped(start, ctx, m) ==> RegionVacant(after, start, ctx + m))
  {
    hide Lay, Mapped, Dist, P.Place;
    forall q | 0 <= q < RING
      ensures var after := AfterRollback(data, start, ctx, ps, answers, m);
        if Dist(q, start) >= ctx + m then after[q] == data[q]
        else m == 0 || !Skipped(start, ctx, m) ==> Vacant(after[q])
    {
      LayAt(data, start + ctx, ps, answers, m, q);
      PlacedAt(data, start + ctx, Leftovers(Mapped(ps, answers, m)), q);
      DistNext(q, start);
    }
  }

  /** A rollback that the comparison skips: an index four short of the wrap, a
      packet of five pieces, and the fifth mapping refused. None of the four
      mappings made is undone. */
  lemma RollbackSkipped() returns (skb: Skb, answers: Answers)
    ensures skb.WellFormed() && |Pieces(skb)| == |answers| == 5 && Mappable(Pieces(skb), answers, 0) == 4
    ensures Skipped(WORD32 - 4, 0, 4) && NonZero(Mapped(Pieces(skb), answers, 4)) && Mapped(Pieces(skb), answers, 4) != []
  {
    skb := TxPacket.Skb(0, 100, [100, 100, 100, 100], false, false, 0, 0, 0, 0, None);
    answers := [Some(0x1000), Some(0x2000), Some(0x3000), Some(0x4000), None];
    SplitCount(Linear, 0, 100);
    FragPiecesCount(skb.frags, 0);
    assert skb.frags[..0] == [];
    Hundreds(4);
    assert skb.frags == seq(4, _ => 100);
    hide Split, FragPieces, CeilSum, Sum, Mapped;
    MappableIs(Pieces(skb), answers, 4);
    forall k | 0 <= k < 4 ensures Mapped(Pieces(skb), answers, 4)[k].addr != 0 {
      MappedAt(Pieces(skb), answers, 4, k);
    }
  }

  lemma {:induction false} Hundreds(n: nat)
    ensures CeilSum(seq(n, _ => 100), MAX_BUF) == n && Sum(seq(n, _ => 100)) == 100 * n
  {
    if n > 0 {
      var all := seq(n, _ => 100);
      Hundreds(n - 1);
      assert all[..n - 1] == seq(n - 1, _ => 100);
      assert CeilDiv(100, MAX_BUF) == 1;
    }
  }

  // ------------------------------------------------------- mapping a packet

  lemma NextPiece(ps: seq<Piece>, m: nat, src: Source, off: nat, len: nat, tail: seq<Piece>)
    requires m <= |ps| && len > 0 && ps == ps[..m] + Split(src, off, len) + tail
    ensures var n := Min(len, MAX_BUF);
      m < |ps| && ps[m] == Piece(src, off, n) && ps == ps[..m + 1] + Split(src, off + n, len - n) + tail
  {
    var n := Min(len, MAX_BUF);
    assert Split(src, off, len)[0] == Piece(src, off, n);
    assert ps[m] == Split(src, off, len)[0];
    assert ps[..m + 1] == ps[..m] + [ps[m]];
  }

  lemma MappableIs(ps: seq<Piece>, answers: Answers, m: nat)
    requires m <= |ps| <= |answers| && Answered(answers, m) && (m < |ps| ==> answers[m].None?)
    ensures Mappable(ps, answers, 0) == m
  {
  }

  lemma NextFrag(front: seq<Piece>, frags: seq<nat>, i: nat)
    requires i < |frags|
    ensures front + FragPieces(frags, i) == front + Split(Frag(i), 0, frags[i]) + FragPieces(frags, i + 1)
  {
  }

  lemma NoMoreFrags(frags: seq<nat>)
    ensures FragPieces(frags, |frags|) == []
  {
  }

  function Context(skb: Skb, mss: nat, tag: nat): nat {
    if NeedsContext(skb, mss, tag) then 1 else 0
  }

  function ContextOf(p: Packet, mss: nat, tag: nat): nat {
    if (p.tso && p.mss != mss) || (p.vlan && p.ctag != tag) then 1 else 0
  }

  // The slots after a packet has been mapped: its pieces, and the packet
  // itself on the last one.
  function Laid(data: seq<Slot>, base: nat, ps: seq<Piece>, answers: Answers, id: nat): (r: seq<Slot>)
    requires |data| == RING && 0 < |ps| && Answered(answers, |ps|)
    ensures |r| == RING
  {
    var all := Lay(data, base, ps, answers, |ps|);
    var last := (base + |ps| - 1) % RING;
    all[last := all[last].(skb := Some(id))]
  }

  // The slots once the packet's counts have been saved on its last one.
  function Kept(data: seq<Slot>, base: nat, ps: seq<Piece>, answers: Answers, id: nat, packets: nat, bytes: nat): (r: seq<Slot>)
    requires |data| == RING && 0 < |ps| && Answered(answers, |ps|)
    ensures |r| == RING
  {
    var laid := Laid(data, base, ps, answers, id);
    var last := (base + |ps| - 1) % RING;
    laid[last := laid[last].(packets := packets, bytes := bytes)]
  }

  // The slots of a packet sent off from index `start`.
  function KeptOf(skb: Skb, answers: Answers, data: seq<Slot>, start: nat, mss: nat, tag: nat): (r: seq<Slot>)
    requires skb.WellFormed() && |data| == RING && 0 < |Pieces(skb)| && Answered(answers, |Pieces(skb)|)
    ensures |r| == RING
  {
    Kept(data, start + Context(skb, mss, tag), Pieces(skb), answers, skb.id, PrepTso(skb).txPackets, PrepTso(skb).txBytes)
  }

  lemma KeptOutside(data: seq<Slot>, start: nat, ctx: nat, ps: seq<Piece>, answers: Answers, id: nat, packets: nat, bytes: nat)
    requires |data| == RING && 0 < |ps| && ctx <= 1 && ctx + |ps| <= RING && Answered(answers, |ps|)
    ensures SameOutside(data, Kept(data, start + ctx, ps, answers, id, packets, bytes), start, ctx + |ps|)
  {
    hide Lay;
    forall q | 0 <= q < RING && Dist(q, start) >= ctx + |ps|
      ensures Kept(data, start + ctx, ps, answers, id, packets, bytes)[q] == data[q]
    {
      LayAt(data, start + ctx, ps, answers, |ps|, q);
      DistNext(q, start);
      DistIs(start, ctx + |ps| - 1, q);
    }
  }

  lemma KeptOfOutside(skb: Skb, answers: Answers, data: seq<Slot>, start: nat, mss: nat, tag: nat)
    requires skb.WellFormed() && |data| == RING && 0 < |Pieces(skb)| && Answered(answers, |Pieces(skb)|)
    requires Used(skb, mss, tag) <= RING
    ensures SameOutside(data, KeptOf(skb, answers, data, start, mss, tag), start, Used(skb, mss, tag))
  {
    KeptOutside(data, start, Context(skb, mss, tag), Pieces(skb), answers, skb.id, PrepTso(skb).txPackets, PrepTso(skb).txBytes);
  }

  /** The packet as `mac_dev_xmit` finds it: header data from the packet, buffer
      addresses from the DMA layer. */
  function PacketOf(skb: Skb, answers: Answers): Packet
    requires skb.WellFormed() && Answered(answers, |Pieces(skb)|)
  {
    var t, ps := PrepTso(skb), Pieces(skb);
    Packet(skb.Tso(), skb.csumPartial, skb.tag.Some?, t.mss, if skb.tag.Some? then skb.tag.value else 0,
           t.tcpHeaderLen, t.tcpPayloadLen, skb.Len(), t.txPackets, t.txBytes,
           seq(|ps|, k requires 0 <= k < |ps| => Buf(answers[k].value, ps[k].len)))
  }

  // The packet's buffers are the mapped pieces.
  predicate Carries(p: Packet, ps: seq<Piece>, answers: Answers) {
    && Answered(answers, |ps|) && |p.bufs| == |ps| > 0
    && forall k :: 0 <= k < |ps| ==> p.bufs[k] == Buf(answers[k].value, ps[k].len)
  }

  lemma LaidPiece(data: seq<Slot>, base: nat, ps: seq<Piece>, answers: Answers, id: nat, k: nat)
    requires |data| == RING && 0 < |ps| <= RING && Answered(answers, |ps|) && k < |ps|
    ensures var s := Laid(data, base, ps, answers, id)[(base + k) % RING];
      MappingIn(s) == MappingOf(ps[k], answers[k].value) && s.skb == if k == |ps| - 1 then Some(id) else None
  {
    LaidHolds(data, base, ps, answers, |ps|, k);
    DistOf(base, k);
    DistOf(base, |ps| - 1);
  }

  lemma PacketSlots(data: seq<Slot>, base: nat, ps: seq<Piece>, answers: Answers, id: nat, p: Packet)
    requires |data| == RING && |ps| <= RING && Carries(p, ps, answers)
    ensures SlotsHold(Laid(data, base, ps, answers, id), base, p)
  {
    hide Laid;
    forall k | 0 <= k < |p.bufs| ensures SlotHolds(Laid(data, base, ps, answers, id), base, p, k) {
      LaidPiece(data, base, ps, answers, id, k);
    }
  }

  ghost predicate SlotsHold(data: seq<Slot>, base: nat, p: Packet)
    requires |data| == RING
  {
    forall k :: 0 <= k < |p.bufs| ==> SlotHolds(data, base, p, k)
  }

  // The k-th slot from index `base` on records the packet's k-th buffer.
  predicate SlotHolds(data: seq<Slot>, base: nat, p: Packet, k: nat)
    requires |data| == RING && k < |p.bufs|
  {
    var s := data[(base + k) % RING];
    Buf(s.dma, s.dmaLen) == p.bufs[k]
  }

  lemma ContextAgrees(skb: Skb, answers: Answers, mss: nat, tag: nat)
    requires skb.WellFormed() && 0 < |Pieces(skb)| && Answered(answers, |Pieces(skb)|)
    ensures var p := PacketOf(skb, answers);
      && ContextOf(p, mss, tag) == Context(skb, mss, tag) && |p.bufs| == |Pieces(skb)|
      && (p.tso ==> p.csum) && Carries(p, Pieces(skb), answers)
  {
  }

  lemma PiecesNonEmpty(skb: Skb)
    requires skb.WellFormed()
    ensures forall k :: 0 <= k < |Pieces(skb)| ==> Pieces(skb)[k].len > 0
  {
    PieceSizes(skb);
  }

  lemma RegionShift(data: seq<Slot>, start: nat, ctx: nat, n: nat)
    requires |data| == RING && ctx <= 1 && ctx + n <= RING && RegionVacant(data, start, ctx + n)
    ensures RegionVacant(data, start + ctx, n)
  {
    forall q | 0 <= q < RING && Dist(q, start + ctx) < n ensures Vacant(data[q]) {
      DistNext(q, start);
    }
  }

  lemma NoPacketLaid(data: seq<Slot>, start: nat, ctx: nat, ps: seq<Piece>, answers: Answers, m: nat)
    requires |data| == RING && m <= |ps| && ctx <= 1 && ctx + m <= RING && Answered(answers, m)
    requires RegionVacant(data, start, ctx + m)
    ensures forall q :: 0 <= q < RING && Dist(q, start) < ctx + m ==> Lay(data, start + ctx, ps, answers, m)[q].skb.None?
  {
    forall q | 0 <= q < RING && Dist(q, start) < ctx + m ensures Lay(data, start + ctx, ps, answers, m)[q].skb.None? {
      LayAt(data, start + ctx, ps, answers, m, q);
    }
  }

  // What a call of `mac_map_tx_skb` works from: the slots and calls before it,
  // the index of its first piece, and the pieces.
  datatype Plan = Plan(data0: seq<Slot>, maps0: seq<Mapping>, base: nat, ps: seq<Piece>)
  {
    ghost predicate Fits(answers: Answers) {
      |data0| == RING && |ps| <= RING && |ps| <= |answers| && RegionVacant(data0, base, |ps|)
    }
  }
}
