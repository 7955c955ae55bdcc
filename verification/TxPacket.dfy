/** How a packet is cut into DMA pieces, and how many descriptors it is
    estimated to need (`mac_prep_tx_pkt`, `mac_prep_tso`, and the lengths
    computed by `mac_map_tx_skb`). */
module TxPacket {
  import opened Common

  // MAC_TX_MAX_BUF_SIZE: 0x3fff rounded down to a multiple of 64.
  const MAX_BUF: nat := 0x3fff / 64 * 64

  // Kernel limits, with 4096-byte pages.
  const MAX_SKB_FRAGS: nat := 17
  const GSO_MAX_SIZE: nat := 65536

  const MAX_SPLIT: nat := GSO_MAX_SIZE / MAX_BUF + 1
  const MAX_DESC_NR: nat := MAX_SKB_FRAGS + MAX_SPLIT + 2

  /** The parts of a socket buffer that the transmit path reads. */
  datatype Skb = Skb(
    id: nat,
    headLen: nat,
    frags: seq<nat>,
    csumPartial: bool,
    gso: bool,
    gsoSize: nat,
    gsoSegs: nat,
    hdrLen: nat,
    tcpHdrLen: nat,
    tag: Option<nat>)
  {
    function Len(): nat { headLen + Sum(frags) }

    // mac_is_tso
    predicate Tso() { csumPartial && gso }

    // Where the linear data that follows the TSO header starts.
    function DataStart(): nat { if Tso() then hdrLen else 0 }

    /** What the network stack guarantees of the buffers it hands over. */
    predicate WellFormed() {
      && |frags| <= MAX_SKB_FRAGS
      && Len() <= GSO_MAX_SIZE
      && (Tso() ==> 0 < hdrLen <= headLen && 1 <= gsoSegs < 0x1_0000)
    }
  }

  // Whether a context descriptor precedes the packet: the segment size or the
  // tag differs from the one the hardware was last told.
  predicate NeedsContext(skb: Skb, curMss: nat, curTag: nat) {
    || (skb.Tso() && skb.gsoSize != curMss)
    || (skb.tag.Some? && skb.tag.value != curTag)
  }

  // ---------------------------------------------------------------- pieces

  datatype Source = Linear | Frag(i: nat)
  datatype Piece = Piece(src: Source, off: nat, len: nat)

  function Split(src: Source, off: nat, len: nat): seq<Piece>
    decreases len
  {
    if len == 0 then []
    else
      var n := Min(len, MAX_BUF);
      [Piece(src, off, n)] + Split(src, off + n, len - n)
  }

  function FragPieces(frags: seq<nat>, i: nat): seq<Piece>
    requires i <= |frags|
    decreases |frags| - i
  {
    if i == |frags| then [] else Split(Frag(i), 0, frags[i]) + FragPieces(frags, i + 1)
  }

  function HeaderPieces(skb: Skb): seq<Piece> {
    if skb.Tso() then [Piece(Linear, 0, skb.hdrLen)] else []
  }

  function Pieces(skb: Skb): seq<Piece>
    requires skb.WellFormed()
  {
    HeaderPieces(skb) + Split(Linear, skb.DataStart(), skb.headLen - skb.DataStart()) + FragPieces(skb.frags, 0)
  }

  // ------------------------------------------- pieces tile the packet's bytes

  type Byte = (Source, nat)

  function Bytes(src: Source, off: nat, len: nat): seq<Byte> {
    seq(len, k requires 0 <= k < len => (src, off + k))
  }

  function Gather(ps: seq<Piece>): seq<Byte> {
    if ps == [] then [] else Bytes(ps[0].src, ps[0].off, ps[0].len) + Gather(ps[1..])
  }

  function FragBytes(frags: seq<nat>, i: nat): seq<Byte>
    requires i <= |frags|
    decreases |frags| - i
  {
    if i == |frags| then [] else Bytes(Frag(i), 0, frags[i]) + FragBytes(frags, i + 1)
  }

  // The packet as the stack sees it: linear bytes, then every fragment's.
  function PacketBytes(skb: Skb): seq<Byte> {
    Bytes(Linear, 0, skb.headLen) + FragBytes(skb.frags, 0)
  }

  lemma {:induction false} GatherConcat(a: seq<Piece>, b: seq<Piece>)
    ensures Gather(a + b) == Gather(a) + Gather(b)
  {
    if a == [] {
      assert a + b == b;
    } else {
      GatherConcat(a[1..], b);
      assert (a + b)[1..] == a[1..] + b && (a + b)[0] == a[0];
      var h := Bytes(a[0].src, a[0].off, a[0].len);
      calc {
        Gather(a + b);
        h + Gather(a[1..] + b);
        h + (Gather(a[1..]) + Gather(b));
        (h + Gather(a[1..])) + Gather(b);
      }
    }
  }

  lemma {:induction false} SplitBytes(src: Source, off: nat, len: nat)
    ensures Gather(Split(src, off, len)) == Bytes(src, off, len)
    decreases len
  {
    if len != 0 {
      var n := Min(len, MAX_BUF);
      SplitBytes(src, off + n, len - n);
      assert Split(src, off, len)[1..] == Split(src, off + n, len - n);
      assert Bytes(src, off, len) == Bytes(src, off, n) + Bytes(src, off + n, len - n);
    }
  }

  lemma {:induction false} FragPiecesBytes(frags: seq<nat>, i: nat)
    requires i <= |frags|
    ensures Gather(FragPieces(frags, i)) == FragBytes(frags, i)
    decreases |frags| - i
  {
    if i < |frags| {
      FragPiecesBytes(frags, i + 1);
      SplitBytes(Frag(i), 0, frags[i]);
      GatherConcat(Split(Frag(i), 0, frags[i]), FragPieces(frags, i + 1));
    }
  }

  lemma HeaderBytes(skb: Skb)
    ensures Gather(HeaderPieces(skb)) == Bytes(Linear, 0, skb.DataStart())
  {
    if skb.Tso() {
      assert [Piece(Linear, 0, skb.hdrLen)][1..] == [];
    }
  }

  lemma BytesJoin(src: Source, a: nat, b: nat)
    requires a <= b
    ensures Bytes(src, 0, b) == Bytes(src, 0, a) + Bytes(src, a, b - a)
  {
  }

  /** The pieces, read in slot order, are exactly the packet: no byte is
      skipped, repeated or reordered. */
  lemma PiecesTilePacket(skb: Skb)
    requires skb.WellFormed()
    ensures Gather(Pieces(skb)) == PacketBytes(skb)
  {
    hide Gather, Split, FragPieces, FragBytes, Bytes, HeaderPieces;
    var d := skb.DataStart();
    var head := Split(Linear, d, skb.headLen - d);
    GatherConcat(HeaderPieces(skb) + head, FragPieces(skb.frags, 0));
    GatherConcat(HeaderPieces(skb), head);
    SplitBytes(Linear, d, skb.headLen - d);
    FragPiecesBytes(skb.frags, 0);
    HeaderBytes(skb);
    BytesJoin(Linear, d, skb.headLen);
  }

  function Lengths(ps: seq<Piece>): seq<nat> {
    seq(|ps|, k requires 0 <= k < |ps| => ps[k].len)
  }

  lemma {:induction false} GatherLength(ps: seq<Piece>)
    ensures |Gather(ps)| == Sum(Lengths(ps))
  {
    if ps != [] {
      GatherLength(ps[1..]);
      SumConcat([ps[0].len], Lengths(ps[1..]));
      assert Lengths(ps) == [ps[0].len] + Lengths(ps[1..]);
      assert Sum([ps[0].len]) == ps[0].len by { SumSnoc([], ps[0].len); }
    }
  }

  lemma {:induction false} FragBytesLength(frags: seq<nat>, i: nat)
    requires i <= |frags|
    ensures |FragBytes(frags, i)| == Sum(frags) - Sum(frags[..i])
    decreases |frags| - i
  {
    hide Sum;
    if i < |frags| {
      FragBytesLength(frags, i + 1);
      assert frags[..i + 1] == frags[..i] + [frags[i]];
      SumSnoc(frags[..i], frags[i]);
    } else {
      assert frags[..i] == frags;
    }
  }

  /** The total the mapping loop accumulates in `pkt_info->length`. */
  lemma PiecesTotal(skb: Skb)
    requires skb.WellFormed()
    ensures Sum(Lengths(Pieces(skb))) == skb.Len()
  {
    PiecesTilePacket(skb);
    GatherLength(Pieces(skb));
    FragBytesLength(skb.frags, 0);
  }

  // ----------------------------------------------------- descriptor estimate

  function CeilDiv(x: nat, b: nat): nat
    requires b > 0
  {
    (x + b - 1) / b
  }

  // One pass of the splitting loop accounts for one buffer.
  lemma CeilDivStep(len: nat)
    requires len > 0
    ensures CeilDiv(len, MAX_BUF) == 1 + CeilDiv(len - Min(len, MAX_BUF), MAX_BUF)
  {
    assert MAX_BUF == 16320;
    assert CeilDiv(len, MAX_BUF) == (len + 16319) / 16320;
  }

  function CeilSum(xs: seq<nat>, b: nat): nat
    requires b > 0
  {
    if xs == [] then 0 else CeilSum(xs[..|xs| - 1], b) + CeilDiv(xs[|xs| - 1], b)
  }

  /** The estimate, stated with rounded-up divisions rather than loops. */
  function Estimate(skb: Skb, curMss: nat, curTag: nat): nat {
    (if NeedsContext(skb, curMss, curTag) then 1 else 0)
    + (if skb.Tso() then 1 else 0)
    + CeilDiv(skb.headLen, MAX_BUF) + CeilSum(skb.frags, MAX_BUF)
  }

  // The attributes and counts `mac_prep_tx_pkt` leaves in `pkt_info`.
  datatype Prep = Prep(tso: bool, csum: bool, vlan: bool, descCount: nat, txPackets: nat, txBytes: nat)

  // The inner loop of `mac_prep_tx_pkt`, once for the linear data and once per
  // fragment.
  method CountBuffers(length: nat) returns (count: nat)
    ensures count == CeilDiv(length, MAX_BUF)
  {
    var len := length;
    count := 0;
    while len != 0
      invariant 0 <= len
      invariant count + CeilDiv(len, MAX_BUF) == CeilDiv(length, MAX_BUF)
    {
      CeilDivStep(len);
      count := count + 1;
      len := len - Min(len, MAX_BUF);
    }
  }

  method PrepTxPkt(skb: Skb, curMss: nat, curTag: nat) returns (p: Prep)
    ensures p == Prep(skb.Tso(), skb.csumPartial, skb.tag.Some?, Estimate(skb, curMss, curTag), 1, skb.Len())
  {
    var context := false;
    var count := 0;
    var tso, csum, vlan := false, false, false;
    if skb.Tso() {
      if skb.gsoSize != curMss {
        context := true;
        count := count + 1;
      }
      count := count + 1;
      tso := true;
      csum := true;
    } else if skb.csumPartial {
      csum := true;
    }
    if skb.tag.Some? {
      if skb.tag.value != curTag {
        if !context {
          context := true;
          count := count + 1;
        }
      }
      vlan := true;
    }
    ghost var fixed := count;
    var buffers := CountBuffers(skb.headLen);
    count := count + buffers;
    for i := 0 to |skb.frags|
      invariant count == fixed + CeilDiv(skb.headLen, MAX_BUF) + CeilSum(skb.frags[..i], MAX_BUF)
    {
      assert skb.frags[..i + 1][..i] == skb.frags[..i];
      buffers := CountBuffers(skb.frags[i]);
      count := count + buffers;
    }
    assert skb.frags[..|skb.frags|] == skb.frags;
    p := Prep(tso, csum, vlan, count, 1, skb.Len());
  }

  // ------------------------------------- used descriptors against the estimate

  lemma {:induction false} SplitCount(src: Source, off: nat, len: nat)
    ensures |Split(src, off, len)| == CeilDiv(len, MAX_BUF)
    decreases len
  {
    if len != 0 {
      var n := Min(len, MAX_BUF);
      SplitCount(src, off + n, len - n);
      CeilDivStep(len);
    }
  }

  lemma {:induction false} SplitSizes(src: Source, off: nat, len: nat, k: nat)
    requires k < |Split(src, off, len)|
    ensures Split(src, off, len)[k].src == src && 0 < Split(src, off, len)[k].len <= MAX_BUF
    decreases len
  {
    var n := Min(len, MAX_BUF);
    if k > 0 {
      SplitSizes(src, off + n, len - n, k - 1);
    }
  }

  lemma {:induction false} FragPiecesCount(frags: seq<nat>, i: nat)
    requires i <= |frags|
    ensures |FragPieces(frags, i)| == CeilSum(frags, MAX_BUF) - CeilSum(frags[..i], MAX_BUF)
    decreases |frags| - i
  {
    if i < |frags| {
      FragPiecesCount(frags, i + 1);
      SplitCount(Frag(i), 0, frags[i]);
      assert frags[..i + 1][..i] == frags[..i];
    } else {
      assert frags[..i] == frags;
    }
  }

  lemma {:induction false} FragPiecesSizes(frags: seq<nat>, i: nat, k: nat)
    requires i <= |frags| && k < |FragPieces(frags, i)|
    ensures FragPieces(frags, i)[k].src.Frag? && 0 < FragPieces(frags, i)[k].len <= MAX_BUF
    decreases |frags| - i
  {
    var here := Split(Frag(i), 0, frags[i]);
    if k < |here| {
      SplitSizes(Frag(i), 0, frags[i], k);
    } else {
      FragPiecesSizes(frags, i + 1, k - |here|);
    }
  }

  /** Every piece but the TSO header fits one hardware buffer, is non-empty,
      and sits behind the header; the header piece is exactly the header. */
  lemma PieceSizes(skb: Skb)
    requires skb.WellFormed()
    ensures var h := if skb.Tso() then 1 else 0;
      && h <= |Pieces(skb)|
      && (skb.Tso() ==> Pieces(skb)[0] == Piece(Linear, 0, skb.hdrLen))
      && forall k :: h <= k < |Pieces(skb)| ==> 0 < Pieces(skb)[k].len <= MAX_BUF
  {
    var d := skb.DataStart();
    var head := HeaderPieces(skb);
    var linear := Split(Linear, d, skb.headLen - d);
    forall k | |head| <= k < |Pieces(skb)| ensures 0 < Pieces(skb)[k].len <= MAX_BUF {
      if k < |head| + |linear| {
        assert Pieces(skb)[k] == linear[k - |head|];
        SplitSizes(Linear, d, skb.headLen - d, k - |head|);
      } else {
        assert Pieces(skb)[k] == FragPieces(skb.frags, 0)[k - |head| - |linear|];
        FragPiecesSizes(skb.frags, 0, k - |head| - |linear|);
      }
    }
  }

  // Descriptors the mapping loop really uses.
  function Used(skb: Skb, curMss: nat, curTag: nat): nat
    requires skb.WellFormed()
  {
    (if NeedsContext(skb, curMss, curTag) then 1 else 0) + |Pieces(skb)|
  }

  lemma CeilDivMono(x: nat, y: nat, b: nat)
    requires b > 0 && x <= y
    ensures CeilDiv(x, b) <= CeilDiv(y, b)
  {
    var k := CeilDiv(x, b);
    assert x + b - 1 == k * b + (x + b - 1) % b;
    DivAtLeast(k, b, y + b - 1);
  }

  /** The mapping loop never uses more descriptors than were checked for, and
      without TSO it uses exactly that many. With TSO the header was counted
      twice, and so the difference is what it adds to the buffers of the linear
      part. */
  lemma UsedWithinEstimate(skb: Skb, curMss: nat, curTag: nat)
    requires skb.WellFormed()
    ensures Used(skb, curMss, curTag) <= Estimate(skb, curMss, curTag)
    ensures !skb.Tso() ==> Used(skb, curMss, curTag) == Estimate(skb, curMss, curTag)
    ensures skb.Tso() ==> Estimate(skb, curMss, curTag) - Used(skb, curMss, curTag) ==
                          (skb.headLen + MAX_BUF - 1) / MAX_BUF - (skb.headLen - skb.hdrLen + MAX_BUF - 1) / MAX_BUF
    ensures skb.Len() > 0 ==> |Pieces(skb)| > 0
  {
    var d := skb.DataStart();
    SplitCount(Linear, d, skb.headLen - d);
    FragPiecesCount(skb.frags, 0);
    CeilDivMono(skb.headLen - d, skb.headLen, MAX_BUF);
    if Pieces(skb) == [] {
      PiecesTotal(skb);
    }
  }

  lemma MulCancel(a: int, b: int, c: nat)
    requires a * c < b * c
    ensures a < b
  {
  }

  lemma DivAtLeast(k: int, b: nat, x: nat)
    requires b > 0 && k * b <= x
    ensures k <= x / b
  {
    assert x == (x / b) * b + x % b;
    assert (x / b + 1) * b == (x / b) * b + b;
    MulCancel(k, x / b + 1, b);
  }

  lemma CeilDivBound(x: nat, b: nat)
    requires b > 0
    ensures CeilDiv(x, b) * b <= x + b - 1
  {
    var y := x + b - 1;
    assert y == (y / b) * b + y % b;
  }

  lemma {:induction false} CeilSumScaled(xs: seq<nat>, b: nat)
    requires b > 0
    ensures CeilSum(xs, b) * b <= Sum(xs) + |xs| * (b - 1)
  {
    if xs != [] {
      var n := |xs| - 1;
      CeilSumScaled(xs[..n], b);
      CeilDivBound(xs[n], b);
      assert CeilSum(xs, b) * b == CeilSum(xs[..n], b) * b + CeilDiv(xs[n], b) * b;
      assert |xs| * (b - 1) == n * (b - 1) + (b - 1);
    }
  }

  /** For any buffer size: cutting `xs` into buffers costs at most one partial
      buffer per run plus the full buffers of the total. */
  lemma CeilSumBound(xs: seq<nat>, b: nat)
    requires b > 0
    ensures CeilSum(xs, b) <= |xs| + Sum(xs) / b
  {
    CeilSumScaled(xs, b);
    assert (CeilSum(xs, b) - |xs|) * b <= Sum(xs) by {
      assert (CeilSum(xs, b) - |xs|) * b == CeilSum(xs, b) * b - |xs| * b;
      assert |xs| * (b - 1) == |xs| * b - |xs|;
    }
    DivAtLeast(CeilSum(xs, b) - |xs|, b, Sum(xs));
  }

  lemma EstimateSum(skb: Skb, curMss: nat, curTag: nat)
    ensures Estimate(skb, curMss, curTag) <= 2 + CeilSum(skb.frags + [skb.headLen], MAX_BUF)
    ensures Sum(skb.frags + [skb.headLen]) == skb.Len()
  {
    var xs := skb.frags + [skb.headLen];
    SumSnoc(skb.frags, skb.headLen);
    assert xs[..|xs| - 1] == skb.frags;
    hide CeilDiv;
    assert CeilSum(xs, MAX_BUF) == CeilSum(skb.frags, MAX_BUF) + CeilDiv(skb.headLen, MAX_BUF);
  }

  lemma LargestQuotient(x: nat)
    requires x <= GSO_MAX_SIZE
    ensures x / MAX_BUF < MAX_SPLIT
  {
  }

  /** MAC_TX_MAX_DESC_NR really is the worst case: no well-formed packet needs
      more, whatever context the hardware holds. */
  lemma EstimateBound(skb: Skb, curMss: nat, curTag: nat)
    requires skb.WellFormed()
    ensures Estimate(skb, curMss, curTag) <= MAX_DESC_NR
  {
    EstimateSum(skb, curMss, curTag);
    CeilSumBound(skb.frags + [skb.headLen], MAX_BUF);
    LargestQuotient(skb.Len());
    hide Estimate, CeilSum, Sum;
  }

  // ---------------------------------------------------------------- TSO data

  datatype TsoInfo = TsoInfo(mss: nat, headerLen: nat, tcpHeaderLen: nat, tcpPayloadLen: nat, txPackets: nat, txBytes: nat)

  // mac_prep_tso, after the header has been made writable.
  function PrepTso(skb: Skb): TsoInfo
    requires skb.WellFormed()
  {
    if skb.Tso() then
      TsoInfo(skb.gsoSize, skb.hdrLen, skb.tcpHdrLen, skb.Len() - skb.hdrLen, skb.gsoSegs,
              (skb.Len() + (skb.gsoSegs - 1) * skb.hdrLen) % WORD32)
    else
      TsoInfo(0, 0, 0, 0, 1, skb.Len())
  }
}
