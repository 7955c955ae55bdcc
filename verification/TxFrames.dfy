/** What the device finally puts on the wire for a packet given to `mac_xmit`,
    said in the packet's own terms, and what is reported to the stack for it. */
module TxFrames {
  import opened Common
  import opened TxMapping
  import opened TxPacket
  import opened TxWire
  import A = TxAgreement
  import C = TxCoalesce
  import D = TxDevice
  import R = TxRing

  /** The frame asks for what the packet is: its pieces at the addresses mapped,
      its tag, its checksum; and if it is to be segmented, the segment size, the
      TCP header's length in words and the payload that follows the header, each
      cut to its descriptor field. */
  predicate Describes(f: D.Frame, skb: Skb, answers: Answers)
    requires skb.WellFormed() && Answered(answers, |Pieces(skb)|)
  {
    && |f.bufs| == |Pieces(skb)|
    && (forall k :: 0 <= k < |f.bufs| ==> f.bufs[k] == Buf(answers[k].value, Pieces(skb)[k].len % 0x4000))
    && f.tag == skb.tag && f.csum == skb.csumPartial
    && (if skb.csumPartial && skb.gso then
          && f.tcp.Some? && f.length == 0
          && f.tcp.value.mss == skb.gsoSize % 0x8000 && f.tcp.value.hdrWords == skb.tcpHdrLen / 4 % 16
          && f.tcp.value.payload + skb.hdrLen == skb.Len() && f.tcp.value.payload == Sum(Lengths(Pieces(skb)[1..]))
        else f.tcp.None? && f.length == skb.Len() % 0x8000)
  }

  // The bytes of a packet cut into segments with these payloads, each with a
  // copy of the header.
  function OnTheWire(segments: seq<nat>, header: nat): nat {
    Sum(seq(|segments|, k requires 0 <= k < |segments| => header + segments[k]))
  }

  lemma {:induction false} OnTheWireIs(segments: seq<nat>, header: nat)
    ensures OnTheWire(segments, header) == |segments| * header + Sum(segments)
  {
    var framed := seq(|segments|, k requires 0 <= k < |segments| => header + segments[k]);
    if segments != [] {
      var n := |segments| - 1;
      OnTheWireIs(segments[..n], header);
      assert framed[..n] == seq(n, k requires 0 <= k < n => header + segments[..n][k]);
      assert |segments| * header == n * header + header;
    }
  }

  /** `bytes` is what goes over the wire for the packet, in 32 bits: its length,
      or if it is segmented the segments with a header each, however the payload
      is divided among them. */
  ghost predicate WireBytes(skb: Skb, bytes: nat) {
    if skb.csumPartial && skb.gso then
      forall segments: seq<nat> ::
        |segments| == skb.gsoSegs && Sum(segments) == skb.Len() - skb.hdrLen ==> bytes == OnTheWire(segments, skb.hdrLen) % WORD32
    else bytes == skb.Len()
  }

  lemma PayloadIs(skb: Skb)
    requires skb.WellFormed() && skb.csumPartial && skb.gso
    ensures 0 < |Pieces(skb)| && Sum(Lengths(Pieces(skb)[1..])) == skb.Len() - skb.hdrLen
  {
    var ps := Pieces(skb);
    PiecesTotal(skb);
    PieceSizes(skb);
    hide Pieces, Sum;
    SumConcat([ps[0].len], Lengths(ps[1..]));
    assert Lengths(ps) == [ps[0].len] + Lengths(ps[1..]);
    assert [ps[0].len] == [] + [ps[0].len];
    SumSnoc([], ps[0].len);
    SumNone();
  }

  lemma SumNone()
    ensures Sum([]) == 0
  {
  }

  lemma BytesAre(skb: Skb)
    requires skb.WellFormed()
    ensures WireBytes(skb, PrepTso(skb).txBytes)
  {
    if skb.csumPartial && skb.gso {
      forall segments: seq<nat> | |segments| == skb.gsoSegs && Sum(segments) == skb.Len() - skb.hdrLen
        ensures PrepTso(skb).txBytes == OnTheWire(segments, skb.hdrLen) % WORD32
      {
        OnTheWireIs(segments, skb.hdrLen);
        assert skb.gsoSegs * skb.hdrLen == (skb.gsoSegs - 1) * skb.hdrLen + skb.hdrLen;
      }
    }
  }

  // What `mac_dev_xmit` is given.
  lemma PacketFields(skb: Skb, answers: Answers)
    requires skb.WellFormed() && Answered(answers, |Pieces(skb)|)
    ensures var p, tso := PacketOf(skb, answers), skb.csumPartial && skb.gso;
      && p.tso == tso && p.csum == skb.csumPartial && p.vlan == skb.tag.Some? && (p.vlan ==> p.ctag == skb.tag.value)
      && p.length == skb.Len() && p.txPackets == (if tso then skb.gsoSegs else 1) && p.txBytes == PrepTso(skb).txBytes
      && (tso ==> p.mss == skb.gsoSize && p.tcpHdrLen == skb.tcpHdrLen && p.payloadLen + skb.hdrLen == skb.Len())
      && |p.bufs| == |Pieces(skb)|
      && forall k :: 0 <= k < |p.bufs| ==> p.bufs[k] == Buf(answers[k].value, Pieces(skb)[k].len)
  {
    hide Pieces, Sum;
  }

  lemma FrameIs(skb: Skb, answers: Answers, interrupt: bool)
    requires skb.WellFormed() && Answered(answers, |Pieces(skb)|)
    ensures Describes(D.OnWire(PacketOf(skb, answers), interrupt), skb, answers)
  {
    hide PacketOf, Pieces, Sum, Answered, Lengths;
    PacketFields(skb, answers);
    if skb.csumPartial && skb.gso {
      PayloadIs(skb);
    }
  }

  lemma UsedIs(skb: Skb, mss: nat, tag: nat)
    requires skb.WellFormed()
    ensures Used(skb, mss, tag) == |Pieces(skb)|
              + if (skb.csumPartial && skb.gso && skb.gsoSize != mss) || (skb.tag.Some? && skb.tag.value != tag) then 1 else 0
  {
    hide Pieces;
  }

  lemma InterruptIs(p: Packet, interrupt: bool)
    ensures D.OnWire(p, interrupt).interrupt == interrupt
  {
  }

  lemma LastSlot(ring: R.TxRing, b: R.Before, skb: Skb, answers: Answers)
    requires skb.WellFormed() && ring.SentAs(b, skb, answers)
    ensures ring.data.Length == RING
    ensures var last := ring.data[(b.cur + Used(skb, b.mss, b.tag) - 1) % RING];
      && b.queued + last.bytes == ring.queued && WireBytes(skb, last.bytes)
      && last.packets == (if skb.csumPartial && skb.gso then skb.gsoSegs else 1) && last.skb == Some(skb.id)
  {
    var base, ps := b.cur + Context(skb, b.mss, b.tag), Pieces(skb);
    BytesAre(skb);
    hide Pieces, Sum, R.TxRing.SentOff, WireBytes, Lay;
    assert ring.data[..] == KeptOf(skb, answers, b.data, b.cur, b.mss, b.tag);
    assert base + |ps| - 1 == b.cur + Used(skb, b.mss, b.tag) - 1;
  }

  /** End to end, for a packet `mac_xmit` has sent: a device in step with what the
      driver had told it makes exactly one frame of the packet's descriptors, and
      that frame is the packet; it is in step with what the driver has now told
      it. The bytes announced to the stack, which the packet's last slot keeps for
      completion together with the packet and its number of frames, are those
      that go over the wire. */
  lemma SentOnWire(ring: R.TxRing, b: R.Before, skb: Skb, answers: Answers, dev: D.Device) returns (f: D.Frame)
    requires skb.WellFormed() && ring.SentAs(b, skb, answers) && D.InStep(dev, b.mss, b.tag)
    ensures ring.desc.Length == RING == ring.data.Length && Describes(f, skb, answers)
    ensures var o := D.Run(dev, R.Block(ring.desc[..], b.cur, Used(skb, b.mss, b.tag)));
      o.frames == [f] && D.InStep(o.dev, ring.mss, ring.tag)
    ensures ring.head == b.head + |Pieces(skb)|
              + if (skb.csumPartial && skb.gso && skb.gsoSize != b.mss) || (skb.tag.Some? && skb.tag.value != b.tag) then 1 else 0
    ensures f.interrupt == C.Interrupts(ring.coalesce, if skb.csumPartial && skb.gso then skb.gsoSegs else 1, ring.frames)
    ensures var last := ring.data[(b.cur + Used(skb, b.mss, b.tag) - 1) % RING];
      && b.queued + last.bytes == ring.queued && WireBytes(skb, last.bytes)
      && last.packets == (if skb.csumPartial && skb.gso then skb.gsoSegs else 1) && last.skb == Some(skb.id)
  {
    UsedIs(skb, b.mss, b.tag);
    hide Pieces, Used, Sum, Describes, D.Run, Encode, D.OnWire, KeptOf, SameOutside, R.Block;
    PacketFields(skb, answers);
    hide PacketOf;
    LastSlot(ring, b, skb, answers);
    FrameIs(skb, answers, C.Interrupts(ring.coalesce, PacketOf(skb, answers).txPackets, ring.frames));
    var block := R.Block(ring.desc[..], b.cur, Used(skb, b.mss, b.tag));
    var job := A.JobOf(b.mss, b.tag, ring.coalesce, ring.frames, PacketOf(skb, answers), block);
    D.DecodeEncode(job, dev, b.mss, b.tag);
    f := D.OnWire(job.pkt, job.interrupt);
    InterruptIs(job.pkt, job.interrupt);
  }
}
