/** Which packets ask for a completion interrupt (`mac_dev_xmit`). */
module TxCoalesce {
  import opened Common

  // ring->coalesce_count after adding the packet's frames, in 32 bits.
  function Counted(count: nat, packets: nat): nat {
    (count + packets) % WORD32
  }

  /** tx_set_ic, with `count` the counter after the addition. */
  predicate Interrupts(count: nat, packets: nat, frames: nat) {
    if frames == 0 then false
    else if packets > frames then true
    else count % frames < packets
  }

  // A multiple of `frames` lies in (before, after].
  ghost predicate Crosses(before: nat, after: nat, frames: nat)
    requires frames > 0
  {
    exists k: nat :: before < k * frames <= after
  }

  lemma NoMultipleBetween(q: nat, f: nat, before: nat, after: nat, k: nat)
    requires f > 0 && q * f <= before && after < (q + 1) * f
    ensures !(before < k * f <= after)
  {
    if k <= q {
      assert k * f <= q * f;
    } else {
      assert k * f >= (q + 1) * f;
    }
  }

  /** Below 2^32 the interrupt bit is set exactly on the packets whose frames
      carry the running count across a multiple of the setting. */
  lemma InterruptsAtCrossings(count: nat, packets: nat, frames: nat)
    requires frames > 0 && count + packets < WORD32
    ensures Interrupts(Counted(count, packets), packets, frames) <==> Crosses(count, count + packets, frames)
  {
    var after := count + packets;
    var q := after / frames;
    assert after == q * frames + after % frames;
    if after % frames < packets {
      assert count < q * frames <= after;
    } else {
      assert (q + 1) * frames == q * frames + frames;
      forall k: nat ensures !(count < k * frames <= after) {
        NoMultipleBetween(q, frames, count, after, k);
      }
    }
  }

  /** The restriction is needed: when the counter wraps, a packet is marked
      although the true count is nowhere near a multiple (default setting 25). */
  lemma WrapMarksAnyway()
    ensures Interrupts(Counted(WORD32 - 1, 1), 1, 25)
    ensures !Crosses(WORD32 - 1, WORD32, 25)
  {
    forall k: nat ensures !(WORD32 - 1 < k * 25 <= WORD32) {
    }
  }

  // A packet at which the counter wraps is always marked.
  lemma WrapInterrupts(count: nat, packets: nat, frames: nat)
    requires frames > 0 && count < WORD32 && packets < WORD32 && count + packets >= WORD32
    ensures Interrupts(Counted(count, packets), packets, frames)
  {
    var after := Counted(count, packets);
    assert after == count + packets - WORD32 < packets;
    assert after % frames <= after;
  }

  // Frames queued after the last marked packet, and the counter.
  datatype Line = Line(count: nat, waiting: nat)

  function Queue(l: Line, packets: nat, frames: nat): Line {
    var c := Counted(l.count, packets);
    Line(c, if Interrupts(c, packets, frames) then 0 else l.waiting + packets)
  }

  function QueueAll(l: Line, packets: seq<nat>, frames: nat): Line {
    if packets == [] then l
    else Queue(QueueAll(l, packets[..|packets| - 1], frames), packets[|packets| - 1], frames)
  }

  lemma UnmarkedStep(count: nat, packets: nat, frames: nat)
    requires frames > 0 && packets < WORD32 && count < WORD32
    requires !Interrupts(Counted(count, packets), packets, frames)
    ensures Counted(count, packets) % frames == count % frames + packets
  {
    if count + packets >= WORD32 {
      WrapInterrupts(count, packets, frames);
    }
    var after := count + packets;
    var q := after / frames;
    assert after == q * frames + after % frames;
    assert count == q * frames + (after % frames - packets);
    assert 0 <= after % frames - packets < frames;
    ModUnique(count, q, after % frames - packets, frames);
  }

  lemma ModUnique(x: nat, q: nat, m: nat, f: nat)
    requires f > 0 && x == q * f + m && m < f
    ensures x % f == m
  {
    assert x == (x / f) * f + x % f;
    assert (q - x / f) * f == x % f - m;
    SmallMultiple(q - x / f, f);
  }

  lemma SmallMultiple(a: int, f: int)
    requires -f < a * f < f
    ensures a == 0
  {
  }

  /** Over any sequence of packets, and across any number of wraps of the
      counter, fewer than `frames` frames ever wait behind the last packet
      that asked for an interrupt. */
  lemma {:induction false} FewWaiting(packets: seq<nat>, frames: nat)
    requires frames > 0 && forall k :: 0 <= k < |packets| ==> packets[k] < WORD32
    ensures var l := QueueAll(Line(0, 0), packets, frames);
      l.count < WORD32 && l.waiting <= l.count % frames < frames
  {
    if packets != [] {
      var n := |packets| - 1;
      FewWaiting(packets[..n], frames);
      var l := QueueAll(Line(0, 0), packets[..n], frames);
      if !Interrupts(Counted(l.count, packets[n]), packets[n], frames) {
        UnmarkedStep(l.count, packets[n], frames);
      }
    }
  }
}
