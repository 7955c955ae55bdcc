/** The calls to the DMA layer and the packets freed, accounted for slot by slot:
    what holds of the ledger in every step, and how it splits into what is gone
    and what the ring still records. */
module TxLedger {
  import opened Common
  import opened TxProtocol
  import opened TxSlots
  import opened TxWire

  // The mapping made for a descriptor's buffer.
  function Made(d: Desc, s: Slot): seq<Mapping> {
    if d.mark.ctxt then [] else [MappingIn(s)]
  }

  function AllMade(ds: seq<Desc>, ss: seq<Slot>): seq<Mapping>
    requires |ds| == |ss|
  {
    if ds == [] then []
    else
      var n := |ds| - 1;
      AllMade(ds[..n], ss[..n]) + Made(ds[n], ss[n])
  }

  // A buffer descriptor's slot records its mapping, a context descriptor's
  // nothing; the last descriptor's records the packet.
  predicate PairedAt(sent: seq<Desc>, kept: seq<Slot>, i: nat)
    requires i < |sent| == |kept|
  {
    && (if sent[i].mark.ctxt then Vacant(kept[i]) else kept[i].dma == sent[i].buf.addr && kept[i].dmaLen > 0)
    && (kept[i].skb.Some? <==> sent[i].mark.ld)
  }

  ghost predicate Paired(sent: seq<Desc>, kept: seq<Slot>) {
    |sent| == |kept| && forall i: nat :: i < |sent| ==> PairedAt(sent, kept, i)
  }

  // The mappings of a packet being written.
  function PendingMappings(x: Xmit): seq<Mapping> {
    if x.Writing? && |x.slots| == x.job.Count() then MappingsOf(x.job, x.slots) else []
  }

  // Every call made is accounted for, in order.
  ghost predicate Itemised(w: World) {
    && Paired(w.past.sent, w.past.kept) && w.ring.dirty <= |w.past.kept|
    && w.ledger.mapped == AllMade(w.past.sent, w.past.kept) + PendingMappings(w.xmit)
    && w.ledger.back == Live(w.ledger.refused)
    && w.ledger.undone == AllUnmaps(w.past.kept[..w.ring.dirty])
    && w.ledger.freed == AllFrees(w.past.kept[..w.ring.dirty])
    && |AllFrees(w.past.kept)| == |w.past.jobs|
  }

  // ------------------------------------------------------------- every step

  lemma EncodedAt(job: Job, j: nat)
    requires job.Valid() && j < job.Count()
    ensures |Encode(job)| == job.Count() && Encode(job)[j] == Encoded(job, j)
  {
  }

  lemma PairedJob(job: Job, slots: seq<Slot>)
    requires Ready(job, slots)
    ensures Paired(Encode(job), slots)
  {
    forall i: nat | i < job.Count() ensures PairedAt(Encode(job), slots, i) {
      assert Encode(job)[i] == Encoded(job, i);
      if i >= job.Ctx() {
        assert SlotOf(job, slots, i - job.Ctx());
      }
    }
  }

  lemma PairedConcat(a: seq<Desc>, s: seq<Slot>, b: seq<Desc>, t: seq<Slot>)
    requires Paired(a, s) && Paired(b, t)
    ensures Paired(a + b, s + t)
  {
    forall i: nat | i < |a + b| ensures PairedAt(a + b, s + t, i) {
      assert if i < |a| then PairedAt(a, s, i) else PairedAt(b, t, i - |a|);
    }
  }

  lemma PairedPrefix(ds: seq<Desc>, ss: seq<Slot>, n: nat)
    requires Paired(ds, ss) && n <= |ds|
    ensures Paired(ds[..n], ss[..n])
  {
    forall i: nat | i < n ensures PairedAt(ds[..n], ss[..n], i) {
      assert PairedAt(ds, ss, i);
    }
  }

  lemma MadeEnd(ds: seq<Desc>, ss: seq<Slot>)
    requires 0 < |ds| == |ss|
    ensures var n := |ds| - 1; AllMade(ds, ss) == AllMade(ds[..n], ss[..n]) + Made(ds[n], ss[n])
  {
  }

  // Taking the first elements apart at the last of them.
  lemma MadeSnoc(ds: seq<Desc>, ss: seq<Slot>, n: nat)
    requires n < |ds| == |ss|
    ensures AllMade(ds[..n + 1], ss[..n + 1]) == AllMade(ds[..n], ss[..n]) + Made(ds[n], ss[n])
  {
    assert ds[..n + 1][..n] == ds[..n] && ss[..n + 1][..n] == ss[..n];
  }

  lemma {:induction false} MadeConcat(a: seq<Desc>, s: seq<Slot>, b: seq<Desc>, t: seq<Slot>)
    requires |a| == |s| && |b| == |t|
    ensures AllMade(a + b, s + t) == AllMade(a, s) + AllMade(b, t)
  {
    if b == [] {
      assert a + b == a && s + t == s;
    } else {
      hide AllMade, Made;
      var n := |b| - 1;
      MadeConcat(a, s, b[..n], t[..n]);
      MadeEnd(b, t);
      MadeEnd(a + b, s + t);
      FrontOfSum(a, b);
      FrontOfSum(s, t);
      Associative(AllMade(a, s), AllMade(b[..n], t[..n]), Made(b[n], t[n]));
    }
  }

  lemma NoneMade(ds: seq<Desc>, ss: seq<Slot>)
    requires |ds| == |ss|
    ensures AllMade(ds[..0], ss[..0]) == []
  {
  }

  lemma {:induction false} MadeJob(job: Job, slots: seq<Slot>, n: nat)
    requires job.Valid() && |slots| == job.Count() && n <= |job.pkt.bufs|
    ensures |Encode(job)| == |slots|
    ensures AllMade(Encode(job)[..job.Ctx() + n], slots[..job.Ctx() + n]) == MappingsOf(job, slots)[..n]
  {
    hide Encode, AllMade;
    EncodedAt(job, 0);
    NoneMade(Encode(job), slots);
    if n == 0 {
      if job.Ctx() == 1 {
        MadeSnoc(Encode(job), slots, 0);
      }
    } else {
      var k := job.Ctx() + n - 1;
      MadeJob(job, slots, n - 1);
      MadeSnoc(Encode(job), slots, k);
      EncodedAt(job, k);
    }
  }

  lemma MadeRange(ds: seq<Desc>, ss: seq<Slot>, low: nat, n: nat)
    requires low + n < |ds| == |ss|
    ensures AllMade(ds[low..low + n + 1], ss[low..low + n + 1]) == AllMade(ds[low..low + n], ss[low..low + n]) + Made(ds[low + n], ss[low + n])
    ensures AllFrees(ss[low..low + n + 1]) == AllFrees(ss[low..low + n]) + Frees(ss[low + n])
  {
    hide AllMade, AllFrees, Made, Frees;
    MadeEnd(ds[low..low + n + 1], ss[low..low + n + 1]);
    FreesEnd(ss[low..low + n + 1]);
    assert ds[low..low + n + 1][..n] == ds[low..low + n] && ss[low..low + n + 1][..n] == ss[low..low + n];
  }

  // A history in two parts.
  lemma MadeParts(ds: seq<Desc>, ss: seq<Slot>, n: nat)
    requires n <= |ds| == |ss|
    ensures AllMade(ds, ss) == AllMade(ds[..n], ss[..n]) + AllMade(ds[n..|ds|], ss[n..|ds|])
    ensures AllFrees(ss) == AllFrees(ss[..n]) + AllFrees(ss[n..|ds|])
  {
    hide AllMade, AllFrees;
    MadeConcat(ds[..n], ss[..n], ds[n..|ds|], ss[n..|ds|]);
    FreesConcat(ss[..n], ss[n..|ds|]);
    assert ds[..n] + ds[n..|ds|] == ds && ss[..n] + ss[n..|ds|] == ss;
  }

  lemma ItemisedPublish(p: Past, job: Job, slots: seq<Slot>)
    requires Paired(p.sent, p.kept) && Ready(job, slots)
    ensures var q := Publish(p, job, slots);
      && Paired(q.sent, q.kept) && AllMade(q.sent, q.kept) == AllMade(p.sent, p.kept) + MappingsOf(job, slots)
      && |AllFrees(q.kept)| == |AllFrees(p.kept)| + 1
  {
    hide SlotOf, Encode, AllMade, AllFrees, PairedAt, Paired, MappingsOf;
    PairedJob(job, slots);
    PairedConcat(p.sent, p.kept, Encode(job), slots);
    JobMade(job, slots);
    MadeConcat(p.sent, p.kept, Encode(job), slots);
    FreesConcat(p.kept, slots);
  }

  lemma JobMade(job: Job, slots: seq<Slot>)
    requires Ready(job, slots)
    ensures |Encode(job)| == |slots| && AllMade(Encode(job), slots) == MappingsOf(job, slots) && |AllFrees(slots)| == 1
  {
    hide SlotOf, Encode, AllMade, Made;
    var n := |slots| - 1;
    MadeJob(job, slots, |job.pkt.bufs|);
    assert Encode(job)[..n + 1] == Encode(job) && slots[..n + 1] == slots;
    assert MappingsOf(job, slots)[..|job.pkt.bufs|] == MappingsOf(job, slots);
    NoFrees(slots[..n]);
  }

  lemma ItemisedReclaim(w: World)
    requires RingInv(w) && Itemised(w) && Enabled(w, PollSlot)
    ensures Itemised(Next(w, PollSlot))
  {
    hide Paired, AllMade, Unmaps, Frees, PendingMappings;
    assert HandedAt(w.ring, w.past, w.ring.dirty);
    var i, kept := w.ring.dirty, w.past.kept;
    assert kept[..i + 1][..i] == kept[..i];
  }

  lemma ItemisedStep(w: World, a: Action)
    requires RingInv(w) && Itemised(w) && Enabled(w, a)
    ensures Itemised(Next(w, a))
  {
    hide Script, Put, Encode, Place, Partial, Clear, Handed, Paired, Unmaps, AllUnmaps, AllFrees, AllMade, MappingsOf, Live;
    if a.Advance? && w.xmit.Writing? && w.xmit.k + 1 == |Script(w.xmit.job)| {
      ItemisedPublish(w.past, w.xmit.job, w.xmit.slots);
      assert (w.past.kept + w.xmit.slots)[..w.ring.dirty] == w.past.kept[..w.ring.dirty];
    } else if a.PollSlot? {
      ItemisedReclaim(w);
    } else if a.Refuse? {
      LiveConcat(w.ledger.refused, a.made);
    }
  }

  // ------------------------------------------------- gone, and outstanding

  predicate NoneAtZero(ds: seq<Desc>) {
    forall i :: 0 <= i < |ds| ==> ds[i].mark.ctxt || ds[i].buf.addr != 0
  }

  lemma LastIsLive(ds: seq<Desc>, ss: seq<Slot>)
    requires Paired(ds, ss) && ds != []
    ensures var n := |ds| - 1; var m := Made(ds[n], ss[n]);
      && Unmaps(ss[n]) == Live(m)
      && (NoneAtZero(ds) <==> NoneAtZero(ds[..n]) && NonZero(m))
  {
    var n := |ds| - 1;
    assert PairedAt(ds, ss, n);
    var m := Made(ds[n], ss[n]);
    if m != [] {
      assert m[..0] == [] && Live(m[..0]) == [];
      assert NonZero(m) <==> m[0].addr != 0;
    }
    assert NoneAtZero(ds) <==> NoneAtZero(ds[..n]) && (ds[n].mark.ctxt || ds[n].buf.addr != 0);
  }

  // Releasing slots undoes what was made for them, at zero apart.
  lemma {:induction false} UnmapsAreLive(ds: seq<Desc>, ss: seq<Slot>)
    requires Paired(ds, ss)
    ensures AllUnmaps(ss) == Live(AllMade(ds, ss))
    ensures NonZero(AllMade(ds, ss)) <==> NoneAtZero(ds)
  {
    if ds != [] {
      var n := |ds| - 1;
      hide AllMade, AllUnmaps, Made, Live, NonZero, Paired, PairedAt, NoneAtZero;
      PairedPrefix(ds, ss, n);
      UnmapsAreLive(ds[..n], ss[..n]);
      var made, m := AllMade(ds[..n], ss[..n]), Made(ds[n], ss[n]);
      MadeEnd(ds, ss);
      UnmapsEnd(ss);
      LiveConcat(made, m);
      LastIsLive(ds, ss);
      NonZeroConcat(made, m);
    }
  }

  // The mappings and the packets recorded on `n` ring entries from `low` on.
  function MappingsIn(r: Ring, low: nat, n: nat): seq<Mapping>
    requires r.Shaped()
  {
    if n == 0 then [] else MappingsIn(r, low, n - 1) + Made(r.D(low + n - 1), r.S(low + n - 1))
  }

  function PacketsIn(r: Ring, low: nat, n: nat): seq<nat>
    requires r.Shaped()
  {
    if n == 0 then [] else PacketsIn(r, low, n - 1) + Frees(r.S(low + n - 1))
  }

  // The ring still records what was handed over.
  predicate StillAt(r: Ring, sent: seq<Desc>, kept: seq<Slot>, i: nat)
    requires r.Shaped() && i < |sent| == |kept|
  {
    r.D(i).mark == sent[i].mark && r.S(i) == kept[i]
  }

  lemma StillThere(w: World)
    requires RingInv(w)
    ensures w.ring.Shaped() && w.ring.dirty <= Tail(w.ring, w.xmit) == |w.past.sent| == |w.past.kept|
    ensures forall i: nat :: w.ring.dirty <= i < |w.past.sent| ==> StillAt(w.ring, w.past.sent, w.past.kept, i)
  {
    forall i: nat | w.ring.dirty <= i < |w.past.sent| ensures StillAt(w.ring, w.past.sent, w.past.kept, i) {
      assert HandedAt(w.ring, w.past, i);
    }
  }

  lemma RingEnd(r: Ring, low: nat, n: nat)
    requires r.Shaped() && n > 0
    ensures MappingsIn(r, low, n) == MappingsIn(r, low, n - 1) + Made(r.D(low + n - 1), r.S(low + n - 1))
    ensures PacketsIn(r, low, n) == PacketsIn(r, low, n - 1) + Frees(r.S(low + n - 1))
  {
  }

  lemma SameMade(a: Desc, b: Desc, s: Slot)
    requires a.mark == b.mark
    ensures Made(a, s) == Made(b, s)
  {
  }

  lemma NothingIn(r: Ring, sent: seq<Desc>, kept: seq<Slot>)
    requires r.Shaped() && r.dirty <= |sent| == |kept|
    ensures MappingsIn(r, r.dirty, 0) == AllMade(sent[r.dirty..r.dirty], kept[r.dirty..r.dirty]) == []
    ensures PacketsIn(r, r.dirty, 0) == AllFrees(kept[r.dirty..r.dirty]) == []
  {
  }

  lemma {:induction false} StillIn(r: Ring, sent: seq<Desc>, kept: seq<Slot>, n: nat)
    requires r.Shaped() && |sent| == |kept| && r.dirty + n <= |sent|
    requires forall i: nat :: r.dirty <= i < r.dirty + n ==> StillAt(r, sent, kept, i)
    ensures MappingsIn(r, r.dirty, n) == AllMade(sent[r.dirty..r.dirty + n], kept[r.dirty..r.dirty + n])
    ensures PacketsIn(r, r.dirty, n) == AllFrees(kept[r.dirty..r.dirty + n])
  {
    hide AllMade, AllFrees, Frees, Made, MappingsIn, PacketsIn;
    if n > 0 {
      var i := r.dirty + (n - 1);
      StillIn(r, sent, kept, n - 1);
      assert StillAt(r, sent, kept, i);
      MadeRange(sent, kept, r.dirty, n - 1);
      RingEnd(r, r.dirty, n);
      SameMade(r.D(i), sent[i], kept[i]);
    } else {
      NothingIn(r, sent, kept);
    }
  }

  lemma TwoParts(r: Ring, sent: seq<Desc>, kept: seq<Slot>, n: nat)
    requires r.Shaped() && r.dirty + n == |sent| == |kept|
    requires forall i: nat :: r.dirty <= i < r.dirty + n ==> StillAt(r, sent, kept, i)
    ensures AllMade(sent, kept) == AllMade(sent[..r.dirty], kept[..r.dirty]) + MappingsIn(r, r.dirty, n)
    ensures AllFrees(kept) == AllFrees(kept[..r.dirty]) + PacketsIn(r, r.dirty, n)
  {
    hide AllMade, AllFrees, StillAt, MappingsIn, PacketsIn;
    StillIn(r, sent, kept, n);
    MadeParts(sent, kept, r.dirty);
  }

  // What was handed over is what has been reclaimed and what is in the ring.
  lemma RingAndRest(w: World)
    requires RingInv(w)
    ensures w.ring.Shaped() && w.ring.dirty <= Tail(w.ring, w.xmit) == |w.past.sent| == |w.past.kept|
    ensures var r, n := w.ring, w.ring.dirty;
      && AllMade(w.past.sent, w.past.kept) ==
         AllMade(w.past.sent[..n], w.past.kept[..n]) + MappingsIn(r, n, Tail(r, w.xmit) - n)
      && AllFrees(w.past.kept) == AllFrees(w.past.kept[..n]) + PacketsIn(r, n, Tail(r, w.xmit) - n)
  {
    hide RingInv, AllMade, AllFrees, StillAt, MappingsIn, PacketsIn;
    StillThere(w);
    TwoParts(w.ring, w.past.sent, w.past.kept, Tail(w.ring, w.xmit) - w.ring.dirty);
  }

  // What is outstanding: the mappings in the ring, and those of a packet
  // being written.
  function Held(w: World): seq<Mapping>
    requires w.ring.Shaped() && w.ring.dirty <= Tail(w.ring, w.xmit)
  {
    MappingsIn(w.ring, w.ring.dirty, Tail(w.ring, w.xmit) - w.ring.dirty) + PendingMappings(w.xmit)
  }

  // What was made for buffers that are gone: reclaimed, or of packets given up.
  function Gone(w: World): seq<Mapping>
    requires w.ring.dirty <= |w.past.sent| == |w.past.kept|
  {
    AllMade(w.past.sent[..w.ring.dirty], w.past.kept[..w.ring.dirty]) + w.ledger.refused
  }

  lemma Rearranged<T>(g: multiset<T>, f: multiset<T>, r: multiset<T>, p: multiset<T>, a: multiset<T>, b: multiset<T>, z: multiset<T>)
    requires g + f == a + b + z
    ensures g + r + p + f == a + b + (r + p) + z
  {
    calc {
      g + r + p + f;
      (g + f) + (r + p);
      (a + b + z) + (r + p);
      a + b + (r + p) + z;
    }
  }

  lemma Accounted(gone: seq<Mapping>, refused: seq<Mapping>, ring: seq<Mapping>, pending: seq<Mapping>)
    ensures multiset((gone + ring) + pending) + multiset(refused) ==
            multiset(Live(gone)) + multiset(Live(refused)) + multiset(ring + pending) + multiset(AtZero(gone + refused))
  {
    hide Live, AtZero;
    LiveConcat(gone, refused);
    LiveOrZero(gone + refused);
    assert multiset(gone + refused) == multiset(gone) + multiset(refused);
    assert multiset(Live(gone) + Live(refused)) == multiset(Live(gone)) + multiset(Live(refused));
    assert multiset((gone + ring) + pending) == multiset(gone) + multiset(ring) + multiset(pending);
    assert multiset(ring + pending) == multiset(ring) + multiset(pending);
    Rearranged(multiset(gone), multiset(refused), multiset(ring), multiset(pending),
               multiset(Live(gone)), multiset(Live(refused)), multiset(AtZero(gone + refused)));
  }
}
