/** What the packets given to the stack contain: which of the bytes the device
    received, out of which buffers, and with which attributes; and that the
    stream is cut into packets as the device marked them. */
module RxContents {
  import opened Common
  import opened RxRing
  import opened RxPackets

  // ------------------------------------------- where the device puts bytes

  // No descriptor of the packet before `k` has any data.
  predicate FirstData(g: seq<Desc>, k: nat)
    requires k <= |g|
  {
    forall j :: 0 <= j < k ==> g[j].len == 0
  }

  /** How many of the bytes that descriptor `k` adds are in the entry's header
      buffer: of a packet's first data the header, if the device split the
      packet, or else what fits; of later data none. */
  function InHeader(g: seq<Desc>, k: nat): nat
    requires k < |g|
  {
    if !FirstData(g, k) || g[k].len <= Before(g, k) then 0
    else if g[k].split.Some? && g[k].split.value > 0 then g[k].split.value
    else Min(HDR_SLICE, g[k].len - Before(g, k))
  }

  function Range(from: nat, to: nat): seq<nat> {
    if from <= to then seq(to - from, j requires 0 <= j => from + j) else []
  }

  // The numbers of the packet's bytes in the entry's two buffers.
  function HeaderBuffer(g: seq<Desc>, k: nat): seq<nat>
    requires k < |g|
  {
    Range(Before(g, k), Before(g, k) + InHeader(g, k))
  }

  function PayloadBuffer(g: seq<Desc>, k: nat): seq<nat>
    requires k < |g|
  {
    Range(Before(g, k) + InHeader(g, k), g[k].len)
  }

  // The device's promise: lengths only grow, a header is part of the data and
  // fits its buffer, and the rest fits the payload buffer.
  predicate ConfinedAt(g: seq<Desc>, k: nat, bufSize: nat)
    requires k < |g|
  {
    && Before(g, k) <= g[k].len
    && InHeader(g, k) <= Min(HDR_SLICE, g[k].len - Before(g, k))
    && g[k].len - Before(g, k) - InHeader(g, k) <= bufSize
  }

  ghost predicate Confined(g: seq<Desc>, bufSize: nat) {
    forall k: nat :: k < |g| ==> ConfinedAt(g, k, bufSize)
  }

  lemma {:induction false} FirstFullIs(g: seq<Desc>, n: nat)
    requires n <= |g|
    ensures FirstFull(g, n).None? <==> FirstData(g, n)
    ensures FirstFull(g, n).Some? ==> g[FirstFull(g, n).value].len > 0 && FirstData(g, FirstFull(g, n).value)
  {
    if n > 0 {
      FirstFullIs(g, n - 1);
    }
  }

  // What the driver makes of descriptor `k`, in the device's terms.
  lemma PartsAtAre(base: nat, g: seq<Desc>, bufSize: nat, k: nat)
    requires k < |g| && AllWire(g) && ConfinedAt(g, k, bufSize)
    ensures var h, r := InHeader(g, k), g[k].len - Before(g, k) - InHeader(g, k);
      PartsAt(base, g, k) == (if h > 0 then [Header(base + k, h)] else []) + (if r > 0 then [Payload(base + k, r)] else [])
  {
    assert Wire(g[k]);
    FirstFullIs(g, k);
    var share := g[k].len - Before(g, k);
    Small(share);
    if share > 0 && FirstFull(g, k).None? {
      Small(share - InHeader(g, k));
    }
  }

  // ------------------------------------------------------ reading them back

  // The first `n` bytes of a buffer; what the device has not written is no
  // byte of the packet.
  function Read(buffer: seq<nat>, n: nat): seq<Option<nat>> {
    seq(n, j requires 0 <= j < n => if j < |buffer| then Some(buffer[j]) else None)
  }

  function PartBytes(g: seq<Desc>, base: nat, p: Part): seq<Option<nat>>
    requires base <= p.desc < base + |g|
  {
    match p
    case Header(i, n) => Read(HeaderBuffer(g, i - base), n)
    case Payload(i, n) => Read(PayloadBuffer(g, i - base), n)
  }

  function Gather(g: seq<Desc>, base: nat, parts: seq<Part>): seq<Option<nat>>
    requires forall j :: 0 <= j < |parts| ==> base <= parts[j].desc < base + |g|
  {
    if parts == [] then []
    else Gather(g, base, parts[..|parts| - 1]) + PartBytes(g, base, parts[|parts| - 1])
  }

  // Bytes `from` up to `to` of the packet, each in its place.
  function Intact(from: nat, to: nat): seq<Option<nat>>
    requires from <= to
  {
    seq(to - from, j requires 0 <= j => Some(from + j))
  }

  lemma {:induction false} GatherConcat(g: seq<Desc>, base: nat, a: seq<Part>, b: seq<Part>)
    requires forall j :: 0 <= j < |a| ==> base <= a[j].desc < base + |g|
    requires forall j :: 0 <= j < |b| ==> base <= b[j].desc < base + |g|
    ensures Gather(g, base, a + b) == Gather(g, base, a) + Gather(g, base, b)
  {
    if b == [] {
      assert a + b == a;
    } else {
      hide PartBytes;
      GatherConcat(g, base, a, b[..|b| - 1]);
      FrontOfSum(a, b);
      Associative(Gather(g, base, a), Gather(g, base, b[..|b| - 1]), PartBytes(g, base, b[|b| - 1]));
    }
  }

  lemma GatherOne(g: seq<Desc>, base: nat, p: Part)
    requires base <= p.desc < base + |g|
    ensures Gather(g, base, [p]) == PartBytes(g, base, p)
  {
    assert [p][..0] == [];
  }

  lemma IntactJoin(from: nat, mid: nat, to: nat)
    requires from <= mid <= to
    ensures Intact(from, mid) + Intact(mid, to) == Intact(from, to) && Intact(from, from) == []
  {
  }

  lemma HeaderRead(g: seq<Desc>, base: nat, k: nat, h: nat)
    requires k < |g| && h == InHeader(g, k)
    ensures Gather(g, base, if h > 0 then [Header(base + k, h)] else []) == Intact(Before(g, k), Before(g, k) + h)
  {
    GatherOne(g, base, Header(base + k, h));
    assert PartBytes(g, base, Header(base + k, h)) == Intact(Before(g, k), Before(g, k) + h);
  }

  lemma PayloadRead(g: seq<Desc>, base: nat, k: nat, r: nat)
    requires k < |g| && Before(g, k) + InHeader(g, k) + r == g[k].len
    ensures Gather(g, base, if r > 0 then [Payload(base + k, r)] else []) == Intact(Before(g, k) + InHeader(g, k), g[k].len)
  {
    GatherOne(g, base, Payload(base + k, r));
    assert PartBytes(g, base, Payload(base + k, r)) == Intact(Before(g, k) + InHeader(g, k), g[k].len);
  }

  // All parts come from entry `i`.
  predicate From(parts: seq<Part>, i: nat) { forall j :: 0 <= j < |parts| ==> parts[j].desc == i }

  lemma GatherHalves(g: seq<Desc>, base: nat, k: nat, hs: seq<Part>, rs: seq<Part>, from: nat, mid: nat, to: nat)
    requires k < |g| && From(hs, base + k) && From(rs, base + k) && from <= mid <= to
    requires Gather(g, base, hs) == Intact(from, mid) && Gather(g, base, rs) == Intact(mid, to)
    ensures From(hs + rs, base + k) && Gather(g, base, hs + rs) == Intact(from, to)
  {
    hide Gather, Intact;
    GatherConcat(g, base, hs, rs);
    IntactJoin(from, mid, to);
  }

  lemma GatherAt(base: nat, g: seq<Desc>, bufSize: nat, k: nat)
    requires k < |g| && AllWire(g) && ConfinedAt(g, k, bufSize)
    ensures From(PartsAt(base, g, k), base + k) && Before(g, k) <= g[k].len
    ensures Gather(g, base, PartsAt(base, g, k)) == Intact(Before(g, k), g[k].len)
  {
    PartsAtAre(base, g, bufSize, k);
    hide PartsAt, Gather, Intact, InHeader, AllWire, PartBytes;
    var from, h := Before(g, k), InHeader(g, k);
    var r := g[k].len - from - h;
    HeaderRead(g, base, k, h);
    PayloadRead(g, base, k, r);
    GatherHalves(g, base, k, if h > 0 then [Header(base + k, h)] else [], if r > 0 then [Payload(base + k, r)] else [], from, from + h, g[k].len);
  }

  lemma GatherNone(g: seq<Desc>, base: nat)
    ensures Gather(g, base, []) == []
  {
  }

  lemma {:induction false} GatherAll(base: nat, g: seq<Desc>, bufSize: nat, n: nat)
    requires n <= |g| && AllWire(g) && Confined(g, bufSize)
    ensures forall j :: 0 <= j < |Parts(base, g, n)| ==> base <= Parts(base, g, n)[j].desc < base + n
    ensures Gather(g, base, Parts(base, g, n)) == Intact(0, Before(g, n))
  {
    hide PartsAt, Gather, AllWire, Intact;
    IntactJoin(0, 0, 0);
    GatherNone(g, base);
    if n > 0 {
      assert ConfinedAt(g, n - 1, bufSize);
      GatherAll(base, g, bufSize, n - 1);
      GatherAt(base, g, bufSize, n - 1);
      GatherConcat(g, base, Parts(base, g, n - 1), PartsAt(base, g, n - 1));
      IntactJoin(0, Before(g, n - 1), g[n - 1].len);
    }
  }

  /** The parts of a delivered packet, read in order, are exactly the packet's
      bytes as the device received them: none is missing, repeated or out of
      place, and nothing is read that the device has not written. */
  lemma BytesDelivered(cfg: Config, base: nat, g: seq<Desc>, bufSize: nat)
    requires Whole(g) && AllWire(g) && Confined(g, bufSize) && Outcome(cfg, base, g).Some?
    ensures var p := Outcome(cfg, base, g).value;
      && (forall j :: 0 <= j < |p.parts| ==> base <= p.parts[j].desc < base + |g|)
      && Gather(g, base, p.parts) == Intact(0, p.len)
  {
    GatherAll(base, g, bufSize, |g|);
  }

  // -------------------------------------------------- where the parts lie

  // Part `p` lies inside the buffer it names.
  predicate Inside(p: Part, bufSize: nat) {
    match p
    case Header(_, len) => 0 < len <= HDR_SLICE
    case Payload(_, len) => 0 < len <= bufSize
  }

  predicate Placed(parts: seq<Part>, j: nat, lo: nat, hi: nat, bufSize: nat)
    requires j < |parts|
  {
    Inside(parts[j], bufSize) && lo <= parts[j].desc < hi
  }

  // In ring order, and within an entry the header buffer first.
  predicate Follows(parts: seq<Part>, i: nat, j: nat)
    requires i < j < |parts|
  {
    || parts[i].desc < parts[j].desc
    || (parts[i].desc == parts[j].desc && parts[i].Header? && parts[j].Payload?)
  }

  ghost predicate InPlace(parts: seq<Part>, lo: nat, hi: nat, bufSize: nat) {
    && (forall j: nat :: j < |parts| ==> Placed(parts, j, lo, hi, bufSize))
    && (forall i: nat, j: nat :: i < j < |parts| ==> Follows(parts, i, j))
  }

  lemma PartsAtInside(base: nat, g: seq<Desc>, bufSize: nat, k: nat)
    requires k < |g| && AllWire(g) && Confined(g, bufSize)
    ensures InPlace(PartsAt(base, g, k), base + k, base + k + 1, bufSize)
  {
    assert ConfinedAt(g, k, bufSize);
    PartsAtAre(base, g, bufSize, k);
  }

  lemma InPlaceConcat(a: seq<Part>, b: seq<Part>, lo: nat, mid: nat, hi: nat, bufSize: nat)
    requires InPlace(a, lo, mid, bufSize) && InPlace(b, mid, hi, bufSize) && lo <= mid <= hi
    ensures InPlace(a + b, lo, hi, bufSize)
  {
    var c := a + b;
    forall j: nat | j < |c| ensures Placed(c, j, lo, hi, bufSize) {
      assert if j < |a| then Placed(a, j, lo, mid, bufSize) else Placed(b, j - |a|, mid, hi, bufSize);
    }
    forall i: nat, j: nat | i < j < |c| ensures Follows(c, i, j) {
      if j < |a| {
        assert Follows(a, i, j);
      } else if i >= |a| {
        assert Follows(b, i - |a|, j - |a|);
      } else {
        assert Placed(a, i, lo, mid, bufSize) && Placed(b, j - |a|, mid, hi, bufSize);
      }
    }
  }

  /** Every part of a packet stays inside its buffer, and no buffer is used
      twice. */
  lemma {:induction false} PartsInside(base: nat, g: seq<Desc>, bufSize: nat, n: nat)
    requires n <= |g| && AllWire(g) && Confined(g, bufSize)
    ensures InPlace(Parts(base, g, n), base, base + n, bufSize)
  {
    if n > 0 {
      hide PartsAt, InPlace, Confined, AllWire;
      PartsInside(base, g, bufSize, n - 1);
      PartsAtInside(base, g, bufSize, n - 1);
      InPlaceConcat(Parts(base, g, n - 1), PartsAt(base, g, n - 1), base, base + n - 1, base + n, bufSize);
    }
  }

  // -------------------------------------------- which packets, and how marked

  // A buffer could be had for the packet's first data.
  predicate HasRoom(g: seq<Desc>) {
    exists k: nat :: k < |g| && FirstData(g, k) && g[k].len > 0 && g[k].room
  }

  // `h` is the last hash reported.
  ghost predicate LatestHash(g: seq<Desc>, h: Option<nat>) {
    if h.None? then forall k :: 0 <= k < |g| ==> g[k].hash.None?
    else exists k :: 0 <= k < |g| && g[k].hash == h && forall j :: k < j < |g| ==> g[j].hash.None?
  }

  lemma {:induction false} HashIs(g: seq<Desc>, n: nat)
    requires n <= |g|
    ensures LatestHash(g[..n], Hash(g, n))
  {
    if n > 0 {
      HashIs(g, n - 1);
      if g[n - 1].hash.Some? {
        assert g[..n][n - 1].hash == Hash(g, n);
      } else if Hash(g, n).Some? {
        var front := g[..n - 1];
        var k :| 0 <= k < |front| && front[k].hash == Hash(g, n) && forall j :: k < j < |front| ==> front[j].hash.None?;
        assert g[..n][k] == g[..n - 1][k];
        forall j | k < j < |g[..n]| ensures g[..n][j].hash.None? {
          assert j < n - 1 ==> g[..n][j] == g[..n - 1][j];
        }
      } else {
        forall j | 0 <= j < |g[..n]| ensures g[..n][j].hash.None? {
          assert j < n - 1 ==> g[..n][j] == g[..n - 1][j];
        }
      }
    }
  }

  /** A packet is delivered if and only if it has data, a buffer could be had for
      it, its last descriptor reports no error but, at most, one of the types 0,
      5 and 6, and it is not too long; its attributes are those its last
      descriptor and its last hash report. */
  lemma DeliveredAs(cfg: Config, base: nat, g: seq<Desc>)
    requires Whole(g)
    ensures var last := g[|g| - 1];
      && (Outcome(cfg, base, g).Some? <==>
            && HasRoom(g) && last.len <= cfg.mtu + 14
            && (last.status.es ==> last.status.etlt == 0 || last.status.etlt == 5 || last.status.etlt == 6))
      && (Outcome(cfg, base, g).Some? ==>
            var p := Outcome(cfg, base, g).value;
            && (p.csum <==> cfg.rxcsum && !(last.status.es && last.status.etlt != 0))
            && p.tag == (if cfg.vlanRx && !last.status.es && last.status.etlt == 9 then Some(last.status.ovt) else None)
            && LatestHash(g, p.hash))
  {
    FirstFullIs(g, |g|);
    HashIs(g, |g|);
    assert g[..|g|] == g;
    hide Hash, LatestHash;
    if HasRoom(g) {
      var k: nat :| k < |g| && FirstData(g, k) && g[k].len > 0 && g[k].room;
      assert FirstFull(g, |g|) == Some(k);
    }
  }

  // The descriptors of some packets, one after the other.
  function Flat(gs: seq<seq<Desc>>): seq<Desc> {
    if gs == [] then [] else Flat(gs[..|gs| - 1]) + gs[|gs| - 1]
  }

  function Outcomes(cfg: Config, gs: seq<seq<Desc>>): seq<Packet>
    requires forall k :: 0 <= k < |gs| ==> Whole(gs[k])
  {
    if gs == [] then []
    else Outcomes(cfg, gs[..|gs| - 1]) + AsSeq(Outcome(cfg, |Flat(gs[..|gs| - 1])|, gs[|gs| - 1]))
  }

  // Descriptors none of which is last end no packet.
  lemma {:induction false} NoneEnds(cfg: Config, s: seq<Desc>, u: seq<Desc>)
    requires forall k :: 0 <= k < |u| ==> !u[k].last
    ensures Delivered(cfg, s + u) == Delivered(cfg, s) && Done(s + u) == Done(s)
    ensures Start(s + u) == Start(s) && Pending(s + u) == Pending(s) + u
  {
    hide Delivered, Done, Start, Pending, Outcome;
    if u == [] {
      assert s + u == s;
      assert Pending(s) + u == Pending(s);
    } else {
      var v, d := u[..|u| - 1], u[|u| - 1];
      NoneEnds(cfg, s, v);
      Snoc(cfg, s + v, d);
      assert u == v + [d];
      Associative(s, v, [d]);
      Associative(Pending(s), v, [d]);
    }
  }

  lemma OneEnds(cfg: Config, s: seq<Desc>, g: seq<Desc>)
    requires Pending(s) == [] && Whole(g)
    ensures Delivered(cfg, s + g) == Delivered(cfg, s) + AsSeq(Outcome(cfg, |s|, g))
    ensures Done(s + g) == Done(s) + 1 && Pending(s + g) == []
  {
    StartsHere(s);
    hide Delivered, Done, Start, Pending, Outcome;
    var u, d := g[..|g| - 1], g[|g| - 1];
    assert g == u + [d];
    NoneEnds(cfg, s, u);
    Snoc(cfg, s + u, d);
    Associative(s, u, [d]);
    assert [] + u == u;
  }

  lemma StartsHere(s: seq<Desc>)
    ensures Pending(s) == [] <==> Start(s) == |s|
  {
  }

  /** Whatever whole packets the device completes, the stack is given exactly
      those that are delivered, one after the other, and nothing of a packet
      that has only begun. */
  lemma {:induction false} DeliveredInOrder(cfg: Config, gs: seq<seq<Desc>>, rest: seq<Desc>)
    requires (forall k :: 0 <= k < |gs| ==> Whole(gs[k])) && forall k :: 0 <= k < |rest| ==> !rest[k].last
    ensures Delivered(cfg, Flat(gs) + rest) == Outcomes(cfg, gs) && Done(Flat(gs) + rest) == |gs|
    ensures Pending(Flat(gs) + rest) == rest
    decreases |gs|
  {
    NoneEnds(cfg, Flat(gs), rest);
    if gs != [] {
      var front := gs[..|gs| - 1];
      DeliveredInOrder(cfg, front, []);
      assert Flat(front) + [] == Flat(front);
      OneEnds(cfg, Flat(front), gs[|gs| - 1]);
    }
    assert [] + rest == rest;
  }
}
