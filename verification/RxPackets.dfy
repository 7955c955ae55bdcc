/** What a stream of completed receive descriptors means: how `mac_dev_read`
    and the body of `mac_rx_poll` turn it into packets, one descriptor at a
    time, and which packets those are. Context descriptors are left out. */
module RxPackets {
  import opened Common
  import opened RxRing

  const ETH_HLEN: nat := 14
  const VLAN_HLEN: nat := 4
  const ETH_P_8021Q: nat := 0x8100

  // Error summary, error/frame type and outer VLAN tag, from the write-back.
  datatype Status = Status(es: bool, etlt: nat, ovt: nat)

  /** A descriptor the device has completed. `len` is the packet's length so
      far; `split` is the header length, reported if the FD bit is set; `room` says
      whether a packet buffer can be allocated at this point. */
  datatype Desc = Desc(len: nat, last: bool, split: Option<nat>, hash: Option<nat>, status: Status, room: bool)

  datatype Config = Config(mtu: nat, rxcsum: bool, vlanRx: bool)

  // struct mac_pkt_info, as far as reception uses it
  datatype Info = Info(incomplete: bool, errors: bool, csum: bool, tag: Option<nat>, hash: Option<nat>)

  const BLANK: Info := Info(false, false, false, None, None)

  /** Where a packet's bytes come from: the header or the payload buffer of
      the entry that descriptor `desc` of the stream was read from. */
  datatype Part = Header(desc: nat, len: nat) | Payload(desc: nat, len: nat)

  // A packet buffer under construction; `len` is its 32-bit length.
  datatype Skb = Skb(len: nat, parts: seq<Part>, protocol: nat)

  datatype Packet = Packet(parts: seq<Part>, len: nat, csum: bool, tag: Option<nat>, hash: Option<nat>)

  // The local variables of the poll loop.
  datatype Partial = Partial(skb: Option<Skb>, error: bool, len: nat)

  const FRESH: Partial := Partial(None, false, 0)

  // ---------------------------------------------- one descriptor at a time

  function Wrap(x: int): nat { x % WORD32 }

  predicate Bad(d: Desc) {
    d.status.es && d.status.etlt != 0 && d.status.etlt != 5 && d.status.etlt != 6
  }

  function CsumOf(cfg: Config, d: Desc): bool {
    cfg.rxcsum && !(d.status.es && (d.status.etlt == 5 || d.status.etlt == 6))
  }

  function TagOf(cfg: Config, d: Desc): Option<nat> {
    if !d.status.es && d.status.etlt == 9 && cfg.vlanRx then Some(d.status.ovt) else None
  }

  // desc_data->rx.hdr_len, which is zero unless the device split the packet.
  function HdrLen(d: Desc): nat { if d.split.Some? then d.split.value else 0 }

  // mac_create_skb: what is copied out of the header buffer, and what stays
  // in the payload buffer.
  function Copied(hdrLen: nat, share: nat): nat {
    Min(HDR_SLICE, if hdrLen != 0 then hdrLen else share)
  }

  function NewSkb(i: nat, hdrLen: nat, share: nat): Skb {
    var copy := Copied(hdrLen, share);
    var rest := Wrap(share - copy);
    if rest == 0 then Skb(copy, [Header(i, copy)], 0)
    else Skb(Wrap(copy + rest), [Header(i, copy), Payload(i, rest)], 0)
  }

  // What descriptor `d` adds to a packet of which `len` bytes are known.
  function Share(d: Desc, len: nat): nat { Wrap(d.len - len) }

  function Added(p: Partial, i: nat, d: Desc): Partial {
    var share := Share(d, p.len);
    var len := Wrap(p.len + share);
    if share == 0 then p.(len := len)
    else if p.skb.None? then
      if d.room then Partial(Some(NewSkb(i, HdrLen(d), share)), p.error, len) else Partial(None, true, len)
    else
      var s := p.skb.value;
      p.(skb := Some(Skb(Wrap(s.len + share), s.parts + [Payload(i, share)], s.protocol)), len := len)
  }

  // Whether adding `d` hands the entry's payload page to the packet.
  predicate TakesPayload(p: Partial, d: Desc) {
    var share := Share(d, p.len);
    && !p.error && !(d.last && Bad(d)) && share != 0
    && if p.skb.None? then d.room && Wrap(share - Copied(HdrLen(d), share)) != 0 else true
  }

  // ------------------------------------------------ which packets result

  // The length known before descriptor `k` of a packet.
  function Before(g: seq<Desc>, k: nat): nat
    requires k <= |g|
  {
    if k == 0 then 0 else g[k - 1].len
  }

  // The first descriptor, among `n`, at which any data is reported.
  function FirstFull(g: seq<Desc>, n: nat): (f: Option<nat>)
    requires n <= |g|
    ensures f.Some? ==> f.value < n
  {
    if n == 0 then None
    else
      var f := FirstFull(g, n - 1);
      if f.Some? then f else if g[n - 1].len != 0 then Some(n - 1) else None
  }

  predicate Starved(g: seq<Desc>, n: nat)
    requires n <= |g|
  {
    FirstFull(g, n).Some? && !g[FirstFull(g, n).value].room
  }

  // Descriptor `k`'s own contribution to a packet starting at `base`.
  function PartsAt(base: nat, g: seq<Desc>, k: nat): seq<Part>
    requires k < |g|
  {
    var share := Share(g[k], Before(g, k));
    if share == 0 then []
    else if FirstFull(g, k).None? then NewSkb(base + k, HdrLen(g[k]), share).parts
    else [Payload(base + k, share)]
  }

  function Parts(base: nat, g: seq<Desc>, n: nat): seq<Part>
    requires n <= |g|
  {
    if n == 0 then [] else Parts(base, g, n - 1) + PartsAt(base, g, n - 1)
  }

  function Hash(g: seq<Desc>, n: nat): Option<nat>
    requires n <= |g|
  {
    if n == 0 then None else if g[n - 1].hash.Some? then g[n - 1].hash else Hash(g, n - 1)
  }

  // A packet is the descriptors up to and including one marked last.
  predicate Whole(g: seq<Desc>) {
    g != [] && g[|g| - 1].last && forall k :: 0 <= k < |g| - 1 ==> !g[k].last
  }

  /** The packet made of descriptors `g`, if it is delivered. */
  function Outcome(cfg: Config, base: nat, g: seq<Desc>): Option<Packet>
    requires Whole(g)
  {
    var last := g[|g| - 1];
    if FirstFull(g, |g|).None? || Starved(g, |g|) || Bad(last) || last.len > cfg.mtu + ETH_HLEN then None
    else Some(Packet(Parts(base, g, |g|), last.len, CsumOf(cfg, last), TagOf(cfg, last), Hash(g, |g|)))
  }

  // Where the packet in progress after the descriptors `s` begins.
  function Start(s: seq<Desc>): (i: nat)
    ensures i <= |s| && forall k :: i <= k < |s| ==> !s[k].last
  {
    if s == [] || s[|s| - 1].last then |s| else Start(s[..|s| - 1])
  }

  // Its descriptors so far.
  function Pending(s: seq<Desc>): (g: seq<Desc>)
    ensures forall k :: 0 <= k < |g| ==> !g[k].last
  {
    s[Start(s)..]
  }

  // How many packets have ended.
  function Done(s: seq<Desc>): nat {
    if s == [] then 0 else Done(s[..|s| - 1]) + if s[|s| - 1].last then 1 else 0
  }

  function AsSeq(p: Option<Packet>): seq<Packet> { if p.Some? then [p.value] else [] }

  /** The packets of a stream of descriptors, in order. */
  function Delivered(cfg: Config, s: seq<Desc>): seq<Packet> {
    if s == [] then []
    else
      var t, d := s[..|s| - 1], s[|s| - 1];
      Delivered(cfg, t) + if d.last then AsSeq(Outcome(cfg, Start(t), Pending(t) + [d])) else []
  }

  lemma Snoc(cfg: Config, s: seq<Desc>, d: Desc)
    ensures Start(s + [d]) == if d.last then |s| + 1 else Start(s)
    ensures Pending(s + [d]) == if d.last then [] else Pending(s) + [d]
    ensures Done(s + [d]) == Done(s) + if d.last then 1 else 0
    ensures Delivered(cfg, s + [d]) ==
            Delivered(cfg, s) + if d.last then AsSeq(Outcome(cfg, Start(s), Pending(s) + [d])) else []
  {
    assert (s + [d])[..|s + [d]| - 1] == s;
  }

  // ------------------------------------ the loop's variables, mid-packet

  // After the descriptors `g`, none of them last, of a packet from `base` on.
  function PartialOf(base: nat, g: seq<Desc>): Partial {
    var n := |g|;
    if Starved(g, n) then Partial(None, true, g[FirstFull(g, n).value].len)
    else Partial(if FirstFull(g, n).Some? then Some(Skb(Before(g, n), Parts(base, g, n), 0)) else None,
                 false, Before(g, n))
  }

  lemma ErrorIs(base: nat, g: seq<Desc>)
    ensures PartialOf(base, g).error <==> Starved(g, |g|)
  {
  }

  function InfoOf(g: seq<Desc>): Info {
    Info(g != [], false, false, None, Hash(g, |g|))
  }

  // The PL field is 14 bits wide and the HL field 10.
  predicate Wire(d: Desc) { d.len < 0x4000 && HdrLen(d) < 0x400 }

  predicate AllWire(g: seq<Desc>) { forall k :: 0 <= k < |g| ==> Wire(g[k]) }

  lemma WrapSum(a: int, b: nat)
    ensures Wrap(b + Wrap(a - b)) == Wrap(a)
  {
  }

  lemma Small(x: nat)
    requires x < WORD32
    ensures Wrap(x) == x
  {
  }

  lemma NewSkbLen(i: nat, hdrLen: nat, share: nat)
    requires 0 < share < WORD32
    ensures NewSkb(i, hdrLen, share).len == share
  {
    WrapSum(share, Copied(hdrLen, share));
    if Wrap(share - Copied(hdrLen, share)) == 0 {
      assert Copied(hdrLen, share) <= HDR_SLICE;
    }
  }

  lemma {:induction false} FirstFullSnoc(g: seq<Desc>, d: Desc, n: nat)
    requires n <= |g|
    ensures FirstFull(g + [d], n) == FirstFull(g, n)
  {
    if n > 0 {
      FirstFullSnoc(g, d, n - 1);
    }
  }

  lemma {:induction false} PartsSnoc(base: nat, g: seq<Desc>, d: Desc, n: nat)
    requires n <= |g|
    ensures Parts(base, g + [d], n) == Parts(base, g, n)
    ensures Hash(g + [d], n) == Hash(g, n)
  {
    if n > 0 {
      PartsSnoc(base, g, d, n - 1);
      FirstFullSnoc(g, d, n - 1);
      assert Before(g + [d], n - 1) == Before(g, n - 1);
    }
  }

  // What one more descriptor does to the closed form.
  lemma {:induction false} Grows(base: nat, g: seq<Desc>, d: Desc)
    requires AllWire(g) && Wire(d)
    ensures var h := g + [d];
      && FirstFull(h, |g|) == FirstFull(g, |g|) && Before(h, |h|) == d.len && Before(h, |g|) == Before(g, |g|)
      && Parts(base, h, |h|) == Parts(base, g, |g|) + PartsAt(base, h, |g|)
      && (FirstFull(g, |g|).Some? ==> h[FirstFull(g, |g|).value] == g[FirstFull(g, |g|).value])
      && Before(g, |g|) < WORD32
  {
    FirstFullSnoc(g, d, |g|);
    PartsSnoc(base, g, d, |g|);
    if g != [] {
      assert Wire(g[|g| - 1]);
    }
  }

  lemma {:induction false} AddedMore(base: nat, g: seq<Desc>, d: Desc)
    requires AllWire(g) && Wire(d) && !Starved(g, |g|) && FirstFull(g, |g|).Some?
    ensures Added(PartialOf(base, g), base + |g|, d) == PartialOf(base, g + [d])
  {
    Grows(base, g, d);
    WrapSum(d.len, Before(g, |g|));
    Small(d.len);
    var x, y := Added(PartialOf(base, g), base + |g|, d), PartialOf(base, g + [d]);
    assert x.skb.Some? && y.skb.Some? && x.len == y.len;
    assert x.skb.value.parts == y.skb.value.parts;
  }

  lemma {:induction false} AddedNothing(base: nat, g: seq<Desc>, d: Desc)
    requires AllWire(g) && Wire(d) && FirstFull(g, |g|).None? && d.len == 0
    ensures Added(PartialOf(base, g), base + |g|, d) == PartialOf(base, g + [d])
  {
    Grows(base, g, d);
    assert Before(g, |g|) == 0 && Share(d, 0) == 0;
    assert FirstFull(g + [d], |g| + 1) == None;
  }

  // The first data of a packet, in the closed form ...
  lemma {:induction false} FirstClosed(base: nat, g: seq<Desc>, d: Desc)
    requires AllWire(g) && Wire(d) && FirstFull(g, |g|).None? && d.len != 0
    ensures PartialOf(base, g + [d]) ==
            if d.room then Partial(Some(Skb(d.len, NewSkb(base + |g|, HdrLen(d), d.len).parts, 0)), false, d.len)
            else Partial(None, true, d.len)
  {
    Grows(base, g, d);
    NoParts(base, g, |g|);
    Small(d.len);
    var h := g + [d];
    assert FirstFull(h, |h|) == Some(|g|) && h[|g|] == d;
    assert Before(h, |g|) == 0 && Share(d, 0) == d.len;
    assert Parts(base, h, |h|) == [] + PartsAt(base, h, |g|) == NewSkb(base + |g|, HdrLen(d), d.len).parts;
    assert Starved(h, |h|) <==> !d.room;
  }

  // ... and as the loop builds it.
  lemma {:induction false} AddedFirst(base: nat, g: seq<Desc>, d: Desc)
    requires AllWire(g) && Wire(d) && FirstFull(g, |g|).None? && d.len != 0
    ensures Added(PartialOf(base, g), base + |g|, d) == PartialOf(base, g + [d])
  {
    FirstClosed(base, g, d);
    Grows(base, g, d);
    NoParts(base, g, |g|);
    Small(d.len);
    NewSkbLen(base + |g|, HdrLen(d), d.len);
    assert PartialOf(base, g) == FRESH;
  }

  /** Adding a descriptor to a packet in progress, as the loop does it, gives
      the closed form for one descriptor more. */
  lemma {:induction false} AddedIs(base: nat, g: seq<Desc>, d: Desc)
    requires AllWire(g) && Wire(d) && !Starved(g, |g|)
    ensures Added(PartialOf(base, g), base + |g|, d) == PartialOf(base, g + [d])
  {
    if FirstFull(g, |g|).Some? {
      AddedMore(base, g, d);
    } else if d.len == 0 {
      AddedNothing(base, g, d);
    } else {
      AddedFirst(base, g, d);
    }
  }

  lemma {:induction false} NoParts(base: nat, g: seq<Desc>, n: nat)
    requires n <= |g| && FirstFull(g, n).None?
    ensures Parts(base, g, n) == []
  {
    if n > 0 {
      NoParts(base, g, n - 1);
      assert g[n - 1].len == 0 && Before(g, n - 1) == 0;
    }
  }

  lemma {:induction false} StarvedStays(base: nat, g: seq<Desc>, d: Desc)
    requires Starved(g, |g|)
    ensures Starved(g + [d], |g| + 1) && PartialOf(base, g + [d]) == PartialOf(base, g)
  {
    FirstFullSnoc(g, d, |g|);
  }

  // ------------------------------------------------ facts about the packets

  function Total(parts: seq<Part>): nat {
    if parts == [] then 0 else Total(parts[..|parts| - 1]) + parts[|parts| - 1].len
  }

  lemma {:induction false} TotalConcat(a: seq<Part>, b: seq<Part>)
    ensures Total(a + b) == Total(a) + Total(b)
  {
    if b == [] {
      assert a + b == a;
    } else {
      assert (a + b)[..|a + b| - 1] == a + b[..|b| - 1];
      TotalConcat(a, b[..|b| - 1]);
    }
  }

  // Lengths that only grow, and headers inside the data they belong to.
  predicate OrderlyAt(g: seq<Desc>, k: nat)
    requires k < |g|
  {
    Before(g, k) <= g[k].len && (g[k].len > Before(g, k) ==> HdrLen(g[k]) <= g[k].len - Before(g, k))
  }

  ghost predicate Orderly(g: seq<Desc>) { forall k: nat :: k < |g| ==> OrderlyAt(g, k) }

  lemma TotalTwo(a: Part, b: Part)
    ensures Total([a]) == a.len && Total([a, b]) == a.len + b.len
  {
    assert [a, b][..1] == [a] && [a][..0] == [];
  }

  lemma PartsAtTotal(base: nat, g: seq<Desc>, k: nat)
    requires k < |g| && AllWire(g) && Orderly(g)
    ensures Total(PartsAt(base, g, k)) == g[k].len - Before(g, k)
  {
    var share := Share(g[k], Before(g, k));
    assert OrderlyAt(g, k) && Wire(g[k]);
    Small(g[k].len - Before(g, k));
    if share != 0 {
      if FirstFull(g, k).None? {
        var copy := Copied(HdrLen(g[k]), share);
        Small(share - copy);
        TotalTwo(Header(base + k, copy), Payload(base + k, Wrap(share - copy)));
      } else {
        TotalTwo(Payload(base + k, share), Payload(base + k, share));
      }
    }
  }

  lemma {:induction false} PartsTotal(base: nat, g: seq<Desc>, n: nat)
    requires n <= |g| && AllWire(g) && Orderly(g)
    ensures Total(Parts(base, g, n)) == Before(g, n)
  {
    hide PartsAt, FirstFull, OrderlyAt;
    if n > 0 {
      PartsTotal(base, g, n - 1);
      PartsAtTotal(base, g, n - 1);
      TotalConcat(Parts(base, g, n - 1), PartsAt(base, g, n - 1));
    }
  }

  lemma WrapAdds(a: int, b: int)
    ensures Wrap(Wrap(a) + b) == Wrap(a + b) && Wrap(a + Wrap(b)) == Wrap(a + b)
  {
  }

  lemma NewSkbTotal(i: nat, hdrLen: nat, share: nat)
    ensures Wrap(Total(NewSkb(i, hdrLen, share).parts)) == Wrap(share)
  {
    var copy: int := Copied(hdrLen, share);
    var rest := Wrap(share - copy);
    TotalTwo(Header(i, copy), Payload(i, rest));
    WrapAdds(copy, share - copy);
  }

  lemma PartsAtWraps(base: nat, g: seq<Desc>, k: nat)
    requires k < |g|
    ensures Wrap(Total(PartsAt(base, g, k))) == Wrap(g[k].len - Before(g, k))
  {
    var share := Share(g[k], Before(g, k));
    WrapAdds(0, g[k].len - Before(g, k));
    if share != 0 {
      NewSkbTotal(base + k, HdrLen(g[k]), share);
      TotalTwo(Payload(base + k, share), Payload(base + k, share));
    }
  }

  lemma {:induction false} PartsWrap(base: nat, g: seq<Desc>, n: nat)
    requires n <= |g|
    ensures Wrap(Total(Parts(base, g, n))) == Wrap(Before(g, n))
  {
    hide PartsAt, Wrap;
    if n > 0 {
      hide Total;
      PartsWrap(base, g, n - 1);
      PartsAtWraps(base, g, n - 1);
      var a, b := Parts(base, g, n - 1), PartsAt(base, g, n - 1);
      TotalConcat(a, b);
      Carried(Total(a), Total(b), Before(g, n - 1), g[n - 1].len);
    }
  }

  lemma Carried(a: int, b: int, before: int, len: int)
    requires Wrap(a) == Wrap(before) && Wrap(b) == Wrap(len - before)
    ensures Wrap(a + b) == Wrap(len)
  {
    WrapAdds(a, b);
    WrapAdds(before, len - before);
    hide Wrap;
    assert Wrap(a + b) == Wrap(Wrap(a) + b);
    WrapAdds(Wrap(a), b);
    WrapAdds(Wrap(before), len - before);
  }

  /** A delivered packet has exactly the length its last descriptor reports,
      within the limit. Its parts add up to that in the driver's 32-bit
      arithmetic, and exactly if the lengths reported only grow and the headers
      lie inside the data. */
  lemma DeliveredLength(cfg: Config, base: nat, g: seq<Desc>)
    requires Whole(g) && AllWire(g) && Outcome(cfg, base, g).Some?
    ensures var p := Outcome(cfg, base, g).value;
      && p.len == g[|g| - 1].len <= cfg.mtu + ETH_HLEN
      && Wrap(Total(p.parts)) == p.len && (Orderly(g) ==> Total(p.parts) == p.len)
  {
    hide PartsAt, Parts, Wrap, Total, Orderly;
    PartsWrap(base, g, |g|);
    assert Wire(g[|g| - 1]);
    Small(g[|g| - 1].len);
    if Orderly(g) {
      PartsTotal(base, g, |g|);
    }
  }

  // ------------------------------------------------- reading a descriptor

  // mac_dev_read on a completed descriptor
  function ReadInfo(cfg: Config, info: Info, d: Desc): Info {
    var hash := if d.hash.Some? then d.hash else info.hash;
    if !d.last then info.(incomplete := true, hash := hash)
    else
      Info(false, info.errors || Bad(d),
           if d.status.es && (d.status.etlt == 5 || d.status.etlt == 6) then false else cfg.rxcsum || info.csum,
           if !(d.status.es && d.status.etlt != 0) && d.status.etlt == 9 && cfg.vlanRx then Some(d.status.ovt) else info.tag,
           hash)
  }

  lemma ReadInfoIs(cfg: Config, base: nat, g: seq<Desc>, d: Desc)
    ensures !d.last ==> ReadInfo(cfg, InfoOf(g), d) == InfoOf(g + [d])
    ensures d.last ==> ReadInfo(cfg, InfoOf(g), d) == Info(false, Bad(d), CsumOf(cfg, d), TagOf(cfg, d), Hash(g + [d], |g| + 1))
  {
    PartsSnoc(base, g, d, |g|);
  }

  /** The page of an entry changes hands just when the packet gets a payload
      part from that entry. */
  lemma PayloadTaken(base: nat, g: seq<Desc>, d: Desc)
    requires AllWire(g) && Wire(d) && !Starved(g + [d], |g| + 1) && !(d.last && Bad(d))
    ensures TakesPayload(PartialOf(base, g), d) <==>
            exists p :: p in PartsAt(base, g + [d], |g|) && p.Payload?
  {
    if Starved(g, |g|) {
      StarvedStays(base, g, d);
    } else {
      Grows(base, g, d);
      var parts := PartsAt(base, g + [d], |g|);
      if TakesPayload(PartialOf(base, g), d) {
        assert parts[|parts| - 1].Payload?;
      }
    }
  }

  // What the end of the loop body does with a finished packet.
  function Verdict(cfg: Config, p: Partial, info: Info): Option<Packet> {
    if p.skb.None? then None
    else
      var s := p.skb.value;
      var limit := cfg.mtu + ETH_HLEN + if !cfg.vlanRx && s.protocol == ETH_P_8021Q then VLAN_HLEN else 0;
      if s.len > limit then None else Some(Packet(s.parts, s.len, info.csum, info.tag, info.hash))
  }

  /** The last descriptor of a packet settles its fate as `Outcome` says. The
      allowance for a VLAN tag never applies: the packet's protocol is not
      known until after the check. */
  lemma {:induction false} VerdictIs(cfg: Config, base: nat, g: seq<Desc>, d: Desc)
    requires AllWire(g) && Wire(d) && d.last && forall k :: 0 <= k < |g| ==> !g[k].last
    ensures Outcome(cfg, base, g + [d]) ==
            if PartialOf(base, g).error || Bad(d) then None
            else Verdict(cfg, Added(PartialOf(base, g), base + |g|, d), ReadInfo(cfg, InfoOf(g), d))
  {
    ReadInfoIs(cfg, base, g, d);
    if Starved(g, |g|) {
      StarvedStays(base, g, d);
    } else {
      AddedIs(base, g, d);
    }
  }

  /** So a frame within that allowance is dropped, although it would be delivered
      if its protocol were known in time. */
  lemma {:induction false} TaggedFrameDropped(cfg: Config, base: nat, d: Desc)
    requires Wire(d) && d.last && d.room && !Bad(d) && !cfg.vlanRx
    requires cfg.mtu + ETH_HLEN < d.len <= cfg.mtu + ETH_HLEN + VLAN_HLEN
    ensures Outcome(cfg, base, [d]) == None
    ensures var p, info := Added(FRESH, base, d), ReadInfo(cfg, BLANK, d);
      && p.skb.Some? && Verdict(cfg, p, info).None?
      && Verdict(cfg, p.(skb := Some(p.skb.value.(protocol := ETH_P_8021Q))), info).Some?
  {
    Small(d.len);
    NewSkbLen(base, HdrLen(d), d.len);
    FirstFullSnoc([], d, 0);
    assert FirstFull([d], 1) == Some(0);
  }
}
