/** Link bring-up of port 0: auto-negotiation (Clause 73 of IEEE 802.3) and KR
    training (Clause 72 of IEEE 802.3), advanced once per tick of the link
    check timer. Here: the states, what a tick does to them, and what holds
    over every run whatever the hardware reports. */
module LinkState {

  const MAX_DOWN: nat := 3             // RNIC_MAX_LINK_DOWN_CNT
  const MAX_RCV: nat := 50             // PCS_AN_MAX_RCV_CNT
  const MAX_INTR_CHECK: nat := 10000   // PCS_AN_MAX_INTR_CHECK_CNT
  const SLOW: nat := 100000            // PCS_LINK_CHECK_SLOW_TIMER_USECS
  const FAST: nat := 1                 // PCS_LINK_CHECK_FAST_TIMER_USECS

  /** Fixed configuration. `nextPages` says that the port runs at 25G or 50G. */
  datatype Config = Config(anEn: bool, krtEn: bool, linkUpOnly: bool, nextPages: bool, laneMask: seq<bool>)

  datatype Page = First | Second | NullPage

  // Auto-negotiation; `enabled` is bit 12 of SR_AN_CTRL, `page` what was last
  // written to SR_AN_XNP_TX, if anything.
  datatype An = An(start: bool, success: bool, enabled: bool, rcv: nat, intr: nat, nxp: nat, page: seq<Page>)

  datatype Krt = Krt(start: bool, success: bool, failed: bool)

  datatype Link = Link(an: An, krt: Krt, up: bool, down: nat, usecs: nat)

  /** What one tick finds: whether some sample shows the link up, the interrupt
      bits, whether either side wants a next page, the four lanes' training
      status, and a random number. */
  datatype Input = Input(up: bool, cmpl: bool, incLink: bool, pgRcv: bool, more: bool, lanes: seq<nat>, random: nat)

  const START: Link := Link(An(false, false, false, 0, 0, 0, []), Krt(false, false, false), false, 0, SLOW)

  // ------------------------------------------------------------ one function each

  function Disabled(a: An): An { a.(enabled := false, start := false, rcv := 0, intr := 0) }

  function Jitter(random: nat): nat { random % SLOW + 1 }

  // pcs_an_start
  function Started(s: Link): Link {
    Link(s.an.(start := true, success := false, enabled := true, rcv := 0, intr := 0, nxp := 0),
         s.krt.(success := false, failed := false), s.up, s.down, FAST)
  }

  // pcs_krt_start
  function Trained(cfg: Config, k: Krt): Krt {
    if k.start then k else if cfg.krtEn then k.(start := true) else k.(failed := true)
  }

  // pcs_an_int_cmpl
  function Completed(cfg: Config, s: Link): Link {
    if s.krt.success || s.krt.failed then s.(an := Disabled(s.an.(success := true)), usecs := SLOW)
    else s.(krt := Trained(cfg, s.krt), usecs := SLOW)
  }

  // pcs_an_inc_link
  function Incompatible(s: Link, random: nat): Link {
    s.(an := Disabled(s.an), usecs := Jitter(random))
  }

  function Answer(nxp: nat): Page { if nxp == 0 then First else if nxp == 1 then Second else NullPage }

  // pcs_an_nxp_check
  function Paged(cfg: Config, s: Link, more: bool): Link {
    var an := if more then s.an.(page := s.an.page + [Answer(s.an.nxp)]) else s.an;
    s.(an := if cfg.nextPages then an.(nxp := an.nxp + 1) else an,
       krt := if !more && s.krt == Krt(false, false, false) then Trained(cfg, s.krt) else s.krt)
  }

  // pcs_an_pg_rcv
  function PageReceived(cfg: Config, s: Link, more: bool): Link {
    if s.krt != Krt(false, false, false) then s.(usecs := FAST)
    else
      var p := Paged(cfg, s, more);
      var an := p.an.(rcv := p.an.rcv + 1);
      p.(an := if an.rcv >= MAX_RCV then Disabled(an) else an, usecs := FAST)
  }

  predicate LaneDone(cfg: Config, lanes: seq<nat>, i: nat) {
    i < |cfg.laneMask| && i < |lanes| && cfg.laneMask[i] && lanes[i] == 1
  }

  predicate LaneFailed(cfg: Config, lanes: seq<nat>, i: nat) {
    i < |cfg.laneMask| && i < |lanes| && cfg.laneMask[i] && lanes[i] / 8 % 2 == 1
  }

  predicate SomeDone(cfg: Config, lanes: seq<nat>) { exists i: nat :: i < 4 && LaneDone(cfg, lanes, i) }

  predicate SomeFailed(cfg: Config, lanes: seq<nat>) { exists i: nat :: i < 4 && LaneFailed(cfg, lanes, i) }

  // pcs_krt_check_state
  function Checked(cfg: Config, s: Link, lanes: seq<nat>): Link {
    var done, failed := SomeDone(cfg, lanes), SomeFailed(cfg, lanes);
    if !done && !failed then s.(usecs := FAST)
    else s.(krt := Krt(false, s.krt.success || done, s.krt.failed || failed), usecs := SLOW)
  }

  // The link samples of rnic_link_check_timer.
  function Sampled(s: Link, up: bool): Link {
    if up then s.(up := true, down := 0, usecs := SLOW)
    else if s.down + 1 >= MAX_DOWN then
      s.(up := false, down := 0, an := s.an.(success := false), krt := s.krt.(success := false, failed := false))
    else s.(up := false, down := s.down + 1)
  }

  predicate Interrupted(i: Input) { i.cmpl || i.incLink || i.pgRcv }

  // An attempt under way, outside KR training.
  function Attended(cfg: Config, s: Link, i: Input): Link {
    if Interrupted(i) then
      if cfg.linkUpOnly then
        Link(Disabled(s.an.(success := true)), s.krt.(success := true), s.up, s.down, Jitter(i.random))
      else
        var c := if i.cmpl then Completed(cfg, s) else s;
        var d := if i.incLink then Incompatible(c, i.random) else c;
        var e := if i.pgRcv then PageReceived(cfg, d, i.more) else d;
        e.(an := e.an.(intr := 0))
    else
      var t := s.(an := s.an.(intr := s.an.intr + 1));
      if t.an.intr >= MAX_INTR_CHECK then t.(an := Disabled(t.an), usecs := SLOW) else t
  }

  function Negotiated(cfg: Config, s: Link, i: Input): Link {
    if !cfg.anEn || (s.an.success && s.krt.success) then s
    else if !s.an.start && !s.krt.start then Started(s)
    else if s.krt.start then Checked(cfg, s, i.lanes)
    else Attended(cfg, s, i)
  }

  // rnic_link_check_timer
  function Tick(cfg: Config, s: Link, i: Input): Link {
    Negotiated(cfg, Sampled(s, i.up), i)
  }

  // pcs_an_restart_lock_timer
  function LockTimer(s: Link): Link { s.(an := Disabled(s.an)) }

  // --------------------------------------------------------------- every run

  datatype Event = Timer(input: Input) | Lock

  function Step(cfg: Config, s: Link, e: Event): Link {
    match e
    case Timer(i) => Tick(cfg, s, i)
    case Lock => LockTimer(s)
  }

  function Run(cfg: Config, s: Link, events: seq<Event>): Link {
    if events == [] then s else Step(cfg, Run(cfg, s, events[..|events| - 1]), events[|events| - 1])
  }

  predicate InvAn(cfg: Config, a: An) {
    && a.enabled == a.start
    && (a.success ==> !a.start)
    && a.rcv < MAX_RCV && a.intr < MAX_INTR_CHECK
    && (a.start ==> a.nxp == if cfg.nextPages then a.rcv else 0)
  }

  /** The invariant of the link machine, at the end of every tick. */
  predicate Inv(cfg: Config, s: Link) {
    && InvAn(cfg, s.an)
    && (s.krt.start ==> cfg.krtEn && !s.krt.success && !s.krt.failed && !s.an.success)
    && (s.an.success ==> s.krt.success || s.krt.failed)
    && (s.krt.success && !cfg.krtEn ==> cfg.linkUpOnly)
    && (!cfg.anEn ==> !s.an.start && !s.an.success && s.krt == Krt(false, false, false))
    && s.down < MAX_DOWN && FAST <= s.usecs <= SLOW
  }

  lemma SampledInv(cfg: Config, s: Link, up: bool)
    requires Inv(cfg, s)
    ensures Inv(cfg, Sampled(s, up))
  {
  }

  lemma PageInv(cfg: Config, s: Link, more: bool)
    requires Inv(cfg, s) && cfg.anEn
    ensures Inv(cfg, PageReceived(cfg, s, more))
  {
  }

  lemma AttendedInv(cfg: Config, s: Link, i: Input)
    requires Inv(cfg, s) && cfg.anEn && s.an.start && !s.krt.start
    ensures Inv(cfg, Attended(cfg, s, i))
  {
    if Interrupted(i) && !cfg.linkUpOnly {
      var c := if i.cmpl then Completed(cfg, s) else s;
      assert Inv(cfg, c);
      var d := if i.incLink then Incompatible(c, i.random) else c;
      assert Inv(cfg, d);
      if i.pgRcv {
        PageInv(cfg, d, i.more);
      }
    }
  }

  /** Every tick, whatever the hardware reports, keeps the invariant; so does
      the lock timer. */
  lemma StepInv(cfg: Config, s: Link, e: Event)
    requires Inv(cfg, s)
    ensures Inv(cfg, Step(cfg, s, e))
  {
    match e
    case Timer(i) =>
      SampledInv(cfg, s, i.up);
      var t := Sampled(s, i.up);
      if cfg.anEn && t.an.start && !t.krt.start {
        AttendedInv(cfg, t, i);
      }
    case Lock =>
  }

  lemma {:induction false} RunInv(cfg: Config, events: seq<Event>)
    ensures Inv(cfg, Run(cfg, START, events))
  {
    if events != [] {
      RunInv(cfg, events[..|events| - 1]);
      StepInv(cfg, Run(cfg, START, events[..|events| - 1]), events[|events| - 1]);
    }
  }
}
