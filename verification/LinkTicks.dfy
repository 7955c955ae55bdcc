/** What one tick does in each situation it can find, said of the port's own
    fields: how the link is followed, how an attempt begins, waits, is answered
    and ends, and what becomes of training. */
module LinkTicks {
  import opened LinkState
  import opened LinkSafety

  // The tick finds the link down for the third time in a row.
  predicate Forgets(s: Link, i: Input) { !i.up && s.down == 2 }

  // The flags a tick goes by: none of those set before survives that.
  predicate Succeeded(s: Link, i: Input) { s.krt.success && !Forgets(s, i) }

  predicate Failed(s: Link, i: Input) { s.krt.failed && !Forgets(s, i) }

  predicate Agreed(s: Link, i: Input) { s.an.success && !Forgets(s, i) }

  // The tick finds an attempt under way, outside training.
  predicate Attempting(cfg: Config, s: Link) { cfg.anEn && s.an.start && !s.krt.start }

  /** Every tick follows the link, and counts how often in a row it was down. */
  lemma LinkFollowed(cfg: Config, s: Link, i: Input)
    requires Inv(cfg, s)
    ensures var v := Tick(cfg, s, i);
      v.up == i.up && v.down == if i.up || s.down == 2 then 0 else s.down + 1
  {
  }

  /** A port that does not negotiate, or has settled, does nothing else; it polls
      slowly once the link is up. */
  lemma LeftAlone(cfg: Config, s: Link, i: Input)
    requires Inv(cfg, s) && (!cfg.anEn || (Agreed(s, i) && Succeeded(s, i)))
    ensures var v := Tick(cfg, s, i);
      && v.an == s.an.(success := Agreed(s, i)) && v.krt == Krt(s.krt.start, Succeeded(s, i), Failed(s, i))
      && v.usecs == if i.up then 100000 else s.usecs
  {
  }

  /** With nothing under way, an attempt begins: negotiation enabled, everything
      else forgotten, the fast timer. */
  lemma AttemptBegins(cfg: Config, s: Link, i: Input)
    requires Inv(cfg, s) && cfg.anEn && !s.an.start && !s.krt.start && !(Agreed(s, i) && Succeeded(s, i))
    ensures var v := Tick(cfg, s, i);
      v.an == An(true, false, true, 0, 0, 0, s.an.page) && v.krt == Krt(false, false, false) && v.usecs == 1
  {
  }

  // Some enabled lane reports success, or failure.
  predicate LaneUp(cfg: Config, i: Input) {
    exists k: nat :: k < 4 && k < |cfg.laneMask| && k < |i.lanes| && cfg.laneMask[k] && i.lanes[k] == 1
  }

  predicate LaneDown(cfg: Config, i: Input) {
    exists k: nat :: k < 4 && k < |cfg.laneMask| && k < |i.lanes| && cfg.laneMask[k] && i.lanes[k] / 8 % 2 == 1
  }

  lemma LanesAre(cfg: Config, i: Input)
    ensures SomeDone(cfg, i.lanes) <==> LaneUp(cfg, i)
    ensures SomeFailed(cfg, i.lanes) <==> LaneDown(cfg, i)
  {
    if SomeDone(cfg, i.lanes) {
      var k: nat :| k < 4 && LaneDone(cfg, i.lanes, k);
      assert i.lanes[k] == 1;
    }
    if LaneUp(cfg, i) {
      var k: nat :| k < 4 && k < |cfg.laneMask| && k < |i.lanes| && cfg.laneMask[k] && i.lanes[k] == 1;
      assert LaneDone(cfg, i.lanes, k);
    }
    if SomeFailed(cfg, i.lanes) {
      var k: nat :| k < 4 && LaneFailed(cfg, i.lanes, k);
      assert i.lanes[k] / 8 % 2 == 1;
    }
    if LaneDown(cfg, i) {
      var k: nat :| k < 4 && k < |cfg.laneMask| && k < |i.lanes| && cfg.laneMask[k] && i.lanes[k] / 8 % 2 == 1;
      assert LaneFailed(cfg, i.lanes, k);
    }
  }

  /** Training ends with the first lane that reports success, value 1, or failure,
      bit 3, and records which of the two were seen; it is polled for fast until
      then and slowly afterwards. The attempt itself is left alone. */
  lemma TrainingWatched(cfg: Config, s: Link, i: Input)
    requires Inv(cfg, s) && cfg.anEn && s.krt.start
    ensures var v := Tick(cfg, s, i);
      && v.an == s.an && v.krt == Krt(!LaneUp(cfg, i) && !LaneDown(cfg, i), LaneUp(cfg, i), LaneDown(cfg, i))
      && v.usecs == if LaneUp(cfg, i) || LaneDown(cfg, i) then 100000 else 1
  {
    LanesAre(cfg, i);
    hide SomeDone, SomeFailed, LaneUp, LaneDown;
  }

  /** A tick without interrupts only counts, until there have been too many; then
      the attempt is given up and the slow timer set. */
  lemma SilenceCounted(cfg: Config, s: Link, i: Input)
    requires Inv(cfg, s) && Attempting(cfg, s) && !i.cmpl && !i.incLink && !i.pgRcv
    ensures var v := Tick(cfg, s, i);
      && v.krt == Krt(false, Succeeded(s, i), Failed(s, i))
      && if s.an.intr + 1 < 10000 then v.an == s.an.(intr := s.an.intr + 1) && v.usecs == (if i.up then 100000 else s.usecs)
         else v.an == s.an.(start := false, enabled := false, rcv := 0, intr := 0) && v.usecs == 100000
  {
  }

  /** Where training is skipped, any interrupt settles the port, for a random
      time. */
  lemma SettlesAtOnce(cfg: Config, s: Link, i: Input)
    requires Inv(cfg, s) && Attempting(cfg, s) && cfg.linkUpOnly && (i.cmpl || i.incLink || i.pgRcv)
    ensures var v := Tick(cfg, s, i);
      && v.an == s.an.(start := false, enabled := false, success := true, rcv := 0, intr := 0)
      && v.krt == Krt(false, true, Failed(s, i)) && v.usecs == i.random % 100000 + 1
  {
  }

  /** A completion after training has had an outcome, whatever comes with it, ends
      the attempt; the port has settled if and only if training succeeded. */
  lemma CompletionEnds(cfg: Config, s: Link, i: Input)
    requires Inv(cfg, s) && Attempting(cfg, s) && !cfg.linkUpOnly && i.cmpl && (Succeeded(s, i) || Failed(s, i))
    ensures var v := Tick(cfg, s, i);
      && v.an == s.an.(start := false, enabled := false, success := true, rcv := 0, intr := 0)
      && v.krt == Krt(false, Succeeded(s, i), Failed(s, i)) && (Settled(v) <==> s.krt.success)
      && v.usecs == if i.pgRcv then 1 else if i.incLink then i.random % 100000 + 1 else 100000
  {
  }

  /** So if training has only failed, the next tick begins a new attempt, and
      nothing of the old one is left but the last page written. */
  lemma FailureTriesAgain(cfg: Config, s: Link, i: Input, j: Input)
    requires Inv(cfg, s) && Lingering(cfg, s) && !cfg.linkUpOnly && !s.krt.success && i.cmpl && !Forgets(s, i)
    ensures var v := Tick(cfg, Tick(cfg, s, i), j);
      v.an == An(true, false, true, 0, 0, 0, s.an.page) && v.krt == Krt(false, false, false) && v.usecs == 1
  {
    CompletionEnds(cfg, s, i);
    StepInv(cfg, s, Timer(i));
    hide Tick;
    AttemptBegins(cfg, Tick(cfg, s, i), j);
  }

  /** A completion before that starts training, which counts as failed at once
      where it is not enabled. */
  lemma CompletionTrains(cfg: Config, s: Link, i: Input)
    requires Inv(cfg, s) && Attempting(cfg, s) && !cfg.linkUpOnly && i.cmpl && !Succeeded(s, i) && !Failed(s, i)
    ensures var v := Tick(cfg, s, i);
      && v.krt == Krt(cfg.krtEn, false, !cfg.krtEn) && !v.an.success && v.an.page == s.an.page && v.an.nxp == s.an.nxp
      && v.an.intr == 0 && v.an.start == v.an.enabled == !i.incLink && v.an.rcv == (if i.incLink then 0 else s.an.rcv)
      && v.usecs == if i.pgRcv then 1 else if i.incLink then i.random % 100000 + 1 else 100000
  {
  }

  /** A partner of another speed ends the attempt, for a random time; training's
      outcome, if there is one, stays. */
  lemma IncompatibleEnds(cfg: Config, s: Link, i: Input)
    requires Inv(cfg, s) && Attempting(cfg, s) && !cfg.linkUpOnly && i.incLink && !i.cmpl
    requires i.pgRcv ==> Succeeded(s, i) || Failed(s, i)
    ensures var v := Tick(cfg, s, i);
      && v.an == s.an.(start := false, enabled := false, rcv := 0, intr := 0)
      && v.krt == Krt(false, Succeeded(s, i), Failed(s, i)) && v.usecs == if i.pgRcv then 1 else i.random % 100000 + 1
  {
  }

  /** A page that comes with it is still answered, and counted from the start. */
  lemma IncompatiblePage(cfg: Config, s: Link, i: Input)
    requires Inv(cfg, s) && Attempting(cfg, s) && !cfg.linkUpOnly && i.incLink && i.pgRcv && !i.cmpl
    requires !Succeeded(s, i) && !Failed(s, i)
    ensures var v := Tick(cfg, s, i);
      && v.an.page == s.an.page + (if i.more then [Reply(cfg, s.an.rcv)] else [])
      && v.krt == (if i.more then Krt(false, false, false) else Krt(cfg.krtEn, false, !cfg.krtEn))
      && v.an.nxp == (if cfg.nextPages then s.an.rcv + 1 else 0) && !v.an.success && v.an.intr == 0 && v.usecs == 1
      && !v.an.start && !v.an.enabled && v.an.rcv == 1
  {
  }

  /** Once training has had an outcome a page does nothing but reset the check
      counter and set the fast timer. */
  lemma PageIgnored(cfg: Config, s: Link, i: Input)
    requires Inv(cfg, s) && Attempting(cfg, s) && !cfg.linkUpOnly && i.pgRcv && !i.cmpl && !i.incLink
    requires Succeeded(s, i) || Failed(s, i)
    ensures var v := Tick(cfg, s, i);
      v.an == s.an.(intr := 0) && v.krt == Krt(false, Succeeded(s, i), Failed(s, i)) && v.usecs == 1
  {
  }

  /** A page is answered while one of the two sides has more to say; when neither
      has, training starts. The 50th page ends the attempt. */
  lemma PageAnswered(cfg: Config, s: Link, i: Input)
    requires Inv(cfg, s) && Attempting(cfg, s) && !cfg.linkUpOnly && i.pgRcv && !i.cmpl && !i.incLink
    requires !Succeeded(s, i) && !Failed(s, i)
    ensures var v := Tick(cfg, s, i);
      && v.an.page == s.an.page + (if i.more then [Reply(cfg, s.an.rcv)] else [])
      && v.krt == (if i.more then Krt(false, false, false) else Krt(cfg.krtEn, false, !cfg.krtEn))
      && v.an.nxp == (if cfg.nextPages then s.an.rcv + 1 else 0) && !v.an.success && v.an.intr == 0 && v.usecs == 1
      && v.an.start == v.an.enabled == (s.an.rcv + 1 < 50) && v.an.rcv == if s.an.rcv + 1 < 50 then s.an.rcv + 1 else 0
  {
  }

  /** The lock timer gives the attempt up and leaves everything else. */
  lemma Locked(cfg: Config, s: Link)
    ensures Step(cfg, s, Lock) == s.(an := s.an.(start := false, enabled := false, rcv := 0, intr := 0))
  {
  }
}
