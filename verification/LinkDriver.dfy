/** Port 0's link driver, updated in place: the functions of bx_pcs.c and the
    link check timer, each proved against its state transition. */
module LinkDriver {
  import opened BitFields
  import opened LinkState

  const AN_EN: nat := 12        // bits of SR_AN_CTRL
  const RESTART: nat := 9

  function Flag(on: bool): Word { Zero()[0 := on] }

  // The word changes in bit `i` alone.
  predicate OnlyBit(w: Word, v: Word, i: nat) {
    forall k :: 0 <= k < WIDTH && k != i ==> v[k] == w[k]
  }

  /** One port. A tick's inputs are passed in; `more` says that one of the two
      pages read has its next-page bit set. */
  class Port {
    const cfg: Config
    var ctrl: Word
    var anStart: bool
    var anSuccess: bool
    var anRcvCnt: nat
    var anIntrCheckCnt: nat
    var anNxpIndex: nat
    var pages: seq<Page>
    var krtStart: bool
    var krtSuccess: bool
    var krtFailed: bool
    var linkUp: bool
    var linkDownCnt: nat
    var linkCheckUsecs: nat

    ghost function ViewAn(): An
      reads this
    {
      An(anStart, anSuccess, ctrl[AN_EN], anRcvCnt, anIntrCheckCnt, anNxpIndex, pages)
    }

    ghost function View(): Link
      reads this
    {
      Link(ViewAn(), Krt(krtStart, krtSuccess, krtFailed), linkUp, linkDownCnt, linkCheckUsecs)
    }

    constructor (cfg: Config, ctrl: Word)
      ensures this.cfg == cfg && View() == START && OnlyBit(ctrl, this.ctrl, AN_EN)
    {
      this.cfg, this.ctrl := cfg, ctrl[AN_EN := false];
      anStart, anSuccess, anRcvCnt, anIntrCheckCnt, anNxpIndex, pages := false, false, 0, 0, 0, [];
      krtStart, krtSuccess, krtFailed := false, false, false;
      linkUp, linkDownCnt, linkCheckUsecs := false, 0, SLOW;
    }

    // pcs_an_disable
    method AnDisable()
      modifies this`ctrl, this`anStart, this`anRcvCnt, this`anIntrCheckCnt
      ensures View() == old(View()).(an := Disabled(old(ViewAn()))) && OnlyBit(old(ctrl), ctrl, AN_EN)
    {
      ctrl := SetBits(ctrl, AN_EN, AN_EN, Flag(false));
      anStart, anRcvCnt, anIntrCheckCnt := false, 0, 0;
    }

    // pcs_an_start
    method AnStart()
      modifies this
      ensures View() == if cfg.anEn then Started(old(View())) else old(View())
      ensures cfg.anEn ==> ctrl[RESTART]
      ensures forall k :: 0 <= k < WIDTH && k != AN_EN && k != RESTART ==> ctrl[k] == old(ctrl[k])
    {
      if cfg.anEn {
        ctrl := SetBits(ctrl, AN_EN, AN_EN, Flag(true));
        ctrl := SetBits(ctrl, RESTART, RESTART, Flag(true));
        anStart, anRcvCnt, anIntrCheckCnt, anSuccess, anNxpIndex := true, 0, 0, false, 0;
        krtSuccess, krtFailed := false, false;
        linkCheckUsecs := FAST;
      }
    }

    // pcs_an_timeout
    method AnTimeout()
      modifies this
      ensures View() == old(View()).(an := Disabled(old(ViewAn())), usecs := SLOW)
    {
      AnDisable();
      linkCheckUsecs := SLOW;
    }

    // pcs_an_inc_link
    method AnIncLink(random: nat)
      modifies this
      ensures View() == Incompatible(old(View()), random)
    {
      AnDisable();
      linkCheckUsecs := random % SLOW + 1;
    }

    // pcs_krt_start; `train` says that the training registers are written.
    method KrtStart() returns (train: bool)
      modifies this`krtStart, this`krtFailed
      ensures View() == old(View()).(krt := Trained(cfg, old(View()).krt))
      ensures train <==> !old(krtStart) && cfg.krtEn
    {
      train := false;
      if !krtStart {
        if cfg.krtEn {
          krtStart := true;
          train := true;
        } else {
          krtFailed := true;
        }
      }
    }

    // pcs_an_int_cmpl
    method AnIntCmpl()
      modifies this
      ensures View() == Completed(cfg, old(View()))
    {
      if krtSuccess || krtFailed {
        anSuccess := true;
        anStart := false;
        AnDisable();
      } else {
        var _ := KrtStart();
      }
      linkCheckUsecs := SLOW;
    }

    // pcs_an_nxp_check
    method AnNxpCheck(more: bool)
      modifies this
      ensures View() == Paged(cfg, old(View()), more)
    {
      if more {
        match anNxpIndex {
          case 0 => pages := pages + [First];
          case 1 => pages := pages + [Second];
          case _ => pages := pages + [NullPage];
        }
      }
      if cfg.nextPages {
        anNxpIndex := anNxpIndex + 1;
      }
      if !more && !krtStart && !krtSuccess && !krtFailed {
        var _ := KrtStart();
      }
    }

    // pcs_an_pg_rcv
    method AnPgRcv(more: bool)
      modifies this
      ensures View() == PageReceived(cfg, old(View()), more)
    {
      if !krtStart && !krtSuccess && !krtFailed {
        AnNxpCheck(more);
        anRcvCnt := anRcvCnt + 1;
        if anRcvCnt >= MAX_RCV {
          AnDisable();
        }
      }
      linkCheckUsecs := FAST;
    }

    // pcs_krt_check_state
    method KrtCheckState(lanes: seq<nat>)
      requires |cfg.laneMask| == 4 == |lanes|
      modifies this`krtStart, this`krtSuccess, this`krtFailed, this`linkCheckUsecs
      ensures View() == Checked(cfg, old(View()), lanes)
    {
      hide SomeDone, SomeFailed, LaneDone, LaneFailed;
      var success := LaneDone(cfg, lanes, 0) || LaneDone(cfg, lanes, 1) || LaneDone(cfg, lanes, 2) || LaneDone(cfg, lanes, 3);
      var failed := LaneFailed(cfg, lanes, 0) || LaneFailed(cfg, lanes, 1) || LaneFailed(cfg, lanes, 2) || LaneFailed(cfg, lanes, 3);
      FourLanes(lanes);
      if failed {
        krtFailed := true;
      }
      if success {
        krtSuccess := true;
      }
      if !failed && !success {
        linkCheckUsecs := FAST;
      } else {
        krtStart := false;
        linkCheckUsecs := SLOW;
      }
    }

    lemma FourLanes(lanes: seq<nat>)
      ensures SomeDone(cfg, lanes) <==>
              LaneDone(cfg, lanes, 0) || LaneDone(cfg, lanes, 1) || LaneDone(cfg, lanes, 2) || LaneDone(cfg, lanes, 3)
      ensures SomeFailed(cfg, lanes) <==>
              LaneFailed(cfg, lanes, 0) || LaneFailed(cfg, lanes, 1) || LaneFailed(cfg, lanes, 2) || LaneFailed(cfg, lanes, 3)
    {
    }

    // The samples, taken until one shows the link up: four at most.
    method Sample(samples: seq<bool>) returns (up: bool)
      requires |samples| == 4
      ensures up <==> exists k :: 0 <= k < 4 && samples[k]
    {
      var retry := 5 - 1;
      while retry > 0 && !samples[4 - retry]
        invariant 0 <= retry <= 4 && forall k :: 0 <= k < 4 - retry ==> !samples[k]
      {
        retry := retry - 1;
      }
      up := retry > 0;
    }

    method CheckLink(up: bool)
      modifies this
      ensures View() == Sampled(old(View()), up) && ctrl == old(ctrl)
    {
      if up {
        linkUp := true;
        linkDownCnt := 0;
        linkCheckUsecs := SLOW;
      } else {
        linkUp := false;
        linkDownCnt := linkDownCnt + 1;
        if linkDownCnt >= MAX_DOWN {
          anSuccess, krtSuccess, krtFailed := false, false, false;
          linkDownCnt := 0;
        }
      }
    }

    // The part of the timer that looks after an attempt under way.
    method Attend(i: Input)
      modifies this
      ensures View() == Attended(cfg, old(View()), i)
    {
      if i.cmpl || i.incLink || i.pgRcv {
        if cfg.linkUpOnly {
          AnDisable();
          krtSuccess := true;
          anSuccess := true;
          linkCheckUsecs := i.random % SLOW + 1;
          return;
        }
        if i.cmpl {
          AnIntCmpl();
        }
        if i.incLink {
          AnIncLink(i.random);
        }
        if i.pgRcv {
          AnPgRcv(i.more);
        }
        anIntrCheckCnt := 0;
      } else {
        anIntrCheckCnt := anIntrCheckCnt + 1;
      }
      if anIntrCheckCnt >= MAX_INTR_CHECK {
        AnTimeout();
      }
    }

    /** rnic_link_check_timer */
    method CheckTimer(samples: seq<bool>, i: Input)
      requires |samples| == 4 && (i.up <==> exists k :: 0 <= k < 4 && samples[k])
      requires |cfg.laneMask| == 4 == |i.lanes|
      modifies this
      ensures View() == Tick(cfg, old(View()), i)
      ensures Inv(cfg, old(View())) ==> Inv(cfg, View())
    {
      ghost var s := View();
      if Inv(cfg, s) {
        StepInv(cfg, s, Timer(i));
      }
      var up := Sample(samples);
      CheckLink(up);
      if cfg.anEn && (!anSuccess || !krtSuccess) {
        if !anStart && !krtStart {
          AnStart();
        } else if krtStart {
          KrtCheckState(i.lanes);
        } else if anStart {
          Attend(i);
        }
      }
    }

    // pcs_an_restart_lock_timer
    method RestartLockTimer()
      modifies this
      ensures View() == LockTimer(old(View()))
    {
      AnDisable();
    }
  }
}
