/** How auto-negotiation attempts end, when the link is left alone, and when it
    never can be: statements about whole runs of the link machine. */
module LinkSafety {
  import opened LinkState

  function Ticks(cfg: Config, s: Link, inputs: seq<Input>): Link {
    if inputs == [] then s else Tick(cfg, Ticks(cfg, s, inputs[..|inputs| - 1]), inputs[|inputs| - 1])
  }

  lemma {:induction false} TicksInv(cfg: Config, s: Link, inputs: seq<Input>)
    requires Inv(cfg, s)
    ensures Inv(cfg, Ticks(cfg, s, inputs))
  {
    if inputs != [] {
      TicksInv(cfg, s, inputs[..|inputs| - 1]);
      StepInv(cfg, Ticks(cfg, s, inputs[..|inputs| - 1]), Timer(inputs[|inputs| - 1]));
    }
  }

  // -------------------------------------------------- how an attempt ends

  predicate Trying(cfg: Config, s: Link) { cfg.anEn && s.an.start && !s.krt.start }

  predicate Silent(inputs: seq<Input>) { forall i :: 0 <= i < |inputs| ==> !Interrupted(inputs[i]) }

  lemma SilentTick(cfg: Config, s: Link, i: Input)
    requires Inv(cfg, s) && Trying(cfg, s) && !Interrupted(i)
    ensures var v := Tick(cfg, s, i);
      && !v.krt.start && (v.an.start <==> s.an.intr + 1 < MAX_INTR_CHECK)
      && (v.an.start ==> v.an.intr == s.an.intr + 1)
  {
  }

  /** Without interrupts an attempt lasts exactly until the check counter
      reaches its limit, whatever the link samples say meanwhile. */
  lemma {:induction false} SilenceEnds(cfg: Config, s: Link, inputs: seq<Input>)
    requires Inv(cfg, s) && Trying(cfg, s) && Silent(inputs) && s.an.intr + |inputs| <= MAX_INTR_CHECK
    ensures var v := Ticks(cfg, s, inputs);
      && !v.krt.start && (v.an.start <==> s.an.intr + |inputs| < MAX_INTR_CHECK)
      && (v.an.start ==> v.an.intr == s.an.intr + |inputs|)
  {
    if inputs != [] {
      var before := inputs[..|inputs| - 1];
      SilenceEnds(cfg, s, before);
      TicksInv(cfg, s, before);
      SilentTick(cfg, Ticks(cfg, s, before), inputs[|inputs| - 1]);
    }
  }

  // Ticks that bring a page, and the wish for another one, and nothing else.
  predicate Paging(inputs: seq<Input>) {
    forall i :: 0 <= i < |inputs| ==> inputs[i].pgRcv && inputs[i].more && !inputs[i].cmpl && !inputs[i].incLink
  }

  // What page `k` of an attempt is answered with: at 25G and 50G the first page,
  // the second, and null pages from then on; otherwise always the first.
  function Reply(cfg: Config, k: nat): Page {
    if !cfg.nextPages || k == 0 then First else if k == 1 then Second else NullPage
  }

  function Replies(cfg: Config, from: nat, n: nat): seq<Page> {
    if n == 0 then [] else Replies(cfg, from, n - 1) + [Reply(cfg, from + n - 1)]
  }

  lemma PageTick(cfg: Config, s: Link, i: Input)
    requires Inv(cfg, s) && Trying(cfg, s) && !cfg.linkUpOnly && s.krt == Krt(false, false, false)
    requires i.pgRcv && i.more && !i.cmpl && !i.incLink
    ensures var v := Tick(cfg, s, i);
      && v.krt == s.krt && v.an.page == s.an.page + [Reply(cfg, s.an.rcv)]
      && (v.an.start <==> s.an.rcv + 1 < MAX_RCV) && (v.an.start ==> v.an.rcv == s.an.rcv + 1)
  {
  }

  /** A partner that keeps asking for pages ends the attempt with exactly the
      MAX_RCV-th page; at 25G and 50G the answers are the first page, the
      second, and null pages from then on. */
  lemma {:induction false} PagesEnd(cfg: Config, s: Link, inputs: seq<Input>)
    requires Inv(cfg, s) && Trying(cfg, s) && !cfg.linkUpOnly && s.krt == Krt(false, false, false)
    requires Paging(inputs) && s.an.rcv + |inputs| <= MAX_RCV
    ensures var v := Ticks(cfg, s, inputs);
      && v.krt == s.krt && v.an.page == s.an.page + Replies(cfg, s.an.rcv, |inputs|)
      && (v.an.start <==> s.an.rcv + |inputs| < MAX_RCV) && (v.an.start ==> v.an.rcv == s.an.rcv + |inputs|)
  {
    if inputs == [] {
      assert s.an.page + [] == s.an.page;
    } else {
      var before := inputs[..|inputs| - 1];
      PagesEnd(cfg, s, before);
      TicksInv(cfg, s, before);
      PageTick(cfg, Ticks(cfg, s, before), inputs[|inputs| - 1]);
    }
  }

  // An attempt in progress, training neither begun nor decided.
  predicate Open(cfg: Config, s: Link) { Trying(cfg, s) && s.krt == Krt(false, false, false) }

  predicate Undecided(cfg: Config, s: Link, inputs: seq<Input>) {
    if inputs == [] then Open(cfg, s) else Undecided(cfg, s, inputs[..|inputs| - 1]) && Open(cfg, Ticks(cfg, s, inputs))
  }

  function Left(a: An): int { (MAX_RCV - a.rcv) * MAX_INTR_CHECK - a.intr }

  lemma OpenTick(cfg: Config, s: Link, i: Input)
    requires Inv(cfg, s) && Open(cfg, s) && Open(cfg, Tick(cfg, s, i))
    ensures Left(Tick(cfg, s, i).an) < Left(s.an)
  {
  }

  /** Whatever mixture of silence and pages the partner produces, an attempt is
      over, or has led to training, in fewer than MAX_RCV * MAX_INTR_CHECK
      ticks. */
  lemma {:induction false} AttemptBound(cfg: Config, s: Link, inputs: seq<Input>)
    requires Inv(cfg, s) && Undecided(cfg, s, inputs)
    ensures Open(cfg, s) && Open(cfg, Ticks(cfg, s, inputs))
    ensures |inputs| + Left(Ticks(cfg, s, inputs).an) <= Left(s.an) <= MAX_RCV * MAX_INTR_CHECK
    ensures |inputs| < MAX_RCV * MAX_INTR_CHECK
  {
    hide Tick;
    if inputs != [] {
      var before := inputs[..|inputs| - 1];
      AttemptBound(cfg, s, before);
      TicksInv(cfg, s, before);
      OpenTick(cfg, Ticks(cfg, s, before), inputs[|inputs| - 1]);
    }
    TicksInv(cfg, s, inputs);
  }

  /** An attempt that has ended without settling is followed by another one, on
      the very next tick. */
  lemma TriesAgain(cfg: Config, s: Link, i: Input)
    requires Inv(cfg, s) && cfg.anEn && !s.an.start && !s.krt.start && !Settled(s)
    ensures var v := Tick(cfg, s, i);
      && v.an.start && v.an.enabled && v.an.rcv == v.an.intr == v.an.nxp == 0 && v.usecs == FAST
      && !v.an.success && v.krt == Krt(false, false, false)
  {
  }

  // ---------------------------------------------- when it is left alone

  predicate Settled(s: Link) { s.an.success && s.krt.success }

  // How many ticks in a row have found the link down, `d` of them before.
  function Downs(d: nat, inputs: seq<Input>): nat {
    if inputs == [] then d else if inputs[|inputs| - 1].up then 0 else Downs(d, inputs[..|inputs| - 1]) + 1
  }

  // Never MAX_DOWN in a row.
  ghost predicate Calm(d: nat, inputs: seq<Input>) {
    forall n: nat :: n <= |inputs| ==> Downs(d, inputs[..n]) < MAX_DOWN
  }

  ghost predicate Untouched(cfg: Config, s: Link, inputs: seq<Input>) {
    forall n: nat :: n <= |inputs| ==> Ticks(cfg, s, inputs[..n]).an == s.an && Ticks(cfg, s, inputs[..n]).krt == s.krt
  }

  lemma {:induction false} CalmSettled(cfg: Config, s: Link, inputs: seq<Input>, n: nat)
    requires Inv(cfg, s) && cfg.anEn && Settled(s) && n <= |inputs|
    requires forall m: nat :: m <= n ==> Downs(s.down, inputs[..m]) < MAX_DOWN
    ensures var v := Ticks(cfg, s, inputs[..n]);
      v.an == s.an && v.krt == s.krt && v.down == Downs(s.down, inputs[..n])
  {
    if n > 0 {
      CalmSettled(cfg, s, inputs, n - 1);
      assert inputs[..n][..n - 1] == inputs[..n - 1];
      assert Downs(s.down, inputs[..n]) < MAX_DOWN;
    }
  }

  // The tick that finds the link down once too often starts over.
  lemma ThirdDown(cfg: Config, s: Link, i: Input)
    requires Inv(cfg, s) && cfg.anEn && Settled(s) && s.down == MAX_DOWN - 1 && !i.up
    ensures Tick(cfg, s, i).an.start && !Tick(cfg, s, i).an.success && Tick(cfg, s, i).krt == Krt(false, false, false)
  {
  }

  /** A settled link is left alone for as long as, and no longer than, it is
      not found down MAX_DOWN times in a row. */
  lemma SettledUntilDown(cfg: Config, s: Link, inputs: seq<Input>)
    requires Inv(cfg, s) && cfg.anEn && Settled(s)
    ensures Untouched(cfg, s, inputs) <==> Calm(s.down, inputs)
  {
    if Calm(s.down, inputs) {
      forall n: nat | n <= |inputs| ensures Ticks(cfg, s, inputs[..n]).an == s.an && Ticks(cfg, s, inputs[..n]).krt == s.krt {
        CalmSettled(cfg, s, inputs, n);
      }
    } else {
      var n := FirstStorm(s.down, inputs);
      CalmSettled(cfg, s, inputs, n - 1);
      assert inputs[..n][..n - 1] == inputs[..n - 1];
      var before := Ticks(cfg, s, inputs[..n - 1]);
      TicksInv(cfg, s, inputs[..n - 1]);
      ThirdDown(cfg, before, inputs[n - 1]);
      assert Ticks(cfg, s, inputs[..n]) == Tick(cfg, before, inputs[n - 1]);
    }
  }

  lemma FirstStorm(d: nat, inputs: seq<Input>) returns (n: nat)
    requires d < MAX_DOWN && !Calm(d, inputs)
    ensures 0 < n <= |inputs| && Downs(d, inputs[..n]) >= MAX_DOWN
    ensures forall m: nat :: m < n ==> Downs(d, inputs[..m]) < MAX_DOWN
    ensures Downs(d, inputs[..n - 1]) == MAX_DOWN - 1 && !inputs[n - 1].up
  {
    hide Downs;
    var last: nat :| last <= |inputs| && Downs(d, inputs[..last]) >= MAX_DOWN;
    n := 0;
    DownsNext(d, inputs, 0);
    while Downs(d, inputs[..n]) < MAX_DOWN
      invariant n <= last && forall m: nat :: m < n ==> Downs(d, inputs[..m]) < MAX_DOWN
      decreases last - n
    {
      n := n + 1;
    }
    DownsNext(d, inputs, n);
  }

  lemma DownsNext(d: nat, inputs: seq<Input>, n: nat)
    requires n <= |inputs|
    ensures Downs(d, inputs[..n]) == if n == 0 then d else if inputs[n - 1].up then 0 else Downs(d, inputs[..n - 1]) + 1
  {
    if n > 0 {
      assert inputs[..n][..n - 1] == inputs[..n - 1];
    }
  }

  // ----------------------------------------------- whether it ever settles

  predicate AnyLane(cfg: Config) { exists i: nat :: i < 4 && i < |cfg.laneMask| && cfg.laneMask[i] }

  // KR training can only have succeeded where it can run, or is faked.
  predicate Explained(cfg: Config, s: Link) {
    && (s.krt.start ==> cfg.krtEn)
    && (s.krt.success ==> cfg.linkUpOnly || (cfg.krtEn && AnyLane(cfg)))
    && (!cfg.anEn ==> !s.an.success)
  }

  lemma ExplainedStep(cfg: Config, s: Link, e: Event)
    requires Inv(cfg, s) && Explained(cfg, s)
    ensures Explained(cfg, Step(cfg, s, e))
  {
    if e.Timer? && SomeDone(cfg, e.input.lanes) {
      var i: nat :| i < 4 && LaneDone(cfg, e.input.lanes, i);
      assert cfg.laneMask[i];
    }
    StepInv(cfg, s, e);
  }

  lemma {:induction false} ExplainedRun(cfg: Config, events: seq<Event>)
    ensures Explained(cfg, Run(cfg, START, events))
  {
    if events != [] {
      ExplainedRun(cfg, events[..|events| - 1]);
      RunInv(cfg, events[..|events| - 1]);
      ExplainedStep(cfg, Run(cfg, START, events[..|events| - 1]), events[|events| - 1]);
    }
  }

  ghost predicate SettledBy(cfg: Config, events: seq<Event>) { Settled(Run(cfg, START, events)) }

  lemma RunSnoc(cfg: Config, events: seq<Event>, e: Event)
    ensures Run(cfg, START, events + [e]) == Step(cfg, Run(cfg, START, events), e)
  {
    assert (events + [e])[..|events|] == events;
  }

  function Quiet(): Input { Input(true, false, false, false, false, [], 0) }

  lemma SettlesWithoutTraining(cfg: Config)
    requires cfg.anEn && cfg.linkUpOnly
    ensures SettledBy(cfg, [] + [Timer(Quiet())] + [Timer(Quiet().(cmpl := true))])
  {
    RunSnoc(cfg, [], Timer(Quiet()));
    RunSnoc(cfg, [] + [Timer(Quiet())], Timer(Quiet().(cmpl := true)));
  }

  // Where the shortest way to a settled link leads, one tick at a time.
  predicate Way(cfg: Config, s: Link, step: nat) {
    match step
    case 0 => s == START
    case 1 => Trying(cfg, s) && s.krt == Krt(false, false, false)
    case 2 => s.an.start && s.krt == Krt(true, false, false)
    case 3 => Trying(cfg, s) && s.krt.success
    case _ => Settled(s)
  }

  function WayInput(step: nat): Input {
    match step
    case 0 => Quiet()
    case 2 => Quiet().(lanes := [1, 1, 1, 1])
    case _ => Quiet().(cmpl := true)
  }

  predicate Trainable(cfg: Config) { cfg.anEn && !cfg.linkUpOnly && cfg.krtEn && AnyLane(cfg) }

  lemma LanesTrained(cfg: Config)
    requires AnyLane(cfg)
    ensures SomeDone(cfg, WayInput(2).lanes)
  {
    var i: nat :| i < 4 && i < |cfg.laneMask| && cfg.laneMask[i];
    assert LaneDone(cfg, [1, 1, 1, 1], i);
  }

  lemma WayBegins(cfg: Config, s: Link, step: nat)
    requires Trainable(cfg) && step < 2 && Way(cfg, s, step)
    ensures Way(cfg, Tick(cfg, s, WayInput(step)), step + 1)
  {
  }

  lemma WayEnds(cfg: Config, s: Link, step: nat)
    requires Trainable(cfg) && 2 <= step < 4 && Way(cfg, s, step)
    ensures Way(cfg, Tick(cfg, s, WayInput(step)), step + 1)
  {
    LanesTrained(cfg);
    hide SomeDone, SomeFailed, LaneDone, LaneFailed;
  }

  lemma {:induction false} SettlesByTraining(cfg: Config, step: nat) returns (events: seq<Event>)
    requires Trainable(cfg) && step <= 4
    ensures Way(cfg, Run(cfg, START, events), step)
  {
    hide Tick;
    if step == 0 {
      events := [];
    } else {
      var before := SettlesByTraining(cfg, step - 1);
      if step <= 2 {
        WayBegins(cfg, Run(cfg, START, before), step - 1);
      } else {
        WayEnds(cfg, Run(cfg, START, before), step - 1);
      }
      RunSnoc(cfg, before, Timer(WayInput(step - 1)));
      events := before + [Timer(WayInput(step - 1))];
    }
  }

  /** A port can ever settle if and only if it negotiates and either skips
      training or can train on some lane. */
  lemma CanSettle(cfg: Config)
    ensures (exists events :: SettledBy(cfg, events)) <==> cfg.anEn && (cfg.linkUpOnly || (cfg.krtEn && AnyLane(cfg)))
  {
    if cfg.anEn && cfg.linkUpOnly {
      SettlesWithoutTraining(cfg);
    } else if cfg.anEn && cfg.krtEn && AnyLane(cfg) {
      var events := SettlesByTraining(cfg, 4);
      assert SettledBy(cfg, events);
    } else {
      forall events ensures !SettledBy(cfg, events) {
        ExplainedRun(cfg, events);
      }
    }
  }

  // ------------------------------------------------------ what has no limit

  predicate PageOnly(i: Input) { i.pgRcv && !i.cmpl && !i.incLink }

  // An attempt still going on, training having had its outcome.
  predicate Lingering(cfg: Config, s: Link) { Trying(cfg, s) && (s.krt.success || s.krt.failed) }

  /** A page leaves everything but the check counter alone, which it resets, if
      and only if training has an outcome that this tick does not forget. */
  lemma UncountedPage(cfg: Config, s: Link, i: Input)
    requires Inv(cfg, s) && Trying(cfg, s) && !cfg.linkUpOnly && PageOnly(i)
    ensures Tick(cfg, s, i).an == s.an.(intr := 0) && Tick(cfg, s, i).krt == s.krt <==>
            (s.krt.success || s.krt.failed) && (i.up || s.down + 1 < MAX_DOWN)
    ensures Tick(cfg, s, i).down == if i.up || s.down + 1 == MAX_DOWN then 0 else s.down + 1
  {
  }

  // Otherwise it is counted, or it is one too many.
  lemma ForgetfulPage(cfg: Config, s: Link, i: Input)
    requires Inv(cfg, s) && Trying(cfg, s) && !cfg.linkUpOnly && PageOnly(i) && !i.up && s.down + 1 == MAX_DOWN
    ensures !Tick(cfg, s, i).an.start || Tick(cfg, s, i).an.rcv == s.an.rcv + 1
  {
  }

  // The attempt goes on, and no page is counted.
  ghost predicate Held(cfg: Config, s: Link, inputs: seq<Input>) {
    forall n: nat :: n <= |inputs| ==>
      var v := Ticks(cfg, s, inputs[..n]);
      Trying(cfg, v) && v.krt == s.krt && v.an.rcv == s.an.rcv
  }

  lemma {:induction false} PagesHold(cfg: Config, s: Link, inputs: seq<Input>, n: nat)
    requires Inv(cfg, s) && Lingering(cfg, s) && !cfg.linkUpOnly
    requires n <= |inputs| && forall k :: 0 <= k < |inputs| ==> PageOnly(inputs[k])
    requires forall m: nat :: m <= n ==> Downs(s.down, inputs[..m]) < MAX_DOWN
    ensures var v := Ticks(cfg, s, inputs[..n]);
      Trying(cfg, v) && v.krt == s.krt && v.an.rcv == s.an.rcv && v.down == Downs(s.down, inputs[..n])
  {
    hide Tick;
    if n > 0 {
      PagesHold(cfg, s, inputs, n - 1);
      TicksInv(cfg, s, inputs[..n - 1]);
      TicksNext(cfg, s, inputs, n);
      DownsNext(s.down, inputs, n);
      assert Downs(s.down, inputs[..n]) < MAX_DOWN;
      UncountedPage(cfg, Ticks(cfg, s, inputs[..n - 1]), inputs[n - 1]);
    }
  }

  lemma TicksNext(cfg: Config, s: Link, inputs: seq<Input>, n: nat)
    requires 0 < n <= |inputs|
    ensures Ticks(cfg, s, inputs[..n]) == Tick(cfg, Ticks(cfg, s, inputs[..n - 1]), inputs[n - 1])
  {
    assert inputs[..n][..n - 1] == inputs[..n - 1];
  }

  /** So once training has an outcome, a partner that sends nothing but pages
      keeps the attempt going for as long as, and no longer than, the link is
      not found down MAX_DOWN times in a row. */
  lemma PagesForEver(cfg: Config, s: Link, inputs: seq<Input>)
    requires Inv(cfg, s) && Lingering(cfg, s) && !cfg.linkUpOnly
    requires forall k :: 0 <= k < |inputs| ==> PageOnly(inputs[k])
    ensures Held(cfg, s, inputs) <==> Calm(s.down, inputs)
  {
    hide Tick, Ticks, Downs, Inv;
    if Calm(s.down, inputs) {
      forall n: nat | n <= |inputs|
        ensures var v := Ticks(cfg, s, inputs[..n]); Trying(cfg, v) && v.krt == s.krt && v.an.rcv == s.an.rcv
      {
        PagesHold(cfg, s, inputs, n);
      }
    } else {
      DownBelow(cfg, s);
      var n := FirstStorm(s.down, inputs);
      PagesHold(cfg, s, inputs, n - 1);
      TicksInv(cfg, s, inputs[..n - 1]);
      TicksNext(cfg, s, inputs, n);
      ForgetfulPage(cfg, Ticks(cfg, s, inputs[..n - 1]), inputs[n - 1]);
      var v := Ticks(cfg, s, inputs[..n]);
      assert !(Trying(cfg, v) && v.an.rcv == s.an.rcv);
    }
  }

  // Where it cannot come to a lingering attempt, and why.
  predicate NoLingering(cfg: Config, s: Link) {
    && (cfg.linkUpOnly ==> !s.krt.start && !s.krt.failed && (s.an.start ==> !s.krt.success))
    && (!cfg.linkUpOnly && cfg.krtEn && !AnyLane(cfg) ==> !s.krt.success && !s.krt.failed)
  }

  lemma NoLingeringStep(cfg: Config, s: Link, e: Event)
    requires Inv(cfg, s) && NoLingering(cfg, s)
    ensures NoLingering(cfg, Step(cfg, s, e))
  {
    if e.Timer? && !AnyLane(cfg) {
      assert !SomeDone(cfg, e.input.lanes) && !SomeFailed(cfg, e.input.lanes) by {
        forall i: nat | i < 4 ensures !LaneDone(cfg, e.input.lanes, i) && !LaneFailed(cfg, e.input.lanes, i) {
        }
      }
    }
    hide SomeDone, SomeFailed;
  }

  lemma {:induction false} NoLingeringRun(cfg: Config, events: seq<Event>)
    ensures NoLingering(cfg, Run(cfg, START, events))
  {
    if events != [] {
      NoLingeringRun(cfg, events[..|events| - 1]);
      RunInv(cfg, events[..|events| - 1]);
      NoLingeringStep(cfg, Run(cfg, START, events[..|events| - 1]), events[|events| - 1]);
    }
  }

  ghost predicate LingeringAfter(cfg: Config, events: seq<Event>) { Lingering(cfg, Run(cfg, START, events)) }

  lemma LingersUntrained(cfg: Config)
    requires cfg.anEn && !cfg.linkUpOnly && !cfg.krtEn
    ensures LingeringAfter(cfg, [] + [Timer(Quiet())] + [Timer(Quiet().(cmpl := true))])
  {
    RunSnoc(cfg, [], Timer(Quiet()));
    RunSnoc(cfg, [] + [Timer(Quiet())], Timer(Quiet().(cmpl := true)));
  }

  /** A port can get into a lingering attempt if and only if it negotiates, does not skip training,
      and either may not train, which counts as a failure, or can train on some
      lane. */
  lemma CanLinger(cfg: Config)
    ensures (exists events :: LingeringAfter(cfg, events)) <==>
            cfg.anEn && !cfg.linkUpOnly && (!cfg.krtEn || AnyLane(cfg))
  {
    if cfg.anEn && !cfg.linkUpOnly && !cfg.krtEn {
      LingersUntrained(cfg);
    } else if cfg.anEn && !cfg.linkUpOnly && AnyLane(cfg) {
      var events := SettlesByTraining(cfg, 3);
      assert LingeringAfter(cfg, events);
    } else {
      forall events ensures !LingeringAfter(cfg, events) {
        NoLingeringRun(cfg, events);
        RunInv(cfg, events);
      }
    }
  }

  lemma DownBelow(cfg: Config, s: Link)
    requires Inv(cfg, s)
    ensures s.down < MAX_DOWN
  {
  }

  // Training all the way through `inputs`.
  predicate Training(cfg: Config, s: Link, inputs: seq<Input>) {
    if inputs == [] then s.krt.start else Training(cfg, s, inputs[..|inputs| - 1]) && Ticks(cfg, s, inputs).krt.start
  }

  predicate NoOutcome(cfg: Config, i: Input) { !SomeDone(cfg, i.lanes) && !SomeFailed(cfg, i.lanes) }

  /** Training itself has no time limit: it goes on exactly as long as no
      enabled lane reports success or failure. */
  lemma {:induction false} TrainingWaits(cfg: Config, s: Link, inputs: seq<Input>)
    requires Inv(cfg, s) && cfg.anEn && s.krt.start
    ensures Training(cfg, s, inputs) ==> Ticks(cfg, s, inputs).krt.start
    ensures Training(cfg, s, inputs) <==> forall k :: 0 <= k < |inputs| ==> NoOutcome(cfg, inputs[k])
  {
    hide Tick, NoOutcome, Inv;
    if inputs != [] {
      var before := inputs[..|inputs| - 1];
      TrainingWaits(cfg, s, before);
      TicksInv(cfg, s, before);
      if Training(cfg, s, before) {
        TrainingTick(cfg, Ticks(cfg, s, before), inputs[|inputs| - 1]);
      }
      forall k | 0 <= k < |before| ensures before[k] == inputs[k] {
      }
    }
  }

  lemma TrainingTick(cfg: Config, s: Link, i: Input)
    requires Inv(cfg, s) && cfg.anEn && s.krt.start
    ensures var v := Tick(cfg, s, i);
      && (v.krt.start <==> NoOutcome(cfg, i))
      && (!v.krt.start ==> (v.krt.success <==> SomeDone(cfg, i.lanes)) && (v.krt.failed <==> SomeFailed(cfg, i.lanes)))
  {
  }

  /** One trained lane outweighs a failed one: with both, the next completion
      interrupt settles the port. */
  lemma OneLaneIsEnough(cfg: Config, s: Link, i: Input, j: Input)
    requires Inv(cfg, s) && cfg.anEn && s.krt.start && s.an.start && !cfg.linkUpOnly
    requires SomeDone(cfg, i.lanes) && SomeFailed(cfg, i.lanes) && i.up && j.up && j.cmpl
    ensures var t := Tick(cfg, s, i);
      t.krt.failed && Settled(Tick(cfg, t, j)) && Tick(cfg, t, j).krt.failed
  {
    StepInv(cfg, s, Timer(i));
    TrainingTick(cfg, s, i);
  }
}
