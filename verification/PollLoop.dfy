/** `mac_all_poll`: the rings take turns until the budget is used up or a pass
    over all of them brings nothing. */
module PollLoop {
  import opened Common
  import opened RxPackets
  import opened RxPoll
  import opened RxRefresh
  import opened RxPages
  import P = RxProtocol

  ghost function Objects(queues: seq<PollQueue>): set<object> {
    set i: nat, o: object | i < |queues| && o in queues[i].Repr :: o
  }

  ghost predicate Apart(queues: seq<PollQueue>) {
    forall i: nat, j: nat :: i < j < |queues| ==> queues[i].Repr !! queues[j].Repr
  }

  ghost predicate Ready(q: PollQueue)
    reads q.Repr
  {
    q.Resting()
  }

  ghost predicate AllReady(queues: seq<PollQueue>)
    reads Objects(queues)
  {
    forall i: nat :: i < |queues| ==> Ready(queues[i])
  }

  // How far a ring has got: the descriptors read, and those completed.
  datatype Progress = Progress(seen: seq<Desc>, stream: seq<Desc>)

  ghost function StatusOf(q: PollQueue): Progress
    reads q.Repr
  {
    Progress(q.Seen(), q.stream)
  }

  ghost function Statuses(queues: seq<PollQueue>): (s: seq<Progress>)
    reads Objects(queues)
    ensures |s| == |queues|
  {
    seq(|queues|, i requires 0 <= i < |queues| reads Objects(queues) => StatusOf(queues[i]))
  }

  lemma {:induction false} SumUpdate(s: seq<nat>, i: nat, x: nat)
    requires i < |s|
    ensures Sum(s[i := x]) == Sum(s) - s[i] + x
  {
    var n := |s| - 1;
    if i < n {
      SumUpdate(s[..n], i, x);
      assert s[i := x][..n] == s[..n][i := x];
    } else {
      assert s[i := x][..n] == s[..n];
    }
  }

  lemma {:induction false} SumZero(s: seq<nat>)
    requires forall i :: 0 <= i < |s| ==> s[i] == 0
    ensures Sum(s) == 0
  {
    if s != [] {
      SumZero(s[..|s| - 1]);
    }
  }

  predicate Drained(s: Progress) { s.seen == s.stream }

  // One mac_rx_poll seen from outside: `got` packets of at most `share`.
  predicate OnePoll(s: Progress, t: Progress, share: nat, got: nat) {
    && got <= share && Done(t.seen) == Done(s.seen) + got && s.stream <= t.stream
    && (got < share ==> Drained(t))
    && (share == 0 ==> t.seen == s.seen)
  }

  // The devices have been at work, and nobody else.
  predicate Later(s: Progress, t: Progress) { t.seen == s.seen && s.stream <= t.stream }

  ghost predicate AllLater(s: seq<Progress>, t: seq<Progress>) {
    |s| == |t| && forall i: nat :: i < |s| ==> Later(s[i], t[i])
  }

  // One ring polled; the other rings are left alone.
  method PollRing(queues: seq<PollQueue>, i: nat, share: nat, plenty: bool) returns (got: nat, spent: bool)
    requires Apart(queues) && AllReady(queues) && i < |queues|
    modifies queues[i].Repr
    ensures got <= share && (plenty ==> !spent)
    ensures !spent ==>
              && AllReady(queues) && Statuses(queues) == old(Statuses(queues))[i := Statuses(queues)[i]]
              && OnePoll(old(Statuses(queues))[i], Statuses(queues)[i], share, got)
  {
    ghost var was := Statuses(queues);
    var ds: seq<Desc> :| AllWire(ds);
    assert Ready(queues[i]);
    var n;
    got, spent, n := queues[i].Poll(share, ds, plenty);
    if !spent {
      forall j: nat | j < |queues| ensures Ready(queues[j]) && (j != i ==> StatusOf(queues[j]) == was[j]) {
        if j != i {
          assert old(Ready(queues[j]));
          assert queues[i].Repr !! queues[j].Repr;
        }
      }
    }
  }

  // One ring's device at work.
  method Arrival(queues: seq<PollQueue>, i: nat)
    requires Apart(queues) && AllReady(queues) && i < |queues|
    modifies queues[i].Repr
    ensures AllReady(queues) && Statuses(queues) == old(Statuses(queues))[i := Statuses(queues)[i]]
    ensures Later(old(Statuses(queues))[i], Statuses(queues)[i])
  {
    ghost var was := Statuses(queues);
    var ds: seq<Desc> :| AllWire(ds);
    assert Ready(queues[i]);
    var n := queues[i].Arrive(ds);
    forall j: nat | j < |queues| ensures Ready(queues[j]) && (j != i ==> StatusOf(queues[j]) == was[j]) {
      if j != i {
        assert old(Ready(queues[j]));
        assert queues[i].Repr !! queues[j].Repr;
      }
    }
  }

  /** Every ring's device completes some more entries, or none. */
  method Arrivals(queues: seq<PollQueue>)
    requires Apart(queues) && AllReady(queues)
    modifies Objects(queues)
    ensures AllReady(queues) && AllLater(old(Statuses(queues)), Statuses(queues))
  {
    hide AllReady, Apart, Statuses;
    ghost var was := Statuses(queues);
    for i := 0 to |queues|
      invariant AllReady(queues) && AllLater(was, Statuses(queues))
    {
      Arrival(queues, i);
    }
  }

  /** One ring's turn, while the devices of all the rings go on: `mark` is how
      far the ring had got when its own mac_rx_poll returned. */
  method Turn(queues: seq<PollQueue>, i: nat, share: nat, plenty: bool) returns (got: nat, spent: bool, ghost mark: Progress)
    requires Apart(queues) && AllReady(queues) && i < |queues|
    modifies Objects(queues)
    ensures got <= share && (plenty ==> !spent)
    ensures !spent ==>
              && AllReady(queues) && OnePoll(old(Statuses(queues))[i], mark, share, got)
              && AllLater(old(Statuses(queues))[i := mark], Statuses(queues))
  {
    hide AllReady, Apart, Statuses, OnePoll, AllLater, Objects;
    Belongs(queues, i);
    mark := Statuses(queues)[i];
    got, spent := PollRing(queues, i, share, plenty);
    if !spent {
      mark := Statuses(queues)[i];
      Arrivals(queues);
    }
  }

  lemma Belongs(queues: seq<PollQueue>, i: nat)
    requires i < |queues|
    ensures queues[i].Repr <= Objects(queues)
  {
  }

  function Plus(a: seq<nat>, b: seq<nat>): (c: seq<nat>)
    requires |a| == |b|
    ensures |c| == |a|
  {
    seq(|a|, i requires 0 <= i < |a| => a[i] + b[i])
  }

  lemma {:induction false} SumPlus(a: seq<nat>, b: seq<nat>)
    requires |a| == |b|
    ensures Sum(Plus(a, b)) == Sum(a) + Sum(b)
  {
    if a != [] {
      var n := |a| - 1;
      SumPlus(a[..n], b[..n]);
      assert Plus(a, b)[..n] == Plus(a[..n], b[..n]);
    }
  }

  lemma TallyMore(was: seq<Progress>, mid: seq<Progress>, now: seq<Progress>, a: seq<nat>, b: seq<nat>)
    requires Tally(was, mid, a) && Tally(mid, now, b)
    ensures Tally(was, now, Plus(a, b)) && Sum(Plus(a, b)) == Sum(a) + Sum(b)
  {
    SumPlus(a, b);
  }

  // What some turns have added up to; nothing completed is lost.
  ghost predicate Tally(was: seq<Progress>, now: seq<Progress>, counts: seq<nat>) {
    && |was| == |now| == |counts|
    && forall i: nat :: i < |was| ==> Done(now[i].seen) == Done(was[i].seen) + counts[i] && was[i].stream <= now[i].stream
  }

  /** A ring's part in a pass that brings nothing: its mac_rx_poll returned 0
      (`mark` is how far it had got then) having read everything completed by
      that time, and so everything completed before the pass. */
  predicate NothingLeft(was: Progress, mark: Progress, now: Progress) {
    && was.stream <= mark.stream && Done(mark.seen) == Done(was.seen) && Drained(mark) && Later(mark, now)
  }

  ghost predicate AllNothingLeft(was: seq<Progress>, marks: seq<Progress>, now: seq<Progress>, n: nat) {
    n <= |was| == |marks| == |now| && forall i: nat :: i < n ==> NothingLeft(was[i], marks[i], now[i])
  }

  ghost predicate SameSeen(s: seq<Progress>, t: seq<Progress>) {
    |s| == |t| && forall i: nat :: i < |s| ==> t[i].seen == s[i].seen
  }

  // After the first `i` turns of a pass that began with `before` packets.
  ghost predicate Passing(was: seq<Progress>, marks: seq<Progress>, now: seq<Progress>, counts: seq<nat>, i: nat,
                          budget: nat, before: nat, processed: nat, most: nat, share: nat) {
    && i <= |was| == |marks| && Tally(was, now, counts) && before <= processed <= budget && processed == before + Sum(counts)
    && (forall j: nat :: i <= j < |was| ==> counts[j] == 0)
    && share <= most && (processed < budget && most > 0 ==> share > 0)
    && (before == processed < budget && most > 0 ==> AllNothingLeft(was, marks, now, i))
    && (most == 0 ==> processed == before && SameSeen(was, now))
  }

  lemma LaterStill(a: Progress, b: Progress, c: Progress)
    requires Later(b, c)
    ensures Later(a, b) ==> Later(a, c)
    ensures a.stream <= b.stream ==> a.stream <= c.stream
  {
  }

  lemma TallyLater(was: seq<Progress>, now: seq<Progress>, next: seq<Progress>, counts: seq<nat>)
    requires Tally(was, now, counts) && AllLater(now, next)
    ensures Tally(was, next, counts)
  {
    forall i: nat | i < |was| ensures Done(next[i].seen) == Done(was[i].seen) + counts[i] && was[i].stream <= next[i].stream {
      assert Later(now[i], next[i]);
      LaterStill(was[i], now[i], next[i]);
    }
  }

  lemma LeftLater(was: seq<Progress>, marks: seq<Progress>, now: seq<Progress>, next: seq<Progress>, n: nat)
    requires AllNothingLeft(was, marks, now, n) && AllLater(now, next)
    ensures AllNothingLeft(was, marks, next, n)
  {
    forall i: nat | i < n ensures NothingLeft(was[i], marks[i], next[i]) {
      assert NothingLeft(was[i], marks[i], now[i]) && Later(now[i], next[i]);
      LaterStill(marks[i], now[i], next[i]);
    }
  }

  // One turn more, the devices standing still after it.
  lemma PassTurn(was: seq<Progress>, marks: seq<Progress>, now: seq<Progress>, counts: seq<nat>, i: nat, mark: Progress, got: nat,
                 budget: nat, before: nat, processed: nat, most: nat, share: nat)
    requires i < |was| && Passing(was, marks, now, counts, i, budget, before, processed, most, share)
    requires OnePoll(now[i], mark, Min(share, budget - processed), got)
    ensures Passing(was, marks[i := mark], now[i := mark], counts[i := got], i + 1, budget, before, processed + got, most, Min(share, budget - processed))
  {
    SumUpdate(counts, i, got);
    LaterStill(was[i], now[i], now[i]);
    assert was[i].stream <= mark.stream;
    if before == processed + got < budget && most > 0 {
      forall j: nat | j < i + 1 ensures NothingLeft(was[j], marks[i := mark][j], now[i := mark][j]) {
        if j < i {
          assert NothingLeft(was[j], marks[j], now[j]);
        }
      }
    }
  }

  lemma PassLater(was: seq<Progress>, marks: seq<Progress>, now: seq<Progress>, next: seq<Progress>, counts: seq<nat>, i: nat,
                  budget: nat, before: nat, processed: nat, most: nat, share: nat)
    requires Passing(was, marks, now, counts, i, budget, before, processed, most, share) && AllLater(now, next)
    ensures Passing(was, marks, next, counts, i, budget, before, processed, most, share)
  {
    TallyLater(was, now, next, counts);
    if before == processed < budget && most > 0 {
      LeftLater(was, marks, now, next, i);
    }
    if most == 0 {
      forall j: nat | j < |was| ensures next[j].seen == was[j].seen {
        assert Later(now[j], next[j]);
      }
    }
  }

  lemma PassStart(was: seq<Progress>, counts: seq<nat>, budget: nat, before: nat, most: nat)
    requires |counts| == |was| && (forall i :: 0 <= i < |counts| ==> counts[i] == 0) && before <= budget
    ensures Passing(was, was, was, counts, 0, budget, before, before, most, most)
  {
    SumZero(counts);
  }

  // -------------------------------------------------------- who gets how much

  // A ring's part in a pass: `got` packets, as far as `mark`.
  predicate Took(was: Progress, mark: Progress, now: Progress, got: nat) {
    was.stream <= mark.stream && Done(mark.seen) == Done(was.seen) + got && Later(mark, now)
  }

  /** Nobody gets more than the quota, and nobody gets less unless it was read to
      its end or nothing is left of the budget. */
  predicate FairTo(mark: Progress, got: nat, quota: nat, full: bool) {
    got <= quota && (got == quota || Drained(mark) || full)
  }

  // The first `i` rings have had their turns in a pass.
  ghost predicate Sharing(was: seq<Progress>, marks: seq<Progress>, now: seq<Progress>, counts: seq<nat>, i: nat,
                          quota: nat, share: nat, budget: nat, processed: nat) {
    && i <= |was| == |marks| == |now| == |counts| && processed <= budget
    && Min(share, budget - processed) == Min(quota, budget - processed)
    && (forall j: nat :: j < i ==> Took(was[j], marks[j], now[j], counts[j]) && FairTo(marks[j], counts[j], quota, processed == budget))
    && forall j: nat :: i <= j < |was| ==> Later(was[j], now[j])
  }

  lemma SharingTurn(was: seq<Progress>, marks: seq<Progress>, now: seq<Progress>, counts: seq<nat>, i: nat, mark: Progress, got: nat,
                    quota: nat, share: nat, budget: nat, processed: nat)
    requires i < |was| && Sharing(was, marks, now, counts, i, quota, share, budget, processed)
    requires OnePoll(now[i], mark, Min(share, budget - processed), got)
    ensures Sharing(was, marks[i := mark], now[i := mark], counts[i := got], i + 1, quota, Min(share, budget - processed), budget, processed + got)
  {
    forall j: nat | j < i + 1
      ensures Took(was[j], marks[i := mark][j], now[i := mark][j], counts[i := got][j])
      ensures FairTo(marks[i := mark][j], counts[i := got][j], quota, processed + got == budget)
    {
      if j < i {
        assert Took(was[j], marks[j], now[j], counts[j]) && FairTo(marks[j], counts[j], quota, processed == budget);
      } else {
        assert Later(was[i], now[i]);
      }
    }
  }

  lemma SharingLater(was: seq<Progress>, marks: seq<Progress>, now: seq<Progress>, next: seq<Progress>, counts: seq<nat>, i: nat,
                     quota: nat, share: nat, budget: nat, processed: nat)
    requires Sharing(was, marks, now, counts, i, quota, share, budget, processed) && AllLater(now, next)
    ensures Sharing(was, marks, next, counts, i, quota, share, budget, processed)
  {
    hide FairTo;
    forall j: nat | j < |was|
      ensures j < i ==> Took(was[j], marks[j], next[j], counts[j])
      ensures i <= j ==> Later(was[j], next[j])
    {
      assert Later(now[j], next[j]);
      assert j < i ==> Took(was[j], marks[j], now[j], counts[j]);
    }
  }

  lemma SharingStart(was: seq<Progress>, counts: seq<nat>, quota: nat, share: nat, budget: nat, processed: nat)
    requires |was| == |counts| && processed <= budget && Min(share, budget - processed) == Min(quota, budget - processed)
    ensures Sharing(was, was, was, counts, 0, quota, share, budget, processed)
  {
  }

  /** One pass over the rings. It is given up when a ring is used up. */
  method OnePass(queues: seq<PollQueue>, budget: nat, before: nat, most: nat, plenty: bool, ghost quota: nat)
    returns (processed: nat, share: nat, spent: bool, ghost counts: seq<nat>, ghost marks: seq<Progress>)
    requires Apart(queues) && AllReady(queues) && before <= budget
    requires Min(most, budget - before) == Min(quota, budget - before)
    modifies Objects(queues)
    ensures before <= processed <= budget && (plenty ==> !spent)
    ensures !spent ==>
              && AllReady(queues)
              && Passing(old(Statuses(queues)), marks, Statuses(queues), counts, |queues|, budget, before, processed, most, share)
              && Sharing(old(Statuses(queues)), marks, Statuses(queues), counts, |queues|, quota, share, budget, processed)
  {
    hide AllReady, Apart, Statuses, Passing, Sharing, OnePoll, AllLater, Objects;
    processed, share, spent := before, most, false;
    counts, marks := seq(|queues|, _ => 0), Statuses(queues);
    ghost var was := Statuses(queues);
    PassStart(was, counts, budget, before, most);
    SharingStart(was, counts, quota, most, budget, before);
    var i := 0;
    while i < |queues| && !spent
      invariant i <= |queues| && before <= processed <= budget && (plenty ==> !spent)
      invariant !spent ==> AllReady(queues)
      invariant !spent ==> Passing(was, marks, Statuses(queues), counts, i, budget, before, processed, most, share)
      invariant !spent ==> Sharing(was, marks, Statuses(queues), counts, i, quota, share, budget, processed)
      decreases |queues| - i, !spent
    {
      ghost var now, s, p := Statuses(queues), share, processed;
      Within(was, marks, now, counts, i, budget, before, processed, most, share);
      if share > budget - processed {
        share := budget - processed;
      }
      var got;
      ghost var mark;
      got, spent, mark := Turn(queues, i, share, plenty);
      processed := processed + got;
      if !spent {
        PassTurn(was, marks, now, counts, i, mark, got, budget, before, p, most, s);
        PassLater(was, marks[i := mark], now[i := mark], Statuses(queues), counts[i := got], i + 1, budget, before, processed, most, share);
        SharingTurn(was, marks, now, counts, i, mark, got, quota, s, budget, p);
        SharingLater(was, marks[i := mark], now[i := mark], Statuses(queues), counts[i := got], i + 1, quota, share, budget, processed);
        counts, marks := counts[i := got], marks[i := mark];
        i := i + 1;
      }
    }
  }

  lemma Within(was: seq<Progress>, marks: seq<Progress>, now: seq<Progress>, counts: seq<nat>, i: nat,
               budget: nat, before: nat, processed: nat, most: nat, share: nat)
    requires Passing(was, marks, now, counts, i, budget, before, processed, most, share)
    ensures processed <= budget && |counts| == |was| == |now| == |marks| && i <= |was|
  {
  }

  // Between two passes; `last` is how things stood before the one just made.
  ghost predicate Round(was: seq<Progress>, last: seq<Progress>, marks: seq<Progress>, now: seq<Progress>, counts: seq<nat>,
                        budget: nat, processed: nat, share: nat, more: bool) {
    && Tally(was, now, counts) && processed <= budget && processed == Sum(counts)
    && (|was| <= budget && processed < budget ==> share > 0 && (more || Exhausted(was, last, marks, now)))
    && (budget < |was| ==> share == 0 && processed == 0 && SameSeen(was, now))
  }

  /** What a result short of the budget means. */
  ghost predicate Exhausted(was: seq<Progress>, last: seq<Progress>, marks: seq<Progress>, now: seq<Progress>) {
    && AllNothingLeft(last, marks, now, |now|)
    && |was| == |last| && forall i: nat :: i < |was| ==> was[i].stream <= last[i].stream
  }

  lemma RoundStart(was: seq<Progress>, counts: seq<nat>, budget: nat)
    requires 0 < |was| == |counts| && forall i :: 0 <= i < |counts| ==> counts[i] == 0
    ensures Round(was, was, was, was, counts, budget, 0, budget / |was|, true)
  {
    SumZero(counts);
    assert |was| <= budget <==> budget / |was| > 0;
  }

  lemma RoundStep(was: seq<Progress>, last: seq<Progress>, marks0: seq<Progress>, mid: seq<Progress>, marks: seq<Progress>, now: seq<Progress>,
                  counts: seq<nat>, part: seq<nat>, budget: nat, before: nat, processed: nat, most: nat, share: nat)
    requires Round(was, last, marks0, mid, counts, budget, before, most, true)
    requires Passing(mid, marks, now, part, |mid|, budget, before, processed, most, share)
    ensures |counts| == |part| && before <= processed <= budget
    ensures Round(was, mid, marks, now, Plus(counts, part), budget, processed, share, processed < budget && processed != before)
  {
    TallyMore(was, mid, now, counts, part);
  }

  lemma RoundEnd(was: seq<Progress>, last: seq<Progress>, marks: seq<Progress>, now: seq<Progress>, counts: seq<nat>,
                 budget: nat, processed: nat, share: nat)
    requires Round(was, last, marks, now, counts, budget, processed, share, false)
    ensures |counts| == |was| && processed <= budget && processed == Sum(counts) && Tally(was, now, counts)
    ensures |was| <= budget && processed < budget ==> Exhausted(was, last, marks, now)
    ensures budget < |was| ==> processed == 0 && SameSeen(was, now)
  {
  }

  /** A pass: how the rings stood before and after it, how far each had got when
      its turn ended, and how many packets each was good for. */
  datatype Pass = Pass(was: seq<Progress>, marks: seq<Progress>, now: seq<Progress>, counts: seq<nat>)

  ghost predicate FairPass(p: Pass, n: nat, quota: nat, full: bool) {
    && |p.was| == |p.marks| == |p.now| == |p.counts| == n
    && forall i: nat :: i < n ==> Took(p.was[i], p.marks[i], p.now[i], p.counts[i]) && FairTo(p.marks[i], p.counts[i], quota, full)
  }

  // What `n` rings got in all.
  function Totals(passes: seq<Pass>, n: nat): (totals: seq<nat>)
    ensures |totals| == n
  {
    if passes == [] then seq(n, _ => 0)
    else
      var t, p := Totals(passes[..|passes| - 1], n), passes[|passes| - 1];
      if |p.counts| == n then Plus(t, p.counts) else t
  }

  // The k-th pass follows the one before it, is fair, and brings something
  // unless it is the last; only that one can have used the budget up.
  ghost predicate PassAt(was: seq<Progress>, passes: seq<Pass>, k: nat, quota: nat, full: bool)
    requires k < |passes|
  {
    && passes[k].was == (if k == 0 then was else passes[k - 1].now)
    && FairPass(passes[k], |was|, quota, full && k == |passes| - 1)
    && (k < |passes| - 1 ==> 0 < Sum(passes[k].counts))
  }

  /** Passes one after the other, and what the rings got in them. */
  ghost predicate Fairly(was: seq<Progress>, now: seq<Progress>, passes: seq<Pass>, counts: seq<nat>, quota: nat, full: bool) {
    && (forall k: nat :: k < |passes| ==> PassAt(was, passes, k, quota, full))
    && now == (if passes == [] then was else passes[|passes| - 1].now)
    && counts == Totals(passes, |was|)
  }

  lemma FairlyMore(was: seq<Progress>, mid: seq<Progress>, passes: seq<Pass>, counts: seq<nat>, p: Pass, quota: nat, full: bool)
    requires Fairly(was, mid, passes, counts, quota, false) && (passes != [] ==> 0 < Sum(passes[|passes| - 1].counts))
    requires p.was == mid && FairPass(p, |was|, quota, full)
    ensures |counts| == |p.counts| && Fairly(was, p.now, passes + [p], Plus(counts, p.counts), quota, full)
  {
    hide FairPass, Plus, Totals, Sum;
    PassCounts(p, |was|, quota, full);
    forall k: nat | k < |passes + [p]| ensures PassAt(was, passes + [p], k, quota, full) {
      assert k < |passes| ==> PassAt(was, passes, k, quota, false);
    }
    TotalsSnoc(passes, p, |was|);
  }

  lemma PassCounts(p: Pass, n: nat, quota: nat, full: bool)
    requires FairPass(p, n, quota, full)
    ensures |p.counts| == n
  {
  }

  lemma TotalsSnoc(passes: seq<Pass>, p: Pass, n: nat)
    requires |p.counts| == n
    ensures Totals(passes + [p], n) == Plus(Totals(passes, n), p.counts)
  {
    assert (passes + [p])[..|passes|] == passes;
  }

  /** All of them, the quota being an equal share of the budget. */
  ghost predicate Divided(was: seq<Progress>, now: seq<Progress>, passes: seq<Pass>, counts: seq<nat>, budget: nat, full: bool) {
    0 < |was| && passes != [] && Fairly(was, now, passes, counts, budget / |was|, full)
  }

  // Between two passes.
  ghost predicate Underway(was: seq<Progress>, now: seq<Progress>, passes: seq<Pass>, counts: seq<nat>, quota: nat,
                           budget: nat, processed: nat, share: nat, more: bool) {
    && processed <= budget && Min(share, budget - processed) == Min(quota, budget - processed)
    && Fairly(was, now, passes, counts, quota, processed == budget)
    && (if more then passes == [] || (processed < budget && 0 < Sum(passes[|passes| - 1].counts)) else passes != [])
  }

  lemma UnderwayStart(was: seq<Progress>, counts: seq<nat>, quota: nat, budget: nat)
    requires counts == seq(|was|, _ => 0)
    ensures Underway(was, was, [], counts, quota, budget, 0, quota, true)
  {
  }

  lemma UnderwayOn(was: seq<Progress>, p: Pass, passes: seq<Pass>, counts: seq<nat>, quota: nat,
                   budget: nat, before: nat, processed: nat, most: nat, share: nat)
    requires Underway(was, p.was, passes, counts, quota, budget, before, most, true) && |p.was| == |was|
    requires Passing(p.was, p.marks, p.now, p.counts, |p.was|, budget, before, processed, most, share)
    requires Sharing(p.was, p.marks, p.now, p.counts, |p.was|, quota, share, budget, processed)
    ensures |p.counts| == |counts|
    ensures Underway(was, p.now, passes + [p], Plus(counts, p.counts), quota, budget, processed, share, processed < budget && processed != before)
  {
    hide Took, FairTo, Totals;
    FairlyMore(was, p.was, passes, counts, p, quota, processed == budget);
  }

  lemma UnderwayShares(was: seq<Progress>, now: seq<Progress>, passes: seq<Pass>, counts: seq<nat>, quota: nat,
                       budget: nat, processed: nat, share: nat, more: bool)
    requires Underway(was, now, passes, counts, quota, budget, processed, share, more)
    ensures processed <= budget && Min(share, budget - processed) == Min(quota, budget - processed)
    ensures Fairly(was, now, passes, counts, quota, processed == budget) && (!more ==> passes != [])
  {
  }

  /** mac_all_poll, while the devices of all the rings go on. It never exceeds
      its budget. In every pass a ring gets an equal share of it, less only if it
      was read to its end or the budget is used up. A result short of it means that in the last pass, which began
      with the rings as in `last`, every mac_rx_poll returned 0 with its ring
      read to the end as of then, `marks`; a ring may have had completions
      since. If the budget is smaller than the number of rings, none is read at
      all. */
  method AllPoll(queues: seq<PollQueue>, budget: nat, plenty: bool)
    returns (processed: nat, spent: bool, ghost counts: seq<nat>, ghost last: seq<Progress>, ghost marks: seq<Progress>, ghost passes: seq<Pass>)
    requires |queues| > 0 && Apart(queues) && AllReady(queues)
    modifies Objects(queues)
    ensures processed <= budget && (plenty ==> !spent)
    ensures !spent ==>
              && AllReady(queues) && |counts| == |queues| && processed == Sum(counts)
              && Tally(old(Statuses(queues)), Statuses(queues), counts)
              && Divided(old(Statuses(queues)), Statuses(queues), passes, counts, budget, processed == budget)
    ensures !spent && |queues| <= budget && processed < budget ==>
              Exhausted(old(Statuses(queues)), last, marks, Statuses(queues))
    ensures !spent && budget < |queues| ==> processed == 0 && SameSeen(old(Statuses(queues)), Statuses(queues))
  {
    hide AllReady, Apart, Statuses, Passing, Sharing, Round, Tally, Exhausted, SameSeen, Objects, Fairly, Totals, Underway;
    processed, spent, counts, passes := 0, false, seq(|queues|, _ => 0), [];
    ghost var was := Statuses(queues);
    last, marks := was, was;
    var share: nat := budget / |queues|;
    RoundStart(was, counts, budget);
    UnderwayStart(was, counts, share, budget);
    var more := true;
    while more
      invariant processed <= budget && (plenty ==> !spent) && (spent ==> !more)
      invariant !spent ==> AllReady(queues)
      invariant !spent ==> Round(was, last, marks, Statuses(queues), counts, budget, processed, share, more)
      invariant !spent ==> Underway(was, Statuses(queues), passes, counts, budget / |queues|, budget, processed, share, more)
      decreases budget - processed, more
    {
      ghost var mid, most, marks0, last0 := Statuses(queues), share, marks, last;
      var before := processed;
      ghost var part;
      UnderwayShares(was, mid, passes, counts, budget / |queues|, budget, before, share, true);
      processed, share, spent, part, marks := OnePass(queues, budget, before, share, plenty, budget / |queues|);
      more := processed < budget && processed != before && !spent;
      if !spent {
        RoundStep(was, last0, marks0, mid, marks, Statuses(queues), counts, part, budget, before, processed, most, share);
        ghost var pass := Pass(mid, marks, Statuses(queues), part);
        UnderwayOn(was, pass, passes, counts, budget / |queues|, budget, before, processed, most, share);
        passes := passes + [pass];
        counts, last := Plus(counts, part), mid;
      }
    }
    if !spent {
      UnderwayShares(was, Statuses(queues), passes, counts, budget / |queues|, budget, processed, share, false);
      RoundEnd(was, last, marks, Statuses(queues), counts, budget, processed, share);
    }
  }

  /** In particular, everything completed before the call has been read. */
  lemma CaughtUp(was: seq<Progress>, last: seq<Progress>, marks: seq<Progress>, now: seq<Progress>, i: nat)
    requires Exhausted(was, last, marks, now) && i < |was|
    ensures was[i].stream <= now[i].seen
    ensures Drained(now[i]) <==> now[i].stream == marks[i].stream
  {
    assert NothingLeft(last[i], marks[i], now[i]);
  }

  // ------------------------------------------ a ring left with completions

  const IDLE: Progress := Progress([], [])

  // A ring as mac_rx_desc_init leaves it.
  method NewQueue(cfg: Config) returns (q: PollQueue)
    ensures fresh(q.Repr) && Ready(q) && StatusOf(q) == IDLE
  {
    hide P.Reachable, P.Build;
    var offers := PollQueue.AnyOffers(RING, true);
    var ring := new BufferRing(2048, offers);
    StartIs(2048, offers, ring.View());
    q := new PollQueue(ring, cfg);
  }

  // The device of a ring with nothing to read completes an entry.
  method OneArrival(q: PollQueue, d: Desc)
    requires Ready(q) && StatusOf(q) == IDLE && Wire(d)
    modifies q.Repr
    ensures Ready(q) && StatusOf(q) == Progress([], [d])
  {
    var done := q.Complete(d);
  }

  // mac_rx_poll finds nothing.
  method IdlePoll(q: PollQueue, share: nat) returns (got: nat)
    requires Ready(q) && StatusOf(q) == IDLE
    modifies q.Repr
    ensures Ready(q) && StatusOf(q) == IDLE && got == 0
  {
    var spent, n;
    got, spent, n := q.Poll(share, [], true);
  }

  /** One pass as `AllPoll` makes it, with a budget of 32, over two rings that
      nothing has been received on: both polls return 0, but a completion reaches
      ring 0 while ring 1 has its turn. The call ends with that, and ring 0 is
      not drained. */
  method LateArrival(cfg: Config, d: Desc) returns (queues: seq<PollQueue>, processed: nat, ghost marks: seq<Progress>)
    requires Wire(d)
    ensures |queues| == 2 && Apart(queues) && AllReady(queues) && processed == 0
    ensures Exhausted([IDLE, IDLE], [IDLE, IDLE], marks, Statuses(queues)) && !Drained(Statuses(queues)[0])
  {
    hide Ready, StatusOf, Apart, AllReady, Statuses, Objects, Exhausted;
    var a := NewQueue(cfg);
    var b := NewQueue(cfg);
    processed := IdlePoll(a, 16);
    OneArrival(a, d);
    var got := IdlePoll(b, 16);
    processed := processed + got;
    queues, marks := [a, b], [IDLE, IDLE];
    Both(a, b);
    LeftOver(Statuses(queues), d);
  }

  lemma Both(a: PollQueue, b: PollQueue)
    requires Ready(a) && Ready(b) && a.Repr !! b.Repr
    ensures Apart([a, b]) && AllReady([a, b]) && Statuses([a, b]) == [StatusOf(a), StatusOf(b)]
  {
    hide Ready, StatusOf, Objects;
  }

  lemma LeftOver(now: seq<Progress>, d: Desc)
    requires now == [Progress([], [d]), IDLE]
    ensures Exhausted([IDLE, IDLE], [IDLE, IDLE], [IDLE, IDLE], now) && !Drained(now[0])
  {
  }
}
