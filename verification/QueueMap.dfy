/** `mac_config_queue_mapping`: transmit queues to traffic classes, and the 8
    VLAN priorities to receive queues, both dealt out in contiguous blocks. */
module QueueMap {
  import opened Common
  import opened BitFields

  const PRIORITIES: nat := 8      // IEEE_8021QAZ_MAX_TCS
  const PER_REG: nat := 4         // MAC_RQMC_Q_PER_REG

  /** Where block `i` begins if each block has `q` members and the first `e`
      blocks one more. */
  function Start(q: nat, e: nat, i: nat): nat {
    if i == 0 then 0 else Start(q, e, i - 1) + q + if i - 1 < e then 1 else 0
  }

  predicate InBlock(q: nat, e: nat, i: nat, x: nat) { Start(q, e, i) <= x < Start(q, e, i + 1) }

  predicate Served(q: nat, e: nat, k: nat, x: nat) { exists i: nat :: i < k && InBlock(q, e, i, x) }

  lemma {:induction false} StartIs(q: nat, e: nat, i: nat)
    ensures Start(q, e, i) == i * q + Min(i, e)
  {
    if i > 0 {
      StartIs(q, e, i - 1);
      assert i * q == (i - 1) * q + q;
    }
  }

  // The blocks hold everything there is to deal out.
  lemma AllDealt(n: nat, k: nat)
    requires k > 0
    ensures Start(n / k, n % k, k) == n
  {
    StartIs(n / k, n % k, k);
    assert n == k * (n / k) + n % k;
  }

  lemma {:induction false} Ascending(q: nat, e: nat, i: nat, j: nat)
    requires i <= j
    ensures Start(q, e, i) <= Start(q, e, j)
    decreases j - i
  {
    if i < j {
      Ascending(q, e, i, j - 1);
    }
  }

  lemma {:induction false} Dealt(q: nat, e: nat, k: nat, x: nat) returns (i: nat)
    requires x < Start(q, e, k)
    ensures i < k && InBlock(q, e, i, x)
  {
    i := k - 1;
    if x < Start(q, e, k - 1) {
      i := Dealt(q, e, k - 1, x);
    }
  }

  // The same for blocks of any sizes that add up.
  lemma Shares(q: nat, e: nat, n: nat, k: nat)
    requires Start(q, e, k) == n
    ensures forall x: nat :: x < n <==> Served(q, e, k, x)
    ensures forall x: nat, y: nat, i: nat, j: nat :: InBlock(q, e, i, x) && InBlock(q, e, j, y) && x <= y ==> i <= j
    ensures forall i: nat :: i < k ==> Start(q, e, i + 1) - Start(q, e, i) in {q, q + 1}
  {
    forall x: nat ensures x < n <==> Served(q, e, k, x) {
      if x < n {
        var i := Dealt(q, e, k, x);
      } else if Served(q, e, k, x) {
        var i: nat :| i < k && InBlock(q, e, i, x);
        Ascending(q, e, i + 1, k);
      }
    }
    forall x: nat, y: nat, i: nat, j: nat | InBlock(q, e, i, x) && InBlock(q, e, j, y) && x <= y ensures i <= j {
      if j < i {
        Ascending(q, e, j + 1, i);
      }
    }
  }

  /** Every member is in exactly one of the `k` blocks; the blocks are
      contiguous, in order, and their sizes differ by at most one. */
  lemma FairShares(n: nat, k: nat)
    requires k > 0
    ensures forall x: nat :: x < n <==> Served(n / k, n % k, k, x)
    ensures forall x: nat, i: nat, j: nat :: InBlock(n / k, n % k, i, x) && InBlock(n / k, n % k, j, x) ==> i == j
    ensures forall x: nat, y: nat, i: nat, j: nat ::
              InBlock(n / k, n % k, i, x) && InBlock(n / k, n % k, j, y) && x <= y ==> i <= j
    ensures forall i: nat :: i < k ==> Start(n / k, n % k, i + 1) - Start(n / k, n % k, i) in {n / k, n / k + 1}
  {
    AllDealt(n, k);
    Shares(n / k, n % k, n, k);
    hide Start, InBlock, Served;
  }

  /** The transmit half: `tc[x]` is the Q2TCMAP field of queue `x`. Every queue
      is written, with the class whose block it is in. */
  method MapTx(queues: nat, classes: nat) returns (tc: array<nat>)
    requires classes > 0
    ensures tc.Length == queues
    ensures forall x: nat :: x < queues ==> tc[x] < classes && InBlock(queues / classes, queues % classes, tc[x], x)
  {
    tc := new nat[queues];
    var qptc, extra := queues / classes, queues % classes;
    AllDealt(queues, classes);
    var i, queue := 0, 0;
    while i < classes
      invariant 0 <= i <= classes && queue == Start(qptc, extra, i)
      invariant forall x: nat :: x < queue && x < queues ==> tc[x] < classes && InBlock(qptc, extra, tc[x], x)
    {
      Ascending(qptc, extra, i + 1, classes);
      var j := 0;
      while j < qptc
        invariant 0 <= j <= qptc && queue == Start(qptc, extra, i) + j
        invariant forall x: nat :: x < queue && x < queues ==> tc[x] < classes && InBlock(qptc, extra, tc[x], x)
      {
        tc[queue] := i;
        queue := queue + 1;
        j := j + 1;
      }
      if i < extra {
        tc[queue] := i;
        queue := queue + 1;
      }
      i := i + 1;
    }
  }

  // ------------------------------------------------------ receive priorities

  /** Register `r`: byte lane `l` has bit `p` set just when priority `p` goes to
      queue 4 * r + l, for the queues before `upTo`. */
  function Register(q: nat, e: nat, r: nat, upTo: nat): Word {
    seq(WIDTH, b requires 0 <= b < WIDTH => r * PER_REG + b / 8 < upTo && InBlock(q, e, r * PER_REG + b / 8, b % 8))
  }

  function PriorityMask(q: nat, e: nat, i: nat, to: nat): Word {
    seq(WIDTH, b requires 0 <= b < WIDTH => Start(q, e, i) <= b < to)
  }

  function Single(prio: nat): Word
    requires prio < WIDTH
  {
    Zero()[prio := true]
  }

  lemma NextLane(q: nat, e: nat, i: nat)
    requires Start(q, e, i + 1) <= PRIORITIES
    ensures Or(Register(q, e, i / PER_REG, i), Shl(PriorityMask(q, e, i, Start(q, e, i + 1)), 8 * (i % PER_REG))) ==
            Register(q, e, i / PER_REG, i + 1)
  {
    var r, lane := i / PER_REG, i % PER_REG;
    var before, mask := Register(q, e, r, i), PriorityMask(q, e, i, Start(q, e, i + 1));
    var shifted := Shl(mask, 8 * lane);
    forall b | 0 <= b < WIDTH ensures (before[b] || shifted[b]) == Register(q, e, r, i + 1)[b] {
      assert b == 8 * (b / 8) + b % 8;
      if r * PER_REG + b / 8 == i {
        assert b / 8 == lane;
      }
    }
  }

  lemma FreshRegister(q: nat, e: nat, r: nat)
    ensures Register(q, e, r, r * PER_REG) == Zero()
  {
  }

  lemma {:induction false} LastRegister(q: nat, e: nat, r: nat, i: nat, j: nat)
    requires r * PER_REG + PER_REG <= i <= j
    ensures Register(q, e, r, i) == Register(q, e, r, j)
  {
    forall b | 0 <= b < WIDTH ensures Register(q, e, r, i)[b] == Register(q, e, r, j)[b] {
      assert b / 8 < PER_REG;
    }
  }

  lemma MaskNext(q: nat, e: nat, i: nat, to: nat)
    requires Start(q, e, i) <= to < WIDTH
    ensures Or(PriorityMask(q, e, i, to), Single(to)) == PriorityMask(q, e, i, to + 1)
  {
  }

  // The mask of queue `i`, whose block begins at `first`.
  method MaskOf(q: nat, e: nat, i: nat, first: nat) returns (mask: Word, prio: nat)
    requires first == Start(q, e, i) && Start(q, e, i + 1) <= PRIORITIES
    ensures prio == Start(q, e, i + 1) && mask == PriorityMask(q, e, i, prio)
  {
    mask, prio := Zero(), first;
    assert mask == PriorityMask(q, e, i, first);
    var j := 0;
    while j < q
      invariant 0 <= j <= q && prio == first + j && mask == PriorityMask(q, e, i, prio)
    {
      MaskNext(q, e, i, prio);
      mask := Or(mask, Single(prio));
      prio := prio + 1;
      j := j + 1;
    }
    if i < e {
      MaskNext(q, e, i, prio);
      mask := Or(mask, Single(prio));
      prio := prio + 1;
    }
  }

  function Queues(rxQueues: nat): nat { Min(PRIORITIES, rxQueues) }

  // The registers written, for `m` queues.
  function Registers(m: nat): (regs: seq<Word>)
    requires m > 0
    ensures |regs| == (m + PER_REG - 1) / PER_REG
  {
    seq((m + PER_REG - 1) / PER_REG, r requires 0 <= r => Register(PRIORITIES / m, PRIORITIES % m, r, m))
  }

  lemma WriteOne(q: nat, e: nat, m: nat, i: nat, regs: seq<Word>)
    requires 0 < m && q == PRIORITIES / m && e == PRIORITIES % m && 0 < i <= m && (i % PER_REG == 0 || i == m)
    requires |regs| == (i - 1) / PER_REG && regs == Registers(m)[..|regs|]
    ensures |regs| + 1 <= |Registers(m)| && regs + [Register(q, e, (i - 1) / PER_REG, i)] == Registers(m)[..|regs| + 1]
  {
    var r := (i - 1) / PER_REG;
    assert r < (m + PER_REG - 1) / PER_REG;
    if i < m {
      LastRegister(q, e, r, i, m);
    }
    assert Registers(m)[r] == Register(q, e, r, i);
  }

  /** The receive half: the values written to consecutive registers. */
  method MapRx(rxQueues: nat) returns (regs: seq<Word>)
    requires rxQueues > 0
    ensures regs == Registers(Queues(rxQueues)) && Shared(regs, rxQueues)
  {
    hide Shared;
    var m := Queues(rxQueues);
    var ppq, extra := PRIORITIES / m, PRIORITIES % m;
    AllDealt(PRIORITIES, m);
    regs := [];
    var regval := Zero();
    FreshRegister(ppq, extra, 0);
    var i, prio := 0, 0;
    while i < m
      invariant 0 <= i <= m && prio == Start(ppq, extra, i)
      invariant i < m ==> |regs| == i / PER_REG && regval == Register(ppq, extra, i / PER_REG, i)
      invariant |regs| <= |Registers(m)| && regs == Registers(m)[..|regs|]
      invariant i == m ==> |regs| == |Registers(m)|
    {
      Ascending(ppq, extra, i + 1, m);
      var mask;
      mask, prio := MaskOf(ppq, extra, i, prio);
      NextLane(ppq, extra, i);
      regval := Or(regval, Shl(mask, 8 * (i % PER_REG)));
      i := i + 1;
      if i % PER_REG != 0 && i != m {
        continue;
      }
      WriteOne(ppq, extra, m, i, regs);
      regs := regs + [regval];
      FreshRegister(ppq, extra, i / PER_REG);
      regval := Zero();
    }
    AllShared(rxQueues);
  }

  /** What the registers written must say of `n` receive queues: every priority
      is set in exactly one lane, that of one of them, in the order of the
      priorities; none of up to eight queues goes without, and their shares
      differ by at most one; with more than eight, priority p goes to queue p. */
  ghost predicate Shared(regs: seq<Word>, n: nat) {
    && |regs| == (if n <= 4 then 1 else 2)
    && (forall p: nat :: p < 8 ==> Assigned(regs, n, p))
    && (forall p: nat, i: nat, j: nat :: InLane(regs, i, p) && InLane(regs, j, p) ==> i == j)
    && (forall p: nat, r: nat, i: nat, j: nat :: InLane(regs, i, p) && InLane(regs, j, r) && p <= r ==> i <= j)
    && (n <= 8 ==> forall i: nat, j: nat :: i < n && j < n ==> 1 <= Load(regs, i, 8) <= Load(regs, j, 8) + 1)
    && (n > 8 ==> forall p: nat :: p < 8 ==> InLane(regs, p, p))
  }

  predicate Assigned(regs: seq<Word>, n: nat, p: nat) { exists i: nat :: i < n && InLane(regs, i, p) }

  // How many of the first `n` priorities are set in lane `i`.
  function Load(regs: seq<Word>, i: nat, n: nat): nat {
    if n == 0 then 0 else Load(regs, i, n - 1) + if InLane(regs, i, n - 1) then 1 else 0
  }

  lemma {:induction false} LoadIs(regs: seq<Word>, i: nat, n: nat, from: nat, to: nat)
    requires from <= to && forall p: nat :: p < n ==> (InLane(regs, i, p) <==> from <= p < to)
    ensures Load(regs, i, n) == if n <= from then 0 else Min(n, to) - from
  {
    if n > 0 {
      LoadIs(regs, i, n - 1, from, to);
    }
  }

  lemma AllShared(rxQueues: nat)
    requires rxQueues > 0
    ensures Shared(Registers(Queues(rxQueues)), rxQueues)
  {
    hide Register, Start, InLane;
    var m := Queues(rxQueues);
    var regs, q, e := Registers(m), PRIORITIES / m, PRIORITIES % m;
    forall p: nat | p < 8 ensures Assigned(regs, rxQueues, p) {
      PrioritiesOnce(rxQueues, p);
    }
    forall p: nat, i: nat | InLane(regs, i, p) ensures p < 8 && i < m && InBlock(q, e, i, p) {
      InSome(m, i, p);
    }
    forall p: nat, r: nat, i: nat, j: nat | InLane(regs, i, p) && InLane(regs, j, r) && p <= r ensures i <= j {
      if j < i {
        Ascending(q, e, j + 1, i);
      }
    }
    if rxQueues <= 8 {
      forall i: nat | i < rxQueues ensures Load(regs, i, 8) in {q, q + 1} && q >= 1 {
        ShareIs(m, i);
      }
    } else {
      forall p: nat | p < 8 ensures InLane(regs, p, p) {
        StartIs(1, 0, p);
        StartIs(1, 0, p + 1);
        assert InBlock(1, 0, p, p);
        LaneIs(8, p, p);
      }
    }
  }

  lemma InSome(m: nat, i: nat, p: nat)
    requires 0 < m && InLane(Registers(m), i, p)
    ensures p < 8 && i < m && InBlock(PRIORITIES / m, PRIORITIES % m, i, p)
  {
    LaneIs(m, i, p);
  }

  lemma ShareIs(m: nat, i: nat)
    requires i < m <= 8
    ensures var q := PRIORITIES / m; q >= 1 && Load(Registers(m), i, 8) in {q, q + 1}
  {
    hide Register, InLane, Load;
    var q, e := PRIORITIES / m, PRIORITIES % m;
    AllDealt(8, m);
    Ascending(q, e, i + 1, m);
    StartIs(q, e, i);
    StartIs(q, e, i + 1);
    forall p: nat | p < 8 ensures InLane(Registers(m), i, p) <==> Start(q, e, i) <= p < Start(q, e, i + 1) {
      LaneIs(m, i, p);
    }
    LoadIs(Registers(m), i, 8, Start(q, e, i), Start(q, e, i + 1));
  }

  /** Lane `i % 4` of register `i / 4` is queue `i`'s, and every priority is set
      in exactly one lane, that of one of the receive queues. */
  lemma PrioritiesOnce(rxQueues: nat, p: nat)
    requires rxQueues > 0 && p < PRIORITIES
    ensures var regs := Registers(Queues(rxQueues));
      exists i: nat :: i < rxQueues && InLane(regs, i, p) && forall j: nat :: InLane(regs, j, p) ==> j == i
  {
    var m := Queues(rxQueues);
    var q, e := PRIORITIES / m, PRIORITIES % m;
    FairShares(PRIORITIES, m);
    AllDealt(PRIORITIES, m);
    var i := Dealt(q, e, m, p);
    LaneIs(m, i, p);
    forall j: nat | InLane(Registers(m), j, p) ensures j == i {
      InSome(m, j, p);
    }
  }

  predicate InLane(regs: seq<Word>, i: nat, p: nat) {
    i / PER_REG < |regs| && p < 8 && regs[i / PER_REG][8 * (i % PER_REG) + p]
  }

  lemma LaneIs(m: nat, i: nat, p: nat)
    requires 0 < m && p < PRIORITIES && i < PER_REG * |Registers(m)|
    ensures InLane(Registers(m), i, p) <==> i < m && InBlock(PRIORITIES / m, PRIORITIES % m, i, p)
  {
    var b := 8 * (i % PER_REG) + p;
    assert b / 8 == i % PER_REG && b % 8 == p && i / PER_REG * PER_REG + i % PER_REG == i;
  }
}
