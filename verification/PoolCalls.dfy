/** Pool calls that overlap: `bxroce_alloc` and `bxroce_elem_release` touch the
    element count and the pool's references in separate atomic steps, outside
    the pool's lock; `bxroce_add_index` and `bxroce_drop_index` each hold it. */
module PoolCalls {
  import opened Common

  // Where the calls in progress are.
  datatype Calls = Calls(asking: nat,     // pool reference taken, not yet counted
                         granted: nat,    // counted, within the limit, awaiting memory
                         refused: nat,    // counted, to be given up
                         undone: nat,     // no longer counted, pool reference to be put
                         dying: nat,      // element freed, still counted
                         dead: nat)       // no longer counted, pool reference to be put

  // `bits` is the set of bits set in the bitmap, each held by one live element.
  datatype State = State(live: nat, num: nat, refs: nat, valid: bool, closing: bool, bits: set<nat>, calls: Calls)

  const REST: Calls := Calls(0, 0, 0, 0, 0, 0)
  const START: State := State(0, 0, 1, true, false, {}, REST)

  datatype Step =
    | Ask | Count | Memory(ok: bool) | Undo | PutBack      // bxroce_alloc
    | AddIndex(bit: nat) | DropIndex(bit: nat)             // of a live element
    | LastRef | Uncount | PutGone                          // of a live element without index: bxroce_elem_release
    | Close | PutOwn                                       // bxroce_pool_cleanup

  predicate Enabled(s: State, a: Step) {
    match a
    case Ask => s.valid
    case Count => s.calls.asking > 0
    case Memory(_) => s.calls.granted > 0
    case Undo => s.calls.refused > 0 && s.num > 0
    case PutBack => s.calls.undone > 0 && s.refs > 0
    case AddIndex(bit) => |s.bits| < s.live && bit !in s.bits
    case DropIndex(bit) => bit in s.bits
    case LastRef => s.live > |s.bits|
    case Uncount => s.calls.dying > 0 && s.num > 0
    case PutGone => s.calls.dead > 0 && s.refs > 0
    case Close => s.valid
    case PutOwn => s.closing && s.refs > 0
  }

  function Next(s: State, a: Step, maxElem: nat): State
    requires Enabled(s, a)
  {
    var c := s.calls;
    match a
    case Ask => s.(refs := s.refs + 1, calls := c.(asking := c.asking + 1))
    case Count =>
      var d := c.(asking := c.asking - 1);
      s.(num := s.num + 1,
         calls := if s.num + 1 > maxElem then d.(refused := d.refused + 1) else d.(granted := d.granted + 1))
    case Memory(ok) =>
      var d := c.(granted := c.granted - 1);
      if ok then s.(live := s.live + 1, calls := d) else s.(calls := d.(refused := d.refused + 1))
    case Undo => s.(num := s.num - 1, calls := c.(refused := c.refused - 1, undone := c.undone + 1))
    case PutBack => s.(refs := s.refs - 1, calls := c.(undone := c.undone - 1))
    case AddIndex(bit) => s.(bits := s.bits + {bit})
    case DropIndex(bit) => s.(bits := s.bits - {bit})
    case LastRef => s.(live := s.live - 1, calls := c.(dying := c.dying + 1))
    case Uncount => s.(num := s.num - 1, calls := c.(dying := c.dying - 1, dead := c.dead + 1))
    case PutGone => s.(refs := s.refs - 1, calls := c.(dead := c.dead - 1))
    case Close => s.(valid := false, closing := true)
    case PutOwn => s.(refs := s.refs - 1, closing := false)
  }

  predicate Inv(s: State, maxElem: nat) {
    var c := s.calls;
    && s.num == s.live + c.granted + c.refused + c.dying
    && s.live + c.granted <= maxElem
    && |s.bits| <= s.live
    && s.refs == (if s.valid || s.closing then 1 else 0)
                 + c.asking + c.granted + c.refused + c.undone + s.live + c.dying + c.dead
    && !(s.valid && s.closing)
  }

  ghost predicate Reaches(s: State, steps: seq<Step>, maxElem: nat, t: State)
    decreases |steps|
  {
    if steps == [] then s == t
    else Enabled(s, steps[0]) && Reaches(Next(s, steps[0], maxElem), steps[1..], maxElem, t)
  }

  lemma InvStep(s: State, a: Step, maxElem: nat)
    requires Inv(s, maxElem) && Enabled(s, a)
    ensures Inv(Next(s, a, maxElem), maxElem)
  {
  }

  lemma {:induction false} InvRun(s: State, steps: seq<Step>, maxElem: nat, t: State)
    requires Inv(s, maxElem) && Reaches(s, steps, maxElem, t)
    ensures Inv(t, maxElem)
    decreases |steps|
  {
    hide Inv, Next;
    if steps != [] {
      InvStep(s, steps[0], maxElem);
      InvRun(Next(s, steps[0], maxElem), steps[1..], maxElem, t);
    }
  }

  /** However calls overlap: never more elements than allowed, the count exact
      whenever no call is in progress, no reference put that is not there, and
      the pool's last reference gone only when nothing uses it. */
  lemma Overlapping(steps: seq<Step>, maxElem: nat, s: State)
    requires Reaches(START, steps, maxElem, s)
    ensures s.live <= maxElem
    ensures s.calls == REST ==> s.num == s.live
    ensures s.refs == 0 ==> !s.valid && s.live == 0 && s.calls == REST
    ensures s.calls.undone > 0 || s.calls.dead > 0 || s.closing ==> s.refs > 0
    ensures s.calls.refused > 0 || s.calls.dying > 0 ==> s.num > 0
  {
    InvRun(START, steps, maxElem, s);
  }

  /** Nothing gets stuck: a call in progress can always take its next step. */
  lemma CallsGoOn(steps: seq<Step>, maxElem: nat, s: State)
    requires Reaches(START, steps, maxElem, s)
    ensures Enabled(s, Count) <==> s.calls.asking > 0
    ensures forall ok :: Enabled(s, Memory(ok)) <==> s.calls.granted > 0
    ensures Enabled(s, Undo) <==> s.calls.refused > 0
    ensures Enabled(s, PutBack) <==> s.calls.undone > 0
    ensures Enabled(s, Uncount) <==> s.calls.dying > 0
    ensures Enabled(s, PutGone) <==> s.calls.dead > 0
    ensures Enabled(s, PutOwn) <==> s.closing
  {
    InvRun(START, steps, maxElem, s);
  }

  // The last thing that happened to the bit is that it was set.
  ghost predicate Held(steps: seq<Step>, bit: nat) {
    exists k: nat :: k < |steps| && steps[k] == AddIndex(bit) && NotDropped(steps, k, bit)
  }

  predicate NotDropped(steps: seq<Step>, k: nat, bit: nat) {
    forall j: nat :: k < j < |steps| ==> steps[j] != DropIndex(bit)
  }

  lemma HeldLater(a: Step, rest: seq<Step>, bit: nat)
    requires forall k: nat :: k < |rest| ==> rest[k] != AddIndex(bit) && rest[k] != DropIndex(bit)
    ensures Held([a] + rest, bit) <==> a == AddIndex(bit)
  {
    var steps := [a] + rest;
    if a == AddIndex(bit) {
      assert steps[0] == a && NotDropped(steps, 0, bit);
    }
  }

  lemma HeldFirst(a: Step, rest: seq<Step>, bit: nat)
    requires exists k: nat :: k < |rest| && (rest[k] == AddIndex(bit) || rest[k] == DropIndex(bit))
    ensures Held([a] + rest, bit) <==> Held(rest, bit)
  {
    var steps := [a] + rest;
    if Held(rest, bit) {
      var k: nat :| k < |rest| && rest[k] == AddIndex(bit) && NotDropped(rest, k, bit);
      assert steps[k + 1] == AddIndex(bit) && NotDropped(steps, k + 1, bit);
    }
    if Held(steps, bit) {
      var k: nat :| k < |steps| && steps[k] == AddIndex(bit) && NotDropped(steps, k, bit);
      var at: nat :| at < |rest| && (rest[at] == AddIndex(bit) || rest[at] == DropIndex(bit));
      if k > 0 {
        forall j: nat | k - 1 < j < |rest| ensures rest[j] != DropIndex(bit) {
          assert steps[j + 1] == rest[j];
        }
        assert rest[k - 1] == steps[k] && NotDropped(rest, k - 1, bit);
      } else {
        forall j: nat | j < |rest| ensures rest[j] != DropIndex(bit) {
          assert steps[j + 1] == rest[j];
        }
        assert rest[at] == AddIndex(bit) && NotDropped(rest, at, bit);
      }
    }
  }

  lemma {:induction false} BitsFrom(r: State, steps: seq<Step>, maxElem: nat, s: State, bit: nat)
    requires Reaches(r, steps, maxElem, s)
    ensures bit in s.bits <==>
            if exists k: nat :: k < |steps| && (steps[k] == AddIndex(bit) || steps[k] == DropIndex(bit)) then Held(steps, bit)
            else bit in r.bits
    decreases |steps|
  {
    if steps != [] {
      var a, rest := steps[0], steps[1..];
      assert steps == [a] + rest;
      BitsFrom(Next(r, a, maxElem), rest, maxElem, s, bit);
      if exists k: nat :: k < |rest| && (rest[k] == AddIndex(bit) || rest[k] == DropIndex(bit)) {
        HeldFirst(a, rest, bit);
        var k: nat :| k < |rest| && (rest[k] == AddIndex(bit) || rest[k] == DropIndex(bit));
        assert steps[k + 1] == rest[k];
      } else {
        HeldLater(a, rest, bit);
        forall k: nat | 0 < k < |steps| ensures steps[k] != AddIndex(bit) && steps[k] != DropIndex(bit) {
          assert steps[k] == rest[k - 1];
        }
      }
    }
  }

  /** However calls overlap: a bit is set if and only if it has been given to an
      element and not taken back since. */
  lemma BitsHeld(steps: seq<Step>, maxElem: nat, s: State, bit: nat)
    requires Reaches(START, steps, maxElem, s)
    ensures bit in s.bits <==> Held(steps, bit)
  {
    BitsFrom(START, steps, maxElem, s, bit);
  }

  /** When an allocation that has taken its pool reference is refused, over every
      interleaving: exactly if the elements, those granted, those being refused
      and those being freed fill the limit. With no refusal and no release under
      way, exactly if the elements and those granted do. */
  lemma RefusedIff(steps: seq<Step>, maxElem: nat, s: State)
    requires Reaches(START, steps, maxElem, s) && Enabled(s, Count)
    ensures var c := s.calls;
      && (Next(s, Count, maxElem).calls.refused == c.refused + 1 <==> s.live + c.granted + c.refused + c.dying >= maxElem)
      && (c.refused == c.dying == 0 ==>
            (Next(s, Count, maxElem).calls.refused == 1 <==> s.live + c.granted == maxElem))
  {
    InvRun(START, steps, maxElem, s);
  }

  lemma {:induction false} AllTaken(bits: set<nat>, n: nat)
    requires forall b: nat :: b < n ==> b in bits
    ensures |bits| >= n
  {
    if n > 0 {
      AllTaken(bits - {n - 1}, n - 1);
    }
  }

  /** However calls overlap: whenever an element is due an index, fewer bits are
      set than elements are allowed, and one of the first `maxElem` is free. */
  lemma IndexToSpare(steps: seq<Step>, maxElem: nat, s: State)
    requires Reaches(START, steps, maxElem, s) && |s.bits| < s.live
    ensures |s.bits| < maxElem && exists bit: nat :: bit < maxElem && Enabled(s, AddIndex(bit))
  {
    InvRun(START, steps, maxElem, s);
    if forall b: nat :: b < maxElem ==> b in s.bits {
      AllTaken(s.bits, maxElem);
    }
    var bit: nat :| bit < maxElem && bit !in s.bits;
    assert Enabled(s, AddIndex(bit));
  }

  lemma {:induction false} Extend(r: State, steps: seq<Step>, maxElem: nat, s: State, a: Step)
    requires Reaches(r, steps, maxElem, s) && Enabled(s, a)
    ensures Reaches(r, steps + [a], maxElem, Next(s, a, maxElem))
    decreases |steps|
  {
    hide Next;
    if steps != [] {
      Extend(Next(r, steps[0], maxElem), steps[1..], maxElem, s, a);
      assert (steps + [a])[1..] == steps[1..] + [a];
    } else {
      assert [a][1..] == [] && Reaches(Next(s, a, maxElem), [], maxElem, Next(s, a, maxElem));
    }
  }

  lemma Begun() returns (steps: seq<Step>, s: State)
    ensures Reaches(START, steps, 1, s) && s == START
  {
    steps, s := [], START;
  }

  lemma Then(steps: seq<Step>, s: State, a: Step) returns (more: seq<Step>, t: State)
    requires Reaches(START, steps, 1, s) && Enabled(s, a)
    ensures Reaches(START, more, 1, t) && t == Next(s, a, 1)
  {
    Extend(START, steps, 1, s, a);
    more, t := steps + [a], Next(s, a, 1);
  }

  /** The count may run ahead of the elements, so that an allocation can be
      refused although no element is left: one is freed, and not yet
      uncounted, when another is asked for. */
  lemma RefusedWithRoom() returns (steps: seq<Step>, s: State)
    ensures Reaches(START, steps, 1, s) && s.live == 0 && s.calls.refused == 1
  {
    hide Reaches;
    steps, s := Begun();
    steps, s := Then(steps, s, Ask);
    steps, s := Then(steps, s, Count);
    steps, s := Then(steps, s, Memory(true));
    steps, s := Then(steps, s, LastRef);
    steps, s := Then(steps, s, Ask);
    steps, s := Then(steps, s, Count);
  }
}
