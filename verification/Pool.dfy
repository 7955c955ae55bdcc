/** The object pool of the RoCE driver: index bitmap, search tree, element
    count and two levels of reference counts, which must agree over every run
    in which an element gives up its index before its last reference. */
module Pool {
  import opened Common
  import opened SearchTree

  // struct bxroce_pool_entry: the element's own references and its index.
  datatype Elem = Elem(refs: nat, index: nat)

  // What is said of a bitmap's bits [from, to).
  predicate AllSet(table: seq<bool>, from: nat, to: nat)
    requires to <= |table|
  {
    forall i :: from <= i < to ==> table[i]
  }

  /** Next fit: the first free bit from `last` on, or else the first of all. */
  predicate NextFit(table: seq<bool>, last: nat, bit: nat) {
    && bit < |table| && !table[bit]
    && if bit >= last then AllSet(table, last, bit)
       else last <= |table| && AllSet(table, last, |table|) && AllSet(table, 0, bit)
  }

  /** That is: no free bit from `last` on comes before it, and if it lies before
      `last` then there is none, and no free bit comes before it at all. */
  lemma FitIs(table: seq<bool>, last: nat, bit: nat)
    requires NextFit(table, last, bit) && last <= |table|
    ensures bit < |table| && !table[bit]
    ensures forall i :: last <= i < |table| && !table[i] ==> last <= bit <= i
    ensures bit < last ==> forall i :: 0 <= i < bit ==> table[i]
  {
  }

  lemma BitFree(table: seq<bool>, last: nat, bit: nat)
    requires NextFit(table, last, bit)
    ensures bit < |table| && !table[bit]
  {
  }

  // Which bit each element that has an index holds.
  type Holders = map<nat, nat>

  predicate Injective(h: Holders) {
    forall a, b :: a in h && b in h && h[a] == h[b] ==> a == b
  }

  function Numbers(n: nat): (s: set<nat>)
    ensures |s| == n && forall i: nat :: i in s <==> i < n
  {
    if n == 0 then {} else Numbers(n - 1) + {n - 1}
  }

  lemma {:induction false} ImageSize(h: Holders, keys: set<nat>)
    requires keys <= h.Keys
    ensures |set e | e in keys :: h[e]| <= |keys|
    decreases |keys|
  {
    if keys == {} {
      assert (set e | e in keys :: h[e]) == {};
    } else {
      var k :| k in keys;
      var rest := keys - {k};
      ImageSize(h, rest);
      assert (set e | e in keys :: h[e]) == (set e | e in rest :: h[e]) + {h[k]};
    }
  }

  lemma SubsetSize(a: set<nat>, b: set<nat>)
    requires a <= b
    ensures |a| <= |b|
    decreases |a|
  {
    if a != {} {
      var x :| x in a;
      SubsetSize(a - {x}, b - {x});
    }
  }

  /** Fewer holders than bits leave a bit free. */
  lemma FreeBit(table: seq<bool>, h: Holders)
    requires |h| < |table|
    requires forall i :: 0 <= i < |table| && table[i] ==> exists e :: e in h && h[e] == i
    ensures exists i :: 0 <= i < |table| && !table[i]
  {
    if AllSet(table, 0, |table|) {
      var image := set e | e in h.Keys :: h[e];
      forall i: nat | i in Numbers(|table|) ensures i in image {
        assert table[i];
      }
      SubsetSize(Numbers(|table|), image);
      ImageSize(h, h.Keys);
      assert false;
    }
  }

  // elem->index = index + pool->min_index, and back, in 32 bits
  lemma WordOffset(bit: nat, min: nat)
    requires bit < WORD32 && min < WORD32
    ensures ((bit + min) % WORD32 - min) % WORD32 == bit
  {
  }

  lemma SameIndex(a: nat, b: nat, min: nat)
    requires a < WORD32 && b < WORD32 && min < WORD32
    ensures (a + min) % WORD32 == (b + min) % WORD32 <==> a == b
  {
    WordOffset(a, min);
    WordOffset(b, min);
  }

  // ---------------------------------------------------- what must agree

  type Elems = map<nat, Elem>

  predicate IndexOf(elems: Elems, h: Holders, min: nat, e: nat) {
    e in h && e in elems && elems[e].index == (h[e] + min) % WORD32
  }

  /** The tree holds exactly the elements that have an index, each under it. */
  ghost predicate TreeAgrees(tree: Tree, elems: Elems, h: Holders, min: nat) {
    && Ordered(tree) && min < WORD32
    && (forall e :: e in h ==> IndexOf(elems, h, min, e) && h[e] < WORD32)
    && (forall x: Item :: Has(tree, x) <==> IndexOf(elems, h, min, x.elem) && elems[x.elem].index == x.index)
  }

  /** The bits set are exactly those held, each by one element. */
  ghost predicate BitsAgree(table: seq<bool>, h: Holders) {
    && Injective(h) && (forall e :: e in h ==> h[e] < |table| && table[h[e]])
    && (forall i :: 0 <= i < |table| && table[i] ==> exists e :: e in h && h[e] == i)
  }

  predicate RefsAgree(refs: nat, valid: bool, freed: bool, elems: Elems, next: nat) {
    && refs == (if valid then 1 else 0) + |elems| && (freed <==> refs == 0)
    && (forall e :: e in elems ==> e < next && elems[e].refs > 0)
  }

  lemma TreeGrows(tree: Tree, elems: Elems, h: Holders, min: nat, e: nat, x: Elem)
    requires TreeAgrees(tree, elems, h, min) && e !in h
    ensures TreeAgrees(tree, elems[e := x], h, min)
  {
    var v := elems[e := x];
    forall y: Item ensures Has(tree, y) <==> IndexOf(v, h, min, y.elem) && v[y.elem].index == y.index {
      assert IndexOf(v, h, min, y.elem) <==> IndexOf(elems, h, min, y.elem);
    }
    forall k | k in h ensures IndexOf(v, h, min, k) {
      assert IndexOf(elems, h, min, k);
    }
  }

  // The element `e` takes the free bit `bit`.
  lemma TreeTakes(tree: Tree, u: Tree, elems: Elems, h: Holders, min: nat, e: nat, bit: nat)
    requires TreeAgrees(tree, elems, h, min) && e in elems && e !in h && bit < WORD32
    requires Ordered(u) && forall y: Item :: Has(u, y) <==> Has(tree, y) || y == Item((bit + min) % WORD32, e)
    ensures TreeAgrees(u, elems[e := elems[e].(index := (bit + min) % WORD32)], h[e := bit], min)
  {
    var v, g := elems[e := elems[e].(index := (bit + min) % WORD32)], h[e := bit];
    forall y: Item ensures Has(u, y) <==> IndexOf(v, g, min, y.elem) && v[y.elem].index == y.index {
      if y.elem != e {
        assert IndexOf(v, g, min, y.elem) <==> IndexOf(elems, h, min, y.elem);
      } else {
        assert !Has(tree, y);
      }
    }
    forall k | k in g ensures IndexOf(v, g, min, k) && g[k] < WORD32 {
      if k != e {
        assert IndexOf(elems, h, min, k);
      }
    }
  }

  lemma BitsTake(table: seq<bool>, h: Holders, e: nat, bit: nat)
    requires BitsAgree(table, h) && e !in h && bit < |table| && !table[bit]
    ensures BitsAgree(table[bit := true], h[e := bit])
  {
    var g := h[e := bit];
    var t := table[bit := true];
    forall i | 0 <= i < |t| && t[i] ensures exists k :: k in g && g[k] == i {
      if i == bit {
        assert g[e] == i;
      } else {
        var k :| k in h && h[k] == i;
        assert g[k] == i;
      }
    }
  }

  // A live element takes a free bit: the maps stay in step.
  lemma MapsTake(elems: Elems, h: Holders, e: nat, bit: nat, index: nat, next: nat, refs: nat, valid: bool, freed: bool)
    requires e in elems && h.Keys <= elems.Keys && RefsAgree(refs, valid, freed, elems, next)
    ensures var v := elems[e := elems[e].(index := index)];
      |v| == |elems| && h[e := bit].Keys <= v.Keys && RefsAgree(refs, valid, freed, v, next)
  {
    var v := elems[e := elems[e].(index := index)];
    assert v.Keys == elems.Keys;
    assert |v| == |v.Keys| == |elems.Keys| == |elems|;
  }

  // The element `e` gives its bit back.
  lemma TreeYields(tree: Tree, u: Tree, elems: Elems, h: Holders, min: nat, e: nat)
    requires TreeAgrees(tree, elems, h, min) && e in h && e in elems
    requires Ordered(u) && forall y: Item :: Has(u, y) <==> Has(tree, y) && y != Item(elems[e].index, e)
    ensures TreeAgrees(u, elems, h - {e}, min)
  {
    var g := h - {e};
    forall y: Item ensures Has(u, y) <==> IndexOf(elems, g, min, y.elem) && elems[y.elem].index == y.index {
      if y.elem != e {
        assert IndexOf(elems, g, min, y.elem) <==> IndexOf(elems, h, min, y.elem);
      }
    }
    forall k | k in g ensures IndexOf(elems, g, min, k) {
      assert IndexOf(elems, h, min, k);
    }
  }

  lemma BitsYield(table: seq<bool>, h: Holders, e: nat)
    requires BitsAgree(table, h) && e in h
    ensures h[e] < |table| && BitsAgree(table[h[e] := false], h - {e})
  {
    var g := h - {e};
    var t := table[h[e] := false];
    forall i | 0 <= i < |t| && t[i] ensures exists k :: k in g && g[k] == i {
      var k :| k in h && h[k] == i;
      assert g[k] == i;
    }
  }

  // A live element's references change; nothing else does.
  lemma TreeIgnores(tree: Tree, elems: Elems, h: Holders, min: nat, e: nat, refs: nat)
    requires TreeAgrees(tree, elems, h, min) && e in elems
    ensures TreeAgrees(tree, elems[e := elems[e].(refs := refs)], h, min)
  {
    var v := elems[e := elems[e].(refs := refs)];
    forall y: Item ensures Has(tree, y) <==> IndexOf(v, h, min, y.elem) && v[y.elem].index == y.index {
      assert IndexOf(v, h, min, y.elem) <==> IndexOf(elems, h, min, y.elem);
    }
    forall k | k in h ensures IndexOf(v, h, min, k) {
      assert IndexOf(elems, h, min, k);
    }
  }

  lemma TreeShrinks(tree: Tree, elems: Elems, h: Holders, min: nat, e: nat)
    requires TreeAgrees(tree, elems, h, min) && e !in h
    ensures TreeAgrees(tree, elems - {e}, h, min)
  {
    var v := elems - {e};
    forall y: Item ensures Has(tree, y) <==> IndexOf(v, h, min, y.elem) && v[y.elem].index == y.index {
      assert IndexOf(v, h, min, y.elem) <==> IndexOf(elems, h, min, y.elem);
    }
    forall k | k in h ensures IndexOf(v, h, min, k) {
      assert IndexOf(elems, h, min, k);
    }
  }

  // No element has the index of a free bit.
  lemma IndexFree(table: seq<bool>, tree: Tree, elems: Elems, h: Holders, min: nat, bit: nat)
    requires BitsAgree(table, h) && TreeAgrees(tree, elems, h, min) && |table| < WORD32
    requires bit < |table| && !table[bit]
    ensures Ordered(tree) && forall y: Item :: Has(tree, y) ==> y.index != (bit + min) % WORD32
  {
    forall y: Item | Has(tree, y) ensures y.index != (bit + min) % WORD32 {
      assert IndexOf(elems, h, min, y.elem);
      SameIndex(h[y.elem], bit, min);
    }
  }

  // While some element has no index, some bit is free.
  lemma RoomLeft(table: seq<bool>, elems: Elems, h: Holders, e: nat)
    requires BitsAgree(table, h) && h.Keys <= elems.Keys && |elems| <= |table| && e in elems && e !in h
    ensures exists i :: 0 <= i < |table| && !table[i]
  {
    SubsetSize(h.Keys, elems.Keys - {e});
    FreeBit(table, h);
  }

  class ElemPool {
    const min: nat
    const maxElem: nat
    const table: array<bool>
    var last: nat
    var tree: Tree
    var num: nat                 // num_elem
    var refs: nat                // the pool's ref_cnt
    var valid: bool              // state == BXROCE_POOL_STATE_VALID
    var freed: bool              // the bitmap has been freed
    var elems: Elems             // the live elements
    var next: nat                // a name for the next one
    ghost var holders: Holders

    /** Count, references, bitmap and tree agree. */
    ghost predicate Valid()
      reads this, table
    {
      && num == |elems| <= maxElem <= table.Length < WORD32 && last <= table.Length
      && holders.Keys <= elems.Keys
      && RefsAgree(refs, valid, freed, elems, next)
      && BitsAgree(table[..], holders)
      && TreeAgrees(tree, elems, holders, min)
    }

    // bxroce_pool_init, the sizes having been found sufficient
    constructor (max: nat, min: nat, maxElem: nat)
      requires max < WORD32 && min < WORD32 && maxElem <= (max - min + 1) % WORD32
      ensures Valid() && valid && elems == map[] && table.Length == (max - min + 1) % WORD32
      ensures this.min == min && this.maxElem == maxElem && fresh(table)
    {
      this.min, this.maxElem := min, maxElem;
      table := new bool[(max - min + 1) % WORD32](_ => false);
      last, tree, num, refs, valid, freed := 0, Leaf, 0, 1, true, false;
      elems, next, holders := map[], 0, map[];
    }

    // bxroce_pool_put
    method Put()
      requires refs > 0 && !freed
      modifies this`refs, this`valid, this`freed
      ensures refs == old(refs) - 1 && (freed <==> refs == 0)
      ensures valid == (old(valid) && refs != 0)
    {
      refs := refs - 1;
      if refs == 0 {
        valid := false;
        freed := true;
      }
    }

    /** bxroce_alloc. Whatever goes wrong, both counts are as before. */
    method Alloc(memory: bool) returns (elem: Option<nat>)
      requires Valid()
      modifies this`num, this`refs, this`elems, this`next, this`valid, this`freed
      ensures Valid() && valid == old(valid)
      ensures elem.Some? <==> valid && |old(elems)| < maxElem && memory
      ensures elem.None? ==> elems == old(elems)
      ensures elem.Some? ==> elem.value !in old(elems) && elems == old(elems)[elem.value := Elem(1, 0)]
    {
      hide BitsAgree, TreeAgrees;
      if !valid {
        return None;
      }
      assert next !in elems;
      refs := refs + 1;
      num := num + 1;
      if num > maxElem || !memory {
        num := num - 1;
        Put();
        return None;
      }
      elem := Some(next);
      TreeGrows(tree, elems, holders, min, next, Elem(1, 0));
      elems := elems[next := Elem(1, 0)];
      next := next + 1;
    }

    // find_next_zero_bit
    method FindZero(from: nat) returns (i: nat)
      requires from <= table.Length
      ensures from <= i <= table.Length && AllSet(table[..], from, i) && (i < table.Length ==> !table[i])
    {
      i := from;
      while i < table.Length && table[i]
        invariant from <= i <= table.Length && AllSet(table[..], from, i)
      {
        i := i + 1;
      }
    }

    /** alloc_index, when some bit is free: which one is taken, and that it is
        one of the bitmap's, so that the warning cannot appear. */
    method AllocIndex() returns (index: nat, ghost bit: nat, warned: bool)
      requires last <= table.Length < WORD32 && exists i :: 0 <= i < table.Length && !table[i]
      modifies this`last, table
      ensures !warned && NextFit(old(table[..]), old(last), bit) && last == bit
      ensures index == (bit + min) % WORD32 && table[..] == old(table[..])[bit := true]
    {
      var i := FindZero(last);
      if i >= table.Length {
        i := FindZero(0);
      }
      warned := i >= table.Length;
      table[i] := true;
      last := i;
      bit := i;
      index := (i + min) % WORD32;
    }

    /** bxroce_add_index, once for an element: a free index is found without a
        warning, and no element has it already. */
    method AddIndex(e: nat) returns (warned: bool, duplicate: bool)
      requires Valid() && e in elems && e !in holders
      modifies this`last, this`tree, this`elems, this`holders, table
      ensures Valid() && !warned && !duplicate
      ensures e in holders && NextFit(old(table[..]), old(last), holders[e]) && holders == old(holders)[e := holders[e]]
      ensures elems == old(elems)[e := old(elems)[e].(index := (holders[e] + min) % WORD32)]
      ensures table[..] == old(table[..])[holders[e] := true]
    {
      hide BitsAgree, TreeAgrees, NextFit, RefsAgree, Has, Ordered;
      ghost var was := table[..];
      RoomLeft(was, elems, holders, e);
      var index;
      ghost var bit;
      index, bit, warned := AllocIndex();
      BitFree(was, old(last), bit);
      IndexFree(was, tree, elems, holders, min, bit);
      var u;
      u, duplicate := Insert(tree, Item(index, e));
      TreeTakes(tree, u, elems, holders, min, e, bit);
      BitsTake(was, holders, e, bit);
      MapsTake(elems, holders, e, bit, index, next, refs, valid, freed);
      elems := elems[e := elems[e].(index := index)];
      holders := holders[e := bit];
      tree := u;
    }

    /** bxroce_drop_index: the element stays alive, but cannot be found. */
    method DropIndex(e: nat)
      requires Valid() && e in holders
      modifies this`tree, this`holders, table
      ensures Valid() && holders == old(holders) - {e}
      ensures old(holders)[e] < table.Length && table[..] == old(table[..])[old(holders)[e] := false]
    {
      assert IndexOf(elems, holders, min, e);
      assert Has(tree, Item(elems[e].index, e));
      WordOffset(holders[e], min);
      BitsYield(table[..], holders, e);
      table[(elems[e].index - min) % WORD32] := false;
      var u := Erase(tree, Item(elems[e].index, e));
      TreeYields(tree, u, elems, holders, min, e);
      tree := u;
      holders := holders - {e};
    }

    // kref_get on a live element
    method AddRef(e: nat)
      requires Valid() && e in elems
      modifies this`elems
      ensures Valid() && elems == old(elems)[e := old(elems)[e].(refs := old(elems)[e].refs + 1)]
    {
      TreeIgnores(tree, elems, holders, min, e, elems[e].refs + 1);
      elems := elems[e := elems[e].(refs := elems[e].refs + 1)];
    }

    /** kref_put on a live element, with bxroce_elem_release at the last
        reference, by when its index must have been dropped. */
    method DropRef(e: nat) returns (released: bool)
      requires Valid() && e in elems && (elems[e].refs == 1 ==> e !in holders)
      modifies this`elems, this`num, this`refs, this`valid, this`freed
      ensures Valid() && valid == old(valid) && (released <==> old(elems)[e].refs == 1)
      ensures elems == if released then old(elems) - {e} else old(elems)[e := old(elems)[e].(refs := old(elems)[e].refs - 1)]
    {
      hide BitsAgree, TreeAgrees;
      released := elems[e].refs == 1;
      if released {
        TreeShrinks(tree, elems, holders, min, e);
        assert |elems - {e}| == |elems| - 1 by {
          assert elems == (elems - {e})[e := elems[e]];
        }
        elems := elems - {e};
        num := num - 1;
        Put();
      } else {
        TreeIgnores(tree, elems, holders, min, e, elems[e].refs - 1);
        elems := elems[e := elems[e].(refs := elems[e].refs - 1)];
      }
    }

    /** bxroce_pool_get_index: found, and held, exactly if some element has the
        index and the pool is still in use. */
    method GetIndex(index: nat) returns (elem: Option<nat>)
      requires Valid()
      modifies this`elems
      ensures Valid()
      ensures elem.Some? <==> valid && exists e :: e in holders && e in old(elems) && old(elems)[e].index == index
      ensures elem.Some? ==> elem.value in holders && elem.value in old(elems) && old(elems)[elem.value].index == index
      ensures elems == if elem.Some? then old(elems)[elem.value := Elem(old(elems)[elem.value].refs + 1, index)] else old(elems)
    {
      if !valid {
        return None;
      }
      var e, found := Lookup(tree, index);
      if !found {
        forall k | k in holders && k in elems ensures elems[k].index != index {
          assert IndexOf(elems, holders, min, k);
          assert Has(tree, Item(elems[k].index, k));
        }
        return None;
      }
      assert IndexOf(elems, holders, min, e);
      AddRef(e);
      return Some(e);
    }

    /** bxroce_pool_cleanup. The bitmap outlives it for as long as there are
        elements. */
    method Cleanup() returns (warned: bool)
      requires Valid() && valid
      modifies this`valid, this`refs, this`freed
      ensures Valid() && !valid && (warned <==> elems != map[]) && (freed <==> elems == map[])
    {
      valid := false;
      warned := num > 0;
      Put();
    }
  }

  /** bxroce_pool_init for a type with indices: an error if there are fewer
      indices than elements allowed, counted in 32 bits, or no memory. */
  method Init(max: nat, min: nat, maxElem: nat, memory: bool) returns (pool: ElemPool?)
    requires max < WORD32 && min < WORD32 && maxElem < WORD32
    ensures pool != null <==> maxElem <= (max - min + 1) % WORD32 && memory
    ensures pool != null ==> pool.Valid() && pool.valid && pool.elems == map[] && fresh(pool) && fresh(pool.table)
    ensures pool != null ==> pool.min == min && pool.maxElem == maxElem && pool.table.Length == (max - min + 1) % WORD32
  {
    if (max - min + 1) % WORD32 < maxElem || !memory {
      return null;
    }
    pool := new ElemPool(max, min, maxElem);
  }

  // ------------------------------------------------------ memory region keys

  const INDEX_RANGE: nat := 0x100_0000   // what is left of an index shifted by 8 bits

  // bxroce_mem_init: index << 8 | key
  function LocalKey(index: nat, key: nat): nat
    requires key < 256
  {
    (index * 256) % WORD32 + key
  }

  /** A key is the tag in its lowest byte and the lower 24 bits of the index above
      it. So two regions share a key just when their indices agree in these bits
      and the same tag was drawn; regions of one pool whose indices
      stay below 2^24 never do. */
  lemma KeysCollide(a: nat, b: nat, s: nat, t: nat)
    requires s < 256 && t < 256
    ensures LocalKey(a, s) % 256 == s && LocalKey(a, s) / 256 == a % INDEX_RANGE
    ensures LocalKey(a, s) == LocalKey(b, t) <==> a % INDEX_RANGE == b % INDEX_RANGE && s == t
    ensures a < b < INDEX_RANGE ==> LocalKey(a, s) != LocalKey(b, t)
  {
    Shifted(a);
    Shifted(b);
  }

  lemma Shifted(a: nat)
    ensures (a * 256) % WORD32 == (a % INDEX_RANGE) * 256
  {
    var q, r := a / INDEX_RANGE, a % INDEX_RANGE;
    assert a == q * INDEX_RANGE + r;
    assert a * 256 == q * WORD32 + r * 256;
  }
}
