/** The pool's tree of elements, ordered by index. What the kernel's red-black
    rebalancing does to its shape is left open: any ordered tree with the same
    elements will do. */
module SearchTree {

  datatype Item = Item(index: nat, elem: nat)

  datatype Tree = Leaf | Node(left: Tree, item: Item, right: Tree)

  function InOrder(t: Tree): seq<Item> {
    if t.Leaf? then [] else InOrder(t.left) + [t.item] + InOrder(t.right)
  }

  predicate Sorted(s: seq<Item>) {
    forall i, j :: 0 <= i < j < |s| ==> s[i].index < s[j].index
  }

  predicate Ordered(t: Tree) { Sorted(InOrder(t)) }

  predicate Has(t: Tree, x: Item) { x in InOrder(t) }

  function Items(t: Tree): set<Item> { set x | x in InOrder(t) }

  lemma Parts(t: Tree)
    requires Ordered(t) && t.Node?
    ensures Ordered(t.left) && Ordered(t.right)
    ensures forall x: Item :: Has(t, x) <==> Has(t.left, x) || x == t.item || Has(t.right, x)
    ensures forall x: Item :: Has(t.left, x) ==> x.index < t.item.index
    ensures forall x: Item :: Has(t.right, x) ==> x.index > t.item.index
  {
    var l, r := InOrder(t.left), InOrder(t.right);
    var s := l + [t.item] + r;
    assert forall i :: 0 <= i < |l| ==> s[i] == l[i];
    assert forall i :: 0 <= i < |r| ==> s[|l| + 1 + i] == r[i];
    assert s[|l|] == t.item;
  }

  lemma Join(l: Tree, x: Item, r: Tree)
    requires Ordered(l) && Ordered(r)
    requires (forall y: Item :: Has(l, y) ==> y.index < x.index) && (forall y: Item :: Has(r, y) ==> x.index < y.index)
    ensures Ordered(Node(l, x, r))
    ensures forall y: Item :: Has(Node(l, x, r), y) <==> Has(l, y) || y == x || Has(r, y)
  {
    var a, b := InOrder(l), InOrder(r);
    assert forall i :: 0 <= i < |a| ==> Has(l, a[i]);
    assert forall i :: 0 <= i < |b| ==> Has(r, b[i]);
  }

  // ------------------------------------------------------------- descending

  /** The way an insertion of `k` goes down, one turn at a time. */
  ghost predicate OnWay(t: Tree, way: seq<bool>, k: nat)
    decreases |way|
  {
    way == [] || (t.Node? && t.item.index != k && way[0] == (t.item.index > k)
                  && OnWay(if way[0] then t.left else t.right, way[1..], k))
  }

  ghost function At(t: Tree, way: seq<bool>): Tree
    decreases |way|
  {
    if way == [] || t.Leaf? then t else At(if way[0] then t.left else t.right, way[1..])
  }

  lemma {:induction false} OneTurn(t: Tree, way: seq<bool>, k: nat)
    requires OnWay(t, way, k) && At(t, way).Node? && At(t, way).item.index != k
    ensures var n := At(t, way);
      var turn := n.item.index > k;
      OnWay(t, way + [turn], k) && At(t, way + [turn]) == if turn then n.left else n.right
    decreases |way|
  {
    var turn := At(t, way).item.index > k;
    if way != [] {
      OneTurn(if way[0] then t.left else t.right, way[1..], k);
      assert (way + [turn])[1..] == way[1..] + [turn];
    } else {
      assert (way + [turn])[1..] == [];
    }
  }

  // rb_link_node: the new element where the way down ended
  function Link(t: Tree, way: seq<bool>, x: Item): Tree
    decreases |way|
  {
    if way == [] || t.Leaf? then Node(Leaf, x, Leaf)
    else if way[0] then Node(Link(t.left, way[1..], x), t.item, t.right)
    else Node(t.left, t.item, Link(t.right, way[1..], x))
  }

  /** An element with the index looked for can only be where the way leads. */
  lemma {:induction false} Narrowed(t: Tree, way: seq<bool>, k: nat)
    requires Ordered(t) && OnWay(t, way, k)
    ensures Ordered(At(t, way))
    ensures forall x: Item :: x.index == k ==> (Has(t, x) <==> Has(At(t, way), x))
    decreases |way|
  {
    if way != [] {
      Parts(t);
      Narrowed(if way[0] then t.left else t.right, way[1..], k);
    }
  }

  lemma {:induction false} LinkAdds(t: Tree, way: seq<bool>, x: Item)
    requires Ordered(t) && OnWay(t, way, x.index) && At(t, way).Leaf?
    ensures Ordered(Link(t, way, x))
    ensures forall y: Item :: Has(Link(t, way, x), y) <==> Has(t, y) || y == x
    decreases |way|
  {
    if t.Leaf? {
      Join(Leaf, x, Leaf);
    } else {
      Parts(t);
      if way[0] {
        LinkAdds(t.left, way[1..], x);
        Join(Link(t.left, way[1..], x), t.item, t.right);
      } else {
        LinkAdds(t.right, way[1..], x);
        Join(t.left, t.item, Link(t.right, way[1..], x));
      }
    }
  }

  // --------------------------------------------------------------- removing

  // Two trees, everything in `l` before everything in `r`, made one.
  function Merge(l: Tree, r: Tree): Tree {
    if l.Leaf? then r else Node(l.left, l.item, Merge(l.right, r))
  }

  lemma {:induction false} MergeIs(l: Tree, r: Tree)
    ensures InOrder(Merge(l, r)) == InOrder(l) + InOrder(r)
  {
    if l.Node? {
      MergeIs(l.right, r);
    }
  }

  // The tree without the element with index `k`.
  function Cut(t: Tree, k: nat): Tree {
    if t.Leaf? then t
    else if t.item.index == k then Merge(t.left, t.right)
    else if t.item.index > k then Node(Cut(t.left, k), t.item, t.right)
    else Node(t.left, t.item, Cut(t.right, k))
  }

  /** Cutting out an element keeps the order and every other element. */
  lemma {:induction false} CutRemoves(t: Tree, k: nat)
    requires Ordered(t)
    ensures Ordered(Cut(t, k))
    ensures forall y: Item :: Has(Cut(t, k), y) <==> Has(t, y) && y.index != k
  {
    if t.Node? {
      Parts(t);
      if t.item.index == k {
        MergeIs(t.left, t.right);
        MergeSorted(t);
      } else if t.item.index > k {
        CutRemoves(t.left, k);
        Join(Cut(t.left, k), t.item, t.right);
      } else {
        CutRemoves(t.right, k);
        Join(t.left, t.item, Cut(t.right, k));
      }
    }
  }

  // What is left around the element at the root is in order.
  lemma MergeSorted(t: Tree)
    requires Ordered(t) && t.Node?
    ensures Sorted(InOrder(t.left) + InOrder(t.right))
  {
    var l, r := InOrder(t.left), InOrder(t.right);
    var s := l + [t.item] + r;
    forall i, j | 0 <= i < j < |l + r| ensures (l + r)[i].index < (l + r)[j].index {
      assert (l + r)[i] == s[if i < |l| then i else i + 1];
      assert (l + r)[j] == s[if j < |l| then j else j + 1];
    }
  }

  // ------------------------------------------------------------- operations

  /** The loop of bxroce_pool_get_index. */
  method Lookup(t: Tree, index: nat) returns (elem: nat, found: bool)
    requires Ordered(t)
    ensures found ==> Has(t, Item(index, elem))
    ensures !found ==> forall x: Item :: Has(t, x) ==> x.index != index
  {
    var node := t;
    while node.Node?
      invariant Ordered(node)
      invariant forall x: Item :: x.index == index ==> (Has(t, x) <==> Has(node, x))
      decreases node
    {
      Parts(node);
      if node.item.index > index {
        node := node.left;
      } else if node.item.index < index {
        node := node.right;
      } else {
        assert node.item == Item(index, node.item.elem);
        return node.item.elem, true;
      }
    }
    return 0, false;
  }

  /** insert_index: nothing happens if the index is taken already. */
  method Insert(t: Tree, x: Item) returns (u: Tree, exists_: bool)
    requires Ordered(t)
    ensures Ordered(u) && (exists_ <==> exists y: Item :: Has(t, y) && y.index == x.index)
    ensures exists_ ==> u == t
    ensures !exists_ ==> forall y: Item :: Has(u, y) <==> Has(t, y) || y == x
  {
    var node, way := t, [];
    while node.Node?
      invariant OnWay(t, way, x.index) && node == At(t, way)
      decreases node
    {
      Narrowed(t, way, x.index);
      if node.item.index == x.index {
        assert Has(node, node.item);
        return t, true;
      }
      OneTurn(t, way, x.index);
      way := way + [node.item.index > x.index];
      node := if node.item.index > x.index then node.left else node.right;
    }
    Narrowed(t, way, x.index);
    LinkAdds(t, way, x);
    // rb_insert_color: some other shape
    var linked := Link(t, way, x);
    u :| Ordered(u) && Items(u) == Items(linked);
    assert forall y: Item :: Has(u, y) <==> y in Items(u);
    assert forall y: Item :: Has(linked, y) <==> y in Items(linked);
    return u, false;
  }

  /** rb_erase: the element cut out, in some other shape. */
  method Erase(t: Tree, x: Item) returns (u: Tree)
    requires Ordered(t) && Has(t, x)
    ensures Ordered(u) && forall y: Item :: Has(u, y) <==> Has(t, y) && y != x
  {
    var cut := Cut(t, x.index);
    CutRemoves(t, x.index);
    IndicesDiffer(t, x);
    u :| Ordered(u) && Items(u) == Items(cut);
    assert forall y: Item :: Has(u, y) <==> y in Items(u);
    assert forall y: Item :: Has(cut, y) <==> y in Items(cut);
  }

  // An ordered tree has one element to an index.
  lemma IndicesDiffer(t: Tree, x: Item)
    requires Ordered(t) && Has(t, x)
    ensures forall y: Item :: Has(t, y) && y.index == x.index ==> y == x
  {
  }
}
