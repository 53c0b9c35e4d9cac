/**
 * `AVLTree`: the index of the record store, a self-balancing binary search
 * tree whose every node holds a key and the list of values stored under it.
 *
 * The tree is a value of the datatype `Tree`; its contents are the entries
 * read in key order (`Entries`), and each operation is specified by what it
 * does to them (module `SortedEntries`).  Keys are integers compared
 * numerically, as every comparer the store uses does; a missing child has
 * height -1, so a leaf has height 0.
 */
module AVLTrees {
  import opened Bytes
  import opened SortedEntries

  datatype Tree<V> = Nil | Node(left: Tree<V>, key: int, values: seq<V>, right: Tree<V>)

  function Max(a: int, b: int): int { if a < b then b else a }

  /** `Node.Height`: -1 for a missing node, else one more than the taller child. */
  function Height<V>(t: Tree<V>): (h: int)
    ensures h >= -1 && (t.Node? ==> h >= 0)
  {
    if t.Nil? then -1 else Max(Height(t.left), Height(t.right)) + 1
  }

  /** A path from the root passes each node once, so the height is below the number of nodes. */
  lemma {:induction false} HeightBelowSize<V>(t: Tree<V>)
    ensures Height(t) < |Entries(t)|
  {
    if t.Node? {
      HeightBelowSize(t.left);
      HeightBelowSize(t.right);
    }
  }

  /** Every node's balance factor is -1, 0 or 1. */
  ghost predicate Balanced<V>(t: Tree<V>)
  {
    t.Node? ==> Balanced(t.left) && Balanced(t.right) && -1 <= Height(t.left) - Height(t.right) <= 1
  }

  /** The entries of the tree read in order: left subtree, node, right subtree. */
  function Entries<V>(t: Tree<V>): seq<Entry<V>>
  {
    if t.Nil? then [] else Entries(t.left) + [Entry(t.key, t.values)] + Entries(t.right)
  }

  // --------------------------------------------------------------- rotations

  /** `RotateRight`: the left child takes the node's place; the order is kept. */
  function RotateRight<V>(t: Tree<V>): (r: Tree<V>)
    requires t.Node? && t.left.Node?
    ensures r.Node? && Entries(r) == Entries(t)
  {
    var l := t.left;
    var r := Node(l.left, l.key, l.values, Node(l.right, t.key, t.values, t.right));
    assert Entries(r) == Entries(l.left) + [Entry(l.key, l.values)]
                         + (Entries(l.right) + [Entry(t.key, t.values)] + Entries(t.right));
    r
  }

  /** `RotateLeft`: the right child takes the node's place; the order is kept. */
  function RotateLeft<V>(t: Tree<V>): (r: Tree<V>)
    requires t.Node? && t.right.Node?
    ensures r.Node? && Entries(r) == Entries(t)
  {
    var rt := t.right;
    var r := Node(Node(t.left, t.key, t.values, rt.left), rt.key, rt.values, rt.right);
    assert Entries(t) == Entries(t.left) + [Entry(t.key, t.values)]
                         + (Entries(rt.left) + [Entry(rt.key, rt.values)] + Entries(rt.right));
    r
  }

  /**
   * Restores the balance of a node whose children differ in height by two:
   * a single rotation when the taller child leans outwards or not at all,
   * else a double rotation.  A node whose
   * balance factor is within one is left alone.
   */
  function Rebalance<V>(t: Tree<V>): (r: Tree<V>)
    requires t.Node?
    ensures r.Node? && Entries(r) == Entries(t)
  {
    var l, rt := t.left, t.right;
    if Height(l) - Height(rt) > 1 then
      if Height(l.left) >= Height(l.right) then RotateRight(t)
      else RotateRight(Node(RotateLeft(l), t.key, t.values, rt))
    else if Height(rt) - Height(l) > 1 then
      if Height(rt.right) >= Height(rt.left) then RotateLeft(t)
      else RotateLeft(Node(l, t.key, t.values, RotateRight(rt)))
    else t
  }

  /**
   * Rebalancing a node with balanced children that differ in height by at
   * most two gives a balanced tree; it keeps the height when the node was
   * already balanced, and otherwise gives the taller child's height or one
   * more.
   */
  lemma RebalanceBalanced<V>(t: Tree<V>)
    requires t.Node? && Balanced(t.left) && Balanced(t.right)
    requires -2 <= Height(t.left) - Height(t.right) <= 2
    ensures Balanced(Rebalance(t))
    ensures -1 <= Height(t.left) - Height(t.right) <= 1 ==> Rebalance(t) == t
    ensures var m := Max(Height(t.left), Height(t.right));
            m <= Height(Rebalance(t)) <= m + 1
  {
    if Height(t.left) - Height(t.right) > 1 {
      RebalanceLeftHeavy(t);
    } else if Height(t.right) - Height(t.left) > 1 {
      RebalanceRightHeavy(t);
    }
  }

  /** A node whose left child is two levels taller is balanced by one or two rotations. */
  lemma RebalanceLeftHeavy<V>(t: Tree<V>)
    requires t.Node? && Balanced(t.left) && Balanced(t.right)
    requires Height(t.left) - Height(t.right) == 2
    ensures Balanced(Rebalance(t))
    ensures Height(t.left) <= Height(Rebalance(t)) <= Height(t.left) + 1
  {
    var l, rt := t.left, t.right;
    if Height(l.left) >= Height(l.right) {
      var n := Node(l.right, t.key, t.values, rt);
      assert Rebalance(t) == Node(l.left, l.key, l.values, n);
      assert Height(n) == Height(l.right) + 1;
    } else {
      var lr := l.right;
      DoubleRotationBalanced(l.left, l.key, l.values, lr, t.key, t.values, rt);
      assert Rebalance(t) == Node(Node(l.left, l.key, l.values, lr.left), lr.key, lr.values,
                                  Node(lr.right, t.key, t.values, rt));
    }
  }

  /** A node whose right child is two levels taller is balanced by one or two rotations. */
  lemma RebalanceRightHeavy<V>(t: Tree<V>)
    requires t.Node? && Balanced(t.left) && Balanced(t.right)
    requires Height(t.right) - Height(t.left) == 2
    ensures Balanced(Rebalance(t))
    ensures Height(t.right) <= Height(Rebalance(t)) <= Height(t.right) + 1
  {
    var l, rt := t.left, t.right;
    if Height(rt.right) >= Height(rt.left) {
      var n := Node(l, t.key, t.values, rt.left);
      assert Rebalance(t) == Node(n, rt.key, rt.values, rt.right);
      assert Height(n) == Height(rt.left) + 1;
    } else {
      var rl := rt.left;
      DoubleRotationBalanced(l, t.key, t.values, rl, rt.key, rt.values, rt.right);
      assert Rebalance(t) == Node(Node(l, t.key, t.values, rl.left), rl.key, rl.values,
                                  Node(rl.right, rt.key, rt.values, rt.right));
    }
  }

  /**
   * The tree a double rotation builds: the middle subtree `m`'s root on top,
   * its children shared out between the outer subtrees `a` and `c`.
   */
  lemma DoubleRotationBalanced<V>(a: Tree<V>, ak: int, avs: seq<V>, m: Tree<V>, ck: int, cvs: seq<V>, c: Tree<V>)
    requires m.Node? && Balanced(a) && Balanced(m) && Balanced(c)
    requires Height(m) == Height(a) + 1 && Height(a) == Height(c)
    ensures var r := Node(Node(a, ak, avs, m.left), m.key, m.values, Node(m.right, ck, cvs, c));
            Balanced(r) && Height(r) == Height(m) + 1
  {
    assert Height(Node(a, ak, avs, m.left)) == Height(a) + 1;
    assert Height(Node(m.right, ck, cvs, c)) == Height(c) + 1;
  }

  // --------------------------------------------------------------- insertion

  /** The list a key holds after `Add`: the old one (or none) emptied when asked, plus the item. */
  function AddedValues<V>(old_: Option<seq<V>>, item: V, clearValues: bool): seq<V>
  {
    (if clearValues || old_.None? then [] else old_.value) + [item]
  }

  /**
   * `Add` as a descent: a missing key gets a new leaf, an existing key gets
   * the item appended (after its list is emptied when `clearValues` is set),
   * and every node on the way back up is rebalanced.
   */
  function Insert<V>(t: Tree<V>, key: int, item: V, clearValues: bool): (r: Tree<V>)
    ensures r.Node?
  {
    if t.Nil? then Node(Nil, key, [item], Nil)
    else if t.key == key then Node(t.left, t.key, AddedValues(Some(t.values), item, clearValues), t.right)
    else if t.key > key then Rebalance(Node(Insert(t.left, key, item, clearValues), t.key, t.values, t.right))
    else Rebalance(Node(t.left, t.key, t.values, Insert(t.right, key, item, clearValues)))
  }

  /** Inserting stores the added list under the key and keeps every other entry. */
  lemma {:induction false} InsertEntries<V>(t: Tree<V>, key: int, item: V, clearValues: bool)
    requires Sorted(Entries(t))
    ensures Entries(Insert(t, key, item, clearValues))
         == Put(Entries(t), key, AddedValues(Lookup(Entries(t), key), item, clearValues))
  {
    if t.Node? {
      var e := Entry(t.key, t.values);
      var el, er := Entries(t.left), Entries(t.right);
      SortedSplit(el, e, er);
      LookupSplit(el, e, er, key);
      var vs := AddedValues(Lookup(Entries(t), key), item, clearValues);
      if t.key == key {
        PutSplitHere(el, e, er, vs);
      } else if t.key > key {
        InsertEntries(t.left, key, item, clearValues);
        PutSplitLeft(el, e, er, key, vs);
      } else {
        InsertEntries(t.right, key, item, clearValues);
        PutSplitRight(el, e, er, key, vs);
      }
    } else {
      assert AddedValues(Lookup(Entries(t), key), item, clearValues) == [item];
      assert Entries(Insert(t, key, item, clearValues)) == [] + [Entry(key, [item])] + [];
    }
  }

  /** Inserting into a balanced tree gives a balanced tree at most one level taller. */
  lemma {:induction false} InsertBalanced<V>(t: Tree<V>, key: int, item: V, clearValues: bool)
    requires Balanced(t)
    ensures Balanced(Insert(t, key, item, clearValues))
    ensures Height(t) <= Height(Insert(t, key, item, clearValues)) <= Height(t) + 1
  {
    if t.Node? && t.key != key {
      if t.key > key {
        InsertBalanced(t.left, key, item, clearValues);
        GrownChildBalanced(Node(Insert(t.left, key, item, clearValues), t.key, t.values, t.right), t);
      } else {
        InsertBalanced(t.right, key, item, clearValues);
        GrownChildBalanced(Node(t.left, t.key, t.values, Insert(t.right, key, item, clearValues)), t);
      }
    }
  }

  /**
   * `RemoveNode` as written: the same descent, except that a node with two
   * children whose smallest right node is its right child itself is
   * replaced by that child with its right link set to null, so the child's
   * own right subtree is dropped.
   */
  function DeleteAsWritten<V>(t: Tree<V>, key: int): Tree<V>
  {
    if t.Nil? then Nil
    else if key < t.key then Rebalance(Node(DeleteAsWritten(t.left, key), t.key, t.values, t.right))
    else if key > t.key then Rebalance(Node(t.left, t.key, t.values, DeleteAsWritten(t.right, key)))
    else if t.left.Nil? then t.right
    else if t.right.Nil? then t.left
    else if t.right.left.Nil? then Rebalance(Node(t.left, t.right.key, t.right.values, Nil))
    else
      var (e, r') := DeleteMin(t.right);
      Rebalance(Node(t.left, e.key, e.values, r'))
  }

  /**
   * Removing a node with two children whose right child has no left child:
   * the removal as written keeps the left subtree and the right child, and
   * loses every entry under the right child's right link, which the
   * intended removal keeps.
   */
  lemma RemoveNodeDropsRightGrandchildren<V>(t: Tree<V>)
    requires t.Node? && t.left.Node? && t.right.Node? && t.right.left.Nil?
    ensures Entries(DeleteAsWritten(t, t.key)) == Entries(t.left) + [Entry(t.right.key, t.right.values)]
    ensures Entries(Delete(t, t.key)) == Entries(t.left) + [Entry(t.right.key, t.right.values)] + Entries(t.right.right)
  {
    assert Entries(Node(t.left, t.right.key, t.right.values, Nil)) == Entries(t.left) + [Entry(t.right.key, t.right.values)] + [];
  }

  /**
   * Keys 15, 20, 25 and 30 added in that order, then 20 removed: the
   * removal as written loses key 30, the intended removal keeps it.
   */
  lemma RemoveTwentyLosesThirty(v: int)
    ensures var t := Insert(Insert(Insert(Insert(Nil, 15, v, false), 20, v, false), 25, v, false), 30, v, false);
            Entries(DeleteAsWritten(t, 20)) == [Entry(15, [v]), Entry(25, [v])]
            && Entries(Delete(t, 20)) == [Entry(15, [v]), Entry(25, [v]), Entry(30, [v])]
  {
    var leaf15, leaf30 := Node(Nil, 15, [v], Nil), Node(Nil, 30, [v], Nil);
    var leaf20, leaf25 := Node(Nil, 20, [v], Nil), Node(Nil, 25, [v], Nil);
    var t2 := Node(Nil, 15, [v], leaf20);
    assert Insert(Nil, 15, v, false) == leaf15;
    assert Insert(leaf15, 20, v, false) == t2;
    assert Insert(leaf20, 25, v, false) == Node(Nil, 20, [v], leaf25);
    var t3 := Node(leaf15, 20, [v], leaf25);
    assert Insert(t2, 25, v, false) == t3;
    assert Insert(leaf25, 30, v, false) == Node(Nil, 25, [v], leaf30);
    var t := Node(leaf15, 20, [v], Node(Nil, 25, [v], leaf30));
    assert Insert(t3, 30, v, false) == t;
    RemoveNodeDropsRightGrandchildren(t);
  }

  /**
   * A balanced node one of whose children has been replaced by a balanced
   * tree at most one level higher rebalances to a balanced tree at most one
   * level higher than before.
   */
  lemma GrownChildBalanced<V>(n: Tree<V>, t: Tree<V>)
    requires t.Node? && Balanced(t) && n.Node? && Balanced(n.left) && Balanced(n.right)
    requires (n.left == t.left && Height(t.right) <= Height(n.right) <= Height(t.right) + 1)
          || (n.right == t.right && Height(t.left) <= Height(n.left) <= Height(t.left) + 1)
    ensures Balanced(Rebalance(n))
    ensures Height(t) <= Height(Rebalance(n)) <= Height(t) + 1
  {
    RebalanceBalanced(n);
  }

  // ----------------------------------------------------------------- removal

  /**
   * Detaches the node with the smallest key, the leftmost one, and
   * rebalances every node on the way back up.
   */
  function DeleteMin<V>(t: Tree<V>): (r: (Entry<V>, Tree<V>))
    requires t.Node?
    ensures [r.0] + Entries(r.1) == Entries(t)
  {
    if t.left.Nil? then (Entry(t.key, t.values), t.right)
    else
      var (e, l') := DeleteMin(t.left);
      (e, Rebalance(Node(l', t.key, t.values, t.right)))
  }

  lemma {:induction false} DeleteMinBalanced<V>(t: Tree<V>)
    requires t.Node? && Balanced(t)
    ensures Balanced(DeleteMin(t).1)
    ensures Height(t) - 1 <= Height(DeleteMin(t).1) <= Height(t)
  {
    if t.left.Node? {
      DeleteMinBalanced(t.left);
      RebalanceBalanced(Node(DeleteMin(t.left).1, t.key, t.values, t.right));
    }
  }

  /**
   * `RemoveNode` reached by a descent: a node with at most one child is
   * replaced by that child; a node with two is replaced by the smallest node
   * of its right subtree; every node on the way back up is rebalanced.
   */
  function Delete<V>(t: Tree<V>, key: int): Tree<V>
  {
    if t.Nil? then Nil
    else if key < t.key then Rebalance(Node(Delete(t.left, key), t.key, t.values, t.right))
    else if key > t.key then Rebalance(Node(t.left, t.key, t.values, Delete(t.right, key)))
    else if t.left.Nil? then t.right
    else if t.right.Nil? then t.left
    else
      var (e, r') := DeleteMin(t.right);
      Rebalance(Node(t.left, e.key, e.values, r'))
  }

  /** Deleting drops the key's entry and keeps every other entry. */
  lemma {:induction false} DeleteEntries<V>(t: Tree<V>, key: int)
    requires Sorted(Entries(t))
    ensures Entries(Delete(t, key)) == Remove(Entries(t), key)
  {
    if t.Node? {
      RemoveAtNode(t, key);
      if key < t.key {
        DeleteEntries(t.left, key);
      } else if key > t.key {
        DeleteEntries(t.right, key);
      } else if t.left.Node? && t.right.Node? {
        var (m, r') := DeleteMin(t.right);
        assert Entries(t.right) == [m] + Entries(r');
      }
    }
  }

  /**
   * Removing a key from a node's entries removes it from the side of the
   * node that can hold it and leaves the other side alone.
   */
  lemma RemoveAtNode<V>(t: Tree<V>, key: int)
    requires t.Node? && Sorted(Entries(t))
    ensures Sorted(Entries(t.left)) && Sorted(Entries(t.right))
    ensures key < t.key ==>
      Remove(Entries(t), key) == Remove(Entries(t.left), key) + [Entry(t.key, t.values)] + Entries(t.right)
    ensures key > t.key ==>
      Remove(Entries(t), key) == Entries(t.left) + [Entry(t.key, t.values)] + Remove(Entries(t.right), key)
    ensures key == t.key ==> Remove(Entries(t), key) == Entries(t.left) + Entries(t.right)
  {
    var e := Entry(t.key, t.values);
    var el, er := Entries(t.left), Entries(t.right);
    SortedSplit(el, e, er);
    RemoveConcat(el + [e], er, key);
    RemoveConcat(el, [e], key);
    assert Remove([e], key) == if t.key == key then [] else [e] by {
      assert [e][1..] == [];
    }
    if key < t.key {
      RemoveAbsent(er, key);
    } else if key > t.key {
      RemoveAbsent(el, key);
    } else {
      RemoveAbsent(el, key);
      RemoveAbsent(er, key);
      assert Remove(el + [e], key) == el by {
        assert el + [] == el;
      }
    }
  }

  /** Deleting from a balanced tree gives a balanced tree at most one level lower. */
  lemma {:induction false} DeleteBalanced<V>(t: Tree<V>, key: int)
    requires Balanced(t)
    ensures Balanced(Delete(t, key))
    ensures Height(t) - 1 <= Height(Delete(t, key)) <= Height(t)
  {
    if t.Node? {
      if key < t.key {
        DeleteBalanced(t.left, key);
        ShrunkChildBalanced(Node(Delete(t.left, key), t.key, t.values, t.right), t);
      } else if key > t.key {
        DeleteBalanced(t.right, key);
        ShrunkChildBalanced(Node(t.left, t.key, t.values, Delete(t.right, key)), t);
      } else if t.left.Node? && t.right.Node? {
        DeleteMinBalanced(t.right);
        var (e, r') := DeleteMin(t.right);
        ShrunkChildBalanced(Node(t.left, e.key, e.values, r'), t);
      }
    }
  }

  /**
   * A balanced node one of whose children has been replaced by a balanced
   * tree at most one level lower rebalances to a balanced tree at most one
   * level lower than before.
   */
  lemma ShrunkChildBalanced<V>(n: Tree<V>, t: Tree<V>)
    requires t.Node? && Balanced(t) && n.Node? && Balanced(n.left) && Balanced(n.right)
    requires (n.left == t.left && Height(t.right) - 1 <= Height(n.right) <= Height(t.right))
          || (n.right == t.right && Height(t.left) - 1 <= Height(n.left) <= Height(t.left))
    ensures Balanced(Rebalance(n))
    ensures Height(t) - 1 <= Height(Rebalance(n)) <= Height(t)
  {
    RebalanceBalanced(n);
  }

  /** Replaces the list of an existing key in place; the shape of the tree is kept. */
  function SetValues<V>(t: Tree<V>, key: int, vs: seq<V>): (r: Tree<V>)
    ensures Height(r) == Height(t) && (Balanced(t) ==> Balanced(r))
  {
    if t.Nil? then Nil
    else if key < t.key then Node(SetValues(t.left, key, vs), t.key, t.values, t.right)
    else if key > t.key then Node(t.left, t.key, t.values, SetValues(t.right, key, vs))
    else Node(t.left, t.key, vs, t.right)
  }

  lemma {:induction false} SetValuesEntries<V>(t: Tree<V>, key: int, vs: seq<V>)
    requires Sorted(Entries(t)) && Lookup(Entries(t), key).Some?
    ensures Entries(SetValues(t, key, vs)) == Put(Entries(t), key, vs)
  {
    var e := Entry(t.key, t.values);
    var el, er := Entries(t.left), Entries(t.right);
    SortedSplit(el, e, er);
    LookupSplit(el, e, er, key);
    if key < t.key {
      SetValuesEntries(t.left, key, vs);
      PutSplitLeft(el, e, er, key, vs);
    } else if key > t.key {
      SetValuesEntries(t.right, key, vs);
      PutSplitRight(el, e, er, key, vs);
    } else {
      PutSplitHere(el, e, er, vs);
    }
  }

  /** `List.Remove`: drops the first occurrence of `v`, and says whether there was one. */
  function RemoveFirst<V(==)>(vs: seq<V>, v: V): (r: (bool, seq<V>))
    ensures r.0 <==> v in vs
    ensures |r.1| == if r.0 then |vs| - 1 else |vs|
    ensures multiset(r.1) == multiset(vs) - multiset{v}
  {
    if vs == [] then (false, [])
    else if vs[0] == v then
      assert vs == [vs[0]] + vs[1..];
      (true, vs[1..])
    else
      var (found, rest) := RemoveFirst(vs[1..], v);
      assert vs == [vs[0]] + vs[1..];
      (found, [vs[0]] + rest)
  }

  // -------------------------------------------------------------- the class

  /** No node holds an empty list. */
  ghost predicate NonEmptyLists<V>(es: seq<Entry<V>>)
  {
    forall i :: 0 <= i < |es| ==> es[i].values != []
  }

  class AVLTree<V(==)> {
    var root: Tree<V>
    var elemCount: int
    var nodeCount: int

    /** The search tree order, the AVL balance, non-empty lists and both counters. */
    ghost predicate Valid()
      reads this
    {
      Sorted(Entries(root)) && Balanced(root) && NonEmptyLists(Entries(root))
      && nodeCount == |Entries(root)| && elemCount == ElemTotal(Entries(root))
    }

    ghost function Contents(): seq<Entry<V>>
      reads this
    {
      Entries(root)
    }

    constructor()
      ensures Valid() && Contents() == [] && elemCount == 0 && nodeCount == 0
    {
      root := Nil;
      elemCount := 0;
      nodeCount := 0;
    }

    /**
     * `Find`: the descent from the root, left when the node's key is larger,
     * right when it is smaller; a copy of the list when the key is found.
     */
    method Find(key: int) returns (r: Option<seq<V>>)
      requires Valid()
      ensures r == Lookup(Contents(), key)
    {
      var current := root;
      while current.Node?
        invariant Sorted(Entries(current))
        invariant Lookup(Entries(current), key) == Lookup(Entries(root), key)
        decreases current
      {
        SortedSplit(Entries(current.left), Entry(current.key, current.values), Entries(current.right));
        LookupSplit(Entries(current.left), Entry(current.key, current.values), Entries(current.right), key);
        if current.key == key {
          return Some(current.values);
        }
        if current.key > key {
          current := current.left;
        } else {
          current := current.right;
        }
      }
      r := None;
    }

    /** `ContainsKey`: the same descent as `Find`, answering whether the key is there. */
    method ContainsKey(key: int) returns (b: bool)
      requires Valid()
      ensures b <==> Lookup(Contents(), key).Some?
    {
      var found := Find(key);
      b := found.Some?;
    }

    /**
     * `Add`: a new key gets a node holding the item (one more node); an
     * existing key gets the item appended, its list emptied first when
     * `clearValues` is set.  One more value either way, less the values
     * cleared.
     */
    method Add(key: int, item: V, clearValues: bool)
      requires Valid()
      modifies this
      ensures Valid()
      ensures Contents() == Put(old(Contents()), key, AddedValues(Lookup(old(Contents()), key), item, clearValues))
      ensures nodeCount == old(nodeCount) + (if Lookup(old(Contents()), key).Some? then 0 else 1)
      ensures elemCount == old(elemCount) + 1
                           - (if clearValues && Lookup(old(Contents()), key).Some?
                              then |Lookup(old(Contents()), key).value| else 0)
    {
      var existing := Find(key);
      if existing.None? {
        nodeCount := nodeCount + 1;
      } else if clearValues {
        elemCount := elemCount - |existing.value|;
      }
      elemCount := elemCount + 1;
      var vs := AddedValues(existing, item, clearValues);
      forall x {
        PutSpec(Entries(root), key, vs, x);
      }
      PutNonEmpty(Entries(root), key, vs);
      InsertEntries(root, key, item, clearValues);
      InsertBalanced(root, key, item, clearValues);
      root := Insert(root, key, item, clearValues);
    }

    /**
     * `Remove(key)`: a copy of the key's list, or `None` when the key is
     * absent; the node goes, taking its values out of the count.
     */
    method RemoveKey(key: int) returns (r: Option<seq<V>>)
      requires Valid()
      modifies this
      ensures Valid()
      ensures r == Lookup(old(Contents()), key)
      ensures Contents() == Remove(old(Contents()), key)
      ensures nodeCount == old(nodeCount) - (if r.Some? then 1 else 0)
      ensures elemCount == old(elemCount) - (if r.Some? then |r.value| else 0)
    {
      r := Find(key);
      forall x {
        RemoveSpec(Entries(root), key, x);
      }
      if r.None? {
        RemoveAbsentKey(Entries(root), key);
        return;
      }
      nodeCount := nodeCount - 1;
      elemCount := elemCount - |r.value|;
      RemoveNonEmpty(Entries(root), key);
      DeleteEntries(root, key);
      DeleteBalanced(root, key);
      root := Delete(root, key);
    }

    /**
     * `Remove(key, value)`: drops the first occurrence of `value` from the
     * key's list, and the node too once the list is empty.
     */
    method RemoveValue(key: int, value: V)
      requires Valid()
      modifies this
      ensures Valid()
      ensures var old_ := Lookup(old(Contents()), key);
              Contents() == if old_.None? then old(Contents())
                            else if RemoveFirst(old_.value, value).1 == [] then Remove(old(Contents()), key)
                            else Put(old(Contents()), key, RemoveFirst(old_.value, value).1)
      ensures elemCount == old(elemCount)
                           - (if Lookup(old(Contents()), key).Some? && value in Lookup(old(Contents()), key).value
                              then 1 else 0)
      ensures nodeCount == old(nodeCount)
                           - (if Lookup(old(Contents()), key).Some? && RemoveFirst(Lookup(old(Contents()), key).value, value).1 == []
                              then 1 else 0)
    {
      var existing := Find(key);
      if existing.None? {
        return;
      }
      var (found, rest) := RemoveFirst(existing.value, value);
      if rest == [] {
        var _ := RemoveKey(key);
      } else {
        ReplaceValues(key, rest);
      }
    }

    /** The key's list replaced by a non-empty `vs`, the value count following it. */
    method ReplaceValues(key: int, vs: seq<V>)
      requires Valid() && Lookup(Contents(), key).Some? && vs != []
      modifies this
      ensures Valid()
      ensures Contents() == Put(old(Contents()), key, vs)
      ensures nodeCount == old(nodeCount)
      ensures elemCount == old(elemCount) - |Lookup(old(Contents()), key).value| + |vs|
    {
      forall x {
        PutSpec(Entries(root), key, vs, x);
      }
      elemCount := elemCount - |Lookup(Entries(root), key).value| + |vs|;
      PutNonEmpty(Entries(root), key, vs);
      SetValuesEntries(root, key, vs);
      root := SetValues(root, key, vs);
    }

    /** `Clear`: no nodes, no values. */
    method Clear()
      modifies this
      ensures Valid() && Contents() == [] && elemCount == 0 && nodeCount == 0
    {
      root := Nil;
      elemCount := 0;
      nodeCount := 0;
    }
  }

  lemma {:induction false} PutNonEmpty<V>(es: seq<Entry<V>>, k: int, vs: seq<V>)
    requires NonEmptyLists(es) && vs != []
    ensures NonEmptyLists(Put(es, k, vs))
  {
    if es != [] && es[0].key != k && es[0].key < k {
      PutNonEmpty(es[1..], k, vs);
    }
  }

  lemma {:induction false} RemoveNonEmpty<V>(es: seq<Entry<V>>, k: int)
    requires NonEmptyLists(es)
    ensures NonEmptyLists(Remove(es, k))
  {
    if es != [] {
      RemoveNonEmpty(es[1..], k);
    }
  }

  /** Removing an absent key changes nothing. */
  lemma RemoveAbsentKey<V>(es: seq<Entry<V>>, k: int)
    requires Lookup(es, k).None?
    ensures Remove(es, k) == es
  {
    forall i | 0 <= i < |es|
      ensures es[i].key != k
    {
      if es[i].key == k {
        LookupAt(es, k, i);
      }
    }
    RemoveAbsent(es, k);
  }

  /** A key held by some entry is found. */
  lemma {:induction false} LookupAt<V>(es: seq<Entry<V>>, k: int, i: int)
    requires 0 <= i < |es| && es[i].key == k
    ensures Lookup(es, k).Some?
  {
    if i > 0 && es[0].key != k {
      LookupAt(es[1..], k, i - 1);
    }
  }
}
