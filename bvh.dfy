// `BvhNode::creat` and `box_compare` of raytracer/src/bvh.rs: the tree
// built over the range `st .. ed` of a vector of objects. The node's `hit`
// and `bounding_box` are the `BvhNode` case of `Objects.HitOut` and
// `Objects.BoxOut`.
//
// `random_int_lr(0, 2)` reads the draw at position `pos` of the stream
// `draws`; `Creat` returns the position of the next unread draw. The
// `exit(0)` calls become preconditions: every object in the range reports
// a box at times (0, 0) and (t0, t1), and the range is not empty (an empty
// range recurses forever in the source). A list holding a sphere, a
// rectangle or a box reports no box (`Objects.ListBoxAsWrittenMeaning`), so
// such a list is outside these preconditions, as it exits in the source.

module Bvh {
  import opened Basic
  import opened Vectors
  import opened BoundingBox
  import opened Objects
  import opened Sorting

  /** The key `box_compare` compares on `axis`: the low corner of the box at times (0, 0). */
  function AxisKey<M>(axis: nat): (key: Object<M> -> real)
    requires axis < 3
  {
    (o: Object<M>) => if Valid(o) then BoxOf(o, 0.0, 0.0).min.E(axis) else 0.0
  }

  /** `box_compare(a, b, axis)`; `exit(0)` when a box is missing becomes the precondition. */
  function BoxCompare<M>(a: Object<M>, b: Object<M>, axis: nat): (less: bool)
    requires Valid(a) && Valid(b) && HasBox(a, 0.0, 0.0) && HasBox(b, 0.0, 0.0) && axis < 3
    ensures less <==> AxisKey(axis)(a) < AxisKey(axis)(b)
  {
    BoxOf(a, 0.0, 0.0).min.E(axis) < BoxOf(b, 0.0, 0.0).min.E(axis)
  }

  /** Objects `creat` can place: valid, with a box at times (0, 0) and (t0, t1). */
  predicate Placeable<M>(objects: seq<Object<M>>, st: nat, ed: nat, t0: real, t1: real) {
    st <= ed <= |objects| &&
    forall i :: st <= i < ed ==> Valid(objects[i]) && HasBox(objects[i], 0.0, 0.0) && HasBox(objects[i], t0, t1)
  }

  /**
   * `temp.sort_by(...)` on `objects[st..ed]`: the range is replaced by its
   * stable sort by key; the rest of the clone is untouched.
   */
  function SortRange<M>(objects: seq<Object<M>>, st: nat, ed: nat, axis: nat): (sorted: seq<Object<M>>)
    requires st <= ed <= |objects| && axis < 3
    ensures |sorted| == |objects|
    ensures sorted[..st] == objects[..st] && sorted[ed..] == objects[ed..]
    ensures multiset(sorted[st..ed]) == multiset(objects[st..ed])
    ensures SortedBy(sorted[st..ed], AxisKey(axis))
  {
    var mid := Sort(objects[st..ed], AxisKey(axis));
    SortSorted(objects[st..ed], AxisKey(axis));
    var sorted := objects[..st] + mid + objects[ed..];
    assert sorted[st..ed] == mid;
    sorted
  }

  /** The box of a node over two children: the box surrounding theirs. */
  function NodeOver<M>(left: Object<M>, right: Object<M>, t0: real, t1: real): (node: Object<M>)
    requires Valid(left) && Valid(right)
    ensures Valid(node) && node.BvhNode? && node.left == Some(left) && node.right == Some(right)
  {
    BvhNode(Some(left), Some(right), SurroundingBox(BoxOf(left, t0, t1), BoxOf(right, t0, t1)))
  }

  /**
   * `BvhNode::creat(src, st, ed, t0, t1)`: the node and the position of the
   * next unread draw. One object goes to both sides; two are ordered by
   * `box_compare`; more are sorted on the drawn axis and split at
   * `st + span / 2`. Two objects are put in order of their key on the
   * drawn axis. The tree loses nothing: every object of the range is
   * held by it, and the node's box encloses the box each of them reports.
   */
  function Creat<M>(src: seq<Object<M>>, st: nat, ed: nat, t0: real, t1: real, draws: nat -> real, pos: nat)
    : (res: (Object<M>, nat))
    requires st < ed && Placeable(src, st, ed, t0, t1) && UnitDraws(draws)
    ensures Valid(res.0) && res.0.BvhNode? && res.0.left.Some? && res.0.right.Some?
    ensures pos < res.1
    ensures ed - st == 2 ==> var key := AxisKey(RandomIntLr(0, 2, draws(pos)));
      key(res.0.left.value) <= key(res.0.right.value)
    ensures forall i :: st <= i < ed ==> Holds(res.0, src[i]) && Encloses(res.0.box, BoxOf(src[i], t0, t1))
    decreases ed - st
  {
    var axis := RandomIntLr(0, 2, draws(pos));
    var span := ed - st;
    if span <= 2 then
      var (left, right) :=
        if span == 1 then (src[st], src[st])
        else if BoxCompare(src[st], src[st + 1], axis) then (src[st], src[st + 1])
        else (src[st + 1], src[st]);
      var node := NodeOver(left, right, t0, t1);
      assert Holds(left, left) && Holds(right, right);
      (node, pos + 1)
    else
      var objects := SortRange(src, st, ed, axis);
      SortedPlaceable(src, objects, st, ed, t0, t1);
      var mid := st + span / 2;
      var (left, p1) := Creat(objects, st, mid, t0, t1, draws, pos + 1);
      var (right, p2) := Creat(objects, mid, ed, t0, t1, draws, p1);
      var node := NodeOver(left, right, t0, t1);
      NodeBox(left, t0, t1);
      NodeBox(right, t0, t1);
      HalvesCover(src, objects, st, mid, ed, left, right, node, t0, t1);
      (node, p2)
  }

  /**
   * When each half of the sorted range is covered by its child, the node
   * over the two children covers the range as it was before sorting.
   */
  lemma HalvesCover<M>(src: seq<Object<M>>, objects: seq<Object<M>>, st: nat, mid: nat, ed: nat,
                       left: Object<M>, right: Object<M>, node: Object<M>, t0: real, t1: real)
    requires st <= mid <= ed <= |src| && |objects| == |src|
    requires forall i :: st <= i < ed ==> Valid(src[i]) && Valid(objects[i])
    requires multiset(objects[st..ed]) == multiset(src[st..ed])
    requires left.BvhNode? && right.BvhNode? && node.BvhNode? && node.left == Some(left) && node.right == Some(right)
    requires Encloses(node.box, left.box) && Encloses(node.box, right.box)
    requires forall i :: st <= i < mid ==> Holds(left, objects[i]) && Encloses(left.box, BoxOf(objects[i], t0, t1))
    requires forall i :: mid <= i < ed ==> Holds(right, objects[i]) && Encloses(right.box, BoxOf(objects[i], t0, t1))
    ensures forall i :: st <= i < ed ==> Holds(node, src[i]) && Encloses(node.box, BoxOf(src[i], t0, t1))
  {
    forall i | st <= i < ed
      ensures Holds(node, src[i]) && Encloses(node.box, BoxOf(src[i], t0, t1))
    {
      PermutationMembers(src[st..ed], objects[st..ed], i - st);
      var j :| 0 <= j < ed - st && objects[st..ed][j] == src[st..ed][i - st];
      SliceIndex(objects, src, st, ed, i, j);
      var o := objects[st + j];
      if st + j < mid {
        CoveredVia(node, left, o, t0, t1);
      } else {
        CoveredVia(node, right, o, t0, t1);
      }
    }
  }

  /** What a child holds and encloses, its parent holds and encloses. */
  lemma CoveredVia<M>(node: Object<M>, child: Object<M>, o: Object<M>, t0: real, t1: real)
    requires Valid(o) && node.BvhNode? && child.BvhNode? && (node.left == Some(child) || node.right == Some(child))
    requires Encloses(node.box, child.box)
    requires Holds(child, o) && Encloses(child.box, BoxOf(o, t0, t1))
    ensures Holds(node, o) && Encloses(node.box, BoxOf(o, t0, t1))
  {
    EnclosesTransitive(node.box, child.box, BoxOf(o, t0, t1));
  }

  /** Sorting the range keeps every object in it placeable. */
  lemma SortedPlaceable<M>(src: seq<Object<M>>, objects: seq<Object<M>>, st: nat, ed: nat, t0: real, t1: real)
    requires Placeable(src, st, ed, t0, t1) && |objects| == |src|
    requires multiset(objects[st..ed]) == multiset(src[st..ed])
    ensures Placeable(objects, st, ed, t0, t1)
  {
    forall i | st <= i < ed
      ensures Valid(objects[i]) && HasBox(objects[i], 0.0, 0.0) && HasBox(objects[i], t0, t1)
    {
      PermutationMembers(objects[st..ed], src[st..ed], i - st);
      var j :| 0 <= j < ed - st && src[st..ed][j] == objects[st..ed][i - st];
      SliceIndex(src, objects, st, ed, i, j);
    }
  }

  /** `tree` is `o` or holds it somewhere below one of its children. */
  ghost predicate Holds<M>(tree: Object<M>, o: Object<M>)
    decreases tree
  {
    tree == o ||
    (tree.BvhNode? &&
     ((tree.left.Some? && Holds(tree.left.value, o)) || (tree.right.Some? && Holds(tree.right.value, o))))
  }

  lemma SliceIndex<M>(objects: seq<Object<M>>, src: seq<Object<M>>, st: nat, ed: nat, i: nat, j: nat)
    requires st <= i < ed <= |src| && |objects| == |src| && j < ed - st
    requires objects[st..ed][j] == src[st..ed][i - st]
    ensures objects[st + j] == src[i]
  {
  }

  /** A node's box is the one `bounding_box` reports for it. */
  lemma NodeBox<M>(node: Object<M>, t0: real, t1: real)
    requires Valid(node) && node.BvhNode?
    ensures HasBox(node, t0, t1) && BoxOf(node, t0, t1) == node.box
  {
  }
}
