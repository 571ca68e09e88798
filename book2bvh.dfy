// `BvhNode::creat` and `box_compare` of Book2/bvh/mod.rs: the tree built by
// taking the vector apart. The node's `hit` and `bounding_box` are the
// `Bvh` case of `Shapes.Hit` and `Shapes.BoundingBoxOf`.
//
// `random_int_lr(0, 2)` reads the draw at position `pos` of the stream
// `draws`; `Creat` returns the position of the next unread draw. Every
// shape reports a box, so neither `exit(0)` is reachable; an empty vector
// recurses forever in the source and is excluded by the precondition.

module Book2Bvh {
  import opened Basic
  import opened Vectors
  import opened BoundingBox
  import opened Shapes
  import opened Sorting
  import Objects

  /** The box a shape reports at times (t0, t1) into a default box. */
  function ShapeBox<M>(s: Shape<M>, t0: real, t1: real): Aabb
    requires Valid(s)
  {
    BoundingBoxOf(s, t0, t1, Objects.DefaultBox()).1
  }

  /** The key `box_compare` compares on `axis`: the low corner of the box at times (0, 0). */
  function AxisKey<M>(axis: nat): (key: Shape<M> -> real)
    requires axis < 3
  {
    (s: Shape<M>) => if Valid(s) then ShapeBox(s, 0.0, 0.0).min.E(axis) else 0.0
  }

  /** `box_compare(a, b, axis)`: every shape reports a box, so the `exit(0)` branch is never taken. */
  function BoxCompare<M>(a: Shape<M>, b: Shape<M>, axis: nat): (less: bool)
    requires Valid(a) && Valid(b) && axis < 3
    ensures less <==> AxisKey(axis)(a) < AxisKey(axis)(b)
  {
    ShapeBox(a, 0.0, 0.0).min.E(axis) < ShapeBox(b, 0.0, 0.0).min.E(axis)
  }

  predicate AllValid<M>(objects: seq<Shape<M>>) {
    forall i :: 0 <= i < |objects| ==> Valid(objects[i])
  }

  /**
   * The node over the children `creat` picked. A missing child reports no
   * box; the node's box surrounds both children's boxes, or the one child's
   * box alone. Both missing is the `exit(0)` the precondition rules out.
   */
  function NodeOf<M>(left: Option<Shape<M>>, right: Option<Shape<M>>, t0: real, t1: real): (node: Shape<M>)
    requires (left.Some? ==> Valid(left.value)) && (right.Some? ==> Valid(right.value))
    requires left.Some? || right.Some?
    ensures Valid(node) && node.Bvh? && node.left == left && node.right == right
    ensures left.Some? ==> Encloses(node.box, ShapeBox(left.value, t0, t1))
    ensures right.Some? ==> Encloses(node.box, ShapeBox(right.value, t0, t1))
  {
    var (fl, boxLeft) := if left.Some? then BoundingBoxOf(left.value, t0, t1, Objects.DefaultBox()) else (false, Objects.DefaultBox());
    var (fr, boxRight) := if right.Some? then BoundingBoxOf(right.value, t0, t1, Objects.DefaultBox()) else (false, Objects.DefaultBox());
    var box :=
      if !fl then SurroundingBox(boxRight, boxRight)
      else if !fr then SurroundingBox(boxLeft, boxLeft)
      else SurroundingBox(boxLeft, boxRight);
    Bvh(left, right, box)
  }

  /**
   * `BvhNode::creat(src_objects, t0, t1)`: the node and the position of the
   * next unread draw. One object becomes the left child alone; two are put
   * in order of their key on the drawn axis; more are sorted on that axis
   * and split at `len >> 1`. The tree loses nothing: every object is held
   * by it, and the node's box encloses the box each of them reports.
   */
  function Creat<M>(objects: seq<Shape<M>>, t0: real, t1: real, draws: nat -> real, pos: nat): (res: (Shape<M>, nat))
    requires 0 < |objects| && AllValid(objects) && UnitDraws(draws)
    ensures Valid(res.0) && res.0.Bvh? && res.0.left.Some?
    ensures res.0.right.None? <==> |objects| == 1
    ensures pos < res.1
    ensures |objects| == 2 ==> var key := AxisKey(RandomIntLr(0, 2, draws(pos)));
      key(res.0.left.value) <= key(res.0.right.value)
    ensures forall i :: 0 <= i < |objects| ==> Holds(res.0, objects[i]) && Encloses(res.0.box, ShapeBox(objects[i], t0, t1))
    decreases |objects|
  {
    var axis := RandomIntLr(0, 2, draws(pos));
    var span := |objects|;
    if span == 1 then
      var node := NodeOf(Some(objects[0]), None, t0, t1);
      assert Holds(objects[0], objects[0]);
      (node, pos + 1)
    else if span == 2 then
      var b := objects[1];
      var a := objects[0];
      var node := if BoxCompare(a, b, axis) then NodeOf(Some(a), Some(b), t0, t1) else NodeOf(Some(b), Some(a), t0, t1);
      assert Holds(a, a) && Holds(b, b);
      (node, pos + 1)
    else
      var sorted := Sort(objects, AxisKey(axis));
      SortedValid(objects, sorted);
      var mid := span / 2;
      var (left, p1) := Creat(sorted[..mid], t0, t1, draws, pos + 1);
      var (right, p2) := Creat(sorted[mid..], t0, t1, draws, p1);
      var node := NodeOf(Some(left), Some(right), t0, t1);
      NodeBox(left, t0, t1);
      NodeBox(right, t0, t1);
      HalvesCover(objects, sorted, mid, left, right, node, t0, t1);
      (node, p2)
  }

  /** `tree` is `o` or holds it somewhere below one of its children. */
  ghost predicate Holds<M>(tree: Shape<M>, o: Shape<M>)
    decreases tree
  {
    tree == o ||
    (tree.Bvh? &&
     ((tree.left.Some? && Holds(tree.left.value, o)) || (tree.right.Some? && Holds(tree.right.value, o))))
  }

  /** A node's box is the one `bounding_box` reports for it. */
  lemma NodeBox<M>(node: Shape<M>, t0: real, t1: real)
    requires Valid(node) && node.Bvh?
    ensures ShapeBox(node, t0, t1) == node.box
  {
  }

  /** Sorting keeps every shape valid. */
  lemma SortedValid<M>(objects: seq<Shape<M>>, sorted: seq<Shape<M>>)
    requires AllValid(objects) && multiset(sorted) == multiset(objects)
    ensures AllValid(sorted)
  {
    forall i | 0 <= i < |sorted|
      ensures Valid(sorted[i])
    {
      assert sorted[i] in multiset(objects);
    }
  }

  /**
   * When each half of the sorted vector is covered by its child, the node
   * over the two children covers the vector as it was before sorting.
   */
  lemma HalvesCover<M>(objects: seq<Shape<M>>, sorted: seq<Shape<M>>, mid: nat,
                       left: Shape<M>, right: Shape<M>, node: Shape<M>, t0: real, t1: real)
    requires AllValid(objects) && AllValid(sorted) && multiset(sorted) == multiset(objects) && mid <= |sorted|
    requires left.Bvh? && right.Bvh? && node.Bvh? && node.left == Some(left) && node.right == Some(right)
    requires Encloses(node.box, left.box) && Encloses(node.box, right.box)
    requires forall i :: 0 <= i < mid ==> Holds(left, sorted[..mid][i]) && Encloses(left.box, ShapeBox(sorted[..mid][i], t0, t1))
    requires forall i :: 0 <= i < |sorted| - mid ==> Holds(right, sorted[mid..][i]) && Encloses(right.box, ShapeBox(sorted[mid..][i], t0, t1))
    ensures forall i :: 0 <= i < |objects| ==> Holds(node, objects[i]) && Encloses(node.box, ShapeBox(objects[i], t0, t1))
  {
    forall i | 0 <= i < |objects|
      ensures Holds(node, objects[i]) && Encloses(node.box, ShapeBox(objects[i], t0, t1))
    {
      PermutationMembers(objects, sorted, i);
      var j :| 0 <= j < |sorted| && sorted[j] == objects[i];
      if j < mid {
        assert sorted[..mid][j] == objects[i];
        CoveredVia(node, left, objects[i], t0, t1);
      } else {
        assert sorted[mid..][j - mid] == objects[i];
        CoveredVia(node, right, objects[i], t0, t1);
      }
    }
  }

  /** What a child holds and encloses, its parent holds and encloses. */
  lemma CoveredVia<M>(node: Shape<M>, child: Shape<M>, o: Shape<M>, t0: real, t1: real)
    requires Valid(o) && node.Bvh? && child.Bvh? && (node.left == Some(child) || node.right == Some(child))
    requires Encloses(node.box, child.box)
    requires Holds(child, o) && Encloses(child.box, ShapeBox(o, t0, t1))
    ensures Holds(node, o) && Encloses(node.box, ShapeBox(o, t0, t1))
  {
    EnclosesTransitive(node.box, child.box, ShapeBox(o, t0, t1));
  }
}
