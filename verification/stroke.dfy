/** StrokeModel: the nodes one continuous gesture produced, with a separately kept node counter. */
module StrokeModel {
  import opened Wrappers
  import opened BrushModel

  /** A non-negative real: the min-to-max distance of a node's bounding box. */
  type Extent = r: real | 0.0 <= r

  /** An SCNNode as a stroke sees it: an identity and its bounding-box extent. */
  datatype Node = Node(id: nat, extent: Extent)

  /** The stroke's nodes, its brush, and the counter the source keeps beside the list. */
  datatype Stroke = Stroke(nodes: seq<Node>, brush: Brush, count: int)

  /** The counter agrees with the list. */
  predicate Consistent(s: Stroke) {
    s.count == |s.nodes|
  }

  /** `init(brushType:rootNode:)`: no nodes, a zero counter, and the given brush. */
  function New(brush: Brush): (s: Stroke)
    ensures s.nodes == [] && s.count == 0 && s.brush == brush
    ensures Consistent(s)
  {
    Stroke([], brush, 0)
  }

  /** `push(node:)`: appends at the end, bumps the counter and returns the updated list. */
  function Push(s: Stroke, node: Node): (r: (Stroke, seq<Node>))
    ensures r.0.nodes == s.nodes + [node] && r.1 == r.0.nodes
    ensures r.0.count == s.count + 1 && r.0.brush == s.brush
    ensures Consistent(s) ==> Consistent(r.0)
  {
    var s' := s.(nodes := s.nodes + [node], count := s.count + 1);
    (s', s'.nodes)
  }

  /**
   * `removeAtIndex(index:)`: guarded only by the counter; past the guard Swift traps unless the
   * index is inside the list, which is what callers must ensure.
   */
  function RemoveAtIndex(s: Stroke, i: int): (r: (Stroke, Option<Node>))
    requires s.count > 0 ==> 0 <= i < |s.nodes|
    ensures s.count <= 0 ==> r == (s, None)
    ensures s.count > 0 ==>
              && r.1 == Some(s.nodes[i])
              && r.0.nodes == s.nodes[..i] + s.nodes[i + 1..]
              && r.0.count == s.count - 1
              && r.0.brush == s.brush
    ensures Consistent(s) ==> Consistent(r.0)
  {
    if s.count > 0 then
      (s.(nodes := s.nodes[..i] + s.nodes[i + 1..], count := s.count - 1), Some(s.nodes[i]))
    else
      (s, None)
  }

  /**
   * `pop()`: when the counter is positive, drops the last node (if the list still has one) and
   * decrements the counter either way.
   */
  function Pop(s: Stroke): (r: (Stroke, Option<Node>))
    ensures s.count <= 0 ==> r == (s, None)
    ensures s.count > 0 ==> r.0.count == s.count - 1 && r.0.brush == s.brush
    ensures s.count > 0 && |s.nodes| > 0 ==>
              r.1 == Some(s.nodes[|s.nodes| - 1]) && r.0.nodes + [r.1.value] == s.nodes
    ensures s.count > 0 && |s.nodes| == 0 ==> r.1 == None && r.0.nodes == []
    ensures Consistent(s) ==> Consistent(r.0)
  {
    if s.count > 0 then
      if |s.nodes| > 0 then
        (s.(nodes := s.nodes[..|s.nodes| - 1], count := s.count - 1), Some(s.nodes[|s.nodes| - 1]))
      else
        (s.(count := s.count - 1), None)
    else
      (s, None)
  }

  /** `clear()`: returns the old nodes and empties the list, but the counter is left as it was. */
  function Clear(s: Stroke): (r: (Stroke, seq<Node>))
    ensures r.1 == s.nodes && r.0.nodes == []
    ensures r.0.count == s.count && r.0.brush == s.brush
  {
    (s.(nodes := []), s.nodes)
  }

  /**
   * `getAtIndex(index:)`: the node when the counter exceeds the index. There is no lower-bound
   * check, so callers must not pass an index the guard lets through but the list does not hold.
   */
  function GetAtIndex(s: Stroke, i: int): (r: Option<Node>)
    requires s.count > i ==> 0 <= i < |s.nodes|
    ensures r.Some? <==> i < s.count
    ensures r.Some? ==> r.value == s.nodes[i]
  {
    if s.count > i then Some(s.nodes[i]) else None
  }

  /** After a push the new node sits at the old counter's index, and the earlier nodes stay where they were. */
  lemma GetAfterPush(s: Stroke, node: Node, i: int)
    requires Consistent(s)
    requires 0 <= i <= s.count
    ensures GetAtIndex(Push(s, node).0, i) == if i == s.count then Some(node) else GetAtIndex(s, i)
  {
  }

  /** `setBrushType(brushType:)`: replaces the brush only. */
  function SetBrushType(s: Stroke, brush: Brush): (r: Stroke)
    ensures r.brush == brush && r.nodes == s.nodes && r.count == s.count
  {
    s.(brush := brush)
  }

  /** Sum of the node extents, accumulated front to back as `getLength` does. */
  function NodesLength(nodes: seq<Node>): (len: real)
    ensures len >= 0.0
    ensures nodes == [] ==> len == 0.0
    decreases |nodes|
  {
    if |nodes| == 0 then 0.0 else NodesLength(nodes[..|nodes| - 1]) + nodes[|nodes| - 1].extent
  }

  /** `getLength()`: the approximate length of the stroke. */
  function Length(s: Stroke): (len: real)
    ensures len >= 0.0
    ensures s.nodes == [] ==> len == 0.0
  {
    NodesLength(s.nodes)
  }

  /** The length of a concatenation is the sum of the lengths. */
  lemma {:induction false} NodesLengthAppend(a: seq<Node>, b: seq<Node>)
    ensures NodesLength(a + b) == NodesLength(a) + NodesLength(b)
    decreases |b|
  {
    if |b| == 0 {
      assert a + b == a;
    } else {
      var b' := b[..|b| - 1];
      assert (a + b)[..|a + b| - 1] == a + b';
      NodesLengthAppend(a, b');
    }
  }

  /** The length is at least the extent of any one node. */
  lemma {:induction false} NodeExtentBoundsLength(nodes: seq<Node>, i: int)
    requires 0 <= i < |nodes|
    ensures nodes[i].extent <= NodesLength(nodes)
  {
    assert nodes == nodes[..i] + [nodes[i]] + nodes[i + 1..];
    NodesLengthAppend(nodes[..i] + [nodes[i]], nodes[i + 1..]);
    NodesLengthAppend(nodes[..i], [nodes[i]]);
    assert [nodes[i]][..0] == [];
  }

  /** Pushing a node adds exactly its extent to the length. */
  lemma PushAddsExtent(s: Stroke, node: Node)
    ensures Length(Push(s, node).0) == Length(s) + node.extent
  {
    assert (s.nodes + [node])[..|s.nodes|] == s.nodes;
  }

  /** `push(n)` then `pop()` gives `n` back and restores the stroke. */
  lemma PushPop(s: Stroke, node: Node)
    requires s.count >= 0
    ensures Pop(Push(s, node).0) == (s, Some(node))
  {
    assert (s.nodes + [node])[..|s.nodes|] == s.nodes;
  }

  /** Clearing a stroke that has nodes breaks the counter: it now exceeds the empty list. */
  lemma ClearBreaksConsistency(s: Stroke)
    requires Consistent(s) && |s.nodes| > 0
    ensures !Consistent(Clear(s).0)
    ensures Clear(s).0.count > |Clear(s).0.nodes|
  {
  }
}
