/** DrawingModel: the ordered strokes of a drawing and three aggregates kept beside them. */
module DrawingModel {
  import opened Wrappers
  import opened Colors
  import opened BrushModel
  import StrokeModel

  type Stroke = StrokeModel.Stroke

  /** The strokes, the per-colour usage map, the total length and the stroke counter. */
  datatype Drawing = Drawing(strokes: seq<Stroke>, colorMap: map<Color, int>, length: real, count: int)

  /** The colour a stroke is counted under. */
  function ColorOf(s: Stroke): Color {
    s.brush.color
  }

  /** A map's entry for `c`, reading a missing key as 0. */
  function Entry(m: map<Color, int>, c: Color): int {
    if c in m then m[c] else 0
  }

  /** The map holds no zero (or negative) counts. */
  ghost predicate NoZeroEntries(m: map<Color, int>) {
    forall c :: c in m ==> m[c] > 0
  }

  //
  // Reference definitions, recomputed from the strokes
  //

  /** Number of strokes drawn in colour `c`. */
  function Uses(strokes: seq<Stroke>, c: Color): nat
    decreases |strokes|
  {
    if |strokes| == 0 then 0
    else Uses(strokes[..|strokes| - 1], c) + (if ColorOf(strokes[|strokes| - 1]) == c then 1 else 0)
  }

  /** Sum of the strokes' lengths. */
  function TotalLength(strokes: seq<Stroke>): real
    decreases |strokes|
  {
    if |strokes| == 0 then 0.0
    else TotalLength(strokes[..|strokes| - 1]) + StrokeModel.Length(strokes[|strokes| - 1])
  }

  /**
   * The aggregates agree with the strokes: the counter is the number of strokes, every colour's
   * entry is its number of strokes (no zero entries), and the length is the sum of stroke lengths.
   */
  ghost predicate Valid(d: Drawing) {
    && d.count == |d.strokes|
    && NoZeroEntries(d.colorMap)
    && (forall c :: Entry(d.colorMap, c) == Uses(d.strokes, c))
    && d.length == TotalLength(d.strokes)
  }

  //
  // Colour map bookkeeping
  //

  /** `append(color:)`: the colour's entry goes up by one (from 0 when absent); nothing else changes. */
  function AppendColor(m: map<Color, int>, c: Color): (r: map<Color, int>)
    ensures Entry(r, c) == Entry(m, c) + 1
    ensures forall k :: k != c ==> Entry(r, k) == Entry(m, k)
    ensures r.Keys == m.Keys + {c}
    ensures NoZeroEntries(m) ==> NoZeroEntries(r)
  {
    if c in m then m[c := m[c] + 1] else m[c := 1]
  }

  /**
   * `remove(color:)`: the colour's entry goes down by one and the key is dropped when it reaches 0;
   * removing an absent colour changes nothing.
   */
  function RemoveColor(m: map<Color, int>, c: Color): (r: map<Color, int>)
    ensures c !in m ==> r == m
    ensures c in m ==> Entry(r, c) == m[c] - 1
    ensures c in m && m[c] == 1 ==> c !in r
    ensures forall k :: k != c ==> Entry(r, k) == Entry(m, k)
    ensures NoZeroEntries(m) ==> NoZeroEntries(r)
  {
    if c in m then
      if m[c] - 1 == 0 then m - {c} else m[c := m[c] - 1]
    else
      m
  }

  //
  // Operations
  //

  /** `init()`: no strokes, no colours, zero length, zero count. */
  function Empty(): (d: Drawing)
    ensures d.strokes == [] && d.colorMap == map[] && d.length == 0.0 && d.count == 0
    ensures Valid(d)
  {
    Drawing([], map[], 0.0, 0)
  }

  /** `push(stroke:)`: appends the stroke and adds it to every aggregate; returns the new list. */
  function Push(d: Drawing, s: Stroke): (r: (Drawing, seq<Stroke>))
    ensures r.0.strokes == d.strokes + [s] && r.1 == r.0.strokes
    ensures r.0.count == d.count + 1
    ensures r.0.length == d.length + StrokeModel.Length(s)
    ensures Entry(r.0.colorMap, ColorOf(s)) == Entry(d.colorMap, ColorOf(s)) + 1
    ensures forall k :: k != ColorOf(s) ==> Entry(r.0.colorMap, k) == Entry(d.colorMap, k)
    ensures Valid(d) ==> Valid(r.0)
  {
    var d' := Drawing(d.strokes + [s], AppendColor(d.colorMap, ColorOf(s)), d.length + StrokeModel.Length(s), d.count + 1);
    assert d'.strokes[..|d'.strokes| - 1] == d.strokes;
    (d', d'.strokes)
  }

  /** The aggregates after taking stroke `s` out; the strokes themselves are given. */
  function Without(d: Drawing, strokes: seq<Stroke>, s: Stroke): Drawing {
    Drawing(strokes, RemoveColor(d.colorMap, ColorOf(s)), d.length - StrokeModel.Length(s), d.count - 1)
  }

  /**
   * `removeAtIndex(index:)`: nil while the counter is 0; otherwise removes exactly stroke `i`,
   * keeps the others in order and takes it out of every aggregate.
   */
  function RemoveAtIndex(d: Drawing, i: int): (r: (Drawing, Option<Stroke>))
    requires d.count > 0 ==> 0 <= i < |d.strokes|
    ensures d.count <= 0 ==> r == (d, None)
    ensures d.count > 0 ==>
              && r.1 == Some(d.strokes[i])
              && r.0.strokes == d.strokes[..i] + d.strokes[i + 1..]
              && r.0.count == d.count - 1
              && r.0.length == d.length - StrokeModel.Length(d.strokes[i])
    ensures Valid(d) ==> Valid(r.0)
  {
    if d.count > 0 then
      var s := d.strokes[i];
      var r := Without(d, d.strokes[..i] + d.strokes[i + 1..], s);
      RemovePreservesValid(d, i);
      (r, Some(s))
    else
      (d, None)
  }

  /** `pop()`: nil when empty; otherwise removes the last stroke and reverses `push`'s bookkeeping. */
  function Pop(d: Drawing): (r: (Drawing, Option<Stroke>))
    ensures d.count <= 0 || |d.strokes| == 0 ==> r == (d, None)
    ensures d.count > 0 && |d.strokes| > 0 ==>
              && r.1 == Some(d.strokes[|d.strokes| - 1])
              && r.0.strokes + [r.1.value] == d.strokes
              && r.0.count == d.count - 1
              && r.0.length == d.length - StrokeModel.Length(r.1.value)
    ensures Valid(d) ==> Valid(r.0)
  {
    if d.count > 0 && |d.strokes| > 0 then
      var last := |d.strokes| - 1;
      var r := Without(d, d.strokes[..last], d.strokes[last]);
      assert d.strokes[..last] == d.strokes[..last] + d.strokes[last + 1..];
      RemovePreservesValid(d, last);
      (r, Some(d.strokes[last]))
    else
      (d, None)
  }

  /** `clear()`: returns the previous strokes and resets the list and every aggregate. */
  function Clear(d: Drawing): (r: (Drawing, seq<Stroke>))
    ensures r.1 == d.strokes
    ensures r.0 == Empty() && Valid(r.0)
  {
    (Empty(), d.strokes)
  }

  /** `getAtIndex(index:)`: the stroke when `0 <= i < count`, nil otherwise. */
  function GetAtIndex(d: Drawing, i: int): (r: Option<Stroke>)
    requires 0 <= i < d.count ==> i < |d.strokes|
    ensures r.Some? <==> 0 <= i < d.count
    ensures r.Some? ==> r.value == d.strokes[i]
  {
    if d.count > i && i >= 0 then Some(d.strokes[i]) else None
  }

  /** After a push the new stroke sits at the old count's index, and the earlier strokes stay where they were. */
  lemma GetAfterPush(d: Drawing, s: Stroke, i: int)
    requires Valid(d)
    requires 0 <= i <= d.count
    ensures GetAtIndex(Push(d, s).0, i) == if i == d.count then Some(s) else GetAtIndex(d, i)
  {
  }

  /** `getColorCount()`: the number of distinct keys of the colour map. */
  function ColorCount(d: Drawing): nat {
    |d.colorMap.Keys|
  }

  //
  // Proofs
  //

  lemma {:induction false} UsesAppend(a: seq<Stroke>, b: seq<Stroke>, c: Color)
    ensures Uses(a + b, c) == Uses(a, c) + Uses(b, c)
    decreases |b|
  {
    if |b| == 0 {
      assert a + b == a;
    } else {
      var b' := b[..|b| - 1];
      assert (a + b)[..|a + b| - 1] == a + b';
      UsesAppend(a, b', c);
    }
  }

  lemma {:induction false} TotalLengthAppend(a: seq<Stroke>, b: seq<Stroke>)
    ensures TotalLength(a + b) == TotalLength(a) + TotalLength(b)
    decreases |b|
  {
    if |b| == 0 {
      assert a + b == a;
    } else {
      var b' := b[..|b| - 1];
      assert (a + b)[..|a + b| - 1] == a + b';
      TotalLengthAppend(a, b');
    }
  }

  /** Taking stroke `i` out of a valid drawing's list and aggregates leaves a valid drawing. */
  lemma RemovePreservesValid(d: Drawing, i: int)
    requires 0 <= i < |d.strokes|
    ensures Valid(d) ==> Valid(Without(d, d.strokes[..i] + d.strokes[i + 1..], d.strokes[i]))
  {
    if !Valid(d) {
      return;
    }
    var s := d.strokes[i];
    var pre, post := d.strokes[..i], d.strokes[i + 1..];
    assert d.strokes == pre + [s] + post;
    assert [s][..0] == [];
    TotalLengthAppend(pre + [s], post);
    TotalLengthAppend(pre, [s]);
    TotalLengthAppend(pre, post);
    forall c
      ensures Uses(d.strokes, c) == Uses(pre + post, c) + (if ColorOf(s) == c then 1 else 0)
    {
      UsesAppend(pre + [s], post, c);
      UsesAppend(pre, [s], c);
      UsesAppend(pre, post, c);
    }
  }

  /** A colour has a positive use count exactly when some stroke is drawn in it. */
  lemma {:induction false} UsesPositive(strokes: seq<Stroke>, c: Color)
    ensures Uses(strokes, c) > 0 <==> exists i :: 0 <= i < |strokes| && ColorOf(strokes[i]) == c
    decreases |strokes|
  {
    if |strokes| > 0 {
      var init := strokes[..|strokes| - 1];
      UsesPositive(init, c);
      if Uses(init, c) > 0 {
        var i :| 0 <= i < |init| && ColorOf(init[i]) == c;
        assert ColorOf(strokes[i]) == c;
      }
      if exists i :: 0 <= i < |strokes| && ColorOf(strokes[i]) == c {
        var i :| 0 <= i < |strokes| && ColorOf(strokes[i]) == c;
        if i < |init| {
          assert ColorOf(init[i]) == c;
        }
      }
    }
  }

  /** In a valid drawing the colour count is the number of distinct colours the strokes use. */
  lemma ColorCountIsDistinctColors(d: Drawing)
    requires Valid(d)
    ensures ColorCount(d) == |set s | s in d.strokes :: ColorOf(s)|
  {
    var used := set s | s in d.strokes :: ColorOf(s);
    forall c
      ensures c in d.colorMap <==> c in used
    {
      UsesPositive(d.strokes, c);
      assert Entry(d.colorMap, c) == Uses(d.strokes, c);
      if c in used {
        var s :| s in d.strokes && ColorOf(s) == c;
        var i :| 0 <= i < |d.strokes| && d.strokes[i] == s;
      }
    }
    assert d.colorMap.Keys == used;
  }

  /** In a valid drawing the colour count is 0 exactly when no stroke is drawn. */
  lemma ColorCountZeroIffEmpty(d: Drawing)
    requires Valid(d)
    ensures ColorCount(d) == 0 <==> d.strokes == []
  {
    if d.strokes != [] {
      var c := ColorOf(d.strokes[0]);
      UsesPositive(d.strokes, c);
      assert c in d.colorMap;
    } else {
      forall c | c in d.colorMap
        ensures false
      {
        UsesPositive(d.strokes, c);
      }
      assert d.colorMap.Keys == {};
    }
  }

  /** Pushing a stroke adds one to the colour count exactly when its colour is new to the drawing. */
  lemma ColorCountAfterPush(d: Drawing, s: Stroke)
    ensures ColorCount(Push(d, s).0) == ColorCount(d) + (if ColorOf(s) in d.colorMap then 0 else 1)
  {
    var keys := d.colorMap.Keys;
    assert Push(d, s).0.colorMap.Keys == keys + {ColorOf(s)};
    if ColorOf(s) in keys {
      assert keys + {ColorOf(s)} == keys;
    }
  }

  /** `push(s)` then `pop()` gives `s` back and restores the drawing exactly. */
  lemma PushPop(d: Drawing, s: Stroke)
    requires Valid(d)
    ensures Pop(Push(d, s).0) == (d, Some(s))
  {
    var d1 := Push(d, s).0;
    assert d1.strokes[..|d.strokes|] == d.strokes;
    var m := d.colorMap;
    var c := ColorOf(s);
    assert RemoveColor(AppendColor(m, c), c) == m by {
      if c in m {
        assert m[c] > 0;
        assert m[c := m[c] + 1][c := m[c]] == m;
      } else {
        assert m[c := 1] - {c} == m;
      }
    }
  }

  /** Every operation keeps the aggregates consistent, whatever order they come in. */
  datatype Op = PushOp(s: Stroke) | PopOp | RemoveOp(i: nat) | ClearOp

  /** Applies one operation; a removal whose index the list does not hold is skipped. */
  function Apply(d: Drawing, op: Op): Drawing {
    match op
    case PushOp(s) => Push(d, s).0
    case PopOp => Pop(d).0
    case RemoveOp(i) => if d.count > 0 ==> i < |d.strokes| then RemoveAtIndex(d, i).0 else d
    case ClearOp => Clear(d).0
  }

  function Run(d: Drawing, ops: seq<Op>): Drawing
    decreases |ops|
  {
    if |ops| == 0 then d else Run(Apply(d, ops[0]), ops[1..])
  }

  /** From a fresh drawing, any sequence of operations leaves the aggregates equal to their recomputation. */
  lemma {:induction false} RunPreservesValid(d: Drawing, ops: seq<Op>)
    requires Valid(d)
    ensures Valid(Run(d, ops))
    decreases |ops|
  {
    if |ops| > 0 {
      RunPreservesValid(Apply(d, ops[0]), ops[1..]);
    }
  }
}
