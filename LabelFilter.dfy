/**
  The shape filter of the label converter: of a LabelMe file's shapes, only
  those whose label is one of the eleven classes are kept, in order, each
  stamped with the class id; every other part of the file stays as it was.
 */
module LabelFilter {
  import opened Wrappers
  import opened Categories

  /**
    One entry of `data["shapes"]`: its `label`, its `category_id` when it has
    one, and every other key of the shape (points, shape type, flags, …) as
    uninterpreted text.
   */
  datatype Shape = Shape(labelName: string, categoryId: Option<int>, fields: map<string, string>)

  /** `shape["category_id"] = category_map[label]`: only the id changes. */
  function Stamp(s: Shape, categoryMap: map<string, int>): Shape
    requires s.labelName in categoryMap
  {
    s.(categoryId := Some(categoryMap[s.labelName]))
  }

  /** `new_shapes`: the shapes with a known label, stamped, in their original order. */
  function Kept(shapes: seq<Shape>, categoryMap: map<string, int>): (kept: seq<Shape>)
    ensures |kept| <= |shapes|
  {
    if shapes == [] then []
    else
      var s := shapes[|shapes| - 1];
      Kept(shapes[..|shapes| - 1], categoryMap) + (if s.labelName in categoryMap then [Stamp(s, categoryMap)] else [])
  }

  /** The positions of the shapes with a known label, in increasing order. */
  function KeptIndices(shapes: seq<Shape>, categoryMap: map<string, int>): seq<int> {
    if shapes == [] then []
    else
      var n := |shapes| - 1;
      KeptIndices(shapes[..n], categoryMap) + (if shapes[n].labelName in categoryMap then [n] else [])
  }

  /**
    The kept shapes are exactly those whose label is a key of the map, in
    their original order: the j-th kept shape is the stamped shape at the j-th
    position of KeptIndices, which lists every known-label position once, in
    increasing order.
   */
  lemma KeptExactly(shapes: seq<Shape>, categoryMap: map<string, int>)
    ensures |KeptIndices(shapes, categoryMap)| == |Kept(shapes, categoryMap)|
    ensures forall i :: i in KeptIndices(shapes, categoryMap) <==> 0 <= i < |shapes| && shapes[i].labelName in categoryMap
    ensures forall j, k :: 0 <= j < k < |KeptIndices(shapes, categoryMap)| ==>
      KeptIndices(shapes, categoryMap)[j] < KeptIndices(shapes, categoryMap)[k]
    ensures forall j :: 0 <= j < |Kept(shapes, categoryMap)| ==>
      var i := KeptIndices(shapes, categoryMap)[j];
      0 <= i < |shapes| && shapes[i].labelName in categoryMap && Kept(shapes, categoryMap)[j] == Stamp(shapes[i], categoryMap)
  {
    KeptAtIndices(shapes, categoryMap);
    KeptIndicesMembers(shapes, categoryMap);
    KeptIndicesSorted(shapes, categoryMap);
  }

  /** The j-th kept shape is the stamped shape at the j-th listed position. */
  lemma {:induction false} KeptAtIndices(shapes: seq<Shape>, categoryMap: map<string, int>)
    ensures |KeptIndices(shapes, categoryMap)| == |Kept(shapes, categoryMap)|
    ensures forall j :: 0 <= j < |Kept(shapes, categoryMap)| ==>
      var i := KeptIndices(shapes, categoryMap)[j];
      0 <= i < |shapes| && shapes[i].labelName in categoryMap && Kept(shapes, categoryMap)[j] == Stamp(shapes[i], categoryMap)
  {
    if shapes != [] {
      var n := |shapes| - 1;
      var init := shapes[..n];
      KeptAtIndices(init, categoryMap);
      assert forall i :: 0 <= i < n ==> init[i] == shapes[i];
    }
  }

  /** The listed positions are exactly those whose label is a key of the map. */
  lemma {:induction false} KeptIndicesMembers(shapes: seq<Shape>, categoryMap: map<string, int>)
    ensures forall i :: i in KeptIndices(shapes, categoryMap) <==> 0 <= i < |shapes| && shapes[i].labelName in categoryMap
  {
    if shapes != [] {
      var n := |shapes| - 1;
      var init := shapes[..n];
      KeptIndicesMembers(init, categoryMap);
      assert forall i :: 0 <= i < n ==> init[i] == shapes[i];
    }
  }

  /** The listed positions increase strictly, and each is a position of the input. */
  lemma {:induction false} KeptIndicesSorted(shapes: seq<Shape>, categoryMap: map<string, int>)
    ensures forall j :: 0 <= j < |KeptIndices(shapes, categoryMap)| ==> 0 <= KeptIndices(shapes, categoryMap)[j] < |shapes|
    ensures forall j, k :: 0 <= j < k < |KeptIndices(shapes, categoryMap)| ==>
      KeptIndices(shapes, categoryMap)[j] < KeptIndices(shapes, categoryMap)[k]
  {
    if shapes != [] {
      var n := |shapes| - 1;
      KeptIndicesSorted(shapes[..n], categoryMap);
    }
  }

  /**
    Every kept shape carries its class id, keeps its label and its other keys,
    and comes from a shape of the input with that label and those keys.
   */
  lemma {:induction false} KeptStamped(shapes: seq<Shape>, categoryMap: map<string, int>)
    ensures forall t :: t in Kept(shapes, categoryMap) ==>
      && t.labelName in categoryMap && t.categoryId == Some(categoryMap[t.labelName])
      && exists s :: s in shapes && s.labelName == t.labelName && s.fields == t.fields
  {
    if shapes != [] {
      var n := |shapes| - 1;
      KeptStamped(shapes[..n], categoryMap);
      forall t | t in Kept(shapes, categoryMap)
        ensures exists s :: s in shapes && s.labelName == t.labelName && s.fields == t.fields
      {
        if t in Kept(shapes[..n], categoryMap) {
          var s :| s in shapes[..n] && s.labelName == t.labelName && s.fields == t.fields;
          assert s in shapes;
        } else {
          assert shapes[n] in shapes;
        }
      }
    }
  }

  /** Filtering a concatenation filters each part. */
  lemma {:induction false} KeptConcat(s: seq<Shape>, t: seq<Shape>, categoryMap: map<string, int>)
    ensures Kept(s + t, categoryMap) == Kept(s, categoryMap) + Kept(t, categoryMap)
  {
    if t == [] {
      assert s + t == s;
    } else {
      var init := t[..|t| - 1];
      assert (s + t)[..|s + t| - 1] == s + init;
      assert (s + t)[|s + t| - 1] == t[|t| - 1];
      KeptConcat(s, init, categoryMap);
    }
  }

  /** Running the converter on its own output changes nothing. */
  lemma {:induction false} KeptIdempotent(shapes: seq<Shape>, categoryMap: map<string, int>)
    ensures Kept(Kept(shapes, categoryMap), categoryMap) == Kept(shapes, categoryMap)
  {
    if shapes != [] {
      var n := |shapes| - 1;
      var s := shapes[n];
      KeptIdempotent(shapes[..n], categoryMap);
      var tail := if s.labelName in categoryMap then [Stamp(s, categoryMap)] else [];
      KeptConcat(Kept(shapes[..n], categoryMap), tail, categoryMap);
      if s.labelName in categoryMap {
        assert [Stamp(s, categoryMap)][..0] == [];
        assert Kept(tail, categoryMap) == tail;
      }
    }
  }

  /**
    With the eleven-class map, every kept shape gets an id from 0 to 10 that
    the evaluation's inverted map turns back into the shape's own label.
   */
  lemma ElevenClassIds(shapes: seq<Shape>)
    ensures forall t :: t in Kept(shapes, CategoryMap) ==>
      && t.categoryId.Some? && 0 <= t.categoryId.value <= 10
      && t.categoryId.value in CategoryIdToName && CategoryIdToName[t.categoryId.value] == t.labelName
  {
    KeptStamped(shapes, CategoryMap);
    CategoryMapInverts();
  }

  /**
    A LabelMe file as the converter reads it: `shapes` is None when the file
    has no "shapes" key, and `other` holds the rest of the file (image path,
    image size, version, …).
   */
  class LabelFile {
    var shapes: Option<seq<Shape>>
    var other: map<string, string>

    constructor (shapes: Option<seq<Shape>>, other: map<string, string>)
      ensures this.shapes == shapes && this.other == other
    {
      this.shapes := shapes;
      this.other := other;
    }

    /**
      The loop of `process_json_files` for one file: `data.get("shapes", [])`
      is filtered into `new_shapes`, which then becomes `data["shapes"]`;
      nothing else in the file changes.
     */
    method ProcessShapes(categoryMap: map<string, int>)
      modifies this
      ensures shapes == Some(Kept(old(shapes).GetOr([]), categoryMap))
      ensures other == old(other)
    {
      var source := shapes.GetOr([]);
      var newShapes: seq<Shape> := [];
      for i := 0 to |source|
        invariant newShapes == Kept(source[..i], categoryMap)
      {
        var shape := source[i];
        assert source[..i + 1][..i] == source[..i];
        if shape.labelName in categoryMap {
          shape := shape.(categoryId := Some(categoryMap[shape.labelName]));
          newShapes := newShapes + [shape];
        }
      }
      assert source[..|source|] == source;
      shapes := Some(newShapes);
    }
  }
}
