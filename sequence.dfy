/**
 * The sequence form of the mapping compiler (`CreateForeachExpression`):
 * an index loop that maps every element of the origin list with the scalar
 * expression and adds the result to a new destination list.
 */
module Sequence {
  import opened Shapes
  import opened Binding

  /**
   * Runs the loop `CreateForeachExpression` emits: `resultList = new
   * Destination()`, `i = 0`, and while `i < list.Count` map `list[i]` with
   * the element expression `item`, `Add` it and `i += 1`.
   */
  method MapSequence(item: Init, destination: Shape, show: Show, list: Obj) returns (result: Obj)
    requires InitOk(item)
    requires forall x <- list.items :: Fits(item.origin, x)
    ensures result.values == Fresh(destination).values
    ensures |result.items| == |list.items|
    ensures forall i :: 0 <= i < |list.items| ==> result.items[i] == Apply(item, show, list.items[i])
  {
    var resultList: seq<Obj> := [];
    var i := 0;
    while i < |list.items|
      invariant 0 <= i <= |list.items|
      invariant |resultList| == i
      invariant forall k :: 0 <= k < i ==> resultList[k] == Apply(item, show, list.items[k])
    {
      var element := list.items[i];
      var itemToAdd := Apply(item, show, element);
      resultList := resultList + [itemToAdd];
      i := i + 1;
    }
    result := Obj(Fresh(destination).values, resultList);
  }
}
