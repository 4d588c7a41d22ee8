/**
 * The mapping registry (`ExpressionMapper.mapDelegate`, `CreateMap`, `Map`,
 * `CreateDelegate`): a dictionary from (origin, destination) pairs to lazily
 * compiled conversion procedures.
 */
module Registry {
  import opened Wrappers
  import opened Shapes
  import opened Binding
  import opened Sequence

  /** The dictionary key `Tuple<Type, Type>(origin, destination)`. */
  datatype Key = Key(origin: Shape, destination: Shape)

  /**
   * The expression `CreateDelegate` builds: a `MemberInit` over the whole
   * types, or the index loop over the lists `destination` with the element
   * expression `item`.
   */
  datatype Expr = Scalar(init: Init) | Foreach(destination: Shape, item: Init)

  /** A compiled delegate; `Expression.Lambda(...).Compile()` keeps the meaning of the expression. */
  datatype Delegate = Compiled(body: Expr)

  /** A `Lazy<Delegate>`: the expression, the delegate once built, and how many times it was built. */
  datatype Lazy = Lazy(expr: Expr, value: Option<Delegate>, builds: nat)

  /** The sequence form is chosen when both types are generic and both accept a `List` of their first type argument. */
  predicate ListLike(origin: Shape, destination: Shape) {
    IsGeneric(origin) && IsGeneric(destination) && origin.acceptsList && destination.acceptsList
  }

  /** The expression is well formed; the loop builds a generic list of its element expression's destination. */
  predicate ExprOk(e: Expr) {
    match e
    case Scalar(init) => InitOk(init)
    case Foreach(destination, item) => InitOk(item) && IsGeneric(destination) && item.destination == destination.typeArgs[0]
  }

  /** `o` is a value the expression's parameter accepts. */
  predicate Accepts(e: Expr, o: Obj) {
    match e
    case Scalar(init) => Fits(init.origin, o)
    case Foreach(_, item) => forall x <- o.items :: Fits(item.origin, x)
  }

  /**
   * What `CreateDelegate` builds for a pair before adding it: the index loop
   * over the element types when the pair is list-like, otherwise the binding
   * between the two whole types (also when both are generic but not both
   * list-like). Building the plan fails on duplicate readable names.
   */
  function ExprFor(origin: Shape, destination: Shape): (r: Result<Expr>)
    ensures r.Ok? ==> ExprOk(r.value) && (r.value.Foreach? <==> ListLike(origin, destination))
    ensures r.Ok? && r.value.Scalar? ==>
              Plan(origin, destination).Ok? && r.value.init == Init(origin, destination, Plan(origin, destination).value)
    ensures r.Ok? && r.value.Foreach? ==>
              r.value.destination == destination && Plan(origin.typeArgs[0], destination.typeArgs[0]).Ok?
              && r.value.item == Init(origin.typeArgs[0], destination.typeArgs[0], Plan(origin.typeArgs[0], destination.typeArgs[0]).value)
    ensures r.Err? <==> if ListLike(origin, destination)
                        then !Buildable(origin.typeArgs[0], destination.typeArgs[0])
                        else !Buildable(origin, destination)
    ensures r.Err? ==> r.error == if ListLike(origin, destination)
                                  then Plan(origin.typeArgs[0], destination.typeArgs[0]).error
                                  else Plan(origin, destination).error
  {
    if ListLike(origin, destination) then
      match Plan(origin.typeArgs[0], destination.typeArgs[0])
      case Err(e) => Err(e)
      case Ok(bs) => Ok(Foreach(destination, Init(origin.typeArgs[0], destination.typeArgs[0], bs)))
    else
      match Plan(origin, destination)
      case Err(e) => Err(e)
      case Ok(bs) => Ok(Scalar(Init(origin, destination, bs)))
  }

  /** A procedure built for `origin` accepts every instance of `origin`. */
  lemma ExprAccepts(origin: Shape, destination: Shape, o: Obj)
    requires ExprFor(origin, destination).Ok? && Conforms(origin, o)
    ensures Accepts(ExprFor(origin, destination).value, o)
  {
  }

  /**
   * Invokes a procedure on `o`: the result is an instance of the destination
   * type, and the loop yields one element per origin element.
   */
  function Run(e: Expr, show: Show, o: Obj): (r: Obj)
    requires ExprOk(e) && Accepts(e, o)
    ensures e.Scalar? ==> Fits(e.init.destination, r) && r.items == []
    ensures e.Foreach? ==> Conforms(e.destination, r) && |r.items| == |o.items|
  {
    match e
    case Scalar(init) => Apply(init, show, o)
    case Foreach(destination, item) =>
      Obj(Fresh(destination).values, seq(|o.items|, i requires 0 <= i < |o.items| => Apply(item, show, o.items[i])))
  }

  /**
   * What a registered pair's procedure computes: for a list-like pair, a
   * fresh destination list with one element per origin element, element `i`
   * being the scalar map of origin element `i`; for every other pair, the
   * scalar map between the two whole types.
   */
  lemma RunByForm(origin: Shape, destination: Shape, show: Show, o: Obj)
    requires ExprFor(origin, destination).Ok? && Conforms(origin, o)
    ensures ListLike(origin, destination) ==>
              var r := Run(ExprFor(origin, destination).value, show, o);
              r.values == Fresh(destination).values
              && |r.items| == |o.items|
              && forall i :: 0 <= i < |o.items| ==>
                   r.items[i] == ScalarMap(origin.typeArgs[0], destination.typeArgs[0], show, o.items[i])
    ensures !ListLike(origin, destination) ==>
              Run(ExprFor(origin, destination).value, show, o) == ScalarMap(origin, destination, show, o)
  {
  }

  /** `Lazy.Value`: builds the delegate on first use and reuses it afterwards. */
  function Force(cell: Lazy): (c: Lazy)
    ensures c.expr == cell.expr && c.value.Some?
    ensures BuiltAtMostOnce(cell) ==> BuiltAtMostOnce(c) && c.value == Some(Compiled(cell.expr))
    ensures cell.value.Some? ==> c == cell
  {
    if cell.value.None? then Lazy(cell.expr, Some(Compiled(cell.expr)), cell.builds + 1) else cell
  }

  /** A lazy cell that is either unbuilt or built exactly once from its own expression. */
  predicate BuiltAtMostOnce(cell: Lazy) {
    (cell.value.None? && cell.builds == 0) || (cell.value == Some(Compiled(cell.expr)) && cell.builds == 1)
  }

  /** An entry holds the expression built for its key, and its delegate is built at most once. */
  predicate EntryOk(key: Key, cell: Lazy) {
    ExprFor(key.origin, key.destination) == Ok(cell.expr) && BuiltAtMostOnce(cell)
  }

  /**
   * A conversion procedure for a registered pair: the index loop for the
   * sequence form, the `MemberInit` for the scalar form.
   */
  method Invoke(d: Delegate, show: Show, o: Obj) returns (r: Obj)
    requires ExprOk(d.body) && Accepts(d.body, o)
    ensures r == Run(d.body, show, o)
  {
    match d.body
    case Scalar(init) =>
      r := Apply(init, show, o);
    case Foreach(destination, item) =>
      r := MapSequence(item, destination, show, o);
  }

  /** The process-wide `mapDelegate` dictionary with its two public operations. */
  class Mapper {
    var mapDelegate: map<Key, Lazy>

    /** Every entry holds the expression built for its key, built at most once. */
    ghost predicate Valid()
      reads this
    {
      forall k <- mapDelegate :: EntryOk(k, mapDelegate[k])
    }

    constructor ()
      ensures Valid() && mapDelegate == map[]
    {
      mapDelegate := map[];
    }

    /**
     * `CreateMap` / `CreateDelegate`: builds the expression for the pair and
     * adds an unbuilt lazy delegate under its key. Fails, changing nothing,
     * when building the plan throws or when the key is already present.
     */
    method CreateMap(origin: Shape, destination: Shape) returns (outcome: Outcome)
      requires Valid()
      modifies this
      ensures Valid()
      ensures ExprFor(origin, destination).Err? ==>
                outcome == Fail(ExprFor(origin, destination).error) && mapDelegate == old(mapDelegate)
      ensures ExprFor(origin, destination).Ok? && Key(origin, destination) in old(mapDelegate) ==>
                outcome == Fail(DuplicateKey) && mapDelegate == old(mapDelegate)
      ensures ExprFor(origin, destination).Ok? && Key(origin, destination) !in old(mapDelegate) ==>
                outcome == Pass
                && mapDelegate == old(mapDelegate)[Key(origin, destination) := Lazy(ExprFor(origin, destination).value, None, 0)]
    {
      var isOriginEnumerable, isDestinationEnumerable := false, false;
      if IsGeneric(origin) && IsGeneric(destination) {
        isOriginEnumerable := origin.acceptsList;
        isDestinationEnumerable := destination.acceptsList;
      }
      var expression: Expr;
      if isOriginEnumerable && isDestinationEnumerable {
        var bindings := BuildPlan(origin.typeArgs[0], destination.typeArgs[0]);
        if bindings.Err? {
          return Fail(bindings.error);
        }
        expression := Foreach(destination, Init(origin.typeArgs[0], destination.typeArgs[0], bindings.value));
      } else {
        var bindings := BuildPlan(origin, destination);
        if bindings.Err? {
          return Fail(bindings.error);
        }
        expression := Scalar(Init(origin, destination, bindings.value));
      }
      var key := Key(origin, destination);
      if key in mapDelegate {
        return Fail(DuplicateKey);
      }
      mapDelegate := mapDelegate[key := Lazy(expression, None, 0)];
      return Pass;
    }

    /**
     * `Map`: `None` (the source's `null`) for a pair never registered, with
     * nothing built; otherwise forces the pair's lazy delegate and invokes it.
     */
    method Map(origin: Shape, destination: Shape, show: Show, o: Obj) returns (r: Option<Obj>)
      requires Valid() && Conforms(origin, o)
      modifies this
      ensures Valid()
      ensures Key(origin, destination) !in old(mapDelegate) ==> r == None && mapDelegate == old(mapDelegate)
      ensures Key(origin, destination) in old(mapDelegate) ==>
                var cell := old(mapDelegate)[Key(origin, destination)];
                r == Some(Run(cell.expr, show, o))
                && mapDelegate == old(mapDelegate)[Key(origin, destination) := Force(cell)]
    {
      var key := Key(origin, destination);
      if key !in mapDelegate {
        return None;
      }
      var cell := mapDelegate[key];
      assert EntryOk(key, cell);
      ExprAccepts(origin, destination, o);
      cell := Force(cell);
      mapDelegate := mapDelegate[key := cell];
      var result := Invoke(cell.value.value, show, o);
      return Some(result);
    }
  }
}
