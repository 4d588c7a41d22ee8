/**
 * The sample types `SimpleClass` and `Copia` of ExpressionTree/Program.cs and
 * the two usages that register and map them, as single objects and as lists.
 */
module Samples {
  import opened Wrappers
  import opened Shapes
  import opened Binding
  import opened Registry

  /** A public auto-property `{ get; set; }` of the given type, at its default value. */
  function AutoProperty(name: string, ty: TypeTag): Property {
    Property(name, ty, true, true, false, if ty == Str then Null else Datum(0))
  }

  const SimpleClass := Shape("SimpleClass", [
    AutoProperty("Prova1", Str),
    AutoProperty("Prova2", Int),
    AutoProperty("Prova3", DateTime),
    AutoProperty("Prova4", Guid),
    AutoProperty("Prova5", Decimal)], [], false)

  const Copia := Shape("Copia", [
    AutoProperty("Prova1", Str),
    AutoProperty("Prova2", Int),
    AutoProperty("Prova3", DateTime),
    AutoProperty("Prova4", Guid),
    AutoProperty("Prova5", Str)], [], false)

  /** `List<T>`: `Capacity { get; set; }` and `Count { get; }`; a `List<T>` is assignable to itself. */
  function ListOf(element: Shape): Shape {
    Shape("List", [AutoProperty("Capacity", Int), Property("Count", Int, true, false, false, Datum(0))], [element], true)
  }

  /** A `SimpleClass` instance with the given property values. */
  function Simple(prova1: Value, prova2: Value, prova3: Value, prova4: Value, prova5: Value): Obj {
    Obj([prova1, prova2, prova3, prova4, prova5], [])
  }

  /** The `Copia` a `SimpleClass` instance should map to: four properties copied, `Prova5` stringified. */
  function CopiaFor(show: Show, s: Obj): Obj
    requires Fits(SimpleClass, s)
  {
    Obj([s.values[0], s.values[1], s.values[2], s.values[3], Text(show(Decimal, s.values[4]))], [])
  }

  /**
   * Position `t` of `destination` is a writable property named as the
   * readable instance property at `t` of `origin`, of the same type or a
   * string, which is then not filled from an interface.
   */
  predicate Aligned(origin: Shape, destination: Shape) {
    |origin.props| == |destination.props|
    && forall t :: 0 <= t < |destination.props| ==>
         destination.props[t].canWrite && origin.props[t].canRead && origin.props[t].name == destination.props[t].name
         && !origin.props[t].isStatic
         && (origin.props[t].ty == destination.props[t].ty || (destination.props[t].ty == Str && !origin.props[t].ty.Interface?))
  }

  /** The value position `t` of an aligned destination receives. */
  function AlignedValue(origin: Shape, destination: Shape, show: Show, s: Obj, t: nat): Value
    requires Fits(origin, s) && t < |origin.props| == |destination.props|
  {
    if origin.props[t].ty == destination.props[t].ty then s.values[t] else Text(show(origin.props[t].ty, s.values[t]))
  }

  /** Aligned types map position by position: a copy where the types agree, a `ToString()` elsewhere. */
  lemma AlignedMap(origin: Shape, destination: Shape, show: Show, s: Obj)
    requires DistinctReadable(origin.props) && Aligned(origin, destination) && Fits(origin, s)
    ensures Plan(origin, destination).Ok?
    ensures ScalarMap(origin, destination, show, s) ==
              Obj(seq(|destination.props|, t requires 0 <= t < |destination.props| => AlignedValue(origin, destination, show, s, t)), [])
  {
    forall t, k | 0 <= t < |destination.props| && 0 <= k < |origin.props| ensures !BindThrows(origin, destination, t, k) {
      if IsSourceOf(origin.props, destination.props[t].name, k) {
        assert IsSourceOf(origin.props, destination.props[t].name, t);
      }
    }
    var r := ScalarMap(origin, destination, show, s);
    forall t | 0 <= t < |destination.props| ensures r.values[t] == AlignedValue(origin, destination, show, s, t) {
      if origin.props[t].ty == destination.props[t].ty {
        CopiesSameType(origin, destination, show, s, t, t);
      } else {
        StringifiesIntoString(origin, destination, show, s, t, t);
      }
    }
  }

  /** `SimpleClass` and `Copia` are aligned, and `SimpleClass` has no two properties of one name. */
  lemma SampleTypesAligned()
    ensures DistinctReadable(SimpleClass.props) && Aligned(SimpleClass, Copia)
  {
  }

  /** On `SimpleClass` and `Copia`, the position-by-position values are those of `CopiaFor`. */
  lemma CopiaForIsAligned(show: Show, s: Obj)
    requires Fits(SimpleClass, s)
    ensures Obj(seq(|Copia.props|, t requires 0 <= t < |Copia.props| => AlignedValue(SimpleClass, Copia, show, s, t)), [])
            == CopiaFor(show, s)
  {
  }

  /** Mapping a `SimpleClass` to a `Copia` copies `Prova1` to `Prova4` and stringifies `Prova5`. */
  lemma CopiaOf(show: Show, s: Obj)
    requires Fits(SimpleClass, s)
    ensures Plan(SimpleClass, Copia).Ok?
    ensures ScalarMap(SimpleClass, Copia, show, s) == CopiaFor(show, s)
  {
    SampleTypesAligned();
    CopiaForIsAligned(show, s);
    AlignedMap(SimpleClass, Copia, show, s);
  }

  /** `List<SimpleClass> -> List<Copia>` takes the sequence form, over `SimpleClass -> Copia`. */
  lemma SampleListsListLike()
    ensures ListLike(ListOf(SimpleClass), ListOf(Copia))
    ensures ListOf(SimpleClass).typeArgs[0] == SimpleClass && ListOf(Copia).typeArgs[0] == Copia
    ensures ExprFor(ListOf(SimpleClass), ListOf(Copia)).Ok?
  {
    SampleTypesAligned();
  }

  /** Mapping a `List<SimpleClass>` maps each element to its `Copia`, in order. */
  lemma CopiaListOf(show: Show, list: Obj)
    requires Conforms(ListOf(SimpleClass), list)
    ensures ExprFor(ListOf(SimpleClass), ListOf(Copia)).Ok?
    ensures var r := Run(ExprFor(ListOf(SimpleClass), ListOf(Copia)).value, show, list);
            |r.items| == |list.items| && forall i :: 0 <= i < |list.items| ==> r.items[i] == CopiaFor(show, list.items[i])
  {
    var origin, destination := ListOf(SimpleClass), ListOf(Copia);
    SampleListsListLike();
    RunByForm(origin, destination, show, list);
    forall i | 0 <= i < |list.items| ensures ScalarMap(SimpleClass, Copia, show, list.items[i]) == CopiaFor(show, list.items[i]) {
      CopiaOf(show, list.items[i]);
    }
  }

  /**
   * `MapperUsage`: register `SimpleClass -> Copia` and map one instance;
   * `today` and `guid` stand for `DateTime.Today` and `Guid.NewGuid()`, and
   * `123567` for the decimal `123.567m`.
   */
  method MapperUsage(show: Show, today: int, guid: int) returns (copia: Option<Obj>)
    ensures copia == Some(Simple(Text("qualcosa"), Datum(124), Datum(today), Datum(guid), Text(show(Decimal, Datum(123567)))))
  {
    var mapper := new Mapper();
    var registered := mapper.CreateMap(SimpleClass, Copia);
    var simpleClass := Simple(Text("qualcosa"), Datum(124), Datum(today), Datum(guid), Datum(123567));
    CopiaOf(show, simpleClass);
    copia := mapper.Map(SimpleClass, Copia, show, simpleClass);
  }

  /** A two-element `List<SimpleClass>` maps to the two `Copia` of its elements. */
  lemma CopiaPairOf(show: Show, list: Obj)
    requires Conforms(ListOf(SimpleClass), list) && |list.items| == 2
    ensures ExprFor(ListOf(SimpleClass), ListOf(Copia)).Ok?
    ensures Run(ExprFor(ListOf(SimpleClass), ListOf(Copia)).value, show, list).items
            == [CopiaFor(show, list.items[0]), CopiaFor(show, list.items[1])]
  {
    CopiaListOf(show, list);
  }

  /**
   * `MapperListUsage`: register `List<SimpleClass> -> List<Copia>` and map a
   * two-element list, twice; the delegate is built by the first call only.
   */
  method MapperListUsage(show: Show, today: int, guid: int) returns (first: Option<Obj>, second: Option<Obj>)
    ensures first.Some? && first == second
    ensures first.value.items == [
              Simple(Text("qualcosa"), Datum(124), Datum(today), Datum(guid), Text(show(Decimal, Datum(123567)))),
              Simple(Null, Datum(0), Datum(0), Datum(0), Text(show(Decimal, Datum(0))))]
  {
    var mapper := new Mapper();
    var origin, destination := ListOf(SimpleClass), ListOf(Copia);
    var registered := mapper.CreateMap(origin, destination);
    var simpleClass := Simple(Text("qualcosa"), Datum(124), Datum(today), Datum(guid), Datum(123567));
    var blank := Simple(Null, Datum(0), Datum(0), Datum(0), Datum(0));
    var list := Obj([Datum(4), Datum(2)], [simpleClass, blank]);
    CopiaPairOf(show, list);
    first := mapper.Map(origin, destination, show, list);
    assert mapper.mapDelegate[Key(origin, destination)].builds == 1;
    second := mapper.Map(origin, destination, show, list);
    assert mapper.mapDelegate[Key(origin, destination)].builds == 1;
  }
}
