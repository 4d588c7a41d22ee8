/**
 * Explicit descriptors for the .NET types the mapper inspects by reflection,
 * and the instances it reads and builds.
 */
module Shapes {

  /**
   * The property types the model tells apart; `Str` is `System.String`, and
   * `Interface` an interface type, on which reflection finds no `ToString()`.
   */
  datatype TypeTag = Str | Int | Decimal | DateTime | Guid | Bool | Class(name: string) | Interface(name: string)

  /**
   * A property value. `Datum` stands for any value that is not a string
   * (a number, a date, a Guid, a reference), identified by a code.
   */
  datatype Value = Null | Text(s: string) | Datum(code: int)

  /**
   * One public property as `GetProperties()` reports it: its name, its type,
   * whether it has a getter (`CanRead`) and a setter (`CanWrite`), whether
   * it is static, and the value the type's parameterless constructor leaves
   * in it.
   */
  datatype Property = Property(name: string, ty: TypeTag, canRead: bool, canWrite: bool, isStatic: bool, init: Value)

  /**
   * A type: its properties in declaration order, its generic type arguments
   * (empty when the type is not generic) and whether a `List<A>` over its
   * first type argument `A` is assignable to it.
   */
  datatype Shape = Shape(name: string, props: seq<Property>, typeArgs: seq<Shape>, acceptsList: bool)

  /** An instance: one value per property, and the elements when it is a list. */
  datatype Obj = Obj(values: seq<Value>, items: seq<Obj>)

  /** `ToString()` of a value of the given type; its text is left uninterpreted. */
  type Show = (TypeTag, Value) -> string

  /** `Type.IsGenericType`. */
  predicate IsGeneric(s: Shape) {
    |s.typeArgs| > 0
  }

  /** `o` has one value per property of `s`. */
  predicate Fits(s: Shape, o: Obj) {
    |o.values| == |s.props|
  }

  /**
   * `o` is an instance of `s` as the C# type system guarantees it: it fits
   * `s`, and when `s` is generic its elements fit the first type argument.
   */
  predicate Conforms(s: Shape, o: Obj) {
    Fits(s, o) && (IsGeneric(s) ==> forall x <- o.items :: Fits(s.typeArgs[0], x))
  }

  /** The instance `new T()` builds: every property at its initial value, no elements. */
  function Fresh(s: Shape): Obj
  {
    Obj(seq(|s.props|, j requires 0 <= j < |s.props| => s.props[j].init), [])
  }
}
