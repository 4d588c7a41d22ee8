# SimpleExpressionMapper core in Dafny

This is a model of `ExpressionMapper`, the mapping compiler and registry of SimpleExpressionMapper.
`CreateMap<TOrigin, TDestination>()` inspects two types and builds an expression that converts one into the other:

- For two plain types it builds a `MemberInit`. A writable destination property is copied from the same-named readable origin property of the same type. A writable `string` destination property is set to `ToString()` of a same-named readable origin property of another type (except the throwing cases below). Every other property keeps the value `new TDestination()` gives it.
- For two list-like generic types it builds an index loop. The loop maps every element of the origin list with that `MemberInit` and `Add`s the result to a new list.

The expression goes into a static dictionary keyed by the pair of types, as a `Lazy<Delegate>`. `Map<TOrigin, TDestination>(origin)` returns `null` for a pair that was never registered. For a registered pair it compiles the delegate on first use and invokes it.

The model replaces reflection with explicit descriptors:

- A `Shapes.Shape` is a type. It has properties (name, type tag, getter, setter, whether the property is static, and the value the parameterless constructor leaves in the property), generic type arguments, and whether a `List` of its first type argument is assignable to it.
- An instance (`Shapes.Obj`) holds one value per property and, for lists, its elements.
- `ToString()` is a parameter `show` of type `(TypeTag, Value) -> string`. Its text is left uninterpreted.
- Compiling an expression is modelled as wrapping it (`Registry.Compiled`). Its meaning is given by `Registry.Run`.

Modules:

- `Wrappers`: Option, Result, Outcome and the three errors.
- `Shapes`: the descriptors.
- `Binding`: `CreateMapByBinding`. It covers the name index, the per-property rule, the plan, the loop that builds the plan and the meaning of the `MemberInit`.
- `Sequence`: the loop emitted by `CreateForeachExpression`.
- `Registry`: `CreateDelegate`, `CreateMap`, `Map` and the lazy dictionary, as the class `Mapper`.
- `Samples`: the sample types of `Program.cs` and their two usages.

Behaviour of the code that the model keeps:

- A pair of generic types that are not both list-like is mapped with the scalar binding between the two whole types: the test at ExpressionMapper.cs:65 fails and line 77 binds `origin` to `destination`.
- Registering a pair twice throws in `Dictionary.Add`. The model returns `Fail(DuplicateKey)` with the dictionary unchanged.
- The plan is built eagerly, inside `CreateDelegate`, before the dictionary insertion; only `Compile()` is deferred. So an origin type with two readable properties of one name (`ToDictionary` throws) makes `CreateMap` fail before the duplicate-key check.
- Building a binding throws in two cases, and `CreateMap` then fails with `InvalidBinding`, naming the first destination property (in order) whose binding throws: the same-named origin property is static (`Expression.Property` with an instance, lines 106 and 111), or a stringify reads an interface-typed property, on which `GetMethod("ToString", ...)` finds nothing and `Expression.Call` gets a null method (line 112).

## Model

| member | source | states |
|---|---|---|
| `Binding.ReadableIndex` | ExpressionTree/ExpressionMapper.cs:91-94 | Fails exactly when two readable origin properties share a name, naming one such name. Otherwise it maps every readable property's name, and nothing else, to that property. |
| `Binding.RuleFor` | ExpressionTree/ExpressionMapper.cs:103-116 | A rule always reads the same-named readable origin property. It is a copy exactly when the types are equal, and a stringify only for a `string` destination. There is no rule exactly when every same-named readable origin property has another type and the destination is not a `string`. |
| `Binding.RuleOf` | ExpressionTree/ExpressionMapper.cs:96-116 | Defines the rule of one destination property: none without a setter, otherwise the rule `RuleFor` chooses; `PlanBindsRuleOf` and `ScalarMapAt` state what the plan and the result do with it. |
| `Binding.FirstThrow` | ExpressionTree/ExpressionMapper.cs:101-116 | Over `Rules` (the `RuleOf` of every destination property, in order), finds no position exactly when no rule among the first `n` throws; otherwise the position it finds throws and no earlier one does. |
| `Binding.FirstThrowStays` | ExpressionTree/ExpressionMapper.cs:101-116 | Once a rule has thrown, walking further destination properties does not change which one threw first. |
| `Binding.RuleThrowsAt` | ExpressionTree/ExpressionMapper.cs:104-116 | The rule of a destination property throws exactly when its same-named readable origin property is static, or is an interface read through `ToString()` into a `string` property of another type. |
| `Binding.PlanThrowsIff` | ExpressionTree/ExpressionMapper.cs:101-116 | With distinct readable names, no rule throws exactly when no binding throws; otherwise the first throwing rule is at a property whose binding throws, and no earlier binding throws. |
| `Binding.Collect` | ExpressionTree/ExpressionMapper.cs:100-117 | The bindings collected after the first `n` destination properties target strictly increasing positions below `n`, each carrying the rule of the property it targets. |
| `Binding.Plan` | ExpressionTree/ExpressionMapper.cs:89-120 | The plan, built from `Rules` (the `RuleOf` of every destination property, in order), succeeds exactly when the readable origin names are distinct and no binding throws. On duplicate names it fails with `DuplicateProperty`. Otherwise it fails with `InvalidBinding`, naming the first destination property whose binding throws. A plan that succeeds has bindings targeting strictly increasing destination positions, so at most one per property and in destination order, each reading an origin property and writing a destination property. |
| `Binding.BuildPlan` | ExpressionTree/ExpressionMapper.cs:89-117 | The `foreach` over the writable destination properties, appending to `bindings` and throwing at the first binding that cannot be built, returns exactly the plan. |
| `Binding.PlanBindsRuleOf` | ExpressionTree/ExpressionMapper.cs:96-117 | The binding the plan holds for a destination position is that property's rule when it has a setter, and none otherwise. |
| `Binding.Eval` | ExpressionTree/ExpressionMapper.cs:106-112 | Defines the value one binding assigns: the origin property's value for a copy, its `ToString()` for a stringify; `CopiesSameType` and `StringifiesIntoString` state where each lands. |
| `Shapes.Fresh` | ExpressionTree/ExpressionMapper.cs:119 | Defines `new Destination()`: every property at its initial value, no elements; `KeepsInitialValue` and `MapSequence` state where it shows in a result. |
| `Binding.ScalarMap` | ExpressionTree/ExpressionMapper.cs:89-120 | The scalar conversion of a type whose plan succeeds yields a destination instance with one value per destination property and no elements; `ScalarMapAt` and the lemmas after it give each value. |
| `Binding.FillAt` | ExpressionTree/ExpressionMapper.cs:119 | Applying bindings in destination order leaves each position with the value of the binding that targets it, or with its previous value. |
| `Binding.Apply` | ExpressionTree/ExpressionMapper.cs:119 | The `MemberInit` yields a fresh destination instance: one value per destination property and no elements. |
| `Binding.ScalarMapAt` | ExpressionTree/ExpressionMapper.cs:101-119 | Each destination property of the result holds the value its rule produces, or the value from `new Destination()` when it has no rule. |
| `Binding.CopiesSameType` | ExpressionTree/ExpressionMapper.cs:104-108 | A writable destination property with a same-named readable origin property of the same type receives that value unchanged. |
| `Binding.StringifiesIntoString` | ExpressionTree/ExpressionMapper.cs:109-116 | A writable `string` destination property with a same-named readable origin property of another type receives `ToString()` of that value. |
| `Binding.KeepsInitialValue` | ExpressionTree/ExpressionMapper.cs:96-117 | A destination property without a setter, or without a same-named readable origin property of its own type while not being a `string`, keeps its value from `new Destination()`. |
| `Binding.ReadsOnlyReadable` | ExpressionTree/ExpressionMapper.cs:91-94 | Two origin instances that agree on every readable property map to the same result, so properties without a getter are never used. |
| `Sequence.MapSequence` | ExpressionTree/ExpressionMapper.cs:141-158 | The index loop returns a new list of the same length as the input, whose element `i` is the element expression applied to input element `i`. |
| `Registry.ListLike` | ExpressionTree/ExpressionMapper.cs:42-50 | Both types are generic and each accepts a `List` of its first type argument. |
| `Registry.ExprFor` | ExpressionTree/ExpressionMapper.cs:37-84 | The index loop is chosen exactly when the pair is list-like. It builds into the destination list type, and its element expression maps the origin's first type argument to the destination's with their plan. In every other case the expression is the `MemberInit` from the origin type to the destination type with their plan. Building fails exactly when the chosen pair is not buildable, with the plan's error. |
| `Registry.Run` | ExpressionTree/ExpressionMapper.cs:65-84 | The compiled delegate yields an instance of the destination type: for the `MemberInit`, one value per destination property and no elements; for the loop, a destination list whose elements are instances of its type argument, one per origin element. |
| `Registry.RunByForm` | ExpressionTree/ExpressionMapper.cs:42-84 | For a list-like pair the procedure yields a fresh list with one element per origin element, element `i` being the scalar map of origin element `i` between the type arguments. For every other pair it is the scalar map between the two types. |
| `Registry.Force` | ExpressionTree/ExpressionMapper.cs:70-73 | `Lazy.Value` yields a delegate. A cell already built is returned unchanged. An unbuilt cell is built once, from its own expression. |
| `Registry.Invoke` | ExpressionTree/ExpressionMapper.cs:28 | Invoking the delegate computes what the procedure's expression means. |
| `Registry.Mapper.constructor` | ExpressionTree/ExpressionMapper.cs:12 | The dictionary starts empty and satisfies the registry invariant. |
| `Registry.Mapper.CreateMap` | ExpressionTree/ExpressionMapper.cs:35-87 | Adds exactly one unbuilt entry under (origin, destination) and leaves the other entries unchanged. It fails, changing nothing, when building the plan throws or when the key is already present. It keeps every entry at most once built. |
| `Registry.Mapper.Map` | ExpressionTree/ExpressionMapper.cs:21-32 | An unregistered pair gives `None` and leaves the dictionary as it was, with nothing built. A registered pair gives the result of its procedure and forces its cell: built on the first call, reused afterwards. |
| `Samples.AlignedMap` | ExpressionTree/ExpressionMapper.cs:101-117 | Types whose properties pair up by position (same name, a readable instance origin property, and the same type or a `string` destination filled from a non-interface type) build a plan and map position by position: copies where the types agree, `ToString()` elsewhere. |
| `Samples.CopiaOf` | ExpressionTree/Program.cs:12-28 | Mapping a `SimpleClass` to a `Copia` copies `Prova1` to `Prova4` and stringifies the decimal `Prova5`. |
| `Samples.CopiaListOf` | ExpressionTree/Program.cs:60-71 | Mapping a `List<SimpleClass>` to a `List<Copia>` maps each element to its `Copia`, in order. |
| `Samples.MapperUsage` | ExpressionTree/Program.cs:42-56 | Registering `SimpleClass -> Copia` and mapping the sample instance gives the expected `Copia`. |
| `Samples.MapperListUsage` | ExpressionTree/Program.cs:58-72 | Registering the list pair and mapping a two-element list gives the two expected `Copia` values. A second `Map` gives the same result without building again. |

## Left out

- Static destination properties are treated like instance properties; the model does not decide whether `Expression.Bind` accepts them.
- Reflection (`GetProperties`, `IsGenericType`, `IsAssignableFrom`, `MakeGenericType`) is replaced by the descriptors. The order of properties is the descriptor's order; .NET does not promise declaration order.
- `Expression.Lambda(...).Compile()` is a foreign library call. A compiled delegate is modelled as its expression, and its meaning is given by an interpreter.
- `ToString()` of `decimal`, `DateTime`, `Guid` and other types is culture-dependent. Its text is the uninterpreted parameter `show`.
- Null semantics are not modelled: a `null` origin or list, and `ToString()` on a `null` property value, which throws in the source. The model applies `show` to `Null` instead.
- Thread safety of `Lazy<T>` and races on the static `Dictionary` are not modelled. The registry is sequential, and the lazy cell is an optional delegate with a build counter.
- `CreateForeachExpression` looks up `Count`, the indexer `Item` and `Add` by reflection. For a type that is assignable from `List<T>` but lacks them (an interface such as `IEnumerable<T>`), the source throws while building the expression. The model assumes list-like types have them.
- `Expression.New(destination)` needs a parameterless constructor, which the `class` constraint does not guarantee. The descriptors always provide initial values.
- Indexer properties, which `GetProperties` also reports, are not part of the descriptors.
- `Sequence.MapSequence`: the result list's own properties are those of `new Destination()`. `Count` and `Capacity` after the `Add` calls are not tied to the number of elements.
- The benchmark harness of `Program.cs` (`Performance`, `Stopwatch`, console output) is timing and I/O. `DateTime.Today`, `Guid.NewGuid()` and the decimal `123.567m` in the sample usages are parameters or integer codes.
