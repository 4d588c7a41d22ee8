/**
 * The scalar form of the mapping compiler (`CreateMapByBinding`): the
 * name-keyed index of the readable origin properties, the rule chosen for
 * each writable destination property, the binding plan, and the meaning of
 * the `MemberInit` expression built from that plan.
 */
module Binding {
  import opened Wrappers
  import opened Shapes

  /** How a destination property is set: copied, or set to `ToString()` of the origin property at `from`. */
  datatype Rule = Copy(from: nat) | Stringify(from: nat)

  /** `Expression.Bind` of the destination property at `target`. */
  datatype MemberBinding = MemberBinding(target: nat, rule: Rule)

  /** `MemberInit(New(destination), bindings)` over a parameter of type `origin`. */
  datatype Init = Init(origin: Shape, destination: Shape, bindings: seq<MemberBinding>)

  /** No two readable properties share a name (else `ToDictionary` throws). */
  predicate DistinctReadable(ps: seq<Property>) {
    forall i, j :: 0 <= i < j < |ps| && ps[i].canRead && ps[j].canRead ==> ps[i].name != ps[j].name
  }

  /** The property at `k` is readable and is called `name`. */
  predicate IsSourceOf(ps: seq<Property>, name: string, k: int) {
    0 <= k < |ps| && ps[k].canRead && ps[k].name == name
  }

  /** `idx` maps the name of every readable property of `ps`, and only those, to its position. */
  predicate IndexOf(idx: map<string, nat>, ps: seq<Property>) {
    DistinctReadable(ps)
    && (forall n :: n in idx ==> IsSourceOf(ps, n, idx[n]))
    && (forall k :: 0 <= k < |ps| && ps[k].canRead ==> ps[k].name in idx && idx[ps[k].name] == k)
  }

  /**
   * `GetProperties().Where(p => p.CanRead).ToDictionary(p => p.Name)`: fails
   * on the first readable property whose name was already seen.
   */
  function ReadableIndex(ps: seq<Property>): (r: Result<map<string, nat>>)
    ensures r.Ok? <==> DistinctReadable(ps)
    ensures r.Ok? ==> IndexOf(r.value, ps)
    ensures r.Err? ==> r.error.DuplicateProperty?
                       && exists i, j :: 0 <= i < j < |ps| && IsSourceOf(ps, r.error.name, i) && IsSourceOf(ps, r.error.name, j)
    decreases |ps|
  {
    if ps == [] then Ok(map[])
    else
      var init, last := ps[..|ps| - 1], ps[|ps| - 1];
      assert forall k :: 0 <= k < |init| ==> init[k] == ps[k];
      match ReadableIndex(init)
      case Err(e) =>
        assert forall n, k :: IsSourceOf(init, n, k) ==> IsSourceOf(ps, n, k);
        Err(e)
      case Ok(idx) =>
        if !last.canRead then Ok(idx)
        else if last.name in idx then
          assert IsSourceOf(ps, last.name, idx[last.name]) && IsSourceOf(ps, last.name, |ps| - 1);
          Err(DuplicateProperty(last.name))
        else Ok(idx[last.name := |ps| - 1])
  }

  /**
   * The rule for one writable destination property `d`: copy when the
   * same-named readable origin property has the same type; otherwise
   * stringify when there is one and `d` is a string; otherwise none.
   */
  function RuleFor(idx: map<string, nat>, src: seq<Property>, d: Property): (r: Option<Rule>)
    requires IndexOf(idx, src)
    ensures r.Some? ==> IsSourceOf(src, d.name, r.value.from)
    ensures r.Some? ==> (r.value.Copy? <==> src[r.value.from].ty == d.ty)
    ensures r.Some? && r.value.Stringify? ==> d.ty == Str
    ensures r.None? <==> forall k :: IsSourceOf(src, d.name, k) ==> src[k].ty != d.ty && d.ty != Str
  {
    if d.name in idx && src[idx[d.name]].ty == d.ty then Some(Copy(idx[d.name]))
    else if d.name in idx && d.ty == Str then Some(Stringify(idx[d.name]))
    else None
  }

  /** Bindings target strictly increasing destination positions. */
  predicate Increasing(bs: seq<MemberBinding>) {
    forall i, j :: 0 <= i < j < |bs| ==> bs[i].target < bs[j].target
  }

  /** Every binding reads a property of `origin` and writes a property of `destination`. */
  predicate Within(bs: seq<MemberBinding>, origin: Shape, destination: Shape) {
    forall b <- bs :: b.target < |destination.props| && b.rule.from < |origin.props|
  }

  /** The rule of the destination property `d`: none when it has no setter. */
  function RuleOf(idx: map<string, nat>, src: seq<Property>, d: Property): Option<Rule>
    requires IndexOf(idx, src)
  {
    if d.canWrite then RuleFor(idx, src, d) else None
  }

  /** The rule of every destination property, in order. */
  function Rules(idx: map<string, nat>, src: seq<Property>, dst: seq<Property>): (rules: seq<Option<Rule>>)
    requires IndexOf(idx, src)
    ensures |rules| == |dst|
    ensures forall t :: 0 <= t < |dst| ==> rules[t] == RuleOf(idx, src, dst[t])
  {
    seq(|dst|, t requires 0 <= t < |dst| => RuleOf(idx, src, dst[t]))
  }

  /**
   * Building the binding for `rule` throws when it reads `p`: a static getter
   * read through the instance parameter (`Expression.Property`), or
   * `ToString()` looked up on an interface, where reflection finds none
   * (`Expression.Call` with a null method).
   */
  predicate Throws(p: Property, rule: Rule) {
    p.isStatic || (rule.Stringify? && p.ty.Interface?)
  }

  /**
   * Building the binding of the writable destination property at `t` from
   * the same-named readable origin property at `k` throws.
   */
  predicate BindThrows(origin: Shape, destination: Shape, t: int, k: int) {
    0 <= t < |destination.props| && destination.props[t].canWrite
    && IsSourceOf(origin.props, destination.props[t].name, k)
    && if origin.props[k].ty == destination.props[t].ty then origin.props[k].isStatic
       else destination.props[t].ty == Str && (origin.props[k].isStatic || origin.props[k].ty.Interface?)
  }

  /** `CreateMapByBinding` returns an expression: the readable names are distinct and no binding throws. */
  predicate Buildable(origin: Shape, destination: Shape) {
    DistinctReadable(origin.props)
    && forall t, k | 0 <= t < |destination.props| && 0 <= k < |origin.props| :: !BindThrows(origin, destination, t, k)
  }

  /** The first of the first `n` rules whose binding throws, if any. */
  function FirstThrow(rules: seq<Option<Rule>>, src: seq<Property>, n: nat): (r: Option<nat>)
    requires n <= |rules|
    requires forall t :: 0 <= t < |rules| && rules[t].Some? ==> rules[t].value.from < |src|
    ensures r.None? <==> forall t :: 0 <= t < n && rules[t].Some? ==> !Throws(src[rules[t].value.from], rules[t].value)
    ensures r.Some? ==> r.value < n && rules[r.value].Some? && Throws(src[rules[r.value].value.from], rules[r.value].value)
    ensures r.Some? ==> forall t :: 0 <= t < r.value && rules[t].Some? ==> !Throws(src[rules[t].value.from], rules[t].value)
    decreases n
  {
    if n == 0 then None
    else
      match FirstThrow(rules, src, n - 1)
      case Some(t) => Some(t)
      case None =>
        if rules[n - 1].Some? && Throws(src[rules[n - 1].value.from], rules[n - 1].value) then Some(n - 1) else None
  }

  /** Once a rule throws, it stays the first one that does. */
  lemma {:induction false} FirstThrowStays(rules: seq<Option<Rule>>, src: seq<Property>, m: nat, n: nat)
    requires m <= n <= |rules|
    requires forall t :: 0 <= t < |rules| && rules[t].Some? ==> rules[t].value.from < |src|
    requires FirstThrow(rules, src, m).Some?
    ensures FirstThrow(rules, src, n) == FirstThrow(rules, src, m)
    decreases n
  {
    if n > m {
      FirstThrowStays(rules, src, m, n - 1);
    }
  }

  /** The rule at `t` throws exactly when the binding of `t` throws. */
  lemma RuleThrowsAt(origin: Shape, destination: Shape, t: nat)
    requires DistinctReadable(origin.props) && t < |destination.props|
    ensures var rule := RuleOf(ReadableIndex(origin.props).value, origin.props, destination.props[t]);
            (rule.Some? && Throws(origin.props[rule.value.from], rule.value)) <==> exists k :: BindThrows(origin, destination, t, k)
  {
    var idx := ReadableIndex(origin.props).value;
    var d := destination.props[t];
    var rule := RuleOf(idx, origin.props, d);
    if k :| BindThrows(origin, destination, t, k) {
      assert rule.Some?;
      var j := rule.value.from;
      assert IsSourceOf(origin.props, d.name, j);
    } else if rule.Some? {
      assert !BindThrows(origin, destination, t, rule.value.from);
    }
  }

  /**
   * The bindings the `foreach` of `CreateMapByBinding` has collected after
   * the first `n` destination properties.
   */

  function Collect(rules: seq<Option<Rule>>, n: nat): (bs: seq<MemberBinding>)
    requires n <= |rules|
    ensures Increasing(bs)
    ensures forall b <- bs :: b.target < n && rules[b.target] == Some(b.rule)
    decreases n
  {
    if n == 0 then []
    else if rules[n - 1].Some? then Collect(rules, n - 1) + [MemberBinding(n - 1, rules[n - 1].value)]
    else Collect(rules, n - 1)
  }

  /**
   * The binding plan `CreateMapByBinding` builds for a pair of types: it
   * throws on duplicate readable origin names, then at the first destination
   * property whose binding cannot be built.
   */
  function Plan(origin: Shape, destination: Shape): (r: Result<seq<MemberBinding>>)
    ensures r.Ok? <==> Buildable(origin, destination)
    ensures r.Err? && !DistinctReadable(origin.props) ==> r.error.DuplicateProperty?
    ensures r.Err? && DistinctReadable(origin.props) ==>
              r.error.InvalidBinding?
              && exists t, k :: BindThrows(origin, destination, t, k) && r.error.name == destination.props[t].name
                                && forall u, j :: u < t ==> !BindThrows(origin, destination, u, j)
    ensures r.Ok? ==> Increasing(r.value) && Within(r.value, origin, destination)
  {
    match ReadableIndex(origin.props)
    case Err(e) => Err(e)
    case Ok(idx) =>
      var rules := Rules(idx, origin.props, destination.props);
      PlanThrowsIff(origin, destination);
      match FirstThrow(rules, origin.props, |rules|)
      case Some(t) => Err(InvalidBinding(destination.props[t].name))
      case None => Ok(Collect(rules, |rules|))
  }

  /** The first rule that throws belongs to the first destination property whose binding throws. */
  lemma PlanThrowsIff(origin: Shape, destination: Shape)
    requires DistinctReadable(origin.props)
    ensures var rules := Rules(ReadableIndex(origin.props).value, origin.props, destination.props);
            var first := FirstThrow(rules, origin.props, |rules|);
            (first.None? <==> forall t, k :: !BindThrows(origin, destination, t, k))
            && (first.Some? ==> exists k :: BindThrows(origin, destination, first.value, k))
            && (first.Some? ==> forall u, j :: u < first.value ==> !BindThrows(origin, destination, u, j))
  {
    forall t | 0 <= t < |destination.props| {
      RuleThrowsAt(origin, destination, t);
    }
  }

  /** The rule of the first binding that targets `t`, if any. */
  function BindingFor(bs: seq<MemberBinding>, t: nat): (r: Option<Rule>)
    ensures r.None? <==> forall b <- bs :: b.target != t
    ensures r.Some? ==> MemberBinding(t, r.value) in bs
  {
    if bs == [] then None
    else if bs[0].target == t then Some(bs[0].rule)
    else BindingFor(bs[1..], t)
  }

  /**
   * `CreateMapByBinding` (ExpressionMapper.cs): index the readable origin
   * properties, then walk the writable destination properties in order and
   * collect a binding for each one that gets a rule.
   */
  method BuildPlan(origin: Shape, destination: Shape) returns (r: Result<seq<MemberBinding>>)
    ensures r == Plan(origin, destination)
  {
    var lookup := ReadableIndex(origin.props);
    if lookup.Err? {
      return Err(lookup.error);
    }
    var dictionary := lookup.value;
    ghost var rules := Rules(dictionary, origin.props, destination.props);
    var bindings: seq<MemberBinding> := [];
    for i := 0 to |destination.props|
      invariant bindings == Collect(rules, i)
      invariant FirstThrow(rules, origin.props, i).None?
    {
      var info := destination.props[i];
      assert rules[i] == if info.canWrite then RuleFor(dictionary, origin.props, info) else None;
      if info.canWrite {
        if info.name in dictionary && origin.props[dictionary[info.name]].ty == info.ty {
          var sourceInfo := origin.props[dictionary[info.name]];
          if sourceInfo.isStatic {
            FirstThrowStays(rules, origin.props, i + 1, |rules|);
            return Err(InvalidBinding(info.name));
          }
          bindings := bindings + [MemberBinding(i, Copy(dictionary[info.name]))];
        } else if info.name in dictionary && info.ty == Str {
          var sourceInfo := origin.props[dictionary[info.name]];
          if sourceInfo.isStatic || sourceInfo.ty.Interface? {
            FirstThrowStays(rules, origin.props, i + 1, |rules|);
            return Err(InvalidBinding(info.name));
          }
          bindings := bindings + [MemberBinding(i, Stringify(dictionary[info.name]))];
        }
      }
    }
    return Ok(bindings);
  }

  /**
   * The value a rule assigns: the origin property read from `o`
   * (`Expression.Property`), or its `ToString()` (`Expression.Call`).
   */
  function Eval(rule: Rule, src: seq<Property>, show: Show, o: Obj): Value
    requires rule.from < |o.values| && rule.from < |src|
  {
    match rule
    case Copy(k) => o.values[k]
    case Stringify(k) => Text(show(src[k].ty, o.values[k]))
  }

  /** Applies the bindings, in order, to the property values `vals`. */
  function Fill(vals: seq<Value>, bs: seq<MemberBinding>, src: seq<Property>, show: Show, o: Obj): (r: seq<Value>)
    requires forall b <- bs :: b.target < |vals| && b.rule.from < |o.values| && b.rule.from < |src|
    ensures |r| == |vals|
    decreases |bs|
  {
    if bs == [] then vals
    else
      assert bs[0] in bs;
      Fill(vals[bs[0].target := Eval(bs[0].rule, src, show, o)], bs[1..], src, show, o)
  }

  /** The well-formed expressions: bindings in range and in destination order. */
  predicate InitOk(init: Init) {
    Increasing(init.bindings) && Within(init.bindings, init.origin, init.destination)
  }

  /** Evaluates the `MemberInit` expression on the origin instance `o`. */
  function Apply(init: Init, show: Show, o: Obj): (r: Obj)
    requires InitOk(init) && Fits(init.origin, o)
    ensures Fits(init.destination, r) && r.items == []
  {
    Obj(Fill(Fresh(init.destination).values, init.bindings, init.origin.props, show, o), [])
  }

  /** The scalar conversion from `origin` to `destination`. */
  function ScalarMap(origin: Shape, destination: Shape, show: Show, o: Obj): (r: Obj)
    requires Plan(origin, destination).Ok? && Fits(origin, o)
    ensures Fits(destination, r) && r.items == []
  {
    Apply(Init(origin, destination, Plan(origin, destination).value), show, o)
  }

  /** Each position ends up with the value of the one binding that targets it, or keeps its value. */
  lemma {:induction false} FillAt(vals: seq<Value>, bs: seq<MemberBinding>, src: seq<Property>, show: Show, o: Obj, t: nat)
    requires forall b <- bs :: b.target < |vals| && b.rule.from < |o.values| && b.rule.from < |src|
    requires Increasing(bs) && t < |vals|
    ensures Fill(vals, bs, src, show, o)[t] ==
              match BindingFor(bs, t)
              case None => vals[t]
              case Some(rule) => Eval(rule, src, show, o)
    decreases |bs|
  {
    if bs != [] {
      var b := bs[0];
      assert b in bs;
      var vals' := vals[b.target := Eval(b.rule, src, show, o)];
      assert Increasing(bs[1..]) by {
        forall i, j | 0 <= i < j < |bs[1..]| ensures bs[1..][i].target < bs[1..][j].target {
          assert bs[1..][i] == bs[i + 1] && bs[1..][j] == bs[j + 1];
        }
      }
      FillAt(vals', bs[1..], src, show, o, t);
      if b.target == t {
        forall c <- bs[1..] ensures c.target != t {
          var i :| 0 <= i < |bs[1..]| && bs[1..][i] == c;
          assert bs[i + 1] == c;
        }
      }
    }
  }

  /** The bindings collected for the first `n` positions are exactly their rules. */
  lemma {:induction false} CollectBinds(rules: seq<Option<Rule>>, n: nat, t: nat)
    requires n <= |rules|
    ensures BindingFor(Collect(rules, n), t) == if t < n then rules[t] else None
    decreases n
  {
    if n > 0 {
      CollectBinds(rules, n - 1, t);
      if rules[n - 1].Some? {
        BindingForSnoc(Collect(rules, n - 1), MemberBinding(n - 1, rules[n - 1].value), t);
      }
    }
  }

  /** The first binding for `t` in `bs + [b]`. */
  lemma {:induction false} BindingForSnoc(bs: seq<MemberBinding>, b: MemberBinding, t: nat)
    ensures BindingFor(bs + [b], t) ==
              if BindingFor(bs, t).Some? then BindingFor(bs, t)
              else if b.target == t then Some(b.rule) else None
    decreases |bs|
  {
    if bs != [] {
      assert (bs + [b])[1..] == bs[1..] + [b];
      BindingForSnoc(bs[1..], b, t);
    }
  }

  /** The plan binds each destination property according to its rule, and nothing else. */
  lemma PlanBindsRuleOf(origin: Shape, destination: Shape, t: nat)
    requires Plan(origin, destination).Ok? && t < |destination.props|
    ensures BindingFor(Plan(origin, destination).value, t) == RuleOf(ReadableIndex(origin.props).value, origin.props, destination.props[t])
  {
    var idx := ReadableIndex(origin.props).value;
    CollectBinds(Rules(idx, origin.props, destination.props), |destination.props|, t);
  }

  /** A property of the result holds the value its rule gives, or its initial value when it has none. */
  lemma ScalarMapAt(origin: Shape, destination: Shape, show: Show, o: Obj, t: nat)
    requires Plan(origin, destination).Ok? && Fits(origin, o) && t < |destination.props|
    ensures ScalarMap(origin, destination, show, o).values[t] ==
              match RuleOf(ReadableIndex(origin.props).value, origin.props, destination.props[t])
              case None => destination.props[t].init
              case Some(rule) => Eval(rule, origin.props, show, o)
  {
    var bs := Plan(origin, destination).value;
    FillAt(Fresh(destination).values, bs, origin.props, show, o, t);
    PlanBindsRuleOf(origin, destination, t);
  }

  /** A writable destination property whose same-named readable origin property has the same type receives its value. */
  lemma CopiesSameType(origin: Shape, destination: Shape, show: Show, o: Obj, t: nat, k: nat)
    requires Plan(origin, destination).Ok? && Fits(origin, o) && t < |destination.props|
    requires destination.props[t].canWrite
    requires IsSourceOf(origin.props, destination.props[t].name, k)
    requires origin.props[k].ty == destination.props[t].ty
    ensures ScalarMap(origin, destination, show, o).values[t] == o.values[k]
  {
    ScalarMapAt(origin, destination, show, o, t);
  }

  /**
   * A writable string destination property whose same-named readable origin
   * property has another type receives that value's `ToString()`.
   */
  lemma StringifiesIntoString(origin: Shape, destination: Shape, show: Show, o: Obj, t: nat, k: nat)
    requires Plan(origin, destination).Ok? && Fits(origin, o) && t < |destination.props|
    requires destination.props[t].canWrite && destination.props[t].ty == Str
    requires IsSourceOf(origin.props, destination.props[t].name, k)
    requires origin.props[k].ty != Str
    ensures ScalarMap(origin, destination, show, o).values[t] == Text(show(origin.props[k].ty, o.values[k]))
  {
    ScalarMapAt(origin, destination, show, o, t);
  }

  /**
   * A destination property that is not writable, or has no same-named
   * readable origin property of its own type and is not a string, keeps the
   * value `new Destination()` gave it.
   */
  lemma KeepsInitialValue(origin: Shape, destination: Shape, show: Show, o: Obj, t: nat)
    requires Plan(origin, destination).Ok? && Fits(origin, o) && t < |destination.props|
    requires !destination.props[t].canWrite
             || forall k :: IsSourceOf(origin.props, destination.props[t].name, k) ==>
                              origin.props[k].ty != destination.props[t].ty && destination.props[t].ty != Str
    ensures ScalarMap(origin, destination, show, o).values[t] == destination.props[t].init
  {
    ScalarMapAt(origin, destination, show, o, t);
  }

  /** The conversion reads only readable origin properties: instances that agree on them map alike. */
  lemma ReadsOnlyReadable(origin: Shape, destination: Shape, show: Show, o1: Obj, o2: Obj)
    requires Plan(origin, destination).Ok? && Fits(origin, o1) && Fits(origin, o2)
    requires forall k :: 0 <= k < |origin.props| && origin.props[k].canRead ==> o1.values[k] == o2.values[k]
    ensures ScalarMap(origin, destination, show, o1) == ScalarMap(origin, destination, show, o2)
  {
    var r1, r2 := ScalarMap(origin, destination, show, o1), ScalarMap(origin, destination, show, o2);
    forall t | 0 <= t < |destination.props| ensures r1.values[t] == r2.values[t] {
      ScalarMapAt(origin, destination, show, o1, t);
      ScalarMapAt(origin, destination, show, o2, t);
    }
  }
}
