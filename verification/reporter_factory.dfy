/** `ReporterFactory`: a Spring factory bean that builds a metrics reporter through the
    reporter's fluent builder, driving the builder by reflection, and memoises the
    product.

    Reflection is replaced by data. The builder's class is its table of public methods
    (`getMethods`), and what the reflected code does when it is called (the static
    `forRegistry` entry point, each setter, `build`) is described by a `Runtime`. A
    call to `getObject` yields the ordered log of reflective invocations it attempted
    together with its return value or the exception it threw. */
module ReporterFactory {
  import opened Wrappers
  import opened Beans

  /** The `MetricRegistry` handed to the factory; passed through, never inspected. */
  type Registry(==)

  /** The reporter class (`Class<T>`); only its identity matters here. */
  type ReporterClass(==)

  /** The identity of the builder object `forRegistry` returned. */
  type BuilderRef(==)

  /** The name of the builder's terminal method. */
  const BuildName: string := "build"

  /** One public method of the builder's class, as `getMethods` reports it: its name,
      whether it is static, and the names of its parameter types (overloads share a
      name and differ here). */
  datatype MethodDesc = MethodDesc(name: string, isStatic: bool, paramTypes: seq<string>)

  /** The builder object: its identity and its class's public methods, in the order
      `getMethods` returns them. */
  datatype Builder = Builder(ref: BuilderRef, methods: seq<MethodDesc>)

  /** A reflective call `method.invoke(builder, arg)` of one builder method. */
  datatype Invocation = Invocation(target: MethodDesc, arg: Value)

  /** The reporter `build()` returns: the product of the builder it was called on,
      configured by the setter invocations applied to that builder, in order. */
  datatype Product = Product(builder: BuilderRef, configuration: seq<Invocation>)

  /** One entry of the invocation log. */
  datatype Step =
    | CallForRegistry(registry: Registry)
    | CallSetter(invocation: Invocation)
    | CallBuild

  /** What `clazz.getMethod("forRegistry", MetricRegistry.class).invoke(null, registry)` does. */
  datatype EntryPoint =
    | Missing              // no such public method: NoSuchMethodException
    | Throws               // the invocation throws
    | ReturnsNull          // it returns null
    | Returns(builder: Builder)

  /** What invoking `build()` does. */
  datatype BuildBehaviour = BuildThrows | BuildReturnsNull | BuildReturns

  /** The behaviour of the code reached by reflection for one call of `getObject`:
      the entry point, the one-argument setter invocations that throw, and `build`. */
  datatype Runtime = Runtime(entryPoint: EntryPoint, throwingSetters: set<Invocation>, build: BuildBehaviour)

  /** The exception `getObject` propagates. */
  datatype Failure =
    | NoSuchForRegistry                       // Class.getMethod("forRegistry", ...)
    | ForRegistryFailed                       // the static entry point threw
    | NullBuilder                             // builder.getClass() on null
    | WrongArgumentCount(target: MethodDesc)  // Method.invoke with one argument
    | SetterFailed(invocation: Invocation)    // the setter itself threw
    | NoSuchBuild                             // builderClass.getMethod("build")
    | BuildFailed                             // build() threw

  /** The factory bean: three final fields and the memoised `instance` (None is null). */
  datatype Factory = Factory(
    metricRegistry: Registry,
    clazz: ReporterClass,
    propertyValues: seq<PropertyValue>,
    instance: Option<Product>)

  /** What one construction attempt did: the reflective invocations it attempted, in
      order, and what it returned (possibly null) or threw. */
  datatype Attempt = Attempt(trace: seq<Step>, result: Result<Option<Product>, Failure>)

  /** One call of `getObject`: the factory afterwards, the invocations it made, and the
      value it returned or the exception it threw. */
  datatype Response = Response(factory: Factory, trace: seq<Step>, result: Result<Option<Product>, Failure>)

  // ---------------------------------------------------------------------------
  // Choosing the setters
  // ---------------------------------------------------------------------------

  /** A method the loop skips outright: static, or named exactly "build". */
  predicate Skipped(m: MethodDesc) {
    m.isStatic || m.name == BuildName
  }

  /** A method the loop invokes: not skipped, and some property has exactly its name. */
  predicate Selected(m: MethodDesc, pvs: seq<PropertyValue>) {
    !Skipped(m) && m.name in Names(pvs)
  }

  /** The argument a selected method receives: the converted value of the property
      `MutablePropertyValues.getPropertyValue` finds under the method's name. */
  function ArgumentFor(m: MethodDesc, pvs: seq<PropertyValue>): Value
    requires m.name in Names(pvs)
  {
    GetPropertyValue(pvs, m.name).value.convertedValue
  }

  /** The argument comes from the first property value carrying the method's name. */
  lemma ArgumentIsFirstMatch(m: MethodDesc, pvs: seq<PropertyValue>)
    requires m.name in Names(pvs)
    ensures exists i :: 0 <= i < |pvs| && pvs[i].name == m.name
                        && pvs[i].convertedValue == ArgumentFor(m, pvs)
                        && forall j :: 0 <= j < i ==> pvs[j].name != m.name
  {
    GetPropertyValueFirst(pvs, m.name);
  }

  /** The setter invocations the loop makes over the first `n` methods of the table,
      in table order. */
  function SetterCallsUpTo(methods: seq<MethodDesc>, n: nat, pvs: seq<PropertyValue>): (r: seq<Invocation>)
    requires n <= |methods|
    ensures |r| <= n
  {
    if n == 0 then []
    else
      var prev := SetterCallsUpTo(methods, n - 1, pvs);
      var m := methods[n - 1];
      if Selected(m, pvs) then prev + [Invocation(m, ArgumentFor(m, pvs))] else prev
  }

  /** The setter invocations the loop makes over the whole method table. */
  function SetterCalls(methods: seq<MethodDesc>, pvs: seq<PropertyValue>): seq<Invocation> {
    SetterCallsUpTo(methods, |methods|, pvs)
  }

  /** Every setter invocation calls a selected method (never a static one, never one
      named "build") with the converted value of the property carrying its name. */
  lemma {:induction false} SetterCallsSelected(methods: seq<MethodDesc>, n: nat, pvs: seq<PropertyValue>)
    requires n <= |methods|
    ensures forall k :: 0 <= k < |SetterCallsUpTo(methods, n, pvs)| ==>
              && Selected(SetterCallsUpTo(methods, n, pvs)[k].target, pvs)
              && SetterCallsUpTo(methods, n, pvs)[k].arg
                 == ArgumentFor(SetterCallsUpTo(methods, n, pvs)[k].target, pvs)
  {
    if n > 0 {
      SetterCallsSelected(methods, n - 1, pvs);
    }
  }

  /** The methods a sequence of invocations calls. */
  function InvokedMethods(calls: seq<Invocation>): (r: seq<MethodDesc>)
    ensures |r| == |calls|
    ensures forall k :: 0 <= k < |calls| ==> r[k] == calls[k].target
  {
    seq(|calls|, k requires 0 <= k < |calls| => calls[k].target)
  }

  /** The log entries of a sequence of setter invocations. */
  function SetterSteps(calls: seq<Invocation>): (r: seq<Step>)
    ensures |r| == |calls|
    ensures forall k :: 0 <= k < |calls| ==> r[k] == CallSetter(calls[k])
  {
    seq(|calls|, k requires 0 <= k < |calls| => CallSetter(calls[k]))
  }

  /** The invocations made over the first `i` methods precede, unchanged, those made
      over the first `j >= i`: invocations follow the method table's order. */
  lemma {:induction false} SetterCallsPrefix(methods: seq<MethodDesc>, i: nat, j: nat, pvs: seq<PropertyValue>)
    requires i <= j <= |methods|
    ensures SetterCallsUpTo(methods, i, pvs) <= SetterCallsUpTo(methods, j, pvs)
    decreases j - i
  {
    if i < j {
      SetterCallsPrefix(methods, i, j - 1, pvs);
    }
  }

  /** The first `n` methods are the first `n - 1` and then the n-th. */
  lemma TableSnoc(methods: seq<MethodDesc>, n: nat)
    requires 0 < n <= |methods|
    ensures methods[..n] == methods[..n - 1] + [methods[n - 1]]
    ensures multiset(methods[..n]) == multiset(methods[..n - 1]) + multiset{methods[n - 1]}
  {
    assert methods[..n] == methods[..n - 1] + [methods[n - 1]];
  }

  /** Each method of the table is invoked exactly as many times as it occurs in the
      table when it is selected, and never otherwise: a static method or one named
      "build" is never invoked, a method is invoked if and only if some property has
      exactly its name, and same-named overloads are each invoked. */
  lemma {:induction false} SetterCallsOccurrences(methods: seq<MethodDesc>, n: nat, pvs: seq<PropertyValue>, m: MethodDesc)
    requires n <= |methods|
    ensures multiset(InvokedMethods(SetterCallsUpTo(methods, n, pvs)))[m]
            == if Selected(m, pvs) then multiset(methods[..n])[m] else 0
  {
    if n > 0 {
      var last := methods[n - 1];
      TableSnoc(methods, n);
      SetterCallsOccurrences(methods, n - 1, pvs, m);
      var r := SetterCallsUpTo(methods, n - 1, pvs);
      if Selected(last, pvs) {
        var inv := Invocation(last, ArgumentFor(last, pvs));
        assert SetterCallsUpTo(methods, n, pvs) == r + [inv];
        assert InvokedMethods(r + [inv]) == InvokedMethods(r) + [last];
        assert multiset(InvokedMethods(r + [inv])) == multiset(InvokedMethods(r)) + multiset{last};
      } else {
        assert SetterCallsUpTo(methods, n, pvs) == r;
      }
    } else {
      assert methods[..n] == [] && SetterCallsUpTo(methods, n, pvs) == [];
    }
  }

  /** Same-named overloads that are both invoked receive the same value: the argument
      depends on the method's name only. */
  lemma OverloadsReceiveSameValue(methods: seq<MethodDesc>, pvs: seq<PropertyValue>, k1: nat, k2: nat)
    requires k1 < |SetterCalls(methods, pvs)| && k2 < |SetterCalls(methods, pvs)|
    requires SetterCalls(methods, pvs)[k1].target.name == SetterCalls(methods, pvs)[k2].target.name
    ensures SetterCalls(methods, pvs)[k1].arg == SetterCalls(methods, pvs)[k2].arg
  {
    SetterCallsSelected(methods, |methods|, pvs);
  }

  /** Properties whose names match no method the loop would invoke change no
      invocation, wherever they stand among the others. A name matching only a static
      method or "build" counts as unmatched. */
  lemma {:induction false} SetterCallsIgnoreUnmatched(methods: seq<MethodDesc>, n: nat, pre: seq<PropertyValue>,
                                                      extra: seq<PropertyValue>, post: seq<PropertyValue>)
    requires n <= |methods|
    requires forall i :: 0 <= i < |methods| && !Skipped(methods[i]) ==> methods[i].name !in Names(extra)
    ensures SetterCallsUpTo(methods, n, pre + extra + post) == SetterCallsUpTo(methods, n, pre + post)
  {
    if n > 0 {
      if !Skipped(methods[n - 1]) {
        GetPropertyValueInsert(pre, extra, post, methods[n - 1].name);
      }
      SetterCallsIgnoreUnmatched(methods, n - 1, pre, extra, post);
    }
  }

  // ---------------------------------------------------------------------------
  // Running the construction
  // ---------------------------------------------------------------------------

  /** The exception `Method.invoke(builder, arg)` throws for `inv`, if any. The loop
      does not filter on parameter count, so a matched method that does not take
      exactly one parameter is invoked anyway and the call is rejected. */
  function InvokeFailure(inv: Invocation, rt: Runtime): (f: Option<Failure>)
    ensures f.None? <==> |inv.target.paramTypes| == 1 && inv !in rt.throwingSetters
  {
    if |inv.target.paramTypes| != 1 then Some(WrongArgumentCount(inv.target))
    else if inv in rt.throwingSetters then Some(SetterFailed(inv))
    else None
  }

  /** The index of the first invocation in `calls` that throws, or |calls| if none does. */
  function FirstFailing(calls: seq<Invocation>, rt: Runtime): (k: nat)
    ensures k <= |calls|
    ensures forall j :: 0 <= j < k ==> InvokeFailure(calls[j], rt).None?
    ensures k < |calls| ==> InvokeFailure(calls[k], rt).Some?
  {
    if calls == [] then 0
    else if InvokeFailure(calls[0], rt).Some? then 0
    else 1 + FirstFailing(calls[1..], rt)
  }

  /** The first throwing invocation is the one after a run of invocations that do not
      throw. */
  lemma FirstFailingAt(calls: seq<Invocation>, rt: Runtime, n: nat)
    requires n <= |calls|
    requires forall j :: 0 <= j < n ==> InvokeFailure(calls[j], rt).None?
    requires n < |calls| ==> InvokeFailure(calls[n], rt).Some?
    ensures FirstFailing(calls, rt) == n
  {
  }

  /** `getMethod("build")` finds a public method named "build" with no parameters. */
  predicate HasBuild(methods: seq<MethodDesc>) {
    exists i :: 0 <= i < |methods| && methods[i].name == BuildName && |methods[i].paramTypes| == 0
  }

  /** The whole construction succeeds: the entry point yields a builder, no selected
      setter throws, the builder has `build()` and it returns. */
  predicate Succeeds(pvs: seq<PropertyValue>, rt: Runtime) {
    && rt.entryPoint.Returns?
    && var methods := rt.entryPoint.builder.methods;
    && (forall inv :: inv in SetterCalls(methods, pvs) ==> InvokeFailure(inv, rt).None?)
    && HasBuild(methods)
    && !rt.build.BuildThrows?
  }

  /** True when `CallBuild` appears at most once in `trace`, and only as its last entry. */
  predicate BuildOnlyLast(trace: seq<Step>) {
    forall k :: 0 <= k < |trace| && trace[k] == CallBuild ==> k == |trace| - 1
  }

  /** The body of `if (instance == null)` in `getObject`, as a function: obtain the
      builder, invoke every selected setter in method-table order until one throws,
      look up `build` and invoke it. */
  function Construction(registry: Registry, pvs: seq<PropertyValue>, rt: Runtime): (a: Attempt)
    ensures a.result.Success? <==> Succeeds(pvs, rt)
    ensures a.result.Success? ==>
              a.trace == [CallForRegistry(registry)]
                         + SetterSteps(SetterCalls(rt.entryPoint.builder.methods, pvs))
                         + [CallBuild]
    ensures a.result.Success? && a.result.value.Some? ==>
              a.result.value.value
              == Product(rt.entryPoint.builder.ref, SetterCalls(rt.entryPoint.builder.methods, pvs))
    ensures BuildOnlyLast(a.trace)
    ensures rt.entryPoint.Missing? <==> a.result == Failure(NoSuchForRegistry)
    ensures rt.entryPoint.Missing? ==> a.trace == []
    ensures a.result.Failure? && a.result.error.SetterFailed? ==>
              a.result.error.invocation in rt.throwingSetters
  {
    match rt.entryPoint
    case Missing => Attempt([], Failure(NoSuchForRegistry))
    case Throws => Attempt([CallForRegistry(registry)], Failure(ForRegistryFailed))
    case ReturnsNull => Attempt([CallForRegistry(registry)], Failure(NullBuilder))
    case Returns(b) =>
      var calls := SetterCalls(b.methods, pvs);
      var k := FirstFailing(calls, rt);
      if k < |calls| then
        Attempt([CallForRegistry(registry)] + SetterSteps(calls[..k + 1]),
                Failure(InvokeFailure(calls[k], rt).value))
      else if !HasBuild(b.methods) then
        Attempt([CallForRegistry(registry)] + SetterSteps(calls), Failure(NoSuchBuild))
      else
        var trace := [CallForRegistry(registry)] + SetterSteps(calls) + [CallBuild];
        match rt.build
        case BuildThrows => Attempt(trace, Failure(BuildFailed))
        case BuildReturnsNull => Attempt(trace, Success(None))
        case BuildReturns => Attempt(trace, Success(Some(Product(b.ref, calls))))
  }

  /** One iteration of the loop in `getObject` over the table: the (i+1)-th method adds
      nothing when it is static or "build" or has no property, and otherwise adds its
      invocation with the property's converted value. */
  lemma SetterCallsStep(methods: seq<MethodDesc>, i: nat, pvs: seq<PropertyValue>)
    requires i < |methods|
    ensures var m := methods[i];
            var prev := SetterCallsUpTo(methods, i, pvs);
            SetterCallsUpTo(methods, i + 1, pvs)
            == if m.isStatic || m.name == BuildName then prev
               else match GetPropertyValue(pvs, m.name)
                 case None => prev
                 case Some(pv) => prev + [Invocation(m, pv.convertedValue)]
  {
  }

  /** The loop over the builder's method table, as `getObject` writes it: skip static
      methods and "build", look each remaining name up among the property values, and
      invoke the matches in table order until one throws. `attempted` lists the
      invocations made, the throwing one included; `failure` is what the last of them
      threw, and the loop only ends early on a throw. */
  method InvokeSetters(methods: seq<MethodDesc>, pvs: seq<PropertyValue>, rt: Runtime)
    returns (attempted: seq<Invocation>, failure: Option<Failure>)
    ensures attempted <= SetterCalls(methods, pvs)
    ensures forall j :: 0 <= j < |attempted| - 1 ==> InvokeFailure(attempted[j], rt).None?
    ensures failure == if attempted == [] then None else InvokeFailure(attempted[|attempted| - 1], rt)
    ensures failure.None? ==> attempted == SetterCalls(methods, pvs)
  {
    attempted := [];
    failure := None;
    var i := 0;
    while i < |methods|
      invariant 0 <= i <= |methods|
      invariant attempted == SetterCallsUpTo(methods, i, pvs)
      invariant forall j :: 0 <= j < |attempted| ==> InvokeFailure(attempted[j], rt).None?
      invariant failure.None?
    {
      var m := methods[i];
      SetterCallsStep(methods, i, pvs);
      if !(m.isStatic || m.name == BuildName) {
        var value := GetPropertyValue(pvs, m.name);
        if value.Some? {
          var inv := Invocation(m, value.value.convertedValue);
          attempted := attempted + [inv];
          failure := InvokeFailure(inv, rt);
          if failure.Some? {
            SetterCallsPrefix(methods, i + 1, |methods|, pvs);
            return;
          }
        }
      }
      i := i + 1;
    }
  }

  /** The body of `if (instance == null)` in `getObject`, statement by statement. */
  method Construct(registry: Registry, pvs: seq<PropertyValue>, rt: Runtime) returns (a: Attempt)
    ensures a == Construction(registry, pvs, rt)
  {
    if rt.entryPoint.Missing? {
      return Attempt([], Failure(NoSuchForRegistry));
    }
    var trace := [CallForRegistry(registry)];
    if rt.entryPoint.Throws? {
      return Attempt(trace, Failure(ForRegistryFailed));
    }
    if rt.entryPoint.ReturnsNull? {
      return Attempt(trace, Failure(NullBuilder));
    }
    var builder := rt.entryPoint.builder;
    var attempted, failure := InvokeSetters(builder.methods, pvs, rt);
    ghost var calls := SetterCalls(builder.methods, pvs);
    trace := trace + SetterSteps(attempted);
    if failure.Some? {
      FirstFailingAt(calls, rt, |attempted| - 1);
      assert attempted == calls[..|attempted|];
      return Attempt(trace, Failure(failure.value));
    }
    FirstFailingAt(calls, rt, |calls|);
    if !HasBuild(builder.methods) {
      return Attempt(trace, Failure(NoSuchBuild));
    }
    trace := trace + [CallBuild];
    match rt.build
    case BuildThrows =>
      a := Attempt(trace, Failure(BuildFailed));
    case BuildReturnsNull =>
      a := Attempt(trace, Success(None));
    case BuildReturns =>
      a := Attempt(trace, Success(Some(Product(builder.ref, attempted))));
  }

  // ---------------------------------------------------------------------------
  // The factory bean
  // ---------------------------------------------------------------------------

  /** `getObject`: when `instance` is set, return it without any reflective call;
      otherwise construct, and cache what `build()` returned. An exception propagates
      and leaves the factory as it was, so the next call tries again. */
  function GetObject(f: Factory, rt: Runtime): (r: Response)
    ensures r.factory.metricRegistry == f.metricRegistry
    ensures r.factory.clazz == f.clazz
    ensures r.factory.propertyValues == f.propertyValues
    ensures f.instance.Some? ==> r == Response(f, [], Success(f.instance))
    ensures r.result.Success? ==> r.result.value == r.factory.instance
    ensures r.result.Failure? ==> r.factory == f
    ensures f.instance.None? ==>
              (r.factory.instance.Some? <==> Succeeds(f.propertyValues, rt) && rt.build.BuildReturns?)
    ensures f.instance.None? ==> r.trace == Construction(f.metricRegistry, f.propertyValues, rt).trace
    ensures f.instance.None? ==> r.result == Construction(f.metricRegistry, f.propertyValues, rt).result
  {
    if f.instance.Some? then Response(f, [], Success(f.instance))
    else
      var a := Construction(f.metricRegistry, f.propertyValues, rt);
      match a.result
      case Failure(e) => Response(f, a.trace, a.result)
      case Success(o) => Response(f.(instance := o), a.trace, a.result)
  }

  /** `getObjectType`: the reporter class the factory was created with. */
  function GetObjectType(f: Factory): ReporterClass {
    f.clazz
  }

  /** `isSingleton`: the factory always declares its product a singleton. */
  function IsSingleton(f: Factory): bool {
    true
  }

  /** Successive calls of `getObject`, each meeting its own runtime behaviour. */
  function Serve(f: Factory, rts: seq<Runtime>): (rs: seq<Response>)
    ensures |rs| == |rts|
    ensures rts != [] ==> rs[0] == GetObject(f, rts[0])
    decreases |rts|
  {
    if rts == [] then []
    else
      var r := GetObject(f, rts[0]);
      [r] + Serve(r.factory, rts[1..])
  }

  /** A factory whose instance is set answers every later call with that instance,
      unchanged, and makes no reflective invocation. */
  lemma {:induction false} CachedForever(f: Factory, rts: seq<Runtime>)
    requires f.instance.Some?
    ensures forall k :: 0 <= k < |rts| ==> Serve(f, rts)[k] == Response(f, [], Success(f.instance))
    decreases |rts|
  {
    if rts != [] {
      CachedForever(f, rts[1..]);
    }
  }

  /** Once a call of `getObject` has returned a reporter, every later call returns the
      same reporter without calling `forRegistry`, a setter or `build` again. */
  lemma {:induction false} BuiltAtMostOnce(f: Factory, rts: seq<Runtime>, i: nat, j: nat)
    requires i < j < |rts|
    requires Serve(f, rts)[i].result.Success? && Serve(f, rts)[i].result.value.Some?
    ensures Serve(f, rts)[j].trace == []
    ensures Serve(f, rts)[j].result == Serve(f, rts)[i].result
    decreases |rts|
  {
    var r := GetObject(f, rts[0]);
    assert Serve(f, rts)[1..] == Serve(r.factory, rts[1..]);
    if i == 0 {
      CachedForever(r.factory, rts[1..]);
      assert Serve(f, rts)[j] == Serve(r.factory, rts[1..])[j - 1];
    } else {
      BuiltAtMostOnce(r.factory, rts[1..], i - 1, j - 1);
    }
  }

  /** However many calls are made, the final fields never change, `getObjectType`
      keeps returning the class the factory was created with and `isSingleton` stays
      true. */
  lemma {:induction false} FinalFieldsStable(f: Factory, rts: seq<Runtime>)
    ensures forall k :: 0 <= k < |rts| ==>
              && Serve(f, rts)[k].factory.metricRegistry == f.metricRegistry
              && Serve(f, rts)[k].factory.propertyValues == f.propertyValues
              && GetObjectType(Serve(f, rts)[k].factory) == GetObjectType(f)
              && IsSingleton(Serve(f, rts)[k].factory)
    decreases |rts|
  {
    if rts != [] {
      var r := GetObject(f, rts[0]);
      FinalFieldsStable(r.factory, rts[1..]);
      assert forall k :: 1 <= k < |rts| ==> Serve(f, rts)[k] == Serve(r.factory, rts[1..])[k - 1];
    }
  }

  /** Property names that match no builder method the loop would invoke cause no
      invocation and no error, wherever they are declared: the construction is exactly
      the one without them. */
  lemma UnmatchedPropertiesIgnored(registry: Registry, pre: seq<PropertyValue>, extra: seq<PropertyValue>,
                                   post: seq<PropertyValue>, rt: Runtime)
    requires rt.entryPoint.Returns? ==>
               forall i :: 0 <= i < |rt.entryPoint.builder.methods| && !Skipped(rt.entryPoint.builder.methods[i]) ==>
                 rt.entryPoint.builder.methods[i].name !in Names(extra)
    ensures Construction(registry, pre + extra + post, rt) == Construction(registry, pre + post, rt)
  {
    if rt.entryPoint.Returns? {
      var methods := rt.entryPoint.builder.methods;
      SetterCallsIgnoreUnmatched(methods, |methods|, pre, extra, post);
    }
  }

  // ---------------------------------------------------------------------------
  // Worked scenarios
  // ---------------------------------------------------------------------------

  /** A console-style builder with `period(Duration)`, `threshold(Level)` and `build()`,
      configured with `period` and an unknown `unused`: only `period` is applied, with
      its converted value, `unused` is ignored and `build` runs last. */
  lemma ConsoleScenario(registry: Registry, ref: BuilderRef, raw: Value, tenSeconds: Value, x: Value)
    ensures var period := MethodDesc("period", false, ["Duration"]);
            var methods := [period, MethodDesc("threshold", false, ["Level"]), MethodDesc("build", false, [])];
            var pvs := [PropertyValue("period", raw, tenSeconds), PropertyValue("unused", x, x)];
            var rt := Runtime(Returns(Builder(ref, methods)), {}, BuildReturns);
            Construction(registry, pvs, rt)
            == Attempt([CallForRegistry(registry), CallSetter(Invocation(period, tenSeconds)), CallBuild],
                       Success(Some(Product(ref, [Invocation(period, tenSeconds)]))))
  {
    var period := MethodDesc("period", false, ["Duration"]);
    var threshold := MethodDesc("threshold", false, ["Level"]);
    var build := MethodDesc("build", false, []);
    var methods := [period, threshold, build];
    var pvs := [PropertyValue("period", raw, tenSeconds), PropertyValue("unused", x, x)];
    assert pvs[0].name == "period";
    assert "threshold" !in Names(pvs) by {
      assert "unused"[0] != "threshold"[0];
    }
    assert GetPropertyValue(pvs, "period") == Some(pvs[0]);
    assert SetterCallsUpTo(methods, 1, pvs) == [Invocation(period, tenSeconds)];
    assert SetterCallsUpTo(methods, 2, pvs) == [Invocation(period, tenSeconds)];
    assert SetterCalls(methods, pvs) == [Invocation(period, tenSeconds)];
    assert HasBuild(methods) by {
      assert methods[2].name == BuildName && |methods[2].paramTypes| == 0;
    }
    assert FirstFailing([Invocation(period, tenSeconds)], Runtime(Returns(Builder(ref, methods)), {}, BuildReturns)) == 1;
  }

  /** Names are matched exactly: a property `period` configures neither `setPeriod`
      nor `Period`. */
  lemma NameMatchingIsExact(raw: Value, v: Value)
    ensures SetterCalls([MethodDesc("setPeriod", false, ["long"]), MethodDesc("Period", false, ["long"])],
                        [PropertyValue("period", raw, v)]) == []
  {
    var methods := [MethodDesc("setPeriod", false, ["long"]), MethodDesc("Period", false, ["long"])];
    var pvs := [PropertyValue("period", raw, v)];
    assert "Period"[0] != "period"[0];
    assert "setPeriod" !in Names(pvs) && "Period" !in Names(pvs);
    assert SetterCallsUpTo(methods, 1, pvs) == [];
  }

  /** Parameter counts are not filtered: a property naming a method that takes two
      parameters makes the call throw rather than be ignored. */
  lemma ArityIsNotFiltered(registry: Registry, ref: BuilderRef, raw: Value, v: Value)
    ensures var period := MethodDesc("period", false, ["long", "TimeUnit"]);
            var rt := Runtime(Returns(Builder(ref, [period])), {}, BuildReturns);
            Construction(registry, [PropertyValue("period", raw, v)], rt).result
            == Failure(WrongArgumentCount(period))
  {
    var period := MethodDesc("period", false, ["long", "TimeUnit"]);
    var pvs := [PropertyValue("period", raw, v)];
    assert pvs[0].name == "period";
    assert GetPropertyValue(pvs, "period") == Some(pvs[0]);
    assert SetterCalls([period], pvs) == [Invocation(period, v)];
  }
}
