# metrics-spring reporter construction, modelled in Dafny

This project models the two pieces of metrics-spring that turn a `<metrics:reporter>`
declaration into a running metrics reporter:

- **`ReporterBeanDefinitionParser`** reads the element. It names the bean class
  `<class attribute>Factory` and sets the factory method to `createInstance`. It then
  adds two constructor arguments: the metrics registry (a reference to the bean named by
  `metrics-registry`, or the default registry) and a map of the `p:` property values.
  `JmxReporterBeanDefinitionParser` is the same parser with a fixed class name.
- **`ReporterFactory`** is a factory bean that builds a reporter through the reporter's
  fluent builder:
  - `getObject` calls the static `forRegistry(registry)` to obtain a builder.
  - It walks the builder's public methods. Static methods and methods named `build`
    are skipped.
  - Every other method whose name exactly equals a property name is invoked with that
    property's converted value.
  - It then calls `build()` and caches the result in `instance`. Later calls return
    the cached reporter.

Reflection is replaced by data:
- The builder's class is a table of method descriptors (name, static flag, parameter
  types), in `getMethods` order.
- The behaviour of the code reflection reaches is a `Runtime` value. It says what
  `forRegistry` does (missing, throws, returns null, returns a builder), which one-argument
  setter invocations throw, and what `build()` does (throws, returns null, returns).
- `getObject` is a pure function over an immutable `Factory` record whose `instance`
  is an `Option`. Each call returns the new factory, the ordered log of reflective
  invocations it attempted, and the value it returned or the exception it threw.
- The reporter `build()` returns is modelled as the builder's identity paired with the
  setter invocations applied to it.

Files:
- `wrappers.dfy`: `Option` and `Result`.
- `java_strings.dfy`: `String.trim` and the `%s` of `String.format`.
- `beans.dfy`: Spring's `PropertyValue` and the first-match lookup of
  `MutablePropertyValues.getPropertyValue`.
- `reporter_factory.dfy`: the factory bean.
- `reporter_bean_definition_parser.dfy`: both parsers.

Behaviour of the code worth spelling out:
- The setter loop has no parameter-count filter. A property naming a method with
  another number of parameters makes `Method.invoke` throw (`ArityIsNotFiltered`).
- A failure, or a null from `build()`, leaves `instance` null, so the next `getObject`
  call constructs again.
- Setters run in the order `getMethods` returns, which the model fixes as the order
  of the method table.
- A configuration key that matches no method is ignored, wherever it is declared. So is
  a key that matches only a static method or `build`.

## Model

| member | source | states |
|---|---|---|
| ReporterFactory.GetObject | src/main/java/com/ryantenney/metrics/spring/config/ReporterFactory.java:45-62 | The final fields never change. With `instance` set, the call returns it and makes no reflective invocation. An exception leaves the factory unchanged, so `instance` stays null and the next call retries. From an empty factory the call returns, or throws, exactly what the construction returned or threw, and a returned value is the new `instance`. From an empty factory, `instance` becomes set exactly when construction succeeds and `build()` returns non-null. |
| ReporterFactory.Construction | src/main/java/com/ryantenney/metrics/spring/config/ReporterFactory.java:47-59 | Construction succeeds if and only if `forRegistry` yields a builder, no selected setter throws, a no-argument `build` exists (`HasBuild`) and does not throw. On success the log is `forRegistry`, then the selected setters in table order, then exactly one `build`. The modelled reporter records exactly those setter invocations. `build` appears at most once and only last. A missing `forRegistry` fails before any invocation. |
| ReporterFactory.Construct | src/main/java/com/ryantenney/metrics/spring/config/ReporterFactory.java:46-59 | The statement-by-statement construction, with the source's early exits on each exception, agrees exactly with `Construction`. |
| ReporterFactory.InvokeSetters | src/main/java/com/ryantenney/metrics/spring/config/ReporterFactory.java:49-57 | The loop's invocations are a prefix of the selected setters in table order. Every invocation except the last returns normally. The loop stops early exactly when an invocation throws, and the exception reported is the last invocation's. Without an exception, every selected setter was invoked. |
| ReporterFactory.SetterCallsSelected | src/main/java/com/ryantenney/metrics/spring/config/ReporterFactory.java:50-56 | The invocations `SetterCallsUpTo` and `SetterCalls` compute: every one calls a non-static method not named `build` that has a property of exactly its name. The argument is that property's converted value. |
| ReporterFactory.SetterCallsOccurrences | src/main/java/com/ryantenney/metrics/spring/config/ReporterFactory.java:50-56 | Each method descriptor is invoked as many times as it occurs in the table if it is selected, and never otherwise. Static and `build` methods are never invoked. A method is invoked if and only if a property has exactly its name. |
| ReporterFactory.OverloadsReceiveSameValue | src/main/java/com/ryantenney/metrics/spring/config/ReporterFactory.java:51-55 | Two invoked methods with the same name receive the same argument. |
| ReporterFactory.SetterCallsPrefix | src/main/java/com/ryantenney/metrics/spring/config/ReporterFactory.java:50-57 | The invocations for the first i methods come before, unchanged, those for the first j methods (i ≤ j). Invocations follow the method table's order. |
| ReporterFactory.SetterCallsStep | src/main/java/com/ryantenney/metrics/spring/config/ReporterFactory.java:51-56 | One loop iteration adds nothing for a static method, a `build` method or a name with no property. Otherwise it adds one invocation carrying that property's converted value. |
| ReporterFactory.SetterCallsIgnoreUnmatched | src/main/java/com/ryantenney/metrics/spring/config/ReporterFactory.java:50-57 | Properties whose names match no method the loop would invoke, inserted anywhere among the others, leave the setter invocations unchanged. A name matching only a static method or `build` counts as unmatched. |
| ReporterFactory.UnmatchedPropertiesIgnored | src/main/java/com/ryantenney/metrics/spring/config/ReporterFactory.java:47-59 | Properties that match no builder method the loop would invoke, declared anywhere, cause no invocation and no error. The whole construction equals the one without them. |
| ReporterFactory.InvokeFailure | src/main/java/com/ryantenney/metrics/spring/config/ReporterFactory.java:55 | `method.invoke(builder, value)` returns normally if and only if the method takes exactly one parameter and the setter itself does not throw. |
| ReporterFactory.FirstFailing | src/main/java/com/ryantenney/metrics/spring/config/ReporterFactory.java:50-57 | Returns the position of the first throwing invocation, or the length if none throws. Everything before it returns normally. |
| ReporterFactory.CachedForever | src/main/java/com/ryantenney/metrics/spring/config/ReporterFactory.java:46-61 | Once `instance` is set, every later call returns it unchanged, makes no reflective invocation and leaves the factory unchanged. |
| ReporterFactory.BuiltAtMostOnce | src/main/java/com/ryantenney/metrics/spring/config/ReporterFactory.java:45-62 | In any sequence of calls, after one call returns a reporter, every later call returns that same reporter without calling `forRegistry`, a setter or `build`. |
| ReporterFactory.FinalFieldsStable | src/main/java/com/ryantenney/metrics/spring/config/ReporterFactory.java:64-71 | Across any sequence of calls the registry and property values never change. `getObjectType` (`GetObjectType`) keeps returning the class the factory was created with. `isSingleton` (`IsSingleton`) stays true. |
| ReporterFactory.ConsoleScenario | src/main/java/com/ryantenney/metrics/spring/config/ReporterFactory.java:47-59 | Builder methods `period`, `threshold`, `build`, configured with `period` and `unused`. Only `period` is invoked, with its converted value, followed by one `build`. |
| ReporterFactory.NameMatchingIsExact | src/main/java/com/ryantenney/metrics/spring/config/ReporterFactory.java:51-54 | A property `period` configures neither `setPeriod` nor `Period`. Matching is case-sensitive and strips no prefix. |
| ReporterFactory.ArityIsNotFiltered | src/main/java/com/ryantenney/metrics/spring/config/ReporterFactory.java:50-56 | A property naming a two-parameter method makes construction fail with a wrong-argument-count exception rather than be ignored. |
| ReporterFactory.ArgumentIsFirstMatch | src/main/java/com/ryantenney/metrics/spring/config/ReporterFactory.java:53-55 | A selected method's argument is the converted value of the first property carrying its name. |
| Beans.GetPropertyValue | src/main/java/com/ryantenney/metrics/spring/config/ReporterFactory.java:53-54 | The lookup finds nothing exactly when no property has that name, case-sensitively. A value it finds has that name. |
| Beans.GetPropertyValueFirst | src/main/java/com/ryantenney/metrics/spring/config/ReporterFactory.java:53 | The value found is the first property in order with that name. |
| Beans.GetPropertyValueInsert | src/main/java/com/ryantenney/metrics/spring/config/ReporterFactory.java:53 | Inserting properties with other names anywhere does not change a lookup. |
| ReporterBeanDefinitionParser.GetBeanClassName | src/main/java/com/ryantenney/metrics/spring/config/ReporterBeanDefinitionParser.java:74-76 | The generic parser's class name ends with the literal `Factory`. What precedes that suffix is the `class` attribute's text, or `null` when the attribute is null. The JMX parser always names `com.ryantenney.metrics.spring.JmxReporterFactory` (JmxReporterBeanDefinitionParser.java:10-12). |
| ReporterBeanDefinitionParser.BeanClassNameInjective | src/main/java/com/ryantenney/metrics/spring/config/ReporterBeanDefinitionParser.java:61-76 | The generic factory class name determines the `class` attribute's text: the suffix can be stripped to recover it. |
| ReporterBeanDefinitionParser.RegistryArgument | src/main/java/com/ryantenney/metrics/spring/config/ReporterBeanDefinitionParser.java:86-91 | The argument is a reference to the untrimmed `metrics-registry` name when that attribute is non-null and has a character above U+0020. Otherwise it is the default registry. |
| ReporterBeanDefinitionParser.DoParse | src/main/java/com/ryantenney/metrics/spring/config/ReporterBeanDefinitionParser.java:84-93 | The factory method is `createInstance`. The fresh definition gets exactly two constructor arguments, at indices 0 and 1: the registry argument, then a map whose keys are the property names, each holding the value of the last property so named. Class name and property values are unchanged. |
| ReporterBeanDefinitionParser.GetProperties | src/main/java/com/ryantenney/metrics/spring/config/ReporterBeanDefinitionParser.java:103-109 | The map's keys are exactly the supplied property names, so an empty input gives an empty map. Each key holds, unchanged, the value of the last property with that name. |
| ReporterBeanDefinitionParser.GetPropertiesDistinct | src/main/java/com/ryantenney/metrics/spring/config/ReporterBeanDefinitionParser.java:105-107 | With no repeated names, every property's value is in the map under its name. |
| ReporterBeanDefinitionParser.Parse | src/main/java/com/ryantenney/metrics/spring/config/ReporterBeanDefinitionParser.java:73-93 | A parsed element gives a definition named by `getBeanClassName`, with factory method `createInstance` and exactly two constructor arguments: the registry argument, then the last-value-wins property map. |
| JavaStrings.Trim | src/main/java/com/ryantenney/metrics/spring/config/ReporterBeanDefinitionParser.java:87 | `trim` returns an infix of the string with only characters at most U+0020 before and after it. The result is empty exactly when every character is at most U+0020. A non-empty result starts and ends with a character above U+0020. |

## Left out

- Java reflection (`getMethod`, `getMethods`, `Modifier`, `Method.invoke`) is replaced by the method table and the `Runtime` description. Method lookup through superclasses and bridge methods are not modelled separately; they are whatever the table lists.
- `PropertyValue.getConvertedValue` and Spring's type conversion are not modelled. Each property carries an opaque converted value next to its declared value.
- ReporterFactory.GetObject: the `synchronized` method and the `volatile` field are not modelled. The calls are sequential, so the model does not show that concurrent callers see one construction.
- ReporterFactory.InvokeFailure: whether a one-argument setter throws is an input (`throwingSetters`). Argument type mismatches and exceptions from the setter body are not told apart.
- The builder is assumed to be changed in place by its setters: the source discards what `Method.invoke` returns, and the model's reporter records the setter invocations made on the builder. A builder whose setters return a new builder instead would yield a reporter without that configuration; the model does not cover that.
- The product of `build()` and the builder returned by `forRegistry` stand in for objects of the metrics library. The unchecked cast `(T)` cannot fail and is not modelled.
- Spring's `BeanDefinitionBuilder`, `AbstractSingleBeanDefinitionParser` and the DOM `Element` are plain records. `Metrics.defaultRegistry()` is the constant `DefaultRegistry`. `shouldGenerateIdAsFallback` (always true) is bean-id bookkeeping and is not modelled.
- Where the definition's property values come from (Spring's `p:` attribute handling) is not modelled. `Parse` takes the values the definition holds when `doParse` runs as a parameter.
- `MutablePropertyValues` is a sequence with first-match lookup. Spring keeps its names unique. The model does not assume that, so it covers repeated names too.
- `JmxReporterFactory.createInstance` builds and starts a JMX reporter, a side effect in the metrics library, and ignores the properties map. It is not part of this model.
