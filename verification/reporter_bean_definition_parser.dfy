/** `ReporterBeanDefinitionParser`: turns a `<metrics:reporter>` element into the
    definition of a bean produced by the static factory method `createInstance` of the
    class named after the reporter with "Factory" appended. The factory method gets
    two constructor arguments: the metrics registry and a map of the `p:` property
    values. `JmxReporterBeanDefinitionParser` differs only in the class name. */
module ReporterBeanDefinitionParser {
  import opened Wrappers
  import opened Beans
  import JavaStrings

  /** The literal that `String.format("%sFactory", ...)` appends to the class attribute. */
  const FactorySuffix: string := "Factory"

  /** The name of the static factory method the bean is created with. */
  const FactoryMethodName: string := "createInstance"

  /** `JmxReporterFactory.class.getName()`. */
  const JmxReporterFactoryClassName: string := "com.ryantenney.metrics.spring.JmxReporterFactory"

  /** What `getAttribute` returns on the element for the two attributes the parser
      reads, `class` and `metrics-registry`; None stands for null. */
  datatype Element = Element(classAttribute: Option<string>, metricsRegistryAttribute: Option<string>)

  /** One constructor argument of the bean definition: a reference to another bean by
      name, the registry `Metrics.defaultRegistry()` returns, or the properties map. */
  datatype ConstructorArg =
    | RegistryReference(beanName: string)
    | DefaultRegistry
    | PropertiesMap(properties: map<string, Value>)

  /** The part of Spring's bean definition the parser sets: class name, factory
      method, constructor arguments in index order, and the property values. */
  datatype BeanDefinition = BeanDefinition(
    beanClassName: string,
    factoryMethod: Option<string>,
    constructorArgs: seq<ConstructorArg>,
    propertyValues: seq<PropertyValue>)

  /** The generic reporter parser, or its JMX subclass. */
  datatype ParserKind = GenericReporter | JmxReporter

  /** True when `s` ends with `suffix`. */
  predicate EndsWith(s: string, suffix: string) {
    |suffix| <= |s| && s[|s| - |suffix|..] == suffix
  }

  /** `getBeanClassName`: the generic parser appends "Factory" to the text of the
      `class` attribute (a null attribute formats as "null"); the JMX parser always
      names `JmxReporterFactory`. */
  function GetBeanClassName(kind: ParserKind, e: Element): (r: string)
    ensures kind == GenericReporter ==>
              && EndsWith(r, FactorySuffix)
              && r[..|r| - |FactorySuffix|] == JavaStrings.FormatString(e.classAttribute)
    ensures kind == JmxReporter ==> r == JmxReporterFactoryClassName
  {
    match kind
    case GenericReporter => JavaStrings.FormatString(e.classAttribute) + FactorySuffix
    case JmxReporter => JmxReporterFactoryClassName
  }

  /** The class attribute can be read back from the generic factory class name: the
      name determines the attribute's text. */
  lemma BeanClassNameInjective(e1: Element, e2: Element)
    requires GetBeanClassName(GenericReporter, e1) == GetBeanClassName(GenericReporter, e2)
    ensures JavaStrings.FormatString(e1.classAttribute) == JavaStrings.FormatString(e2.classAttribute)
  {
  }

  /** True when the `metrics-registry` attribute names a registry bean: it is non-null
      and has a character `String.trim` would keep. */
  predicate NamesRegistry(attribute: Option<string>) {
    attribute.Some? && exists i :: 0 <= i < |attribute.value| && !JavaStrings.Trimmable(attribute.value[i])
  }

  /** The first constructor argument: a reference to the bean the `metrics-registry`
      attribute names, untrimmed, unless that attribute is null or blank after
      trimming, in which case the default registry. */
  function RegistryArgument(e: Element): (r: ConstructorArg)
    ensures NamesRegistry(e.metricsRegistryAttribute) ==>
              r == RegistryReference(e.metricsRegistryAttribute.value)
    ensures !NamesRegistry(e.metricsRegistryAttribute) ==> r == DefaultRegistry
  {
    var ref := e.metricsRegistryAttribute;
    if ref.Some? && JavaStrings.Trim(ref.value) != [] then RegistryReference(ref.value)
    else DefaultRegistry
  }

  /** True when `pvs[i]` is the last property value named `name`. */
  predicate LastNamed(pvs: seq<PropertyValue>, i: int, name: string) {
    0 <= i < |pvs| && pvs[i].name == name && forall j :: i < j < |pvs| ==> pvs[j].name != name
  }

  /** Putting one more property into a map that holds the last value of each name in
      `init` gives a map that holds the last value of each name in `init + [last]`. */
  lemma LastWinsSnoc(init: seq<PropertyValue>, last: PropertyValue, m: map<string, Value>)
    requires forall name :: name in m ==> exists i :: LastNamed(init, i, name) && m[name] == init[i].value
    ensures var r := m[last.name := last.value];
            forall name :: name in r ==> exists i :: LastNamed(init + [last], i, name) && r[name] == (init + [last])[i].value
  {
    var pvs := init + [last];
    var r := m[last.name := last.value];
    forall name | name in r
      ensures exists i :: LastNamed(pvs, i, name) && r[name] == pvs[i].value
    {
      if name == last.name {
        assert LastNamed(pvs, |pvs| - 1, name);
      } else {
        var i :| LastNamed(init, i, name) && m[name] == init[i].value;
        assert LastNamed(pvs, i, name);
      }
    }
  }

  /** `getProperties`: copy the property values into a map keyed by name, in order,
      so that a repeated name keeps the value of its last occurrence. The keys are
      exactly the names supplied, and each value is copied unchanged. */
  function GetProperties(pvs: seq<PropertyValue>): (m: map<string, Value>)
    ensures m.Keys == Names(pvs)
    ensures forall name :: name in m ==> exists i :: LastNamed(pvs, i, name) && m[name] == pvs[i].value
  {
    if pvs == [] then map[]
    else
      var init := pvs[..|pvs| - 1];
      var last := pvs[|pvs| - 1];
      var m := GetProperties(init);
      assert pvs == init + [last];
      NamesAppend(init, [last]);
      assert Names([last]) == {last.name};
      LastWinsSnoc(init, last, m);
      m[last.name := last.value]
  }

  /** With no repeated names, every property value lands in the map unchanged. */
  lemma GetPropertiesDistinct(pvs: seq<PropertyValue>)
    requires forall i, j :: 0 <= i < j < |pvs| ==> pvs[i].name != pvs[j].name
    ensures forall i :: 0 <= i < |pvs| ==> GetProperties(pvs)[pvs[i].name] == pvs[i].value
  {
    var m := GetProperties(pvs);
    forall i | 0 <= i < |pvs| ensures m[pvs[i].name] == pvs[i].value {
      assert pvs[i].name in Names(pvs);
      var k :| LastNamed(pvs, k, pvs[i].name) && m[pvs[i].name] == pvs[k].value;
      assert k == i;
    }
  }

  /** `doParse`: set the factory method to `createInstance` and give the definition
      its two constructor arguments, the registry and then the map of the definition's
      property values; nothing else changes. `doParse` always receives a fresh
      `BeanDefinitionBuilder`, whose constructor-argument counter starts at index 0,
      so the definition has no constructor arguments yet. */
  function DoParse(e: Element, bd: BeanDefinition): (r: BeanDefinition)
    requires bd.constructorArgs == []
    ensures r.factoryMethod == Some(FactoryMethodName)
    ensures r.beanClassName == bd.beanClassName
    ensures r.propertyValues == bd.propertyValues
    ensures |r.constructorArgs| == 2
    ensures NamesRegistry(e.metricsRegistryAttribute) ==>
              r.constructorArgs[0] == RegistryReference(e.metricsRegistryAttribute.value)
    ensures !NamesRegistry(e.metricsRegistryAttribute) ==> r.constructorArgs[0] == DefaultRegistry
    ensures r.constructorArgs[1].PropertiesMap?
    ensures var props := r.constructorArgs[1].properties;
            && props.Keys == Names(bd.propertyValues)
            && forall name :: name in props ==>
                 exists i :: LastNamed(bd.propertyValues, i, name) && props[name] == bd.propertyValues[i].value
  {
    var registry := RegistryArgument(e);
    var properties := GetProperties(bd.propertyValues);
    BeanDefinition(bd.beanClassName, Some(FactoryMethodName), [registry, PropertiesMap(properties)], bd.propertyValues)
  }

  /** The whole parse of one element: a fresh definition named by `getBeanClassName`,
      holding the property values the definition has when `doParse` runs, completed
      by `doParse`. Its two constructor arguments match
      `createInstance(MetricsRegistry, Map)` and the map holds, under each property
      name, the value of the last property so named. */
  function Parse(kind: ParserKind, e: Element, pvs: seq<PropertyValue>): (r: BeanDefinition)
    ensures r.beanClassName == GetBeanClassName(kind, e)
    ensures r.factoryMethod == Some(FactoryMethodName)
    ensures |r.constructorArgs| == 2
    ensures r.constructorArgs[0] == RegistryArgument(e)
    ensures r.constructorArgs[1].PropertiesMap?
    ensures var props := r.constructorArgs[1].properties;
            && props.Keys == Names(pvs)
            && forall name :: name in props ==> exists i :: LastNamed(pvs, i, name) && props[name] == pvs[i].value
  {
    DoParse(e, BeanDefinition(GetBeanClassName(kind, e), None, [], pvs))
  }
}
