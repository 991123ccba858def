/** The Spring bean-property types `ReporterFactory` and `ReporterBeanDefinitionParser` read. */
module Beans {
  import opened Wrappers

  /** An arbitrary Java object reference (possibly null); neither class looks inside it. */
  type Value(==)

  /** Spring's `PropertyValue`: a property name, its value as declared, and the value
      after the container's type conversion (`getConvertedValue`). */
  datatype PropertyValue = PropertyValue(name: string, value: Value, convertedValue: Value)

  /** The names of the properties in `pvs`. */
  function Names(pvs: seq<PropertyValue>): set<string> {
    set i | 0 <= i < |pvs| :: pvs[i].name
  }

  /** The names of a concatenation are the names of its parts. */
  lemma NamesAppend(a: seq<PropertyValue>, b: seq<PropertyValue>)
    ensures Names(a + b) == Names(a) + Names(b)
  {
    forall n | n in Names(a + b) ensures n in Names(a) + Names(b) {
      var i :| 0 <= i < |a + b| && (a + b)[i].name == n;
      if i < |a| {
        assert a[i].name == n;
      } else {
        assert b[i - |a|].name == n;
      }
    }
    forall n | n in Names(a) ensures n in Names(a + b) {
      var i :| 0 <= i < |a| && a[i].name == n;
      assert (a + b)[i].name == n;
    }
    forall n | n in Names(b) ensures n in Names(a + b) {
      var i :| 0 <= i < |b| && b[i].name == n;
      assert (a + b)[|a| + i].name == n;
    }
  }

  /** `MutablePropertyValues.getPropertyValue(name)`: the first property value whose
      name equals `name` exactly (case-sensitive), or null when there is none. */
  function GetPropertyValue(pvs: seq<PropertyValue>, name: string): (r: Option<PropertyValue>)
    ensures r.None? <==> name !in Names(pvs)
    ensures r.Some? ==> r.value.name == name
  {
    if pvs == [] then None
    else if pvs[0].name == name then Some(pvs[0])
    else
      assert Names(pvs) == {pvs[0].name} + Names(pvs[1..]);
      GetPropertyValue(pvs[1..], name)
  }

  /** The property value found is the first one in `pvs` with that name. */
  lemma {:induction false} GetPropertyValueFirst(pvs: seq<PropertyValue>, name: string)
    requires GetPropertyValue(pvs, name).Some?
    ensures exists i :: 0 <= i < |pvs| && pvs[i] == GetPropertyValue(pvs, name).value
                        && forall j :: 0 <= j < i ==> pvs[j].name != name
  {
    if pvs[0].name != name {
      GetPropertyValueFirst(pvs[1..], name);
      var i :| 0 <= i < |pvs[1..]| && pvs[1..][i] == GetPropertyValue(pvs[1..], name).value
               && forall j :: 0 <= j < i ==> pvs[1..][j].name != name;
      assert pvs[i + 1] == GetPropertyValue(pvs, name).value;
    }
  }

  /** Property values with other names, placed anywhere, leave a lookup unchanged:
      inserting `extra` between `pre` and `post` finds what `pre + post` finds. */
  lemma {:induction false} GetPropertyValueInsert(pre: seq<PropertyValue>, extra: seq<PropertyValue>,
                                                  post: seq<PropertyValue>, name: string)
    requires name !in Names(extra)
    ensures GetPropertyValue(pre + extra + post, name) == GetPropertyValue(pre + post, name)
  {
    if pre == [] {
      assert pre + extra + post == extra + post;
      assert pre + post == post;
      GetPropertyValueSkip(extra, post, name);
    } else {
      assert (pre + extra + post)[1..] == pre[1..] + extra + post;
      assert (pre + post)[1..] == pre[1..] + post;
      GetPropertyValueInsert(pre[1..], extra, post, name);
    }
  }

  /** A lookup passes over leading property values with other names. */
  lemma {:induction false} GetPropertyValueSkip(extra: seq<PropertyValue>, post: seq<PropertyValue>, name: string)
    requires name !in Names(extra)
    ensures GetPropertyValue(extra + post, name) == GetPropertyValue(post, name)
  {
    if extra != [] {
      assert extra[0].name in Names(extra);
      assert (extra + post)[1..] == extra[1..] + post;
      assert Names(extra[1..]) <= Names(extra) by {
        forall n | n in Names(extra[1..]) ensures n in Names(extra) {
          var i :| 0 <= i < |extra[1..]| && extra[1..][i].name == n;
          assert extra[i + 1].name == n;
        }
      }
      GetPropertyValueSkip(extra[1..], post, name);
    } else {
      assert extra + post == post;
    }
  }
}
