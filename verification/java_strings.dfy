/** The two pieces of java.lang.String behaviour the bean definition parser relies on. */
module JavaStrings {
  import opened Wrappers

  /** `String.trim` strips every leading and trailing character whose code point is at
      most U+0020 (space and all ASCII control characters), not just "whitespace". */
  predicate Trimmable(c: char) {
    c <= ' '
  }

  /** True when every character of `s` is one `trim` would remove. */
  predicate AllTrimmable(s: string) {
    forall i :: 0 <= i < |s| ==> Trimmable(s[i])
  }

  /** `s` without its leading trimmable characters. */
  function TrimStart(s: string): (r: string)
    ensures |r| <= |s| && r == s[|s| - |r|..]
    ensures forall i :: 0 <= i < |s| - |r| ==> Trimmable(s[i])
    ensures r != [] ==> !Trimmable(r[0])
  {
    if s != [] && Trimmable(s[0]) then TrimStart(s[1..]) else s
  }

  /** `s` without its trailing trimmable characters. */
  function TrimEnd(s: string): (r: string)
    ensures |r| <= |s| && r == s[..|r|]
    ensures forall i :: |r| <= i < |s| ==> Trimmable(s[i])
    ensures r != [] ==> !Trimmable(r[|r| - 1])
  {
    if s != [] && Trimmable(s[|s| - 1]) then TrimEnd(s[..|s| - 1]) else s
  }

  /** True when `r` is the part of `s` starting at `i` and everything of `s` before
      and after that part is trimmable. */
  predicate TrimmedAt(s: string, r: string, i: int) {
    && 0 <= i <= |s| - |r|
    && r == s[i..i + |r|]
    && (forall k :: 0 <= k < i ==> Trimmable(s[k]))
    && (forall k :: i + |r| <= k < |s| ==> Trimmable(s[k]))
  }

  /** A suffix `t` of `s` after trimmable characters, cut down to a prefix `r` before
      trimmable characters, is the part of `s` starting at `|s| - |t|`. */
  lemma TrimmedInfix(s: string, t: string, r: string)
    requires |t| <= |s| && t == s[|s| - |t|..]
    requires forall k :: 0 <= k < |s| - |t| ==> Trimmable(s[k])
    requires |r| <= |t| && r == t[..|r|]
    requires forall k :: |r| <= k < |t| ==> Trimmable(t[k])
    ensures TrimmedAt(s, r, |s| - |t|)
  {
    var i := |s| - |t|;
    assert s[i..][..|r|] == s[i..i + |r|];
    forall k | i + |r| <= k < |s| ensures Trimmable(s[k]) {
      assert s[k] == t[k - i];
    }
  }

  /** `String.trim`: the longest infix of `s` that neither starts nor ends with a
      trimmable character; it is empty exactly when every character is trimmable. */
  function Trim(s: string): (r: string)
    ensures |r| <= |s|
    ensures r == [] <==> AllTrimmable(s)
    ensures r != [] ==> !Trimmable(r[0]) && !Trimmable(r[|r| - 1])
    ensures exists i :: TrimmedAt(s, r, i)
  {
    var t := TrimStart(s);
    var r := TrimEnd(t);
    // An empty result forces an empty `t`: otherwise TrimEnd would have stripped
    // t[0], which TrimStart left because it is not trimmable.
    assert r == [] ==> t == [];
    TrimmedInfix(s, t, r);
    r
  }

  /** The text `String.format("%s", o)` produces: a null argument prints as "null". */
  function FormatString(o: Option<string>): (r: string)
    ensures o.Some? ==> r == o.value
    ensures o.None? ==> r == "null"
  {
    o.GetOr("null")
  }
}
