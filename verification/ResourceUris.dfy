/** Resource URIs: a container's name is put in front of the authority and taken off again. */
module ResourceUris {
  import opened Basics

  function FindScheme(s: string): (r: Option<nat>)
    ensures r.Some? ==> r.value + 3 <= |s|
  {
    if |s| < 3 then None
    else if s[..3] == "://" then Some(0)
    else
      var rest := FindScheme(s[1..]);
      if rest.None? then None else Some(rest.value + 1)
  }

  predicate IsDelimiter(c: char) {
    c == '/' || c == '?' || c == '#'
  }

  /** Length of the text before the first delimiter. */
  function UntilDelimiter(s: string): (n: nat)
    ensures n <= |s|
  {
    if s == "" || IsDelimiter(s[0]) then 0 else 1 + UntilDelimiter(s[1..])
  }

  predicate NoDelimiter(s: string) {
    forall i :: 0 <= i < |s| ==> !IsDelimiter(s[i])
  }

  /** `split_uri_authority`: scheme with "://", non-empty authority, the rest. */
  function SplitAuthority(uri: string): (r: Option<(string, string, string)>)
    ensures r.Some? ==> uri == r.value.0 + r.value.1 + r.value.2
  {
    var scheme := FindScheme(uri);
    if scheme.None? then None
    else
      var start := scheme.value + 3;
      var length := UntilDelimiter(uri[start..]);
      if length == 0 then None
      else Some((uri[..start], uri[start..start + length], uri[start + length..]))
  }

  /** `prefix_resource_uri_for_container`. */
  function PrefixUri(name: string, uri: string): Option<string> {
    var parts := SplitAuthority(uri);
    if parts.None? then None
    else Some(parts.value.0 + (name + "__" + parts.value.1) + parts.value.2)
  }

  /** What follows `name` and "__", when something does. */
  function StripName(name: string, s: string): (r: Option<string>)
    ensures r.Some? <==> StartsWith(s, name + "__") && |s| > |name| + 2
    ensures r.Some? ==> s == name + "__" + r.value && r.value != ""
  {
    var rest := StripPrefix(s, name);
    assert StartsWith(s, name + "__") <==> rest.Some? && StartsWith(rest.value, "__") by {
      if StartsWith(s, name + "__") {
        assert s[..|name|] == s[..|name + "__"|][..|name|] == name;
        assert s[|name|..][..2] == s[..|name + "__"|][|name|..] == "__";
      }
      if rest.Some? && StartsWith(rest.value, "__") {
        assert s[..|name| + 2] == s[..|name|] + s[|name|..][..2];
      }
    }
    if rest.None? then None
    else
      var tail := StripPrefix(rest.value, "__");
      if tail.None? || tail.value == "" then None else tail
  }

  /** `strip_resource_uri_prefix_for_container`. */
  function StripUri(name: string, uri: string): Option<string> {
    var parts := SplitAuthority(uri);
    if parts.None? then None
    else
      var original := StripName(name, parts.value.1);
      if original.None? then None
      else Some(parts.value.0 + original.value + parts.value.2)
  }

  // ----- What the parts look like -----

  /** `scheme` ends in the first "://" of itself, and of anything it starts. */
  predicate SchemePart(scheme: string) {
    FindScheme(scheme).Some? && FindScheme(scheme).value + 3 == |scheme|
  }

  predicate RestPart(rest: string) {
    rest == "" || IsDelimiter(rest[0])
  }

  lemma {:induction false} FindSchemeStable(scheme: string, rest: string)
    requires FindScheme(scheme).Some?
    ensures FindScheme(scheme + rest) == FindScheme(scheme)
  {
    assert (scheme + rest)[..3] == scheme[..3];
    if scheme[..3] != "://" {
      assert (scheme + rest)[1..] == scheme[1..] + rest;
      FindSchemeStable(scheme[1..], rest);
    }
  }

  lemma {:induction false} FindSchemePart(s: string)
    requires FindScheme(s).Some?
    ensures SchemePart(s[..FindScheme(s).value + 3])
  {
    if s[..3] == "://" {
      assert s[..3][..3] == "://";
    } else {
      FindSchemePart(s[1..]);
      var n := FindScheme(s).value;
      assert s[..n + 3][1..] == s[1..][..n - 1 + 3];
      assert s[..n + 3][..3] == s[..3];
    }
  }

  lemma {:induction false} UntilDelimiterStops(s: string)
    ensures NoDelimiter(s[..UntilDelimiter(s)]) && RestPart(s[UntilDelimiter(s)..])
  {
    if s != "" && !IsDelimiter(s[0]) {
      UntilDelimiterStops(s[1..]);
      var n := UntilDelimiter(s);
      assert s[..n][1..] == s[1..][..n - 1];
      assert s[n..] == s[1..][n - 1..];
      assert forall i :: 0 < i < n ==> s[..n][i] == s[1..][..n - 1][i - 1];
    }
  }

  lemma {:induction false} UntilDelimiterOf(authority: string, rest: string)
    requires NoDelimiter(authority) && RestPart(rest)
    ensures UntilDelimiter(authority + rest) == |authority|
  {
    if authority == "" {
      assert authority + rest == rest;
    } else {
      assert (authority + rest)[1..] == authority[1..] + rest;
      UntilDelimiterOf(authority[1..], rest);
    }
  }

  /** Splitting and joining are inverse on well-shaped parts. */
  lemma SplitOfParts(scheme: string, authority: string, rest: string)
    requires SchemePart(scheme) && authority != "" && NoDelimiter(authority) && RestPart(rest)
    ensures SplitAuthority(scheme + authority + rest) == Some((scheme, authority, rest))
  {
    var uri := scheme + authority + rest;
    assert uri == scheme + (authority + rest);
    FindSchemeStable(scheme, authority + rest);
    assert uri[|scheme|..] == authority + rest;
    UntilDelimiterOf(authority, rest);
  }

  lemma PartsOfSplit(uri: string)
    requires SplitAuthority(uri).Some?
    ensures var (scheme, authority, rest) := SplitAuthority(uri).value;
      SchemePart(scheme) && authority != "" && NoDelimiter(authority) && RestPart(rest)
  {
    var start := FindScheme(uri).value + 3;
    FindSchemePart(uri);
    UntilDelimiterStops(uri[start..]);
    var length := UntilDelimiter(uri[start..]);
    assert uri[start..][..length] == uri[start..start + length];
    assert uri[start..][length..] == uri[start + length..];
  }

  // ----- The bijection -----

  /** Prefixing then stripping is the identity on every prefixable URI. */
  lemma StripOfPrefix(name: string, uri: string)
    requires NoDelimiter(name) && PrefixUri(name, uri).Some?
    ensures StripUri(name, PrefixUri(name, uri).value) == Some(uri)
  {
    PartsOfSplit(uri);
    var (scheme, authority, rest) := SplitAuthority(uri).value;
    var prefixed := name + "__" + authority;
    assert NoDelimiter(prefixed);
    SplitOfParts(scheme, prefixed, rest);
    StripNameOf(name, authority);
  }

  lemma StripNameOf(name: string, s: string)
    requires s != ""
    ensures StripName(name, name + "__" + s) == Some(s)
  {
    var full := name + "__" + s;
    assert full[..|name| + 2] == name + "__";
    assert full[|name| + 2..] == s;
    var r := StripName(name, full);
    assert full == name + "__" + r.value;
    assert r.value == full[|name| + 2..];
  }

  /** Stripping then prefixing is the identity on the container's namespace. */
  lemma PrefixOfStrip(name: string, uri: string)
    requires StripUri(name, uri).Some?
    ensures PrefixUri(name, StripUri(name, uri).value) == Some(uri)
  {
    PartsOfSplit(uri);
    var (scheme, authority, rest) := SplitAuthority(uri).value;
    var original := StripName(name, authority).value;
    assert NoDelimiter(original) by {
      forall i | 0 <= i < |original| ensures !IsDelimiter(original[i]) {
        assert original[i] == authority[|name| + 2 + i];
      }
    }
    SplitOfParts(scheme, original, rest);
  }

  lemma {:induction false} FirstDelimiter(s: string)
    requires !NoDelimiter(s)
    ensures UntilDelimiter(s) < |s|
  {
    if !IsDelimiter(s[0]) {
      var i :| 0 <= i < |s| && IsDelimiter(s[i]);
      assert s[1..][i - 1] == s[i];
      FirstDelimiter(s[1..]);
    }
  }

  lemma {:induction false} UntilDelimiterExtends(s: string, rest: string)
    requires UntilDelimiter(s) < |s|
    ensures UntilDelimiter(s + rest) == UntilDelimiter(s)
  {
    if !IsDelimiter(s[0]) {
      assert (s + rest)[1..] == s[1..] + rest;
      UntilDelimiterExtends(s[1..], rest);
    }
  }

  /** The round trip works for every URI if and only if the name holds no delimiter. */
  lemma RoundTripIff(name: string)
    ensures NoDelimiter(name) <==>
      forall uri :: PrefixUri(name, uri).Some? ==> StripUri(name, PrefixUri(name, uri).value) == Some(uri)
  {
    if NoDelimiter(name) {
      forall uri | PrefixUri(name, uri).Some? ensures StripUri(name, PrefixUri(name, uri).value) == Some(uri) {
        StripOfPrefix(name, uri);
      }
    } else {
      var uri := "a://h";
      BadNameFails(name);
      assert PrefixUri(name, uri).Some?;
    }
  }

  lemma BadNameFails(name: string)
    requires !NoDelimiter(name)
    ensures PrefixUri(name, "a://h").Some?
    ensures StripUri(name, PrefixUri(name, "a://h").value) != Some("a://h")
  {
    var scheme := "a://";
    assert scheme[1..] == "://" && scheme[1..][..3] == "://" && scheme[..3] == "a:/";
    assert FindScheme("://") == Some(0) by { assert "://"[..3] == "://"; }
    assert SchemePart(scheme);
    SplitOfParts(scheme, "h", "");
    assert scheme + "h" + "" == "a://h";
    var tail := name + "__" + "h";
    var prefixed := scheme + tail + "";
    assert PrefixUri(name, "a://h") == Some(prefixed);
    assert prefixed == scheme + tail;
    FindSchemeStable(scheme, tail);
    assert prefixed[4..] == tail;
    FirstDelimiter(name);
    assert tail == name + ("__" + "h");
    UntilDelimiterExtends(name, "__" + "h");
    if SplitAuthority(prefixed).Some? {
      assert |SplitAuthority(prefixed).value.1| < |name|;
    }
  }

  // ----- The same on the characters -----

  /** The first "://" is the one it ends in. */
  predicate IsScheme(scheme: string) {
    && |scheme| >= 3 && scheme[|scheme| - 3..] == "://"
    && forall i {:trigger scheme[i..]} :: 0 <= i < |scheme| - 3 ==> !StartsWith(scheme[i..], "://")
  }

  lemma {:induction false} SchemePartIff(scheme: string)
    ensures SchemePart(scheme) <==> IsScheme(scheme)
  {
    if |scheme| >= 3 {
      assert scheme[0..] == scheme;
      if |scheme| == 3 {
        assert scheme[..3] == scheme;
      } else {
        var rest := scheme[1..];
        SchemePartIff(rest);
        assert rest[|rest| - 3..] == scheme[|scheme| - 3..];
        assert forall i :: 0 <= i < |rest| ==> rest[i..] == scheme[i + 1..];
        assert forall i :: 0 < i < |scheme| ==> scheme[i..] == rest[i - 1..];
        if scheme[..3] == "://" {
          assert StartsWith(scheme[0..], "://");
        }
      }
    }
  }

  /**
   * Prefixing, in full: the name and "__" go between the first "://" and an authority, which is not
   * empty and ends at the first '/', '?' or '#'; a URI of another form is not prefixed.
   */
  lemma PrefixUriForm(name: string, scheme: string, authority: string, rest: string)
    requires IsScheme(scheme)
    requires forall i :: 0 <= i < |authority| ==> authority[i] != '/' && authority[i] != '?' && authority[i] != '#'
    requires rest == "" || rest[0] == '/' || rest[0] == '?' || rest[0] == '#'
    ensures authority != "" ==>
      PrefixUri(name, scheme + authority + rest) == Some(scheme + name + "__" + authority + rest)
    ensures authority == "" ==> PrefixUri(name, scheme + authority + rest) == None
  {
    SchemePartIff(scheme);
    if authority != "" {
      SplitOfParts(scheme, authority, rest);
      assert scheme + (name + "__" + authority) + rest == scheme + name + "__" + authority + rest;
    } else {
      assert scheme + authority + rest == scheme + rest;
      FindSchemeStable(scheme, rest);
      assert (scheme + rest)[|scheme|..] == rest;
    }
  }

  lemma {:induction false} NoSchemeIff(s: string)
    ensures FindScheme(s).None? <==> forall i {:trigger s[i..]} :: 0 <= i <= |s| ==> !StartsWith(s[i..], "://")
  {
    if |s| >= 3 {
      NoSchemeIff(s[1..]);
      assert s[0..] == s;
      assert forall i :: 0 <= i <= |s[1..]| ==> s[1..][i..] == s[i + 1..];
      assert forall i :: 0 < i <= |s| ==> s[i..] == s[1..][i - 1..];
    }
  }

  lemma UnschemedUri(name: string, uri: string)
    requires forall i {:trigger uri[i..]} :: 0 <= i <= |uri| ==> !StartsWith(uri[i..], "://")
    ensures PrefixUri(name, uri) == None && StripUri(name, uri) == None
  {
    NoSchemeIff(uri);
  }
}
