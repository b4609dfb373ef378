/** Stock types and helpers shared by the other modules. */
module Basics {

  datatype Option<+T> = None | Some(value: T)

  datatype Result<+T, +E> = Ok(value: T) | Err(error: E)

  function Min(a: int, b: int): int {
    if a <= b then a else b
  }

  function Max(a: int, b: int): int {
    if a >= b then a else b
  }

  predicate StartsWith(s: string, prefix: string) {
    |prefix| <= |s| && s[..|prefix|] == prefix
  }

  predicate EndsWith(s: string, suffix: string) {
    |suffix| <= |s| && s[|s| - |suffix|..] == suffix
  }

  /** Python's `needle in haystack`, Rust's `haystack.contains(needle)`. */
  predicate Occurs(needle: string, haystack: string) {
    exists i {:trigger haystack[i..]} :: 0 <= i <= |haystack| && StartsWith(haystack[i..], needle)
  }

  /** The text `s` is `a`, then `needle`, then `b`. */
  predicate Parts(s: string, a: string, needle: string, b: string) {
    s == a + needle + b
  }

  lemma OccursIff(needle: string, haystack: string)
    ensures Occurs(needle, haystack) <==> exists a, b :: Parts(haystack, a, needle, b)
  {
    if i :| 0 <= i <= |haystack| && StartsWith(haystack[i..], needle) {
      var a, b := haystack[..i], haystack[i..][|needle|..];
      assert haystack == a + haystack[i..] && haystack[i..] == needle + b;
      assert Parts(haystack, a, needle, b);
    }
    forall a, b | Parts(haystack, a, needle, b) ensures Occurs(needle, haystack) {
      assert haystack[|a|..] == needle + b;
      assert (needle + b)[..|needle|] == needle;
    }
  }

  /** Python's `s[a:b]` for 0 <= a <= b: bounds past the end are clamped. */
  function Clamped<T>(s: seq<T>, a: nat, b: nat): seq<T>
    requires a <= b
  {
    s[Min(a, |s|)..Min(b, |s|)]
  }

  /** Rust's `str::strip_prefix`. */
  function StripPrefix(s: string, prefix: string): (r: Option<string>)
    ensures r.Some? <==> StartsWith(s, prefix)
    ensures r.Some? ==> s == prefix + r.value
  {
    if StartsWith(s, prefix) then Some(s[|prefix|..]) else None
  }

  function Join(parts: seq<string>, separator: string): string {
    if |parts| == 0 then ""
    else if |parts| == 1 then parts[0]
    else parts[0] + separator + Join(parts[1..], separator)
  }
}
