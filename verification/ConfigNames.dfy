/** Validation of the configured plugin containers: what their names guarantee to the router. */
module ConfigNames {
  import opened Basics
  import opened ResourceUris
  import opened McpRouter

  /** A raw entry: its name, and whether the fields checked after the name are all in order. */
  datatype Entry = Entry(name: Option<string>, restOk: bool)

  /** Unicode White_Space, which Rust's `str::trim` removes at both ends. */
  predicate IsWhitespace(c: char) {
    || '\t' <= c <= '\r' || c == ' ' || c == '\U{85}' || c == '\U{A0}' || c == '\U{1680}'
    || '\U{2000}' <= c <= '\U{200A}' || c == '\U{2028}' || c == '\U{2029}' || c == '\U{202F}'
    || c == '\U{205F}' || c == '\U{3000}'
  }

  function Trim(s: string): string {
    if s == "" then ""
    else if IsWhitespace(s[0]) then Trim(s[1..])
    else if IsWhitespace(s[|s| - 1]) then Trim(s[..|s| - 1])
    else s
  }

  /** `required_string`. */
  function Required(value: Option<string>): Option<string> {
    if value.Some? && Trim(value.value) != "" then Some(Trim(value.value)) else None
  }

  predicate NameChar(c: char) {
    'a' <= c <= 'z' || '0' <= c <= '9' || c == '_'
  }

  /** `plugin_mcp_container_asset_mount`. */
  function Mount(name: string): string {
    seq(|name|, i requires 0 <= i < |name| => if name[i] == '_' then '-' else name[i])
  }

  /** `validate_name`. */
  predicate ValidName(name: string) {
    && name != ""
    && (forall i :: 0 <= i < |name| ==> NameChar(name[i]))
    && Mount(name) !in {"health", "mcp", "oauth"}
  }

  /** The entry has a valid name, which it reserves whatever becomes of the entry. */
  predicate Reserves(entry: Entry, name: string) {
    Required(entry.name) == Some(name) && ValidName(name)
  }

  /** Entry i is kept: a valid name that no earlier entry reserved, and the other fields in order. */
  predicate Keeps(entries: seq<Entry>, i: nat)
    requires i < |entries|
  {
    && Required(entries[i].name).Some?
    && ValidName(Required(entries[i].name).value)
    && entries[i].restOk
    && forall j :: 0 <= j < i ==> !Reserves(entries[j], Required(entries[i].name).value)
  }

  /** The names of the kept entries among the first n. */
  function KeptNames(entries: seq<Entry>, n: nat): (names: seq<string>)
    requires n <= |entries|
    ensures forall k :: 0 <= k < |names| ==> ValidName(names[k])
  {
    if n == 0 then []
    else if Keeps(entries, n - 1) then KeptNames(entries, n - 1) + [Required(entries[n - 1].name).value]
    else KeptNames(entries, n - 1)
  }

  /** `validate_plugin_mcp_containers`. */
  method ValidateContainers(entries: seq<Entry>) returns (names: seq<string>)
    ensures names == KeptNames(entries, |entries|)
  {
    hide ValidName, Required;
    var seenNames: set<string> := {};
    names := [];
    for i := 0 to |entries|
      invariant names == KeptNames(entries, i)
      invariant forall name :: name in seenNames <==> exists j :: 0 <= j < i && Reserves(entries[j], name)
    {
      var accepted: Option<string>;
      accepted, seenNames := ValidateContainer(entries[i], seenNames);
      if accepted.Some? {
        names := names + [accepted.value];
      }
    }
  }

  /** `validate_plugin_mcp_container`: the name is reserved before the other fields are looked at. */
  method ValidateContainer(entry: Entry, seen: set<string>) returns (accepted: Option<string>, seen': set<string>)
    ensures forall name :: name in seen' <==> name in seen || Reserves(entry, name)
    ensures forall name :: accepted == Some(name) <==> Reserves(entry, name) && name !in seen && entry.restOk
  {
    accepted, seen' := None, seen;
    var name := Required(entry.name);
    if name.None? || !ValidName(name.value) {
      return;
    }
    if name.value in seen {
      return;
    }
    seen' := seen + {name.value};
    if entry.restOk {
      accepted := name;
    }
  }

  // ----- Which names are accepted, written out -----

  lemma ValidNameIff(name: string)
    ensures ValidName(name) <==>
      && name != "" && name != "health" && name != "mcp" && name != "oauth"
      && forall i :: 0 <= i < |name| ==> 'a' <= name[i] <= 'z' || '0' <= name[i] <= '9' || name[i] == '_'
  {
    UnchangedMount("health");
    UnchangedMount("mcp");
    UnchangedMount("oauth");
    PlainMount(name, "health");
    PlainMount(name, "mcp");
    PlainMount(name, "oauth");
  }

  lemma UnchangedMount(name: string)
    requires forall i :: 0 <= i < |name| ==> name[i] != '_'
    ensures Mount(name) == name
  {
  }

  lemma PlainMount(name: string, reserved: string)
    requires forall i :: 0 <= i < |reserved| ==> reserved[i] != '-'
    ensures Mount(name) == reserved ==> name == reserved
  {
    if Mount(name) == reserved {
      forall i | 0 <= i < |name| ensures name[i] == reserved[i] {
        assert Mount(name)[i] == reserved[i];
      }
    }
  }

  /** White space at both ends of a configured name is dropped, and nothing else; it must leave something. */
  lemma RequiredName(before: string, name: string, after: string)
    requires forall i :: 0 <= i < |before| ==> IsWhitespace(before[i])
    requires forall i :: 0 <= i < |after| ==> IsWhitespace(after[i])
    requires name == "" || (!IsWhitespace(name[0]) && !IsWhitespace(name[|name| - 1]))
    ensures Required(Some(before + name + after)) == (if name == "" then None else Some(name))
    ensures Required(None) == None
  {
    hide IsWhitespace, Trim;
    TrimmedName(before, name, after);
  }

  lemma {:induction false} TrimmedName(before: string, name: string, after: string)
    requires forall i :: 0 <= i < |before| ==> IsWhitespace(before[i])
    requires forall i :: 0 <= i < |after| ==> IsWhitespace(after[i])
    requires name == "" || (!IsWhitespace(name[0]) && !IsWhitespace(name[|name| - 1]))
    ensures Trim(before + name + after) == name
    decreases |before| + |after|
  {
    hide IsWhitespace;
    var s := before + name + after;
    if before != "" {
      assert s[1..] == before[1..] + name + after;
      TrimmedName(before[1..], name, after);
    } else if after != "" {
      if name == "" {
        assert s[1..] == before + name + after[1..];
        TrimmedName(before, name, after[1..]);
      } else {
        assert s[..|s| - 1] == before + name + after[..|after| - 1];
        TrimmedName(before, name, after[..|after| - 1]);
      }
    } else {
      assert s == name;
    }
  }

  /** A name is kept exactly when the first entry that reserves it is in order otherwise too. */
  lemma {:induction false} KeptIff(entries: seq<Entry>, n: nat, name: string)
    requires n <= |entries|
    ensures name in KeptNames(entries, n) <==>
      exists i :: 0 <= i < n && Reserves(entries[i], name) && entries[i].restOk
                  && forall j :: 0 <= j < i ==> !Reserves(entries[j], name)
  {
    hide ValidName;
    if n > 0 {
      KeptIff(entries, n - 1, name);
    }
  }

  // ----- What the names guarantee -----

  predicate Distinct(names: seq<string>) {
    forall i, j :: 0 <= i < j < |names| ==> names[i] != names[j]
  }

  lemma {:induction false} KeptWereReserved(entries: seq<Entry>, n: nat, k: nat)
    requires n <= |entries| && k < |KeptNames(entries, n)|
    ensures exists j :: 0 <= j < n && Reserves(entries[j], KeptNames(entries, n)[k])
  {
    if k < |KeptNames(entries, n - 1)| {
      KeptWereReserved(entries, n - 1, k);
    } else {
      assert Reserves(entries[n - 1], KeptNames(entries, n)[k]);
    }
  }

  lemma {:induction false} KeptAreDistinct(entries: seq<Entry>, n: nat)
    requires n <= |entries|
    ensures Distinct(KeptNames(entries, n))
  {
    if n > 0 {
      KeptAreDistinct(entries, n - 1);
      var before := KeptNames(entries, n - 1);
      forall k | 0 <= k < |before|
        ensures Keeps(entries, n - 1) ==> before[k] != Required(entries[n - 1].name).value
      {
        KeptWereReserved(entries, n - 1, k);
      }
    }
  }

  /** Valid names work in URIs, and different names get different gateway mounts, none of them reserved. */
  lemma ValidNamesAreUsable(a: string, b: string)
    requires ValidName(a) && ValidName(b)
    ensures NoDelimiter(a)
    ensures Mount(a) == Mount(b) <==> a == b
  {
    if Mount(a) == Mount(b) {
      assert |a| == |Mount(a)| == |b|;
      forall i | 0 <= i < |a| ensures a[i] == b[i] {
        assert Mount(a)[i] == Mount(b)[i];
      }
    }
  }

  /** A name another one clashes with: it plus "_", or it plus "__" and anything. */
  predicate Clashes(longer: string, shorter: string) {
    longer == shorter + "_" || StartsWith(longer, shorter + "__")
  }

  lemma ClashIff(longer: string, shorter: string)
    requires longer != shorter
    ensures StartsWith(longer + "__", shorter + "__") <==> Clashes(longer, shorter)
  {
    var n := |shorter|;
    var l, s := longer + "__", shorter + "__";
    assert n <= |longer| ==> longer[..n] == l[..n + 2][..n];
    assert s[..n] == shorter;
    assert n == |longer| ==> longer == longer[..n];
    assert n + 1 == |longer| ==> longer == longer[..n] + [l[..n + 2][n]];
    assert s[n] == '_';
    assert n + 2 <= |longer| ==> longer[..n + 2] == l[..n + 2];
    assert longer == shorter + "_" ==> l == s + "_";
  }

  /** The router's prefix-freeness, in terms of the configured names: exactly the absence of clashes. */
  lemma PrefixFreeIffNoClash(names: seq<string>)
    requires Distinct(names)
    ensures PrefixFree(names) <==>
      forall i, j :: 0 <= i < |names| && 0 <= j < |names| && i != j ==> !Clashes(names[j], names[i])
  {
    forall i, j | 0 <= i < |names| && 0 <= j < |names| && i != j
      ensures StartsWith(names[j] + "__", names[i] + "__") <==> Clashes(names[j], names[i])
    {
      ClashIff(names[j], names[i]);
    }
  }

  /** Validation alone does not exclude a clash: both of these names are accepted. */
  lemma ValidationAllowsAClash()
    ensures KeptNames([Entry(Some("a"), true), Entry(Some("a_"), true)], 2) == ["a", "a_"]
    ensures !PrefixFree(["a", "a_"])
  {
    var entries := [Entry(Some("a"), true), Entry(Some("a_"), true)];
    assert Trim("a") == "a" && Trim("a_") == "a_";
    assert Mount("a")[0] == 'a' && |Mount("a")| == 1;
    assert Mount("a_")[0] == 'a' && |Mount("a_")| == 2;
    assert KeptNames(entries, 1) == ["a"];
    ClashIff("a_", "a");
    assert ["a", "a_"][1] == "a" + "_";
    var names := ["a", "a_"];
    assert StartsWith(names[1] + "__", names[0] + "__");
  }

  predicate EndsInUnderscore(name: string) {
    name != "" && name[|name| - 1] == '_'
  }

  predicate HasDoubleUnderscore(name: string) {
    exists k :: 0 <= k < |name| - 1 && name[k] == '_' == name[k + 1]
  }

  lemma ClashShows(longer: string, shorter: string)
    ensures Clashes(longer, shorter) ==> EndsInUnderscore(longer) || HasDoubleUnderscore(longer)
  {
    var n := |shorter|;
    if StartsWith(longer, shorter + "__") {
      assert longer[..n + 2][n] == '_' && longer[..n + 2][n + 1] == '_';
      assert longer[n] == '_' == longer[n + 1];
    }
  }

  /** Names that do not end in '_' and have no "__" inside never clash. */
  lemma PlainNamesArePrefixFree(names: seq<string>)
    requires Distinct(names)
    requires forall i :: 0 <= i < |names| ==> !EndsInUnderscore(names[i]) && !HasDoubleUnderscore(names[i])
    ensures PrefixFree(names)
  {
    forall i, j | 0 <= i < |names| && 0 <= j < |names| && i != j ensures !Clashes(names[j], names[i]) {
      ClashShows(names[j], names[i]);
    }
    PrefixFreeIffNoClash(names);
  }
}
