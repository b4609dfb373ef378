/** JSON values as serde_json sees them, and HTTP replies that carry them. */
module Json {
  import opened Basics

  datatype Value =
    | Null
    | Bool(b: bool)
    | Number(n: int)
    | Str(s: string)
    | Arr(items: seq<Value>)
    | Obj(fields: map<string, Value>)

  function Get(v: Value, key: string): Option<Value> {
    if v.Obj? && key in v.fields then Some(v.fields[key]) else None
  }

  function Get2(v: Value, key1: string, key2: string): Option<Value> {
    var inner := Get(v, key1);
    if inner.None? then None else Get(inner.value, key2)
  }

  function GetStr(v: Value, key: string): Option<string> {
    var field := Get(v, key);
    if field.Some? && field.value.Str? then Some(field.value.s) else None
  }

  /** `v` with an existing or new field set. */
  function With(v: Value, key: string, field: Value): Value
    requires v.Obj?
  {
    Obj(v.fields[key := field])
  }

  /** The body parses as JSON or it does not. */
  datatype Body = NotJson(text: string) | IsJson(value: Value)

  datatype Response = Response(status: nat, headers: seq<(string, string)>, body: Body)

  function LowerAscii(s: string): string {
    seq(|s|, i requires 0 <= i < |s| => if 'A' <= s[i] <= 'Z' then (s[i] as int + 32) as char else s[i])
  }

  /** `strip_content_length`. */
  function StripContentLength(headers: seq<(string, string)>): seq<(string, string)> {
    if |headers| == 0 then []
    else (if LowerAscii(headers[0].0) == "content-length" then [] else [headers[0]]) + StripContentLength(headers[1..])
  }

  /** The field, when the value is an object that has it. */
  lemma GetLaws(v: Value, key: string, field: Value)
    ensures Get(v, key) == Some(field) <==> v.Obj? && key in v.fields && v.fields[key] == field
    ensures GetStr(v, key).Some? <==> exists s :: Get(v, key) == Some(Str(s))
    ensures field.Str? ==> (GetStr(v, key) == Some(field.s) <==> Get(v, key) == Some(field))
  {
    if GetStr(v, key).Some? {
      assert Get(v, key) == Some(Str(GetStr(v, key).value));
    }
  }

  predicate IsContentLength(name: string) {
    LowerAscii(name) == "content-length"
  }

  /** No content-length header is left, in whatever case, and all others are, in their order. */
  lemma {:induction false} StripContentLengthAt(before: seq<(string, string)>, header: (string, string),
                                                after: seq<(string, string)>)
    ensures StripContentLength(before + [header] + after)
         == StripContentLength(before) + (if IsContentLength(header.0) then [] else [header]) + StripContentLength(after)
    ensures StripContentLength([]) == []
  {
    var all := before + [header] + after;
    if |before| == 0 {
      assert all[0] == header && all[1..] == after;
    } else {
      assert all[0] == before[0] && all[1..] == before[1..] + [header] + after;
      StripContentLengthAt(before[1..], header, after);
    }
  }

  /** Case is ASCII case: "Content-Length" and "CONTENT-LENGTH" are meant, nothing of another length is. */
  lemma ContentLengthSpellings(name: string)
    ensures IsContentLength("Content-Length") && IsContentLength("CONTENT-LENGTH") && IsContentLength("content-length")
    ensures IsContentLength(name) ==> |name| == 14
  {
  }
}
