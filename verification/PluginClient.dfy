/** A plugin container's cached tools and resources, renamed into its namespace. */
module PluginClient {
  import opened Basics
  import opened Json
  import opened ResourceUris

  datatype ToolSchema = ToolSchema(prefixedName: string, originalName: string, schema: Value)

  datatype ResourceSchema = ResourceSchema(prefixedUri: string, originalUri: string, schema: Value)

  datatype Client = Client(name: string, tools: seq<ToolSchema>, resources: seq<ResourceSchema>)

  /** `has_tool`. */
  predicate HasTool(client: Client, name: string) {
    exists k :: 0 <= k < |client.tools| && client.tools[k].originalName == name
  }

  /** `has_resource`. */
  predicate HasResource(client: Client, uri: string) {
    exists k :: 0 <= k < |client.resources| && client.resources[k].originalUri == uri
  }

  // ----- The UI resource a tool refers to -----

  /** `get_tool_resource_uri`: `_meta.ui.resourceUri`, or else `_meta["ui.resourceUri"]`. */
  function GetToolUri(schema: Value): Option<string> {
    var meta := Get(schema, "_meta");
    if meta.None? then None
    else
      var nested := Get2(meta.value, "ui", "resourceUri");
      var field := if nested.Some? then nested else Get(meta.value, "ui.resourceUri");
      if field.Some? && field.value.Str? then Some(field.value.s) else None
  }

  /** `set_tool_resource_uri`. */
  function SetToolUri(schema: Value, uri: string): Value {
    var meta := Get(schema, "_meta");
    if meta.None? then schema
    else
      var ui := Get(meta.value, "ui");
      if ui.Some? && Get(ui.value, "resourceUri").Some? then
        With(schema, "_meta", With(meta.value, "ui", With(ui.value, "resourceUri", Str(uri))))
      else if Get(meta.value, "ui.resourceUri").Some? then
        With(schema, "_meta", With(meta.value, "ui.resourceUri", Str(uri)))
      else schema
  }

  /** Setting is read back, can be undone, and leaves every other field of the schema alone. */
  lemma SetToolUriLaws(schema: Value, uri: string)
    requires GetToolUri(schema).Some?
    ensures GetToolUri(SetToolUri(schema, uri)) == Some(uri)
    ensures SetToolUri(SetToolUri(schema, uri), GetToolUri(schema).value) == schema
    ensures forall key :: key != "_meta" ==> Get(SetToolUri(schema, uri), key) == Get(schema, key)
  {
    var meta := Get(schema, "_meta").value;
    var before := GetToolUri(schema).value;
    var ui := Get(meta, "ui");
    if ui.Some? && Get(ui.value, "resourceUri").Some? {
      var fields := ui.value.fields;
      assert fields["resourceUri" := Str(uri)]["resourceUri" := Str(before)] == fields;
      SetTwice(meta.fields, "ui", With(ui.value, "resourceUri", Str(uri)));
    } else {
      SetTwice(meta.fields, "ui.resourceUri", Str(uri));
    }
    SetTwice(schema.fields, "_meta", SetToolUri(schema, uri).fields["_meta"]);
  }

  lemma SetTwice(fields: map<string, Value>, key: string, other: Value)
    requires key in fields
    ensures fields[key := other][key := fields[key]] == fields
  {
  }

  function FindResource(resources: seq<ResourceSchema>, uri: string): (r: Option<ResourceSchema>)
    ensures r.Some? <==> exists k :: 0 <= k < |resources| && resources[k].originalUri == uri
    ensures r.Some? ==> r.value in resources && r.value.originalUri == uri
  {
    if |resources| == 0 then None
    else if resources[0].originalUri == uri then Some(resources[0])
    else FindResource(resources[1..], uri)
  }

  /** `rewrite_tool_resource_uri`. */
  function RewriteToolUri(schema: Value, resources: seq<ResourceSchema>): Value {
    var uri := GetToolUri(schema);
    if uri.None? then schema
    else
      var resource := FindResource(resources, uri.value);
      if resource.None? then schema else SetToolUri(schema, resource.value.prefixedUri)
  }

  // ----- Building the caches -----

  function PrefixTool(name: string, tool: Value, resources: seq<ResourceSchema>): Option<ToolSchema> {
    var original := GetStr(tool, "name");
    if original.None? then None
    else
      var prefixed := name + "__" + original.value;
      Some(ToolSchema(prefixed, original.value, RewriteToolUri(With(tool, "name", Str(prefixed)), resources)))
  }

  /**
   * What a listed tool shows: the prefixed name; where its own UI link is a cached resource, that
   * resource's prefixed URI, and otherwise the link it had; and every other field as it was.
   */
  lemma PrefixedToolLaws(name: string, tool: Value, resources: seq<ResourceSchema>)
    ensures PrefixTool(name, tool, resources).Some? <==> GetStr(tool, "name").Some?
    ensures GetStr(tool, "name").Some? ==>
      var listed := PrefixTool(name, tool, resources).value;
      var link := GetToolUri(tool);
      && listed.originalName == GetStr(tool, "name").value
      && listed.prefixedName == name + "__" + listed.originalName
      && GetStr(listed.schema, "name") == Some(listed.prefixedName)
      && GetToolUri(listed.schema)
         == (if link.Some? && FindResource(resources, link.value).Some?
             then Some(FindResource(resources, link.value).value.prefixedUri) else link)
      && (forall key :: key != "name" && key != "_meta" ==> Get(listed.schema, key) == Get(tool, key))
      && (forall key :: key != "ui" && key != "ui.resourceUri" ==>
            Get2(listed.schema, "_meta", key) == Get2(tool, "_meta", key))
  {
    if GetStr(tool, "name").Some? {
      var renamed := With(tool, "name", Str(name + "__" + GetStr(tool, "name").value));
      assert GetToolUri(renamed) == GetToolUri(tool);
      if GetToolUri(renamed).Some? && FindResource(resources, GetToolUri(renamed).value).Some? {
        SetToolUriLaws(renamed, FindResource(resources, GetToolUri(renamed).value).value.prefixedUri);
      }
    }
  }

  function PrefixTools(name: string, tools: seq<Value>, resources: seq<ResourceSchema>): seq<ToolSchema> {
    if |tools| == 0 then []
    else
      var first := PrefixTool(name, tools[0], resources);
      (if first.Some? then [first.value] else []) + PrefixTools(name, tools[1..], resources)
  }

  function PrefixResource(name: string, resource: Value): Option<ResourceSchema> {
    var original := GetStr(resource, "uri");
    if original.None? then None
    else
      var prefixed := PrefixUri(name, original.value);
      if prefixed.None? then None
      else Some(ResourceSchema(prefixed.value, original.value, With(resource, "uri", Str(prefixed.value))))
  }

  function PrefixResources(name: string, resources: seq<Value>): seq<ResourceSchema> {
    if |resources| == 0 then []
    else
      var first := PrefixResource(name, resources[0]);
      (if first.Some? then [first.value] else []) + PrefixResources(name, resources[1..])
  }

  /** `prefix_tool_schemas`. */
  method PrefixToolSchemas(name: string, tools: seq<Value>, resources: seq<ResourceSchema>)
    returns (schemas: seq<ToolSchema>)
    ensures schemas == PrefixTools(name, tools, resources)
  {
    hide PrefixTool;
    schemas := [];
    for k := 0 to |tools|
      invariant PrefixTools(name, tools, resources) == schemas + PrefixTools(name, tools[k..], resources)
    {
      var tool := tools[k];
      assert tools[k..][0] == tool && tools[k..][1..] == tools[k + 1..];
      var next := PrefixOneTool(name, tool, resources);
      if next.Some? {
        schemas := schemas + [next.value];
      }
    }
  }

  /** The loop body; `PrefixedToolLaws` says what the schema then holds. */
  method PrefixOneTool(name: string, tool: Value, resources: seq<ResourceSchema>) returns (r: Option<ToolSchema>)
    ensures r == PrefixTool(name, tool, resources)
  {
    var original := GetStr(tool, "name");
    if original.None? {
      return None;
    }
    var schema := tool;
    schema := With(schema, "name", Str(name + "__" + original.value));
    var uri := GetToolUri(schema);
    if uri.Some? {
      var resource := FindResource(resources, uri.value);
      if resource.Some? {
        schema := SetToolUri(schema, resource.value.prefixedUri);
      }
    }
    return Some(ToolSchema(name + "__" + original.value, original.value, schema));
  }

  /** The loop of `fetch_prefixed_resource_schemas`. */
  method PrefixResourceSchemas(name: string, resources: seq<Value>) returns (schemas: seq<ResourceSchema>)
    ensures schemas == PrefixResources(name, resources)
  {
    schemas := [];
    for k := 0 to |resources|
      invariant PrefixResources(name, resources) == schemas + PrefixResources(name, resources[k..])
    {
      assert resources[k..][0] == resources[k] && resources[k..][1..] == resources[k + 1..];
      var original := GetStr(resources[k], "uri");
      if original.Some? {
        var prefixed := PrefixUri(name, original.value);
        if prefixed.Some? {
          var schema := With(resources[k], "uri", Str(prefixed.value));
          schemas := schemas + [ResourceSchema(prefixed.value, original.value, schema)];
        }
      }
    }
  }

  /** A client as `initialize_and_cache_tools` leaves it. */
  function Connect(name: string, tools: seq<Value>, resources: seq<Value>): Client {
    var cached := PrefixResources(name, resources);
    Client(name, PrefixTools(name, tools, cached), cached)
  }

  /** Each cached tool is listed under the container's prefix. */
  lemma {:induction false} CachedToolNames(name: string, tools: seq<Value>, resources: seq<ResourceSchema>, k: nat)
    requires k < |PrefixTools(name, tools, resources)|
    ensures var t := PrefixTools(name, tools, resources)[k];
      && t.prefixedName == name + "__" + t.originalName
      && GetStr(t.schema, "name") == Some(t.prefixedName)
  {
    hide PrefixTool;
    var first := PrefixTool(name, tools[0], resources);
    if first.Some? && k == 0 {
      PrefixedToolLaws(name, tools[0], resources);
    } else {
      CachedToolNames(name, tools[1..], resources, if first.Some? then k - 1 else k);
    }
  }

  /** Each cached resource's two URIs are tied by the prefixing. */
  lemma {:induction false} CachedResourceUris(name: string, resources: seq<Value>, k: nat)
    requires k < |PrefixResources(name, resources)|
    ensures var r := PrefixResources(name, resources)[k];
      && PrefixUri(name, r.originalUri) == Some(r.prefixedUri)
      && GetStr(r.schema, "uri") == Some(r.prefixedUri)
  {
    hide PrefixUri;
    var first := PrefixResource(name, resources[0]);
    if !(first.Some? && k == 0) {
      CachedResourceUris(name, resources[1..], if first.Some? then k - 1 else k);
    }
  }

  // ----- Replies to resources/read -----

  /** One element of `contents`, its `uri` replaced when it is the one that was asked for. */
  function RewriteContent(content: Value, original: string, prefixed: string): Value {
    if GetStr(content, "uri") == Some(original) then With(content, "uri", Str(prefixed)) else content
  }

  function RewriteContents(contents: seq<Value>, original: string, prefixed: string): seq<Value> {
    seq(|contents|, i requires 0 <= i < |contents| => RewriteContent(contents[i], original, prefixed))
  }

  /** `prefix_read_resource_response_uri`. */
  method PrefixReadReply(name: string, response: Response, original: string) returns (r: Response)
    ensures r == ReadReply(name, response, original)
  {
    var prefixed := PrefixUri(name, original);
    if prefixed.None? || response.body.NotJson? {
      return response;
    }
    var body := response.body.value;
    if Get(body, "error").Some? {
      return response;
    }
    var contents := Get2(body, "result", "contents");
    if contents.None? || !contents.value.Arr? {
      return response;
    }
    var items := contents.value.items;
    for k := 0 to |items|
      invariant |items| == |contents.value.items|
      invariant forall i :: 0 <= i < |items| ==>
        items[i] == if i < k then RewriteContent(contents.value.items[i], original, prefixed.value)
                    else contents.value.items[i]
    {
      if GetStr(items[k], "uri") == Some(original) {
        items := items[k := With(items[k], "uri", Str(prefixed.value))];
      }
    }
    assert items == RewriteContents(contents.value.items, original, prefixed.value);
    var result := With(body.fields["result"], "contents", Arr(items));
    return Response(response.status, StripContentLength(response.headers), IsJson(With(body, "result", result)));
  }

  function ReadReply(name: string, response: Response, original: string): Response {
    var prefixed := PrefixUri(name, original);
    if prefixed.None? || response.body.NotJson? then response
    else
      var body := response.body.value;
      var contents := Get2(body, "result", "contents");
      if Get(body, "error").Some? || contents.None? || !contents.value.Arr? then response
      else
        var items := RewriteContents(contents.value.items, original, prefixed.value);
        var result := With(body.fields["result"], "contents", Arr(items));
        Response(response.status, StripContentLength(response.headers), IsJson(With(body, "result", result)))
  }

  /**
   * The rewritten reply names the prefixed URI wherever the original named the stripped one, keeps
   * every other content and every other field, and stripping the new URI gives the old one.
   */
  lemma ReadReplyLaws(name: string, response: Response, original: string)
    requires NoDelimiter(name) && PrefixUri(name, original).Some?
    requires response.body.IsJson? && Get(response.body.value, "error").None?
    requires var contents := Get2(response.body.value, "result", "contents");
      contents.Some? && contents.value.Arr?
    ensures var before, after := response.body.value, ReadReply(name, response, original).body.value;
      var prefixed := PrefixUri(name, original).value;
      && StripUri(name, prefixed) == Some(original)
      && (forall key :: key != "result" ==> Get(after, key) == Get(before, key))
      && (forall key :: key != "contents" ==> Get2(after, "result", key) == Get2(before, "result", key))
      && var items, rewritten := Get2(before, "result", "contents").value.items, Get2(after, "result", "contents");
         && rewritten.Some? && rewritten.value.Arr? && |rewritten.value.items| == |items|
         && forall i :: 0 <= i < |items| ==>
              && (GetStr(items[i], "uri") == Some(original) ==> GetStr(rewritten.value.items[i], "uri") == Some(prefixed))
              && (GetStr(items[i], "uri") != Some(original) ==> rewritten.value.items[i] == items[i])
              && (forall key :: key != "uri" ==> Get(rewritten.value.items[i], key) == Get(items[i], key))
  {
    hide PrefixUri, StripUri;
    StripOfPrefix(name, original);
  }

  // ----- The caches and the pass-through cases, entry by entry -----

  /** The nested link is the one that counts where there is a nested field at all. */
  lemma GetToolUriLaws(schema: Value, uri: string)
    ensures GetToolUri(schema) == Some(uri) <==>
      && Get(schema, "_meta").Some?
      && if Get2(Get(schema, "_meta").value, "ui", "resourceUri").Some?
         then Get2(Get(schema, "_meta").value, "ui", "resourceUri") == Some(Str(uri))
         else Get(Get(schema, "_meta").value, "ui.resourceUri") == Some(Str(uri))
  {
  }

  /** Every tool with a string name is listed, once and in order, and no other. */
  lemma {:induction false} PrefixToolsAt(name: string, before: seq<Value>, tool: Value, after: seq<Value>,
                                         resources: seq<ResourceSchema>)
    ensures PrefixTools(name, [], resources) == []
    ensures PrefixTools(name, before + [tool] + after, resources)
         == PrefixTools(name, before, resources)
            + (if GetStr(tool, "name").Some? then [PrefixTool(name, tool, resources).value] else [])
            + PrefixTools(name, after, resources)
  {
    hide PrefixTool;
    PrefixedToolLaws(name, tool, resources);
    var all := before + [tool] + after;
    var own := if GetStr(tool, "name").Some? then [PrefixTool(name, tool, resources).value] else [];
    var tail := PrefixTools(name, after, resources);
    if |before| == 0 {
      assert all[0] == tool && all[1..] == after;
      assert [] + own + tail == own + tail;
    } else {
      assert all[0] == before[0] && all[1..] == before[1..] + [tool] + after;
      PrefixToolsAt(name, before[1..], tool, after, resources);
      var first := PrefixTool(name, before[0], resources);
      var head := if first.Some? then [first.value] else [];
      var middle := PrefixTools(name, before[1..], resources);
      assert head + (middle + own + tail) == head + middle + own + tail;
    }
  }

  /** What is cached of a resource with a string URI that has an authority. */
  ghost predicate Caches(name: string, resource: Value, cached: ResourceSchema) {
    && GetStr(resource, "uri") == Some(cached.originalUri)
    && PrefixUri(name, cached.originalUri) == Some(cached.prefixedUri)
    && GetStr(cached.schema, "uri") == Some(cached.prefixedUri)
    && forall key :: key != "uri" ==> Get(cached.schema, key) == Get(resource, key)
  }

  /** Every resource whose URI is a string that can be prefixed is cached, once and in order, and no other. */
  lemma {:induction false} PrefixResourcesAt(name: string, before: seq<Value>, resource: Value, after: seq<Value>)
    ensures PrefixResources(name, []) == []
    ensures var uri := GetStr(resource, "uri");
      var whole := PrefixResources(name, before + [resource] + after);
      if uri.Some? && PrefixUri(name, uri.value).Some? then
        exists cached :: && Caches(name, resource, cached)
                         && whole == PrefixResources(name, before) + [cached] + PrefixResources(name, after)
      else whole == PrefixResources(name, before) + PrefixResources(name, after)
  {
    hide PrefixUri;
    var all := before + [resource] + after;
    var uri := GetStr(resource, "uri");
    if |before| == 0 {
      assert all[0] == resource && all[1..] == after;
      if uri.Some? && PrefixUri(name, uri.value).Some? {
        var cached := PrefixResource(name, resource).value;
        assert Caches(name, resource, cached);
        assert PrefixResources(name, all) == PrefixResources(name, before) + [cached] + PrefixResources(name, after);
      } else {
        assert PrefixResources(name, before) + PrefixResources(name, after) == PrefixResources(name, after);
      }
    } else {
      assert all[0] == before[0] && all[1..] == before[1..] + [resource] + after;
      PrefixResourcesAt(name, before[1..], resource, after);
      var first := PrefixResource(name, before[0]);
      var head := if first.Some? then [first.value] else [];
      if uri.Some? && PrefixUri(name, uri.value).Some? {
        var cached :| && Caches(name, resource, cached)
                      && PrefixResources(name, all[1..])
                         == PrefixResources(name, before[1..]) + [cached] + PrefixResources(name, after);
        assert PrefixResources(name, all) == PrefixResources(name, before) + [cached] + PrefixResources(name, after);
      } else {
        assert PrefixResources(name, all) == PrefixResources(name, before) + PrefixResources(name, after);
      }
    }
  }

  /** A reply that is not JSON, reports an error or holds no array of contents goes through as it is. */
  lemma ReadReplyPassesThrough(name: string, response: Response, original: string)
    requires || PrefixUri(name, original).None?
             || response.body.NotJson?
             || Get(response.body.value, "error").Some?
             || !(exists items :: Get2(response.body.value, "result", "contents") == Some(Arr(items)))
    ensures ReadReply(name, response, original) == response
  {
    if response.body.IsJson? {
      var contents := Get2(response.body.value, "result", "contents");
      assert contents.Some? && contents.value.Arr? ==> contents == Some(Arr(contents.value.items));
    }
  }

  /** Of a rewritten reply the status stays, and the headers are those without content-length. */
  lemma ReadReplyHeaders(name: string, response: Response, original: string)
    ensures var r := ReadReply(name, response, original);
      r.status == response.status && (r.headers == response.headers || r.headers == StripContentLength(response.headers))
    ensures ReadReply(name, response, original).body != response.body ==>
      ReadReply(name, response, original).headers == StripContentLength(response.headers)
  {
    hide PrefixUri, RewriteContents, StripContentLength;
  }
}
