/** Merged tool and resource lists, and dispatch by stripping container prefixes. */
module McpRouter {
  import opened Basics
  import opened Json
  import opened ResourceUris
  import opened PluginClient

  datatype NativeTool = NativeTool(name: string, description: Value, inputSchema: Value, meta: Option<Value>)

  datatype NativeResource = NativeResource(uri: string, name: string, mimeType: string)

  datatype Router = Router(tools: seq<NativeTool>, resources: seq<NativeResource>, clients: seq<Client>)

  /** Where a request goes, and in which form. */
  datatype Target =
    | ToNative(index: nat)
    | ToPlugin(client: nat, request: Value)
    | NotFound
    | Upstream

  // ----- Dispatch -----

  /** `request.params[key]` when the request parsed, params is an object and the field a string. */
  function Param(request: Option<Value>, key: string): Option<string> {
    if request.None? then None
    else
      var params := Get(request.value, "params");
      if params.None? then None else GetStr(params.value, key)
  }

  function WithParam(request: Value, key: string, s: string): Value
    requires Param(Some(request), key).Some?
  {
    With(request, "params", With(request.fields["params"], key, Str(s)))
  }

  function FindNative(names: seq<string>, name: string): (r: Option<nat>)
    ensures r.Some? ==> r.value < |names| && names[r.value] == name
    ensures forall k :: 0 <= k < (if r.Some? then r.value else |names|) ==> names[k] != name
  {
    if |names| == 0 then None
    else if names[0] == name then Some(0)
    else
      var rest := FindNative(names[1..], name);
      if rest.None? then None else Some(rest.value + 1)
  }

  function ToolNames(tools: seq<NativeTool>): seq<string> {
    seq(|tools|, i requires 0 <= i < |tools| => tools[i].name)
  }

  function ResourceUriList(resources: seq<NativeResource>): seq<string> {
    seq(|resources|, i requires 0 <= i < |resources| => resources[i].uri)
  }

  /** The first client, from `j` on, whose namespace holds the tool name. */
  function FirstByTool(clients: seq<Client>, name: string, j: nat): (r: Option<nat>)
    requires j <= |clients|
    ensures r.Some? ==> j <= r.value < |clients| && StripName(clients[r.value].name, name).Some?
    ensures r.Some? ==> forall i :: j <= i < r.value ==> StripName(clients[i].name, name).None?
    ensures r.None? ==> forall i :: j <= i < |clients| ==> StripName(clients[i].name, name).None?
    decreases |clients| - j
  {
    if j == |clients| then None
    else if StripName(clients[j].name, name).Some? then Some(j)
    else FirstByTool(clients, name, j + 1)
  }

  function FirstByUri(clients: seq<Client>, uri: string, j: nat): (r: Option<nat>)
    requires j <= |clients|
    ensures r.Some? ==> j <= r.value < |clients| && StripUri(clients[r.value].name, uri).Some?
    ensures r.Some? ==> forall i :: j <= i < r.value ==> StripUri(clients[i].name, uri).None?
    ensures r.None? ==> forall i :: j <= i < |clients| ==> StripUri(clients[i].name, uri).None?
    decreases |clients| - j
  {
    if j == |clients| then None
    else if StripUri(clients[j].name, uri).Some? then Some(j)
    else FirstByUri(clients, uri, j + 1)
  }

  function RouteCall(router: Router, request: Option<Value>): Target {
    var name := Param(request, "name");
    if name.None? then Upstream
    else
      var native := FindNative(ToolNames(router.tools), name.value);
      if native.Some? then ToNative(native.value)
      else
        var j := FirstByTool(router.clients, name.value, 0);
        if j.None? then Upstream
        else
          var original := StripName(router.clients[j.value].name, name.value).value;
          if HasTool(router.clients[j.value], original)
          then ToPlugin(j.value, WithParam(request.value, "name", original))
          else NotFound
  }

  function RouteRead(router: Router, request: Option<Value>): Target {
    var uri := Param(request, "uri");
    if uri.None? then Upstream
    else
      var native := FindNative(ResourceUriList(router.resources), uri.value);
      if native.Some? then ToNative(native.value)
      else
        var j := FirstByUri(router.clients, uri.value, 0);
        if j.None? then Upstream
        else
          var original := StripUri(router.clients[j.value].name, uri.value).value;
          if HasResource(router.clients[j.value], original)
          then ToPlugin(j.value, WithParam(request.value, "uri", original))
          else NotFound
  }

  /** `tools/call` in `route_request`: native tools first, then the plugin loop, then the vault server. */
  method RouteToolCall(router: Router, request: Option<Value>) returns (target: Target)
    ensures target == RouteCall(router, request)
  {
    hide WithParam, HasTool, FindNative, ToolNames;
    var name := Param(request, "name");
    if name.None? {
      return Upstream;
    }
    var native := FindNative(ToolNames(router.tools), name.value);
    if native.Some? {
      return ToNative(native.value);
    }
    for j := 0 to |router.clients|
      invariant FirstByTool(router.clients, name.value, 0) == FirstByTool(router.clients, name.value, j)
    {
      var original := StripName(router.clients[j].name, name.value);
      if original.Some? {
        if !HasTool(router.clients[j], original.value) {
          return NotFound;
        }
        return ToPlugin(j, WithParam(request.value, "name", original.value));
      }
    }
    return Upstream;
  }

  /** `resources/read` in `route_request`. */
  method RouteResourceRead(router: Router, request: Option<Value>) returns (target: Target)
    ensures target == RouteRead(router, request)
  {
    hide WithParam, HasResource, FindNative, ResourceUriList, StripUri;
    var uri := Param(request, "uri");
    if uri.None? {
      return Upstream;
    }
    var native := FindNative(ResourceUriList(router.resources), uri.value);
    if native.Some? {
      return ToNative(native.value);
    }
    for j := 0 to |router.clients|
      invariant FirstByUri(router.clients, uri.value, 0) == FirstByUri(router.clients, uri.value, j)
    {
      var original := StripUri(router.clients[j].name, uri.value);
      if original.Some? {
        if !HasResource(router.clients[j], original.value) {
          return NotFound;
        }
        return ToPlugin(j, WithParam(request.value, "uri", original.value));
      }
    }
    return Upstream;
  }

  /** A forwarded request differs from the client's in the one renamed parameter. */
  lemma ForwardedRequest(request: Value, key: string, s: string)
    requires Param(Some(request), key).Some?
    ensures var forwarded := WithParam(request, key, s);
      && Param(Some(forwarded), key) == Some(s)
      && (forall k :: k != "params" ==> Get(forwarded, k) == Get(request, k))
      && (forall k :: k != key ==> Get2(forwarded, "params", k) == Get2(request, "params", k))
  {
  }

  /** No call reaches a plugin for a tool it did not advertise, whatever the names are. */
  lemma OnlyAdvertisedToolsAreCalled(router: Router, request: Option<Value>)
    requires RouteCall(router, request).ToPlugin?
    ensures var t := RouteCall(router, request);
      && t.client < |router.clients|
      && Param(Some(t.request), "name").Some?
      && (exists k :: 0 <= k < |router.clients[t.client].tools| &&
            router.clients[t.client].tools[k].originalName == Param(Some(t.request), "name").value)
      && Param(request, "name")
         == Some(router.clients[t.client].name + "__" + Param(Some(t.request), "name").value)
  {
    var name := Param(request, "name").value;
    var j := FirstByTool(router.clients, name, 0).value;
    ForwardedRequest(request.value, "name", StripName(router.clients[j].name, name).value);
  }

  // ----- Merged lists -----

  function NativeSchema(t: NativeTool): Value {
    var fields := map["name" := Str(t.name), "description" := t.description, "inputSchema" := t.inputSchema];
    Obj(if t.meta.Some? then fields["_meta" := t.meta.value] else fields)
  }

  function NativeSchemas(tools: seq<NativeTool>): seq<Value> {
    seq(|tools|, i requires 0 <= i < |tools| => NativeSchema(tools[i]))
  }

  function ClientSchemas(client: Client): seq<Value> {
    seq(|client.tools|, k requires 0 <= k < |client.tools| => client.tools[k].schema)
  }

  function PluginSchemas(clients: seq<Client>, j: nat): seq<Value>
    requires j <= |clients|
    decreases |clients| - j
  {
    if j == |clients| then [] else ClientSchemas(clients[j]) + PluginSchemas(clients, j + 1)
  }

  function ResultArray(response: Response, key: string): Option<seq<Value>> {
    if response.body.NotJson? then None
    else
      var field := Get2(response.body.value, "result", key);
      if field.Some? && field.value.Arr? then Some(field.value.items) else None
  }

  /** `append_result_array`. */
  function AppendResultArray(response: Response, key: string, additions: seq<Value>): Response {
    var items := ResultArray(response, key);
    if items.None? then response
    else
      var body := response.body.value;
      var result := With(body.fields["result"], key, Arr(items.value + additions));
      Response(response.status, StripContentLength(response.headers), IsJson(With(body, "result", result)))
  }

  /** `append_tool_schemas`. */
  function ListTools(router: Router, response: Response): Response {
    var additions := NativeSchemas(router.tools) + PluginSchemas(router.clients, 0);
    if additions == [] then response else AppendResultArray(response, "tools", additions)
  }

  /** The array gets the additions at its end; the rest of the body is untouched. */
  lemma AppendedArray(response: Response, key: string, additions: seq<Value>)
    requires ResultArray(response, key).Some?
    ensures var r := AppendResultArray(response, key, additions);
      && ResultArray(r, key) == Some(ResultArray(response, key).value + additions)
      && r.status == response.status && r.headers == StripContentLength(response.headers)
      && (forall k :: k != "result" ==> Get(r.body.value, k) == Get(response.body.value, k))
      && (forall k :: k != key ==> Get2(r.body.value, "result", k) == Get2(response.body.value, "result", k))
  {
  }

  /** Who put an entry of the merged list there. */
  datatype Source = FromVault | FromNative(tool: nat) | FromPlugin(client: nat, tool: nat)

  function NativeSources(n: nat): seq<Source> {
    seq(n, i requires 0 <= i => FromNative(i))
  }

  function ClientSources(j: nat, n: nat): seq<Source> {
    seq(n, k requires 0 <= k => FromPlugin(j, k))
  }

  function PluginSources(clients: seq<Client>, j: nat): seq<Source>
    requires j <= |clients|
    decreases |clients| - j
  {
    if j == |clients| then [] else ClientSources(j, |clients[j].tools|) + PluginSources(clients, j + 1)
  }

  function Sources(router: Router, vaultCount: nat): seq<Source> {
    seq(vaultCount, i => FromVault) + NativeSources(|router.tools|) + PluginSources(router.clients, 0)
  }

  lemma {:induction false} PluginEntries(clients: seq<Client>, j: nat)
    requires j <= |clients|
    ensures var sources, schemas := PluginSources(clients, j), PluginSchemas(clients, j);
      && |sources| == |schemas|
      && forall e :: 0 <= e < |sources| ==>
           && sources[e].FromPlugin? && j <= sources[e].client < |clients|
           && sources[e].tool < |clients[sources[e].client].tools|
           && schemas[e] == clients[sources[e].client].tools[sources[e].tool].schema
    decreases |clients| - j
  {
    if j < |clients| {
      PluginEntries(clients, j + 1);
    }
  }

  // ----- List/call coherence -----

  /** No container's "name__" is a prefix of another's. */
  predicate PrefixFree(names: seq<string>) {
    forall i, j :: 0 <= i < |names| && 0 <= j < |names| && i != j ==>
      !StartsWith(names[j] + "__", names[i] + "__")
  }

  function Names(clients: seq<Client>): seq<string> {
    seq(|clients|, j requires 0 <= j < |clients| => clients[j].name)
  }

  /** The cached schemas carry the prefixed names. */
  predicate WellNamed(client: Client) {
    forall k :: 0 <= k < |client.tools| ==>
      && client.tools[k].prefixedName == client.name + "__" + client.tools[k].originalName
      && GetStr(client.tools[k].schema, "name") == Some(client.tools[k].prefixedName)
  }

  predicate OutsideNamespaces(clients: seq<Client>, name: string) {
    forall j :: 0 <= j < |clients| ==> StripName(clients[j].name, name).None?
  }

  /** Of two prefixes of one string, one is a prefix of the other. */
  lemma PrefixesCompare(a: string, b: string, s: string)
    requires StartsWith(s, a) && StartsWith(s, b)
    ensures StartsWith(a, b) || StartsWith(b, a)
  {
    if |a| <= |b| {
      assert b[..|a|] == s[..|b|][..|a|] == s[..|a|];
    } else {
      assert a[..|b|] == s[..|a|][..|b|] == s[..|b|];
    }
  }

  /** With prefix-free names, a name in one namespace is in no other. */
  lemma NamespacesDisjoint(names: seq<string>, i: nat, j: nat, rest: string)
    requires PrefixFree(names) && i < |names| && j < |names| && i != j
    ensures StripName(names[i], names[j] + "__" + rest).None?
  {
    var full := names[j] + "__" + rest;
    if StripName(names[i], full).Some? {
      assert full[..|names[j] + "__"|] == names[j] + "__";
      PrefixesCompare(names[i] + "__", names[j] + "__", full);
    }
  }

  /**
   * Prefix-freeness is exactly what dispatch needs: it holds if and only if no tool of a container,
   * whatever its name, is intercepted by an earlier one.
   */
  lemma PrefixFreeIff(names: seq<string>)
    ensures PrefixFree(names) <==>
      forall i, j, tool :: 0 <= i < j < |names| && tool != "" ==>
        StripName(names[i], names[j] + "__" + tool).None?
  {
    if PrefixFree(names) {
      forall i, j, tool | 0 <= i < j < |names| && tool != ""
        ensures StripName(names[i], names[j] + "__" + tool).None?
      {
        NamespacesDisjoint(names, i, j, tool);
      }
    } else {
      var i, j :| 0 <= i < |names| && 0 <= j < |names| && i != j && StartsWith(names[j] + "__", names[i] + "__");
      var shorter, longer := names[i] + "__", names[j] + "__";
      if i < j {
        assert (longer + "x")[..|shorter|] == longer[..|shorter|];
        assert StripName(names[i], names[j] + "__" + "x").Some?;
      } else {
        var tool := longer[|shorter|..] + "x";
        assert shorter + tool == longer + "x";
        assert (longer + "x")[..|longer|] == longer;
        assert StripName(names[j], names[i] + "__" + tool).Some?;
      }
    }
  }

  /** What a call to an advertised plugin tool does, for any names: the exact condition for coherence. */
  lemma PluginToolDispatch(router: Router, j: nat, k: nat, request: Value)
    requires j < |router.clients| && k < |router.clients[j].tools| && WellNamed(router.clients[j])
    requires Param(Some(request), "name") == Some(router.clients[j].tools[k].prefixedName)
    ensures var tool := router.clients[j].tools[k];
      RouteCall(router, Some(request)) == ToPlugin(j, WithParam(request, "name", tool.originalName))
      <==> && tool.originalName != ""
           && tool.prefixedName !in ToolNames(router.tools)
           && forall i :: 0 <= i < j ==> StripName(router.clients[i].name, tool.prefixedName).None?
  {
    var tool, client := router.clients[j].tools[k], router.clients[j];
    var name := tool.prefixedName;
    var first := FirstByTool(router.clients, name, 0);
    if tool.originalName != "" {
      StripNameOf(client.name, tool.originalName);
      assert StripName(client.name, name) == Some(tool.originalName);
      assert HasTool(client, tool.originalName);
    } else {
      assert name == client.name + "__" + "";
      assert StripName(client.name, name).None?;
    }
  }

  /**
   * Coherence: under prefix-free container names, and with native and vault names distinct and
   * outside the containers' namespaces, every entry of the merged list is dispatched to the source
   * that listed it, under its original name; except a plugin tool whose own name is empty, which is not.
   */
  lemma ListCallCoherence(router: Router, response: Response, request: Value, e: nat)
    requires ResultArray(response, "tools").Some?
    requires PrefixFree(Names(router.clients))
    requires forall j :: 0 <= j < |router.clients| ==> WellNamed(router.clients[j])
    requires forall i, i' :: 0 <= i < i' < |router.tools| ==> router.tools[i].name != router.tools[i'].name
    requires forall i :: 0 <= i < |router.tools| ==> OutsideNamespaces(router.clients, router.tools[i].name)
    requires forall v :: v in ResultArray(response, "tools").value && GetStr(v, "name").Some? ==>
      && GetStr(v, "name").value !in ToolNames(router.tools)
      && OutsideNamespaces(router.clients, GetStr(v, "name").value)
    requires ResultArray(ListTools(router, response), "tools").Some?
    requires e < |ResultArray(ListTools(router, response), "tools").value|
    requires var entry := ResultArray(ListTools(router, response), "tools").value[e];
      GetStr(entry, "name").Some? && Param(Some(request), "name") == GetStr(entry, "name")
    ensures var sources := Sources(router, |ResultArray(response, "tools").value|);
      && |sources| == |ResultArray(ListTools(router, response), "tools").value|
      && match sources[e]
         case FromVault => RouteCall(router, Some(request)) == Upstream
         case FromNative(i) => RouteCall(router, Some(request)) == ToNative(i)
         case FromPlugin(j, k) =>
           && j < |router.clients| && k < |router.clients[j].tools|
           && (RouteCall(router, Some(request))
               == ToPlugin(j, WithParam(request, "name", router.clients[j].tools[k].originalName))
               <==> router.clients[j].tools[k].originalName != "")
  {
    hide StripName, HasTool, WithParam, NativeSchema, RouteCall, PrefixFree, OutsideNamespaces, ToolNames, ListTools,
      PluginSchemas, PluginSources;
    var vaultTools := ResultArray(response, "tools").value;
    var natives, plugins := NativeSchemas(router.tools), PluginSchemas(router.clients, 0);
    MergedTools(router, response);
    PluginEntries(router.clients, 0);
    var sources := Sources(router, |vaultTools|);
    var listed := vaultTools + natives + plugins;
    if e < |vaultTools| {
      assert sources[e] == FromVault;
      assert listed[e] in vaultTools;
      VaultDispatch(router, request);
    } else if e < |vaultTools| + |natives| {
      var i := e - |vaultTools|;
      assert sources[e] == FromNative(i) && listed[e] == NativeSchema(router.tools[i]);
      NativeDispatch(router, i, request);
    } else {
      var p := e - |vaultTools| - |natives|;
      assert sources[e] == PluginSources(router.clients, 0)[p] && listed[e] == plugins[p];
      var j, k := sources[e].client, sources[e].tool;
      assert WellNamed(router.clients[j]);
      if router.clients[j].tools[k].originalName != "" {
        PluginDispatch(router, j, k, request);
      } else {
        PluginToolDispatch(router, j, k, request);
      }
    }
  }

  lemma MergedTools(router: Router, response: Response)
    requires ResultArray(response, "tools").Some?
    ensures ResultArray(ListTools(router, response), "tools")
         == Some(ResultArray(response, "tools").value + NativeSchemas(router.tools) + PluginSchemas(router.clients, 0))
  {
    var vaultTools := ResultArray(response, "tools").value;
    var natives, plugins := NativeSchemas(router.tools), PluginSchemas(router.clients, 0);
    AppendedArray(response, "tools", natives + plugins);
    assert vaultTools + (natives + plugins) == vaultTools + natives + plugins;
    if natives + plugins == [] {
      assert vaultTools + (natives + plugins) == vaultTools;
    }
  }

  lemma VaultDispatch(router: Router, request: Value)
    requires Param(Some(request), "name").Some? ==>
      && Param(Some(request), "name").value !in ToolNames(router.tools)
      && OutsideNamespaces(router.clients, Param(Some(request), "name").value)
    ensures RouteCall(router, Some(request)) == Upstream
  {
    hide StripName, HasTool, WithParam, Param;
  }

  lemma NativeDispatch(router: Router, i: nat, request: Value)
    requires i < |router.tools|
    requires forall a, b :: 0 <= a < b < |router.tools| ==> router.tools[a].name != router.tools[b].name
    requires Param(Some(request), "name") == GetStr(NativeSchema(router.tools[i]), "name")
    ensures RouteCall(router, Some(request)) == ToNative(i)
  {
    var names := ToolNames(router.tools);
    assert names[i] == router.tools[i].name;
    assert forall k :: 0 <= k < |names| && k != i ==> names[k] != names[i];
  }

  lemma PluginDispatch(router: Router, j: nat, k: nat, request: Value)
    requires PrefixFree(Names(router.clients))
    requires j < |router.clients| && k < |router.clients[j].tools| && WellNamed(router.clients[j])
    requires router.clients[j].tools[k].originalName != ""
    requires forall i :: 0 <= i < |router.tools| ==> OutsideNamespaces(router.clients, router.tools[i].name)
    requires Param(Some(request), "name") == Some(router.clients[j].tools[k].prefixedName)
    ensures RouteCall(router, Some(request))
         == ToPlugin(j, WithParam(request, "name", router.clients[j].tools[k].originalName))
  {
    hide RouteCall, HasTool, StripName, WithParam, Param;
    var tool, client := router.clients[j].tools[k], router.clients[j];
    var names := Names(router.clients);
    forall i | 0 <= i < j ensures StripName(router.clients[i].name, tool.prefixedName).None? {
      assert names[i] == router.clients[i].name && names[j] == client.name;
      NamespacesDisjoint(names, i, j, tool.originalName);
    }
    StripNameOf(client.name, tool.originalName);
    forall i | 0 <= i < |router.tools| ensures ToolNames(router.tools)[i] != tool.prefixedName {
      assert OutsideNamespaces(router.clients, router.tools[i].name);
    }
    PluginToolDispatch(router, j, k, request);
  }

  // ----- Resources -----

  /** The cached resources carry their own container's prefix. */
  predicate WellPlaced(client: Client) {
    && NoDelimiter(client.name)
    && forall k :: 0 <= k < |client.resources| ==>
         PrefixUri(client.name, client.resources[k].originalUri) == Some(client.resources[k].prefixedUri)
  }

  lemma ConnectedClients(name: string, tools: seq<Value>, resources: seq<Value>)
    ensures WellNamed(Connect(name, tools, resources))
    ensures NoDelimiter(name) ==> WellPlaced(Connect(name, tools, resources))
  {
    var client := Connect(name, tools, resources);
    forall k | 0 <= k < |client.tools|
      ensures client.tools[k].prefixedName == name + "__" + client.tools[k].originalName
      ensures GetStr(client.tools[k].schema, "name") == Some(client.tools[k].prefixedName)
    {
      CachedToolNames(name, tools, client.resources, k);
    }
    forall k | 0 <= k < |client.resources|
      ensures PrefixUri(name, client.resources[k].originalUri) == Some(client.resources[k].prefixedUri)
    {
      CachedResourceUris(name, resources, k);
    }
  }

  /** The authority of a prefixed URI starts with the container's prefix, so no other container strips it. */
  lemma OnlyOwnerStrips(names: seq<string>, i: nat, j: nat, uri: string, prefixed: string)
    requires PrefixFree(names) && i < |names| && j < |names| && i != j
    requires NoDelimiter(names[j]) && PrefixUri(names[j], uri) == Some(prefixed)
    ensures StripUri(names[i], prefixed).None?
  {
    PartsOfSplit(uri);
    var (scheme, authority, rest) := SplitAuthority(uri).value;
    var full := names[j] + "__" + authority;
    assert NoDelimiter(full);
    SplitOfParts(scheme, full, rest);
    NamespacesDisjoint(names, i, j, authority);
  }

  /** A listed plugin resource is read from the container that listed it, under its own URI. */
  lemma PluginResourceDispatch(router: Router, j: nat, k: nat, request: Value)
    requires PrefixFree(Names(router.clients))
    requires j < |router.clients| && k < |router.clients[j].resources| && WellPlaced(router.clients[j])
    requires forall i, r :: 0 <= i < |router.clients| && 0 <= r < |router.resources| ==>
      StripUri(router.clients[i].name, router.resources[r].uri).None?
    requires Param(Some(request), "uri") == Some(router.clients[j].resources[k].prefixedUri)
    ensures RouteRead(router, Some(request))
         == ToPlugin(j, WithParam(request, "uri", router.clients[j].resources[k].originalUri))
  {
    hide PrefixUri, StripUri, WithParam;
    var client, resource := router.clients[j], router.clients[j].resources[k];
    var names, uris := Names(router.clients), ResourceUriList(router.resources);
    StripOfPrefix(client.name, resource.originalUri);
    forall i | 0 <= i < |router.clients| && i != j
      ensures StripUri(router.clients[i].name, resource.prefixedUri).None?
    {
      assert names[i] == router.clients[i].name && names[j] == client.name;
      OnlyOwnerStrips(names, i, j, resource.originalUri, resource.prefixedUri);
    }
    forall r | 0 <= r < |uris| ensures uris[r] != resource.prefixedUri {
      assert StripUri(client.name, router.resources[r].uri).None?;
    }
    assert HasResource(client, resource.originalUri);
  }

  /**
   * A tool's UI link that its container declared is listed in prefixed form, and reading it through
   * the router asks that container for the URI it declared.
   */
  lemma ToolLinkIsReadable(router: Router, j: nat, name: string, tools: seq<Value>, resources: seq<Value>,
                           t: nat, request: Value)
    requires j < |router.clients| && router.clients[j] == Connect(name, tools, resources)
    requires PrefixFree(Names(router.clients)) && NoDelimiter(name)
    requires forall i, r :: 0 <= i < |router.clients| && 0 <= r < |router.resources| ==>
      StripUri(router.clients[i].name, router.resources[r].uri).None?
    requires t < |tools| && GetStr(tools[t], "name").Some? && GetToolUri(tools[t]).Some?
    requires FindResource(router.clients[j].resources, GetToolUri(tools[t]).value).Some?
    requires var listed := PrefixTool(name, tools[t], router.clients[j].resources).value.schema;
      GetToolUri(listed).Some? ==> Param(Some(request), "uri") == Some(GetToolUri(listed).value)
    ensures var listed := PrefixTool(name, tools[t], router.clients[j].resources).value.schema;
      && GetToolUri(listed) == PrefixUri(name, GetToolUri(tools[t]).value)
      && (Param(Some(request), "uri").Some? ==>
           RouteRead(router, Some(request)) == ToPlugin(j, WithParam(request, "uri", GetToolUri(tools[t]).value)))
  {
    hide RouteRead, WithParam, PrefixUri, StripUri, PrefixTools, PrefixResources;
    var cached := router.clients[j].resources;
    var declared := GetToolUri(tools[t]).value;
    var resource := FindResource(cached, declared).value;
    var k :| 0 <= k < |cached| && cached[k] == resource;
    ConnectedClients(name, tools, resources);
    var renamed := With(tools[t], "name", Str(name + "__" + GetStr(tools[t], "name").value));
    assert GetToolUri(renamed) == Some(declared);
    SetToolUriLaws(renamed, resource.prefixedUri);
    if Param(Some(request), "uri").Some? {
      PluginResourceDispatch(router, j, k, request);
    }
  }

  // ----- Every outcome of the two dispatches -----

  /** The parameter is read from an object under "params", as a string. */
  lemma ParamIff(request: Value, key: string, s: string)
    ensures Param(None, key) == None
    ensures Param(Some(request), key) == Some(s) <==>
      && request.Obj? && "params" in request.fields && request.fields["params"].Obj?
      && key in request.fields["params"].fields && request.fields["params"].fields[key] == Str(s)
  {
  }

  predicate ClientHasTool(client: Client, name: string) {
    exists k :: 0 <= k < |client.tools| && client.tools[k].originalName == name
  }

  predicate ClientHasResource(client: Client, uri: string) {
    exists k :: 0 <= k < |client.resources| && client.resources[k].originalUri == uri
  }

  /** Client `j` is the first whose namespace the tool name is in, where it is called `original`. */
  predicate FirstStripsName(clients: seq<Client>, name: string, j: nat, original: string) {
    && j < |clients| && StripName(clients[j].name, name) == Some(original)
    && forall i :: 0 <= i < j ==> StripName(clients[i].name, name).None?
  }

  predicate FirstStripsUri(clients: seq<Client>, uri: string, j: nat, original: string) {
    && j < |clients| && StripUri(clients[j].name, uri) == Some(original)
    && forall i :: 0 <= i < j ==> StripUri(clients[i].name, uri).None?
  }

  lemma FirstByToolIs(clients: seq<Client>, name: string, j: nat, original: string)
    requires FirstStripsName(clients, name, j, original)
    ensures FirstByTool(clients, name, 0) == Some(j)
  {
  }

  lemma FirstByUriIs(clients: seq<Client>, uri: string, j: nat, original: string)
    requires FirstStripsUri(clients, uri, j, original)
    ensures FirstByUri(clients, uri, 0) == Some(j)
  {
  }

  lemma FindNativeIs(names: seq<string>, name: string, i: nat)
    requires i < |names| && names[i] == name && name !in names[..i]
    ensures FindNative(names, name) == Some(i)
  {
    assert forall k :: 0 <= k < i ==> names[k] == names[..i][k];
  }

  /** No tool name, or one that is neither native nor in a namespace: the vault server's. */
  lemma CallGoesUpstream(router: Router, request: Option<Value>)
    ensures Param(request, "name").None? ==> RouteCall(router, request) == Upstream
    ensures Param(request, "name").Some? ==>
      (RouteCall(router, request) == Upstream <==>
         && (forall i :: 0 <= i < |router.tools| ==> router.tools[i].name != Param(request, "name").value)
         && forall j :: 0 <= j < |router.clients| ==>
              StripName(router.clients[j].name, Param(request, "name").value).None?)
  {
    hide StripName, HasTool, WithParam, Param;
    assert forall i :: 0 <= i < |router.tools| ==> ToolNames(router.tools)[i] == router.tools[i].name;
  }

  /** A native tool's name runs the first native tool of that name, whatever the plugins have. */
  lemma CallRunsNative(router: Router, request: Option<Value>, i: nat)
    requires i < |router.tools| && Param(request, "name") == Some(router.tools[i].name)
    requires forall k :: 0 <= k < i ==> router.tools[k].name != router.tools[i].name
    ensures RouteCall(router, request) == ToNative(i)
  {
    hide StripName, HasTool, WithParam, Param;
    var names := ToolNames(router.tools);
    assert names[i] == router.tools[i].name;
    assert forall k :: 0 <= k < i ==> names[..i][k] == router.tools[k].name;
    FindNativeIs(names, router.tools[i].name, i);
  }

  /** A name in a namespace goes to the first such plugin if it advertised the tool, and is not found otherwise. */
  lemma CallInNamespace(router: Router, request: Option<Value>, j: nat, original: string)
    requires Param(request, "name").Some? && FirstStripsName(router.clients, Param(request, "name").value, j, original)
    requires forall i :: 0 <= i < |router.tools| ==> router.tools[i].name != Param(request, "name").value
    ensures RouteCall(router, request)
         == if ClientHasTool(router.clients[j], original)
            then ToPlugin(j, WithParam(request.value, "name", original)) else NotFound
  {
    hide StripName, WithParam, Param;
    assert forall i :: 0 <= i < |router.tools| ==> ToolNames(router.tools)[i] == router.tools[i].name;
    FirstByToolIs(router.clients, Param(request, "name").value, j, original);
  }

  /** No URI, or one that is neither native nor in a namespace: the vault server's. */
  lemma ReadGoesUpstream(router: Router, request: Option<Value>)
    ensures Param(request, "uri").None? ==> RouteRead(router, request) == Upstream
    ensures Param(request, "uri").Some? ==>
      (RouteRead(router, request) == Upstream <==>
         && (forall i :: 0 <= i < |router.resources| ==> router.resources[i].uri != Param(request, "uri").value)
         && forall j :: 0 <= j < |router.clients| ==>
              StripUri(router.clients[j].name, Param(request, "uri").value).None?)
  {
    hide StripUri, HasResource, WithParam, Param;
    assert forall i :: 0 <= i < |router.resources| ==> ResourceUriList(router.resources)[i] == router.resources[i].uri;
  }

  /** A native resource's URI reads the first native resource of that URI, whatever the plugins have. */
  lemma ReadTakesNative(router: Router, request: Option<Value>, i: nat)
    requires i < |router.resources| && Param(request, "uri") == Some(router.resources[i].uri)
    requires forall k :: 0 <= k < i ==> router.resources[k].uri != router.resources[i].uri
    ensures RouteRead(router, request) == ToNative(i)
  {
    hide StripUri, HasResource, WithParam, Param;
    var uris := ResourceUriList(router.resources);
    assert uris[i] == router.resources[i].uri;
    assert forall k :: 0 <= k < i ==> uris[..i][k] == router.resources[k].uri;
    FindNativeIs(uris, router.resources[i].uri, i);
  }

  /** A URI in a namespace goes to the first such plugin if it declared the resource, and is not found otherwise. */
  lemma ReadInNamespace(router: Router, request: Option<Value>, j: nat, original: string)
    requires Param(request, "uri").Some? && FirstStripsUri(router.clients, Param(request, "uri").value, j, original)
    requires forall i :: 0 <= i < |router.resources| ==> router.resources[i].uri != Param(request, "uri").value
    ensures RouteRead(router, request)
         == if ClientHasResource(router.clients[j], original)
            then ToPlugin(j, WithParam(request.value, "uri", original)) else NotFound
  {
    hide StripUri, WithParam, Param;
    assert forall i :: 0 <= i < |router.resources| ==> ResourceUriList(router.resources)[i] == router.resources[i].uri;
    FirstByUriIs(router.clients, Param(request, "uri").value, j, original);
  }

  /** The number of tools of the clients before `c`. */
  function ToolsBefore(clients: seq<Client>, c: nat): nat
    requires c <= |clients|
  {
    if c == 0 then 0 else ToolsBefore(clients, c - 1) + |clients[c - 1].tools|
  }

  lemma {:induction false} PluginListLength(clients: seq<Client>, j: nat)
    requires j <= |clients|
    ensures |PluginSchemas(clients, j)| == ToolsBefore(clients, |clients|) - ToolsBefore(clients, j)
    decreases |clients| - j
  {
    hide ClientSchemas;
    if j < |clients| {
      PluginListLength(clients, j + 1);
      SchemasOfClient(clients[j]);
    }
  }

  lemma SchemasOfClient(client: Client)
    ensures |ClientSchemas(client)| == |client.tools|
    ensures forall k :: 0 <= k < |client.tools| ==> ClientSchemas(client)[k] == client.tools[k].schema
  {
  }

  lemma {:induction false} PluginListAt(clients: seq<Client>, j: nat, c: nat, k: nat)
    requires j <= c < |clients| && k < |clients[c].tools|
    ensures ToolsBefore(clients, j) <= ToolsBefore(clients, c)
    ensures var e := ToolsBefore(clients, c) - ToolsBefore(clients, j) + k;
      e < |PluginSchemas(clients, j)| && PluginSchemas(clients, j)[e] == clients[c].tools[k].schema
    decreases |clients| - j
  {
    hide ClientSchemas;
    SchemasOfClient(clients[j]);
    if j < c {
      PluginListAt(clients, j + 1, c, k);
    }
  }

  /**
   * The merged list in full: the vault's tools, then every native tool, then every tool of every
   * connected client, all in order, each once.
   */
  lemma EveryToolIsListed(router: Router, response: Response, vaultTools: seq<Value>)
    requires response.body.IsJson? && Get2(response.body.value, "result", "tools") == Some(Arr(vaultTools))
    ensures var plugins := |vaultTools| + |router.tools|;
      exists items :: Get2(ListTools(router, response).body.value, "result", "tools") == Some(Arr(items))
        && |items| == plugins + ToolsBefore(router.clients, |router.clients|)
        && items[..|vaultTools|] == vaultTools
        && (forall i :: 0 <= i < |router.tools| ==> items[|vaultTools| + i] == NativeSchema(router.tools[i]))
        && forall c, k :: 0 <= c < |router.clients| && 0 <= k < |router.clients[c].tools| ==>
             ListsAt(items, plugins + ToolsBefore(router.clients, c) + k, router.clients[c].tools[k].schema)
  {
    hide NativeSchemas, PluginSchemas, ListTools, ToolsBefore, ResultArray, Get2;
    var natives, plugins := NativeSchemas(router.tools), PluginSchemas(router.clients, 0);
    ArrayIs(response, "tools", vaultTools);
    MergedTools(router, response);
    ArrayIs(ListTools(router, response), "tools", vaultTools + natives + plugins);
    NativeListAt(router.tools);
    NothingBefore(router.clients);
    PluginListLength(router.clients, 0);
    var items := vaultTools + natives + plugins;
    assert Get2(ListTools(router, response).body.value, "result", "tools") == Some(Arr(items));
    forall c, k | 0 <= c < |router.clients| && 0 <= k < |router.clients[c].tools|
      ensures ListsAt(items, |vaultTools| + |natives| + ToolsBefore(router.clients, c) + k, router.clients[c].tools[k].schema)
    {
      PluginListAt(router.clients, 0, c, k);
    }
  }

  lemma ArrayIs(response: Response, key: string, items: seq<Value>)
    ensures ResultArray(response, key) == Some(items) <==>
      response.body.IsJson? && Get2(response.body.value, "result", key) == Some(Arr(items))
  {
    hide Get2;
  }

  lemma NativeListAt(tools: seq<NativeTool>)
    ensures |NativeSchemas(tools)| == |tools|
    ensures forall i :: 0 <= i < |tools| ==> NativeSchemas(tools)[i] == NativeSchema(tools[i])
  {
    hide NativeSchema;
  }

  lemma NothingBefore(clients: seq<Client>)
    ensures ToolsBefore(clients, 0) == 0
  {
  }

  predicate ListsAt(items: seq<Value>, e: nat, schema: Value) {
    e < |items| && items[e] == schema
  }

  /** What a native tool's entry in the list shows. */
  lemma NativeSchemaLaws(t: NativeTool, key: string)
    ensures Get(NativeSchema(t), "name") == Some(Str(t.name))
    ensures Get(NativeSchema(t), "description") == Some(t.description)
    ensures Get(NativeSchema(t), "inputSchema") == Some(t.inputSchema)
    ensures Get(NativeSchema(t), "_meta") == t.meta
    ensures key !in {"name", "description", "inputSchema", "_meta"} ==> Get(NativeSchema(t), key) == None
  {
  }

  /** A reply without the array, or a list without additions, is left as it is. */
  lemma NothingAppended(router: Router, response: Response, key: string, additions: seq<Value>)
    ensures !(response.body.IsJson? && exists items :: Get2(response.body.value, "result", key) == Some(Arr(items))) ==>
      AppendResultArray(response, key, additions) == response
    ensures router.tools == [] && router.clients == [] ==> ListTools(router, response) == response
  {
    if ResultArray(response, key).Some? {
      assert Get2(response.body.value, "result", key) == Some(Arr(ResultArray(response, key).value));
    }
  }
}
