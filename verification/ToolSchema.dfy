/**
 Removing `enumDescriptions` from tool parameter schemas, and from nothing else
 in an Antigravity request.
 */
module ToolSchema {
  import opened Prelude

  const BANNED := "enumDescriptions"

  // ----- one schema -----

  function Strip(schema: Json): Json
    decreases schema
  {
    match schema
    case Arr(items) => Arr(StripItems(items))
    case Obj(fields) => Obj(StripFields(fields))
    case _ => schema
  }

  function StripItems(items: seq<Json>): (r: seq<Json>)
    ensures |r| == |items|
    decreases items
  {
    if items == [] then [] else [Strip(items[0])] + StripItems(items[1..])
  }

  function StripField(field: (string, Json)): (string, Json)
    decreases field
  {
    (field.0, Strip(field.1))
  }

  function StripFields(fields: Object<Json>): Object<Json>
    decreases fields
  {
    if fields == [] then []
    else if fields[0].0 == BANNED then StripFields(fields[1..])
    else [StripField(fields[0])] + StripFields(fields[1..])
  }

  /** No object at any depth has the banned key. */
  predicate Clean(j: Json) {
    match j
    case Arr(items) => forall x :: x in items ==> Clean(x)
    case Obj(fields) => forall f :: f in fields ==> f.0 != BANNED && Clean(f.1)
    case _ => true
  }

  lemma {:induction false} StripCleans(j: Json)
    ensures Clean(Strip(j))
    decreases j
  {
    match j
    case Arr(items) => StripItemsCleans(items);
    case Obj(fields) => StripFieldsCleans(fields);
    case _ =>
  }

  lemma {:induction false} StripItemsCleans(items: seq<Json>)
    ensures forall x :: x in StripItems(items) ==> Clean(x)
    decreases items
  {
    if items != [] {
      StripCleans(items[0]);
      StripItemsCleans(items[1..]);
    }
  }

  lemma {:induction false} StripFieldsCleans(fields: Object<Json>)
    ensures forall f :: f in StripFields(fields) ==> f.0 != BANNED && Clean(f.1)
    decreases fields
  {
    if fields != [] {
      StripFieldCleans(fields[0]);
      StripFieldsCleans(fields[1..]);
    }
  }

  lemma {:induction false} StripFieldCleans(field: (string, Json))
    ensures Clean(StripField(field).1)
    decreases field
  {
    StripCleans(field.1);
  }

  lemma {:induction false} CleanIsUntouched(j: Json)
    requires Clean(j)
    ensures Strip(j) == j
    decreases j
  {
    match j
    case Arr(items) => CleanItems(items);
    case Obj(fields) => CleanFields(fields);
    case _ =>
  }

  lemma {:induction false} CleanItems(items: seq<Json>)
    requires forall x :: x in items ==> Clean(x)
    ensures StripItems(items) == items
    decreases items
  {
    if items != [] {
      assert items[0] in items;
      CleanIsUntouched(items[0]);
      CleanItems(items[1..]);
    }
  }

  lemma {:induction false} CleanFields(fields: Object<Json>)
    requires forall f :: f in fields ==> f.0 != BANNED && Clean(f.1)
    ensures StripFields(fields) == fields
    decreases fields
  {
    if fields != [] {
      assert fields[0] in fields;
      CleanField(fields[0]);
      CleanFields(fields[1..]);
    }
  }

  lemma {:induction false} CleanField(field: (string, Json))
    requires Clean(field.1)
    ensures StripField(field) == field
    decreases field
  {
    CleanIsUntouched(field.1);
  }

  /** Stripping is the identity exactly on trees without the key, hence idempotent. */
  lemma StripIsIdentityExactlyWhenClean(j: Json)
    ensures Strip(j) == j <==> Clean(j)
    ensures Strip(Strip(j)) == Strip(j)
  {
    StripCleans(j);
    CleanIsUntouched(Strip(j));
    if Clean(j) {
      CleanIsUntouched(j);
    }
  }

  // ----- every path that does not pass through the key -----

  datatype Step = Key(key: string) | Index(index: nat)

  function At(j: Json, path: seq<Step>): Option<Json>
    decreases path
  {
    if path == [] then Some(j)
    else
      match (j, path[0])
      case (Obj(fields), Key(key)) => if Get(fields, key).None? then None else At(Get(fields, key).value, path[1..])
      case (Arr(items), Index(i)) => if i < |items| then At(items[i], path[1..]) else None
      case _ => None
  }

  function StripFound(found: Option<Json>): Option<Json> {
    if found.Some? then Some(Strip(found.value)) else None
  }

  lemma {:induction false} GetStripped(fields: Object<Json>, key: string)
    requires key != BANNED
    ensures Get(StripFields(fields), key) == StripFound(Get(fields, key))
  {
    if fields != [] {
      GetStripped(fields[1..], key);
      var head, tail := fields[0], StripFields(fields[1..]);
      if head.0 != BANNED {
        assert StripFields(fields) == [StripField(head)] + tail;
        assert ([StripField(head)] + tail)[1..] == tail;
      } else {
        assert StripFields(fields) == tail;
      }
    }
  }

  lemma {:induction false} ItemStripped(items: seq<Json>, i: nat)
    requires i < |items|
    ensures StripItems(items)[i] == Strip(items[i])
  {
    if i > 0 {
      ItemStripped(items[1..], i - 1);
    }
  }

  /** Nothing appears, and what was at such a path is still there, itself stripped; a scalar is unchanged. */
  lemma {:induction false} PathsAreKept(j: Json, path: seq<Step>)
    requires Key(BANNED) !in path
    ensures At(Strip(j), path) == StripFound(At(j, path))
    decreases path
  {
    if path != [] {
      match (j, path[0])
      case (Obj(fields), Key(key)) =>
        GetStripped(fields, key);
        if Get(fields, key).Some? {
          PathsAreKept(Get(fields, key).value, path[1..]);
        }
      case (Arr(items), Index(i)) =>
        if i < |items| {
          ItemStripped(items, i);
          PathsAreKept(items[i], path[1..]);
        }
      case _ =>
    }
  }

  // ----- the recursion as the source runs it -----

  lemma {:induction false} StripFieldsAppend(a: Object<Json>, b: Object<Json>)
    ensures StripFields(a + b) == StripFields(a) + StripFields(b)
  {
    if a == [] {
      assert a + b == b;
    } else {
      StripFieldsAppend(a[1..], b);
      HeadOfConcat(a, b);
      Associative([StripField(a[0])], StripFields(a[1..]), StripFields(b));
    }
  }

  lemma {:induction false} StripItemsAppend(a: seq<Json>, b: seq<Json>)
    ensures StripItems(a + b) == StripItems(a) + StripItems(b)
  {
    if a == [] {
      assert a + b == b;
    } else {
      StripItemsAppend(a[1..], b);
      HeadOfConcat(a, b);
      Associative([Strip(a[0])], StripItems(a[1..]), StripItems(b));
    }
  }

  lemma {:induction false} StrippedKeysWereThere(fields: Object<Json>, key: string)
    requires Get(fields, key).None?
    ensures Get(StripFields(fields), key).None?
  {
    if fields != [] {
      StrippedKeysWereThere(fields[1..], key);
      var head, tail := fields[0], StripFields(fields[1..]);
      if head.0 != BANNED {
        assert StripFields(fields) == [StripField(head)] + tail;
        assert ([StripField(head)] + tail)[1..] == tail;
      } else {
        assert StripFields(fields) == tail;
      }
    }
  }

  lemma StripOneMoreField(fields: Object<Json>, i: nat)
    requires i < |fields| && UniqueKeys(fields)
    ensures StripFields(fields[..i + 1])
         == if fields[i].0 == BANNED then StripFields(fields[..i]) else Set(StripFields(fields[..i]), fields[i].0, Strip(fields[i].1))
  {
    var done, f := fields[..i], fields[i];
    assert fields[..i + 1] == done + [f];
    StripFieldsAppend(done, [f]);
    assert [f][1..] == [];
    GetIsIndex(done, f.0);
    StrippedKeysWereThere(done, f.0);
    SetAbsentAppends(StripFields(done), f.0, Strip(f.1));
  }

  method StripEnumDescriptions(schema: Json) returns (r: Json)
    requires Proper(schema)
    ensures r == Strip(schema)
    decreases schema
  {
    match schema {
      case Arr(items) =>
        var stripped := [];
        for i := 0 to |items|
          invariant stripped == StripItems(items[..i])
        {
          assert items[i] in items;
          var item := StripEnumDescriptions(items[i]);
          assert items[..i + 1] == items[..i] + [items[i]];
          StripItemsAppend(items[..i], [items[i]]);
          assert [items[i]][1..] == [];
          stripped := stripped + [item];
        }
        assert items[..|items|] == items;
        return Arr(stripped);
      case Obj(fields) =>
        var result: Object<Json> := [];
        for i := 0 to |fields|
          invariant result == StripFields(fields[..i])
        {
          assert fields[i] in fields;
          StripOneMoreField(fields, i);
          if fields[i].0 != BANNED {
            var value := StripEnumDescriptions(fields[i].1);
            result := Set(result, fields[i].0, value);
          }
        }
        assert fields[..|fields|] == fields;
        return Obj(result);
      case _ =>
        return schema;
    }
  }

  // ----- the whole payload -----

  function RecordField(value: Json, key: string): Option<Json> {
    if value.Obj? then Get(value.fields, key) else None
  }

  function ArrayOf(value: Option<Json>): Option<seq<Json>> {
    if value.Some? && value.value.Arr? then Some(value.value.items) else None
  }

  function SanitizeDeclaration(d: Json): Json {
    var parameters := RecordField(d, "parameters");
    if parameters.None? then d else Obj(Set(d.fields, "parameters", Strip(parameters.value)))
  }

  function SanitizeTool(tool: Json): Json {
    var declarations := ArrayOf(RecordField(tool, "functionDeclarations"));
    if declarations.None? then tool
    else Obj(Set(tool.fields, "functionDeclarations", Arr(MapSeq(SanitizeDeclaration, declarations.value))))
  }

  function ToolsOf(body: Object<Json>): Option<seq<Json>> {
    var request := Get(body, "request");
    if request.None? then None else ArrayOf(RecordField(request.value, "tools"))
  }

  function SanitizePayload(body: Object<Json>): Object<Json> {
    var tools := ToolsOf(body);
    if tools.None? then body
    else Set(body, "request", Obj(Set(Get(body, "request").value.fields, "tools", Arr(MapSeq(SanitizeTool, tools.value)))))
  }

  /** The `changed` flags only avoid copying: the value returned is the sanitised one either way. */
  method SanitizeToolFlagged(toolValue: Json) returns (tool: Json, changed: bool)
    requires Proper(toolValue)
    ensures tool == SanitizeTool(toolValue)
    ensures !changed ==> tool == toolValue
  {
    var list := ArrayOf(RecordField(toolValue, "functionDeclarations"));
    if list.None? {
      return toolValue, false;
    }
    ProperField(toolValue, "functionDeclarations");
    var declarations, out := list.value, [];
    changed := false;
    for i := 0 to |declarations|
      invariant |out| == i && forall k :: 0 <= k < i ==> out[k] == SanitizeDeclaration(declarations[k])
      invariant !changed ==> out == declarations[..i]
    {
      var d := declarations[i];
      var parameters := RecordField(d, "parameters");
      if parameters.None? {
        out := out + [d];
      } else {
        assert d in declarations;
        ProperField(d, "parameters");
        changed := true;
        var stripped := StripEnumDescriptions(parameters.value);
        out := out + [Obj(Set(d.fields, "parameters", stripped))];
      }
    }
    assert out == MapSeq(SanitizeDeclaration, declarations);
    if !changed {
      assert out == declarations[..|declarations|] == declarations;
      SetSame(toolValue.fields, "functionDeclarations", Arr(declarations));
      return toolValue, false;
    }
    tool := Obj(Set(toolValue.fields, "functionDeclarations", Arr(out)));
  }

  lemma ProperField(value: Json, key: string)
    requires Proper(value) && RecordField(value, key).Some?
    ensures Proper(RecordField(value, key).value)
  {
    GetIsIndex(value.fields, key);
    var i :| 0 <= i < |value.fields| && value.fields[i] == (key, Get(value.fields, key).value);
    assert value.fields[i] in value.fields;
  }

  lemma UntouchedTools(body: Object<Json>)
    requires ToolsOf(body).Some? && MapSeq(SanitizeTool, ToolsOf(body).value) == ToolsOf(body).value
    ensures SanitizePayload(body) == body
  {
    var request := Get(body, "request").value;
    SetSame(request.fields, "tools", Arr(ToolsOf(body).value));
    SetSame(body, "request", request);
  }

  method SanitizeAntigravityToolPayload(body: Object<Json>) returns (r: Object<Json>)
    requires Proper(Obj(body))
    ensures r == SanitizePayload(body)
  {
    var list := ToolsOf(body);
    if list.None? {
      return body;
    }
    var request := Get(body, "request").value;
    ProperField(Obj(body), "request");
    ProperField(request, "tools");
    var tools, out, changed := list.value, [], false;
    for i := 0 to |tools|
      invariant |out| == i && forall k :: 0 <= k < i ==> out[k] == SanitizeTool(tools[k])
      invariant !changed ==> out == tools[..i]
    {
      assert tools[i] in tools;
      var tool, toolChanged := SanitizeToolFlagged(tools[i]);
      out := out + [tool];
      changed := changed || toolChanged;
    }
    assert out == MapSeq(SanitizeTool, tools);
    if !changed {
      assert out == tools[..|tools|] == tools;
      UntouchedTools(body);
      return body;
    }
    r := Set(body, "request", Obj(Set(request.fields, "tools", Arr(out))));
  }

  /** Nothing but the tool list of the request changes, and the tools keep their number and order. */
  lemma PayloadKeepsEverythingElse(body: Object<Json>, key: string)
    ensures key != "request" ==> Get(SanitizePayload(body), key) == Get(body, key)
    ensures ToolsOf(body).None? ==> SanitizePayload(body) == body
    ensures ToolsOf(body).Some? ==>
              && ToolsOf(SanitizePayload(body)) == Some(MapSeq(SanitizeTool, ToolsOf(body).value))
              && (key != "tools" ==> RecordField(Get(SanitizePayload(body), "request").value, key) == RecordField(Get(body, "request").value, key))
  {
    if ToolsOf(body).Some? {
      var request := Get(body, "request").value.fields;
      var tools := Arr(MapSeq(SanitizeTool, ToolsOf(body).value));
      GetAfterSet(request, "tools", tools, key);
      GetAfterSet(request, "tools", tools, "tools");
      GetAfterSet(body, "request", Obj(Set(request, "tools", tools)), key);
      GetAfterSet(body, "request", Obj(Set(request, "tools", tools)), "request");
    }
  }

  /** A tool without declarations is untouched; any other keeps its fields and the number and order of its declarations. */
  lemma ToolKeepsItsDeclarations(tool: Json, key: string)
    ensures var list := ArrayOf(RecordField(tool, "functionDeclarations"));
            if list.None? then SanitizeTool(tool) == tool
            else
              && ArrayOf(RecordField(SanitizeTool(tool), "functionDeclarations")) == Some(MapSeq(SanitizeDeclaration, list.value))
              && (key != "functionDeclarations" ==> RecordField(SanitizeTool(tool), key) == RecordField(tool, key))
  {
    var list := ArrayOf(RecordField(tool, "functionDeclarations"));
    if list.Some? {
      GetAfterSet(tool.fields, "functionDeclarations", Arr(MapSeq(SanitizeDeclaration, list.value)), key);
      GetAfterSet(tool.fields, "functionDeclarations", Arr(MapSeq(SanitizeDeclaration, list.value)), "functionDeclarations");
    }
  }

  /** A declaration keeps its name and every field but `parameters`, which comes out free of the banned key. */
  lemma DeclarationKeepsItsName(d: Json, key: string)
    ensures key != "parameters" ==> RecordField(SanitizeDeclaration(d), key) == RecordField(d, key)
    ensures RecordField(SanitizeDeclaration(d), "parameters") == StripFound(RecordField(d, "parameters"))
    ensures RecordField(SanitizeDeclaration(d), "parameters").Some? ==> Clean(RecordField(SanitizeDeclaration(d), "parameters").value)
  {
    var parameters := RecordField(d, "parameters");
    if parameters.Some? {
      GetAfterSet(d.fields, "parameters", Strip(parameters.value), key);
      GetAfterSet(d.fields, "parameters", Strip(parameters.value), "parameters");
      StripCleans(parameters.value);
    }
  }

  // ----- the payload, path by path -----

  lemma {:induction false} BannedKeyIsGone(fields: Object<Json>)
    ensures Get(StripFields(fields), BANNED).None?
  {
    if fields != [] {
      BannedKeyIsGone(fields[1..]);
      var head, tail := fields[0], StripFields(fields[1..]);
      if head.0 != BANNED {
        assert StripFields(fields) == [StripField(head)] + tail;
        assert ([StripField(head)] + tail)[1..] == tail;
      }
    }
  }

  lemma {:induction false} NoPathThroughTheKey(j: Json, path: seq<Step>)
    requires Key(BANNED) in path
    ensures At(Strip(j), path).None?
    decreases path
  {
    match (j, path[0])
    case (Obj(fields), Key(key)) =>
      if key == BANNED {
        BannedKeyIsGone(fields);
      } else {
        GetStripped(fields, key);
        if Get(fields, key).Some? {
          NoPathThroughTheKey(Get(fields, key).value, path[1..]);
        }
      }
    case (Arr(items), Index(i)) =>
      if i < |items| {
        ItemStripped(items, i);
        NoPathThroughTheKey(items[i], path[1..]);
      }
    case _ =>
  }

  function KeysBut(fields: Object<Json>, gone: string): seq<string> {
    KeysOf(Without(fields, (key: string) => key == gone))
  }

  /** The same value at its top: equal scalars, lists of equal length, objects with the same keys in order, less the banned one where it is stripped. */
  predicate SameTop(before: Option<Json>, after: Option<Json>, stripped: bool) {
    match (before, after)
    case (None, None) => true
    case (Some(Obj(a)), Some(Obj(b))) => KeysOf(b) == if stripped then KeysBut(a, "enumDescriptions") else KeysOf(a)
    case (Some(Arr(a)), Some(Arr(b))) => |a| == |b|
    case (Some(a), Some(b)) => a == b
    case _ => false
  }

  lemma {:induction false} StrippedKeys(fields: Object<Json>)
    ensures KeysOf(StripFields(fields)) == KeysBut(fields, BANNED)
  {
    if fields != [] {
      StrippedKeys(fields[1..]);
      var head, tail := fields[0], StripFields(fields[1..]);
      if head.0 != BANNED {
        assert StripFields(fields) == [StripField(head)] + tail;
        KeysOfCons(StripField(head), tail);
        KeysOfCons(head, Without(fields[1..], (key: string) => key == BANNED));
      }
    }
  }

  lemma StrippedTop(found: Option<Json>)
    ensures SameTop(found, StripFound(found), true)
  {
    if found.Some? && found.value.Obj? {
      StrippedKeys(found.value.fields);
    }
  }

  /** Inside a declaration, its parameters; inside a tool, those of its declarations; inside a payload, those of the request's tools. */
  predicate InDeclaration(path: seq<Step>) {
    path != [] && path[0] == Key("parameters")
  }

  predicate InTool(path: seq<Step>) {
    |path| >= 2 && path[0] == Key("functionDeclarations") && path[1].Index? && InDeclaration(path[2..])
  }

  predicate InRequest(path: seq<Step>) {
    |path| >= 2 && path[0] == Key("tools") && path[1].Index? && InTool(path[2..])
  }

  predicate InPayload(path: seq<Step>) {
    path != [] && path[0] == Key("request") && InRequest(path[1..])
  }

  /** What a path leads to afterwards: inside parameters, nothing through the banned key and otherwise the same tops less that key; elsewhere the same tops. */
  predicate Cleaned(before: Option<Json>, after: Option<Json>, inside: bool, path: seq<Step>) {
    if inside && Key("enumDescriptions") in path then after.None? else SameTop(before, after, inside)
  }

  lemma AtSet(o: Object<Json>, key: string, value: Json, path: seq<Step>)
    requires path != []
    ensures At(Obj(Set(o, key, value)), path) == if path[0] == Key(key) then At(value, path[1..]) else At(Obj(o), path)
  {
    match path[0]
    case Key(k) => GetAfterSet(o, key, value, k);
    case Index(_) =>
  }

  /** Two steps into a list field. */
  lemma AtElement(j: Json, path: seq<Step>)
    requires |path| >= 2 && path[0].Key? && path[1].Index?
    ensures var list := ArrayOf(RecordField(j, path[0].key));
            At(j, path) == if list.Some? && path[1].index < |list.value| then At(list.value[path[1].index], path[2..]) else None
  {
    var field := RecordField(j, path[0].key);
    assert path[1..][1..] == path[2..];
    if field.Some? {
      assert At(j, path) == At(field.value, path[1..]);
    }
  }

  lemma DeclarationPaths(d: Json, path: seq<Step>)
    ensures Cleaned(At(d, path), At(SanitizeDeclaration(d), path), InDeclaration(path), path)
  {
    var parameters := RecordField(d, "parameters");
    if parameters.Some? {
      if path == [] {
        SetPresentKeepsKeys(d.fields, "parameters", Strip(parameters.value));
      } else {
        AtSet(d.fields, "parameters", Strip(parameters.value), path);
        var rest := path[1..];
        assert path == [path[0]] + rest;
        if Key(BANNED) in rest {
          NoPathThroughTheKey(parameters.value, rest);
        } else {
          PathsAreKept(parameters.value, rest);
          StrippedTop(At(parameters.value, rest));
        }
      }
    }
  }

  /** A list field with every element replaced. */
  function MapField(j: Json, key: string, f: Json -> Json): Json {
    var list := ArrayOf(RecordField(j, key));
    if list.None? then j else Obj(Set(j.fields, key, Arr(MapSeq(f, list.value))))
  }

  lemma MapFieldElement(j: Json, key: string, f: Json -> Json, path: seq<Step>)
    requires |path| >= 2 && path[0] == Key(key) && path[1].Index?
    ensures var list := ArrayOf(RecordField(j, key));
            if list.Some? && path[1].index < |list.value| then
              && At(j, path) == At(list.value[path[1].index], path[2..])
              && At(MapField(j, key, f), path) == At(f(list.value[path[1].index]), path[2..])
            else At(j, path).None? && At(MapField(j, key, f), path).None?
  {
    var list := ArrayOf(RecordField(j, key));
    AtElement(j, path);
    AtElement(MapField(j, key, f), path);
    if list.Some? {
      GetAfterSet(j.fields, key, Arr(MapSeq(f, list.value)), key);
    }
  }

  lemma MapFieldElsewhere(j: Json, key: string, f: Json -> Json, path: seq<Step>)
    requires !(|path| >= 2 && path[0] == Key(key) && path[1].Index?)
    ensures SameTop(At(j, path), At(MapField(j, key, f), path), false)
  {
    var list := ArrayOf(RecordField(j, key));
    if list.Some? {
      var after := Arr(MapSeq(f, list.value));
      if path == [] {
        SetPresentKeepsKeys(j.fields, key, after);
      } else {
        AtSet(j.fields, key, after, path);
        if path[0] == Key(key) {
          var rest := path[1..];
          assert At(j, path) == At(Arr(list.value), rest);
          assert rest != [] ==> rest[0] == path[1];
        }
      }
    }
  }

  lemma ToolPaths(tool: Json, path: seq<Step>)
    ensures Cleaned(At(tool, path), At(SanitizeTool(tool), path), InTool(path), path)
  {
    if |path| >= 2 && path[0] == Key("functionDeclarations") && path[1].Index? {
      MapFieldElement(tool, "functionDeclarations", SanitizeDeclaration, path);
      var list := ArrayOf(RecordField(tool, "functionDeclarations"));
      assert path == [path[0], path[1]] + path[2..];
      if list.Some? && path[1].index < |list.value| {
        DeclarationPaths(list.value[path[1].index], path[2..]);
      }
    } else {
      MapFieldElsewhere(tool, "functionDeclarations", SanitizeDeclaration, path);
    }
  }

  lemma RequestPaths(request: Json, path: seq<Step>)
    ensures Cleaned(At(request, path), At(MapField(request, "tools", SanitizeTool), path), InRequest(path), path)
  {
    if |path| >= 2 && path[0] == Key("tools") && path[1].Index? {
      MapFieldElement(request, "tools", SanitizeTool, path);
      var list := ArrayOf(RecordField(request, "tools"));
      assert path == [path[0], path[1]] + path[2..];
      if list.Some? && path[1].index < |list.value| {
        ToolPaths(list.value[path[1].index], path[2..]);
      }
    } else {
      MapFieldElsewhere(request, "tools", SanitizeTool, path);
    }
  }

  lemma SanitizedRequest(body: Object<Json>)
    ensures var request := Get(body, "request");
            SanitizePayload(body) == if request.None? then body else Set(body, "request", MapField(request.value, "tools", SanitizeTool))
  {
    var request := Get(body, "request");
    if request.Some? && ToolsOf(body).None? {
      SetSame(body, "request", request.value);
    }
  }

  /** For every path from the body: no declaration's parameters hold the banned key at any depth, nothing else is lost from them, and nothing outside them changes. */
  lemma PayloadPaths(body: Object<Json>, path: seq<Step>)
    ensures Cleaned(At(Obj(body), path), At(Obj(SanitizePayload(body)), path), InPayload(path), path)
  {
    var request := Get(body, "request");
    SanitizedRequest(body);
    if request.Some? {
      var after := MapField(request.value, "tools", SanitizeTool);
      if path == [] {
        SetPresentKeepsKeys(body, "request", after);
      } else {
        AtSet(body, "request", after, path);
        if path[0] == Key("request") {
          assert path == [path[0]] + path[1..];
          RequestPaths(request.value, path[1..]);
        }
      }
    }
  }
}
