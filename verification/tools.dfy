/** The tool registry: tool name to definition and executable function. */
module Tools {
  import opened Wrappers

  /** Keyword arguments of a tool call. */
  type Args = map<string, string>

  /** A tool's executable: the value it returns, or the message of the exception it raises. */
  type ToolFunction = Args -> Result<string>

  /** The `function` part of a tool definition; `parameters` is its JSON schema, kept as text. */
  datatype FunctionSpec = FunctionSpec(name: string, description: string, parameters: string)

  /** A tool definition; `spec` is its `function` entry. */
  datatype ToolDefinition = ToolDefinition(kind: string, spec: FunctionSpec)

  /** A registry entry; `run` is its `function` entry. */
  datatype Tool = Tool(definition: ToolDefinition, run: ToolFunction)

  /** The result of `getattr(module, name, None)` and `callable(...)`. */
  datatype Attr<T> = Missing | NotCallable | Callable(value: T)

  /**
   * One `*.py` file of the tools directory, as discovery sees it: whether its
   * import succeeded, its attribute named after the file stem, and its
   * `get_tool_definition` (whose call returns a definition or raises).
   */
  datatype ToolModule = ToolModule(
    fileName: string,
    stem: string,
    imported: bool,
    exec: Attr<ToolFunction>,
    getDefinition: Attr<Result<ToolDefinition>>)

  /**
   * The entry a module file contributes, if any: files whose name starts with
   * `__` are skipped, and a tool is registered only when the import succeeded,
   * both functions exist and are callable, and the definition call did not
   * raise. The definition's function name is overwritten with the file stem.
   */
  function Registration(m: ToolModule): (r: Option<Tool>)
    ensures |m.fileName| >= 2 && m.fileName[..2] == "__" ==> r.None?
    ensures !m.imported ==> r.None?
    ensures r.Some? <==>
      !(|m.fileName| >= 2 && m.fileName[..2] == "__") && m.imported &&
      m.exec.Callable? && m.getDefinition.Callable? && m.getDefinition.value.Ok?
    ensures r.Some? ==> r.value.run == m.exec.value
    ensures r.Some? ==> r.value.definition == m.getDefinition.value.value.(spec := m.getDefinition.value.value.spec.(name := m.stem))
  {
    if |m.fileName| >= 2 && m.fileName[..2] == "__" then None
    else if !m.imported then None
    else match (m.exec, m.getDefinition)
      case (Callable(f), Callable(Ok(d))) => Some(Tool(d.(spec := d.spec.(name := m.stem)), f))
      case _ => None
  }

  /** The registry after discovery has visited `files` in order, starting from `tools`. */
  function Loaded(tools: map<string, Tool>, files: seq<ToolModule>): map<string, Tool> {
    if files == [] then tools
    else
      var before := Loaded(tools, files[..|files| - 1]);
      var m := files[|files| - 1];
      match Registration(m)
      case Some(t) => before[m.stem := t]
      case None => before
  }

  /** Every registered definition is named after its registry key. */
  ghost predicate NamesMatchKeys(tools: map<string, Tool>) {
    forall k :: k in tools ==> tools[k].definition.spec.name == k
  }

  /** Discovery keeps definition names equal to their keys. */
  lemma {:induction false} LoadedNamesMatchKeys(tools: map<string, Tool>, files: seq<ToolModule>)
    requires NamesMatchKeys(tools)
    ensures NamesMatchKeys(Loaded(tools, files))
  {
    if files != [] {
      LoadedNamesMatchKeys(tools, files[..|files| - 1]);
    }
  }

  /** A key is registered only if it was already there or some file registered it under its stem. */
  lemma {:induction false} LoadedKeys(tools: map<string, Tool>, files: seq<ToolModule>, k: string)
    requires k in Loaded(tools, files)
    ensures k in tools || exists i :: 0 <= i < |files| && files[i].stem == k && Registration(files[i]).Some?
  {
    if files != [] {
      var init := files[..|files| - 1];
      var m := files[|files| - 1];
      if Registration(m).Some? && m.stem == k {
        assert files[|files| - 1] == m;
      } else {
        LoadedKeys(tools, init, k);
        if k !in tools {
          var i :| 0 <= i < |init| && init[i].stem == k && Registration(init[i]).Some?;
          assert files[i] == init[i];
        }
      }
    }
  }

  /**
   * Completeness: a file that registers a tool, and is not followed by another
   * registering file with the same stem, leaves exactly its tool under its stem.
   */
  lemma {:induction false} LoadedHasLastRegistration(tools: map<string, Tool>, files: seq<ToolModule>, i: nat)
    requires i < |files| && Registration(files[i]).Some?
    requires forall j :: i < j < |files| ==> files[j].stem != files[i].stem
    ensures files[i].stem in Loaded(tools, files)
    ensures Loaded(tools, files)[files[i].stem] == Registration(files[i]).value
  {
    var init := files[..|files| - 1];
    if i < |files| - 1 {
      assert init[i] == files[i];
      assert forall j :: i < j < |init| ==> init[j] == files[j];
      LoadedHasLastRegistration(tools, init, i);
    }
  }

  /** The definitions of the registered names among `names`, in request order. */
  function Definitions(tools: map<string, Tool>, names: seq<string>): seq<ToolDefinition> {
    if names == [] then []
    else
      var init := Definitions(tools, names[..|names| - 1]);
      var name := names[|names| - 1];
      if name in tools then init + [tools[name].definition] else init
  }

  /** Requests concatenate: the definitions come out in request order. */
  lemma {:induction false} DefinitionsAppend(tools: map<string, Tool>, a: seq<string>, b: seq<string>)
    ensures Definitions(tools, a + b) == Definitions(tools, a) + Definitions(tools, b)
    decreases |b|
  {
    if b != [] {
      assert (a + b)[..|a + b| - 1] == a + b[..|b| - 1];
      DefinitionsAppend(tools, a, b[..|b| - 1]);
    } else {
      assert a + b == a;
    }
  }

  /** Never more definitions than names; exactly one per name when all are registered. */
  lemma {:induction false} DefinitionsLength(tools: map<string, Tool>, names: seq<string>)
    ensures |Definitions(tools, names)| <= |names|
    ensures (forall i :: 0 <= i < |names| ==> names[i] in tools) ==>
      |Definitions(tools, names)| == |names| &&
      forall i :: 0 <= i < |names| ==> Definitions(tools, names)[i] == tools[names[i]].definition
  {
    if names != [] {
      var init := names[..|names| - 1];
      DefinitionsLength(tools, init);
      if forall i :: 0 <= i < |names| ==> names[i] in tools {
        assert forall i :: 0 <= i < |init| ==> init[i] == names[i];
      }
    }
  }

  class ToolManager {
    var tools: map<string, Tool>

    /** `ToolManager()`: an empty registry filled by discovery over `files`. */
    constructor (files: seq<ToolModule>)
      ensures tools == Loaded(map[], files)
      ensures NamesMatchKeys(tools)
    {
      tools := map[];
      new;
      LoadTools(files);
      LoadedNamesMatchKeys(map[], files);
    }

    /** `_load_tools`: visit each module file in order and register what it provides. */
    method LoadTools(files: seq<ToolModule>)
      modifies this
      ensures tools == Loaded(old(tools), files)
    {
      var i := 0;
      while i < |files|
        invariant 0 <= i <= |files|
        invariant tools == Loaded(old(tools), files[..i])
      {
        var m := files[i];
        assert files[..i + 1][..i] == files[..i];
        var skip := |m.fileName| >= 2 && m.fileName[..2] == "__";
        if !skip && m.imported && m.exec.Callable? && m.getDefinition.Callable? && m.getDefinition.value.Ok? {
          var definition := m.getDefinition.value.value;
          definition := definition.(spec := definition.spec.(name := m.stem));
          tools := tools[m.stem := Tool(definition, m.exec.value)];
        }
        i := i + 1;
      }
      assert files[..i] == files;
    }

    /** `get_tool_definitions`: the definitions of the registered names, in request order, skipping unknown names. */
    method GetToolDefinitions(names: seq<string>) returns (defs: seq<ToolDefinition>)
      ensures defs == Definitions(tools, names)
      ensures |defs| <= |names|
    {
      defs := [];
      var i := 0;
      while i < |names|
        invariant 0 <= i <= |names|
        invariant defs == Definitions(tools, names[..i])
      {
        assert names[..i + 1][..i] == names[..i];
        if names[i] in tools {
          defs := defs + [tools[names[i]].definition];
        }
        i := i + 1;
      }
      assert names[..i] == names;
      DefinitionsLength(tools, names);
    }

    /**
     * `execute_tool`: the tool's own result, or an error text when the tool
     * is unknown (nothing is invoked then) or raised. It never raises.
     */
    function ExecuteTool(name: string, args: Args): (r: string)
      reads this
      ensures name !in tools ==> r == "Error: Tool '" + name + "' not found."
      ensures name in tools ==> match tools[name].run(args)
        case Ok(v) => r == v
        case Err(e) => r == "Error: " + e
      ensures (name !in tools || tools[name].run(args).Err?) ==> |r| >= 7 && r[..7] == "Error: "
    {
      if name !in tools then "Error: Tool '" + name + "' not found."
      else match tools[name].run(args)
        case Ok(v) => v
        case Err(e) => "Error: " + e
    }
  }
}
