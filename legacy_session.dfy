/**
 * The walker of finder.py as the program runs it: the parsed-file cache, the
 * shared `matches` and `path` lists and the visited set are updated in place,
 * and an exception, returned here as an error value, ends the search.  Each
 * method is proved to leave exactly the state that the functions of module
 * Legacy describe.
 */
module LegacyWalkerSession {
  import opened Wrappers
  import opened Syntax
  import opened LineNumbers
  import opened Walker
  import opened Legacy

  class Session {
    const env: Env
    /** `parsed_files`: file name -> root node of every file parsed so far. */
    var parsedFiles: map<string, Node>
    /** The `matches` list of the search in progress. */
    var matches: seq<LegacyMatch>
    /** The `path` list of the search in progress, shared by every call. */
    var path: seq<LegacyPathObject>
    /** `visited_nodes` of the search in progress. */
    var visited: set<Key>

    /** Every cached tree is the parse of its file, and the language server names only parseable files. */
    ghost predicate Valid()
      reads this
    {
      && ResolverStaysInProject(env)
      && forall f :: f in parsedFiles ==> f in env.project && parsedFiles[f] == env.project[f]
    }

    /** The search state, with the exception that is propagating, if any. */
    function Snapshot(raised: Option<PyError>): LState
      reads this
    {
      LState(matches, path, visited, raised)
    }

    constructor (env: Env)
      requires ResolverStaysInProject(env)
      ensures Valid() && this.env == env
      ensures parsedFiles == map[] && matches == [] && path == [] && visited == {}
    {
      this.env := env;
      parsedFiles := map[];
      matches := [];
      path := [];
      visited := {};
    }

    /** parse_file: the cached tree when there is one, otherwise the parse, which is then cached. */
    method ParseFile(file: string) returns (root: Node)
      requires Valid() && file in env.project
      modifies this
      ensures Valid()
      ensures root == env.project[file]
      ensures parsedFiles == old(parsedFiles)[file := root]
      ensures Snapshot(None) == old(Snapshot(None))
    {
      if file in parsedFiles {
        return parsedFiles[file];
      }
      root := env.project[file];
      parsedFiles := parsedFiles[file := root];
    }

    /** get_tree_sitter_node_from_lsp_range of finder.py: NameError where no node covers the location. */
    method GetTreeSitterNodeFromLspRange(loc: Location) returns (r: Outcome<(Node, string)>)
      requires Valid() && loc.file in env.project
      modifies this
      ensures Valid()
      ensures r == LegacyNodeFromLocation(env.project, loc)
      ensures parsedFiles == old(parsedFiles)[loc.file := env.project[loc.file]]
      ensures Snapshot(None) == old(Snapshot(None))
    {
      var root := ParseFile(loc.file);
      var target := NodeForRange(root, loc.startLine, loc.endLine);
      if target.None? {
        return Threw(NameError);
      }
      return Ok((target.value, loc.file));
    }

    /** get_definition_node_of_member_call_expression of finder.py. */
    method GetDefinitionNodeOfMemberCallExpression(node: Node, file: string)
      returns (r: Outcome<Option<(Node, string)>>)
      requires Valid()
      modifies this
      ensures Valid()
      ensures old(parsedFiles).Keys <= parsedFiles.Keys
      ensures r == LegacyGetDefinition(env, node, file)
      ensures Snapshot(None) == old(Snapshot(None))
    {
      if !IsCrossFileCall(node) {
        return Ok(None);
      }
      var functionNameNode := FindChildOfType(node, Name);
      if functionNameNode.None? {
        return Threw(AttributeError);
      }
      var nameNode := functionNameNode.value;
      var results := env.resolver(file, nameNode.startRow, nameNode.startCol);
      if |results| == 0 {
        return Ok(None);
      }
      var treeNodes := [];
      for k := 0 to |results|
        invariant Valid() && Snapshot(None) == old(Snapshot(None))
        invariant old(parsedFiles).Keys <= parsedFiles.Keys
        invariant |treeNodes| == k
        invariant forall j :: 0 <= j < k ==> LegacyNodeFromLocation(env.project, results[j]) == Ok(treeNodes[j])
      {
        var pair := GetTreeSitterNodeFromLspRange(results[k]);
        if pair.Threw? {
          return Threw(pair.error);
        }
        treeNodes := treeNodes + [pair.value];
      }
      assert treeNodes == Candidates(env.project, results);
      var definitions := Definitions(treeNodes);
      if |definitions| == 0 {
        return Ok(None);
      }
      return Ok(Some(definitions[0]));
    }

    /**
     * The hit loop of collect_function_calls in finder.py: for each hit, one
     * frame appended to the shared path, then one record holding the path as
     * it now stands.
     */
    method RecordHits(node: Node, file: string)
      requires Valid()
      modifies this
      ensures Valid() && parsedFiles == old(parsedFiles)
      ensures Snapshot(None) == Recorded(node, file, env.pattern(node.text), old(Snapshot(None)))
    {
      ghost var start := Snapshot(None);
      var text := node.text;
      var functionName := LegacyFunctionOrMethodName(node);
      var functionStartLine := node.startRow + 1;
      var hits := env.pattern(text);
      for k := 0 to |hits|
        invariant Valid() && parsedFiles == old(parsedFiles) && visited == start.visited
        invariant path == start.path + HitFrames(node, file, hits[..k])
        invariant matches == start.matches + HitMatches(node, file, hits[..k], start.path)
      {
        RecordedSnoc(node, file, hits, k, start.path);
        var matchLineNumber := functionStartLine + NewlinesBefore(text, hits[k]);
        var pathObject := LegacyPathObject(file, functionName, functionStartLine, matchLineNumber);
        path := path + [pathObject];
        matches := matches + [LegacyMatch(node, text, file, path)];
      }
      assert hits[..|hits|] == hits;
    }

    /**
     * collect_function_calls of finder.py: exactly the shared lists and the
     * visited set that Legacy.LCollect gives for the state before the call,
     * and the exception it raises, if any.
     */
    method CollectFunctionCalls(node: Node, file: string) returns (err: Option<PyError>)
      requires Valid() && InProject(env.project, file, node)
      modifies this
      ensures Valid()
      ensures old(parsedFiles).Keys <= parsedFiles.Keys
      ensures Snapshot(err) == LCollect(env, node, file, old(Snapshot(None)))
      decreases AllKeys(env.project) - visited, 0
    {
      if (file, node.id) in visited {
        return None;
      }
      KeyInAllKeys(env.project, file, node);
      visited := visited + {(file, node.id)};
      ghost var marked := Snapshot(None);
      if IsLocalBody(node) {
        RecordHits(node, file);
      }
      ghost var own := Snapshot(None);
      assert own == if IsLocalBody(node) then Recorded(node, file, env.pattern(node.text), marked) else marked;
      if IsCrossFileCall(node) {
        err := FollowDefinition(node, file);
        if err.Some? {
          return;
        }
      }
      ghost var followed := Snapshot(None);
      assert followed == if IsCrossFileCall(node) then LFollow(env, node, file, own) else own;
      err := CollectChildren(node, file);
    }

    /** The loop of collect_function_calls in finder.py over the node's children, stopped by an exception. */
    method CollectChildren(node: Node, file: string) returns (err: Option<PyError>)
      requires Valid() && InProject(env.project, file, node)
      modifies this
      ensures Valid()
      ensures old(parsedFiles).Keys <= parsedFiles.Keys
      ensures Snapshot(err) == LChildren(env, node, 0, file, old(Snapshot(None)))
      decreases AllKeys(env.project) - visited, 1
    {
      for i := 0 to |node.children|
        invariant Valid() && old(visited) <= visited
        invariant old(parsedFiles).Keys <= parsedFiles.Keys
        invariant LChildren(env, node, 0, file, old(Snapshot(None))) == LChildren(env, node, i, file, Snapshot(None))
      {
        ChildInSubtrees(node, env.project[file], i);
        err := CollectFunctionCalls(node.children[i], file);
        if err.Some? {
          return;
        }
      }
      err := None;
    }

    /** The cross-file step of collect_function_calls in finder.py: the resolved definition is walked next. */
    method FollowDefinition(node: Node, file: string) returns (err: Option<PyError>)
      requires Valid()
      modifies this
      ensures Valid()
      ensures old(parsedFiles).Keys <= parsedFiles.Keys
      ensures Snapshot(err) == LFollow(env, node, file, old(Snapshot(None)))
      decreases AllKeys(env.project) - visited, 1
    {
      var definition := GetDefinitionNodeOfMemberCallExpression(node, file);
      if definition.Threw? {
        return Some(definition.error);
      }
      err := None;
      if definition.value.Some? {
        var target := definition.value.value;
        err := CollectFunctionCalls(target.0, target.1);
      }
    }

    /**
     * search_pattern of finder.py: nothing is walked when the entry function
     * is not in its file; otherwise fresh lists, a fresh visited set, the path
     * seeded with the entry's frame, and the walk from the entry.
     */
    method SearchPattern(file: string, functionName: string) returns (err: Option<PyError>)
      requires Valid() && file in env.project
      modifies this
      ensures Valid()
      ensures old(parsedFiles).Keys <= parsedFiles.Keys
      ensures LegacySearch(env, file, functionName).None? ==> err.None? && Snapshot(None) == old(Snapshot(None))
      ensures LegacySearch(env, file, functionName).Some? ==> Snapshot(err) == LegacySearch(env, file, functionName).value
    {
      var root := ParseFile(file);
      var parentFunction := FindFunctionOrMethod(root, functionName);
      if parentFunction.None? {
        return None;
      }
      matches := [];
      visited := {};
      path := [SeedFrame(parentFunction.value, file)];
      err := CollectFunctionCalls(parentFunction.value, file);
    }
  }
}
