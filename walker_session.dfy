/**
 * The walker of main.py as the program runs it: the parsed-file cache and the
 * names that could not be followed are state shared by every call, and the
 * visited set is one mutable set threaded by reference through the recursive
 * calls of a search.  Each method is proved to leave exactly the state, and
 * return exactly the matches, that the functions of module Walker describe.
 */
module WalkerSession {
  import opened Wrappers
  import opened Syntax
  import opened Records
  import opened LineNumbers
  import opened Walker

  /**
   * process_function_call_or_declaration: one record per pattern hit in the
   * node's text, in hit order, each giving the hit's file line.
   */
  method ProcessFunctionCallOrDeclaration(node: Node, pattern: Pattern, path: seq<PathObject>, file: string)
    returns (ms: seq<MatchObject>)
    ensures |ms| == |pattern(node.text)|
    ensures forall i :: 0 <= i < |ms| ==>
              && ms[i].node == node && ms[i].fileName == file && ms[i].path == path
              && ms[i].functionText == node.text
              && ms[i].functionLineNumber == node.startRow + 1
              && ms[i].matchLineNumber == node.startRow + 1 + NewlinesBefore(node.text, pattern(node.text)[i])
    ensures ms == MatchesIn(node, file, path, pattern(node.text))
  {
    var text := node.text;
    var functionStartLine := node.startRow + 1;
    var hits := pattern(text);
    ms := [];
    for k := 0 to |hits|
      invariant |ms| == k
      invariant forall j :: 0 <= j < k ==> ms[j] == MatchAt(node, file, path, hits[j])
    {
      var matchLineNumber := functionStartLine + NewlinesBefore(text, hits[k]);
      ms := ms + [MatchObject(node, file, text, functionStartLine, matchLineNumber, path)];
    }
  }

  /** The state main.py keeps between calls: its module globals and the visited set of the running search. */
  class Session {
    const env: Env
    /** `parsed_files`: file name -> root node of every file parsed so far. */
    var parsedFiles: map<string, Node>
    /** `failed_to_follow`: names the language server found no definition for. */
    var failedToFollow: set<string>
    /** `visited_nodes` of the search in progress. */
    var visited: set<Key>

    /** Every cached tree is the parse of its file, and the language server names only parseable files. */
    ghost predicate Valid()
      reads this
    {
      && ResolverStaysInProject(env)
      && forall f :: f in parsedFiles ==> f in env.project && parsedFiles[f] == env.project[f]
    }

    function Current(): State
      reads this
    {
      State(visited, failedToFollow)
    }

    constructor (env: Env)
      requires ResolverStaysInProject(env)
      ensures Valid() && this.env == env
      ensures parsedFiles == map[] && failedToFollow == {} && visited == {}
    {
      this.env := env;
      parsedFiles := map[];
      failedToFollow := {};
      visited := {};
    }

    /** parse_file: the cached tree when there is one, otherwise the parse, which is then cached. */
    method ParseFile(file: string) returns (root: Node)
      requires Valid() && file in env.project
      modifies this
      ensures Valid()
      ensures root == env.project[file]
      ensures parsedFiles == old(parsedFiles)[file := root]
      ensures visited == old(visited) && failedToFollow == old(failedToFollow)
    {
      if file in parsedFiles {
        return parsedFiles[file];
      }
      root := env.project[file];
      parsedFiles := parsedFiles[file := root];
    }

    /** get_tree_sitter_node_from_lsp_range: the smallest node covering the location, or the file's root. */
    method GetTreeSitterNodeFromLspRange(loc: Location) returns (r: (Node, string))
      requires Valid() && loc.file in env.project
      modifies this
      ensures Valid()
      ensures r == NodeFromLocation(env.project, loc)
      ensures parsedFiles == old(parsedFiles)[loc.file := env.project[loc.file]]
      ensures visited == old(visited) && failedToFollow == old(failedToFollow)
    {
      var root := ParseFile(loc.file);
      var target := NodeForRange(root, loc.startLine, loc.endLine);
      if target.None? {
        return (root, loc.file);
      } else {
        return (target.value, loc.file);
      }
    }

    /**
     * get_definition_node_of_member_call_expression: asks the language server
     * about the call's first `name` token, one column to its right, and
     * returns the first result that is a function or method definition.
     */
    method GetDefinitionNodeOfMemberCallExpression(node: Node, file: string) returns (r: Option<(Node, string)>)
      requires Valid()
      modifies this
      ensures Valid()
      ensures old(parsedFiles).Keys <= parsedFiles.Keys
      ensures (r, failedToFollow) == GetDefinition(env, node, file, old(failedToFollow))
      ensures visited == old(visited)
    {
      if !IsCrossFileCall(node) {
        return None;
      }
      var functionNameNode := FindChildOfType(node, Name);
      if functionNameNode.None? {
        return None;
      }
      var nameNode := functionNameNode.value;
      var results := env.resolver(file, nameNode.startRow, nameNode.startCol + 1);
      if |results| == 0 {
        failedToFollow := failedToFollow + {nameNode.text};
        return None;
      }
      var treeNodes := [];
      for k := 0 to |results|
        invariant Valid() && failedToFollow == old(failedToFollow) && visited == old(visited)
        invariant old(parsedFiles).Keys <= parsedFiles.Keys
        invariant |treeNodes| == k
        invariant forall j :: 0 <= j < k ==> treeNodes[j] == NodeFromLocation(env.project, results[j])
      {
        var pair := GetTreeSitterNodeFromLspRange(results[k]);
        treeNodes := treeNodes + [pair];
      }
      assert treeNodes == Candidates(env.project, results);
      var definitions := Definitions(treeNodes);
      if |definitions| == 0 {
        return None;
      }
      return Some(definitions[0]);
    }

    /**
     * collect_function_calls: exactly the matches and the new visited set and
     * failed names that Walker.Collect gives for the state before the call.
     */
    method CollectFunctionCalls(node: Node, path: seq<PathObject>, file: string, fn: Node)
      returns (ms: seq<MatchObject>)
      requires Valid() && InProject(env.project, file, node)
      modifies this
      ensures Valid()
      ensures old(parsedFiles).Keys <= parsedFiles.Keys
      ensures Walk(ms, Current()) == Collect(env, node, path, file, fn, old(Current()))
      decreases AllKeys(env.project) - visited, 0
    {
      if file == "" || (file, node.id) in visited {
        return [];
      }
      KeyInAllKeys(env.project, file, node);
      visited := visited + {(file, node.id)};
      ghost var marked := Current();
      ms := [];
      if IsLocalBody(node) {
        var own := ProcessFunctionCallOrDeclaration(node, env.pattern, path, file);
        ms := ms + own;
      }
      if IsCrossFileCall(node) {
        var followed := ProcessMemberCallExpressionOrObjectCreationExpression(node, path, file, fn);
        ms := ms + followed;
      }
      ghost var afterFollow := Current();
      assert afterFollow == (if IsCrossFileCall(node) then FollowCall(env, node, path, file, fn, marked)
                             else Walk([], marked)).state;
      var rest := ProcessChildren(node, path, file, fn);
      ms := ms + rest;
    }

    /**
     * process_member_call_expression_or_object_creation_expression: walks the
     * resolved definition with the path extended by this call's frame.
     */
    method ProcessMemberCallExpressionOrObjectCreationExpression(node: Node, path: seq<PathObject>, file: string,
                                                                 fn: Node)
      returns (ms: seq<MatchObject>)
      requires Valid()
      modifies this
      ensures Valid()
      ensures old(parsedFiles).Keys <= parsedFiles.Keys
      ensures Walk(ms, Current()) == FollowCall(env, node, path, file, fn, old(Current()))
      decreases AllKeys(env.project) - visited, 1
    {
      ms := [];
      ghost var before := Current();
      var target := GetDefinitionNodeOfMemberCallExpression(node, file);
      ghost var resolved := Current();
      assert resolved == before.(failedToFollow := GetDefinition(env, node, file, before.failedToFollow).1);
      if target.Some? {
        var targetNode := target.value.0;
        var targetFile := target.value.1;
        var pathObject := PathObject(file, FunctionOrMethodName(fn), fn.startRow + 1, node.startRow + 1);
        var targetPath := path + [pathObject];
        assert pathObject == CallFrame(file, fn, node);
        var found := CollectFunctionCalls(targetNode, targetPath, targetFile, targetNode);
        ms := ms + found;
      }
    }

    /** process_children: every child's findings, in child order, the visited set shared. */
    method ProcessChildren(node: Node, path: seq<PathObject>, file: string, fn: Node) returns (ms: seq<MatchObject>)
      requires Valid() && InProject(env.project, file, node)
      modifies this
      ensures Valid()
      ensures old(parsedFiles).Keys <= parsedFiles.Keys
      ensures Walk(ms, Current()) == CollectChildren(env, node, 0, path, file, fn, old(Current()))
      decreases AllKeys(env.project) - visited, 1
    {
      ms := [];
      for i := 0 to |node.children|
        invariant Valid()
        invariant old(parsedFiles).Keys <= parsedFiles.Keys
        invariant old(visited) <= visited
        invariant var rest := CollectChildren(env, node, i, path, file, fn, Current());
                  CollectChildren(env, node, 0, path, file, fn, old(Current())) == Walk(ms + rest.matches, rest.state)
      {
        ChildInSubtrees(node, env.project[file], i);
        ghost var before := Current();
        ghost var rest := CollectChildren(env, node, i + 1, path, file, fn, Collect(env, node.children[i], path, file, fn, before).state);
        assert CollectChildren(env, node, i, path, file, fn, before)
            == Walk(Collect(env, node.children[i], path, file, fn, before).matches + rest.matches, rest.state);
        var found := CollectFunctionCalls(node.children[i], path, file, fn);
        assert ms + found + rest.matches == ms + (found + rest.matches);
        ms := ms + found;
      }
    }

    /**
     * search_pattern: no matches when the entry function is not in its file;
     * otherwise a fresh visited set and the walk from the entry function.
     */
    method SearchPattern(file: string, functionName: string) returns (ms: seq<MatchObject>)
      requires Valid() && file in env.project
      modifies this
      ensures Valid()
      ensures old(parsedFiles).Keys <= parsedFiles.Keys
      ensures ms == SearchResult(env, file, functionName, old(failedToFollow)).matches
      ensures failedToFollow == SearchResult(env, file, functionName, old(failedToFollow)).state.failedToFollow
      ensures FindFunctionOrMethod(env.project[file], functionName).Some? ==>
                visited == SearchResult(env, file, functionName, old(failedToFollow)).state.visited
      ensures forall m :: m in ms ==> Emitted(env.project, m)
    {
      var root := ParseFile(file);
      var parentFunction := FindFunctionOrMethod(root, functionName);
      if parentFunction.None? {
        return [];
      }
      visited := {};
      ms := CollectFunctionCalls(parentFunction.value, [], file, parentFunction.value);
    }
  }
}
