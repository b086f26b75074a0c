/**
 * The call-graph walker of main.py as functions of the search's state: the
 * visited set of (file, node id) pairs and the names that could not be
 * followed.  The parser is the `project` map (file -> root node), the language
 * server's definition request is the `resolver` function, and the compiled
 * regular expression is the `pattern` function giving match start offsets.
 */
module Walker {
  import opened Wrappers
  import opened Syntax
  import opened Records
  import opened LineNumbers

  /** A visited-set entry: (file name, node id). */
  type Key = (string, nat)

  /** Every file's parsed root; reading and parsing a file is a lookup here. */
  type Project = map<string, Node>

  /** A definition location: the file and the zero-based line range it spans. */
  datatype Location = Location(file: string, startLine: nat, endLine: nat)

  /** textDocument/definition at (file, zero-based line, character). */
  type Resolver = (string, nat, nat) -> seq<Location>

  /** `pattern.finditer(text)`, reduced to the start offset of each match. */
  type Pattern = string -> seq<nat>

  datatype Env = Env(project: Project, resolver: Resolver, pattern: Pattern)

  datatype State = State(visited: set<Key>, failedToFollow: set<string>)

  /** The matches a call returns and the state it leaves behind. */
  datatype Walk = Walk(matches: seq<MatchObject>, state: State)

  /** The resolver only names files that can be parsed (otherwise opening them raises). */
  ghost predicate ResolverStaysInProject(env: Env) {
    forall file, row, col, k :: 0 <= k < |env.resolver(file, row, col)| ==>
      env.resolver(file, row, col)[k].file in env.project
  }

  ghost predicate InProject(project: Project, file: string, node: Node) {
    file in project && node in Subtrees(project[file])
  }

  /** Every (file, node id) pair of the project: what the visited set can grow into. */
  ghost function AllKeys(project: Project): set<Key> {
    set f, m | f in project && m in Subtrees(project[f]) :: (f, m.id)
  }

  lemma KeyInAllKeys(project: Project, file: string, node: Node)
    requires InProject(project, file, node)
    ensures (file, node.id) in AllKeys(project)
  {
  }

  // ----- process_function_call_or_declaration -----

  /** The record for one hit at `offset` in the node's text. */
  function MatchAt(node: Node, file: string, path: seq<PathObject>, offset: nat): MatchObject {
    var functionStartLine := node.startRow + 1;
    MatchObject(node, file, node.text, functionStartLine, MatchLine(functionStartLine, node.text, offset), path)
  }

  /** One record per hit, in hit order. */
  function MatchesIn(node: Node, file: string, path: seq<PathObject>, offsets: seq<nat>): seq<MatchObject> {
    seq(|offsets|, i requires 0 <= i < |offsets| => MatchAt(node, file, path, offsets[i]))
  }

  predicate Increasing(offsets: seq<nat>) {
    forall i, j :: 0 <= i < j < |offsets| ==> offsets[i] < offsets[j]
  }

  /**
   * Exactly one record per hit, all for this node, file and path; each hit's
   * line lies within the node's lines, and with increasing offsets the lines
   * never go back.
   */
  lemma MatchesInProperties(node: Node, file: string, path: seq<PathObject>, offsets: seq<nat>)
    ensures var ms := MatchesIn(node, file, path, offsets);
      && |ms| == |offsets|
      && (forall i :: 0 <= i < |ms| ==>
            && ms[i].node == node && ms[i].fileName == file && ms[i].path == path
            && ms[i].functionText == node.text
            && ms[i].functionLineNumber == node.startRow + 1
            && ms[i].matchLineNumber == node.startRow + 1 + NewlinesBefore(node.text, offsets[i])
            && ms[i].functionLineNumber <= ms[i].matchLineNumber <= ms[i].functionLineNumber + CountNewlines(node.text))
      && (Increasing(offsets) ==>
            forall i, j :: 0 <= i < j < |ms| ==> ms[i].matchLineNumber <= ms[j].matchLineNumber)
  {
    var ms := MatchesIn(node, file, path, offsets);
    forall i | 0 <= i < |ms|
      ensures ms[i].functionLineNumber <= ms[i].matchLineNumber <= ms[i].functionLineNumber + CountNewlines(node.text)
    {
      MatchLineBounds(node.startRow + 1, node.text, offsets[i]);
    }
    if Increasing(offsets) {
      forall i, j | 0 <= i < j < |ms|
        ensures ms[i].matchLineNumber <= ms[j].matchLineNumber
      {
        MatchLineMonotone(node.startRow + 1, node.text, offsets[i], offsets[j]);
      }
    }
  }

  // ----- get_tree_sitter_node_from_lsp_range and get_definition_node_of_member_call_expression -----

  /**
   * The node a definition location points at, with its file: the smallest node
   * covering the location's lines, or the file's root when none covers them.
   */
  function NodeFromLocation(project: Project, loc: Location): (r: (Node, string))
    requires loc.file in project
    ensures r.1 == loc.file && r.0 in Subtrees(project[loc.file])
    ensures NodeForRange(project[loc.file], loc.startLine, loc.endLine).None? ==> r.0 == project[loc.file]
    ensures NodeForRange(project[loc.file], loc.startLine, loc.endLine).Some? ==>
              Covers(r.0, loc.startLine, loc.endLine)
  {
    var root := project[loc.file];
    match NodeForRange(root, loc.startLine, loc.endLine)
    case None => (root, loc.file)
    case Some(target) => (target, loc.file)
  }

  /** `[get_tree_sitter_node_from_lsp_range(result) for result in results]`. */
  function Candidates(project: Project, results: seq<Location>): (cs: seq<(Node, string)>)
    requires forall k :: 0 <= k < |results| ==> results[k].file in project
    ensures |cs| == |results|
    ensures forall k :: 0 <= k < |cs| ==> cs[k] == NodeFromLocation(project, results[k])
  {
    seq(|results|, k requires 0 <= k < |results| => NodeFromLocation(project, results[k]))
  }

  /** The candidates whose node is a function or method definition, in order. */
  function Definitions(cs: seq<(Node, string)>): (ds: seq<(Node, string)>)
    ensures forall k :: 0 <= k < |ds| ==> IsDefinition(ds[k].0) && ds[k] in cs
    ensures |ds| == 0 <==> forall k :: 0 <= k < |cs| ==> !IsDefinition(cs[k].0)
    ensures |ds| > 0 ==> exists k :: 0 <= k < |cs| && ds[0] == cs[k] &&
                                     forall j :: 0 <= j < k ==> !IsDefinition(cs[j].0)
  {
    if cs == [] then []
    else if IsDefinition(cs[0].0) then [cs[0]] + Definitions(cs[1..])
    else
      var ds := Definitions(cs[1..]);
      assert forall k :: 0 <= k < |ds| ==> ds[k] in cs;
      assert |ds| > 0 ==> exists k :: 0 <= k < |cs[1..]| && ds[0] == cs[1..][k] &&
                                      forall j :: 0 <= j < k ==> !IsDefinition(cs[1..][j].0);
      ds
  }

  /**
   * get_definition_node_of_member_call_expression: the first candidate, in
   * resolver order, that is a function or method definition.  A node that is
   * not a member call or object creation, or has no `name` token, gives None;
   * a name the resolver knows nothing about is added to the names that could
   * not be followed.
   */
  function GetDefinition(env: Env, node: Node, file: string, failed: set<string>)
    : (r: (Option<(Node, string)>, set<string>))
    requires ResolverStaysInProject(env)
    ensures r.0.Some? ==> IsDefinition(r.0.value.0) && InProject(env.project, r.0.value.1, r.0.value.0)
    ensures failed <= r.1
    ensures !IsCrossFileCall(node) || FindChildOfType(node, Name).None? ==> r == (None, failed)
  {
    if !IsCrossFileCall(node) then (None, failed)
    else match FindChildOfType(node, Name)
      case None => (None, failed)
      case Some(nameNode) =>
        var results := env.resolver(file, nameNode.startRow, nameNode.startCol + 1);
        if |results| == 0 then (None, failed + {nameNode.text})
        else
          var defs := Definitions(Candidates(env.project, results));
          if |defs| == 0 then (None, failed) else (Some(defs[0]), failed)
  }

  /** The first definition among the candidates of a list of locations, and none exactly when no candidate is one. */
  lemma FirstDefinitionAmongCandidates(project: Project, results: seq<Location>)
    requires forall k :: 0 <= k < |results| ==> results[k].file in project
    ensures var defs := Definitions(Candidates(project, results));
            (|defs| == 0 <==> forall k :: 0 <= k < |results| ==> !IsDefinition(NodeFromLocation(project, results[k]).0))
    ensures var defs := Definitions(Candidates(project, results));
            |defs| > 0 ==>
              exists k :: 0 <= k < |results| && defs[0] == NodeFromLocation(project, results[k]) &&
                forall j :: 0 <= j < k ==> !IsDefinition(NodeFromLocation(project, results[j]).0)
  {
    var cs := Candidates(project, results);
    assert forall k :: 0 <= k < |results| ==> cs[k] == NodeFromLocation(project, results[k]);
  }

  /** A name the resolver knows nothing about gives nothing and is recorded as not followed. */
  lemma GetDefinitionUnknownName(env: Env, node: Node, file: string, failed: set<string>, nameNode: Node)
    requires ResolverStaysInProject(env)
    requires IsCrossFileCall(node) && FindChildOfType(node, Name) == Some(nameNode)
    requires env.resolver(file, nameNode.startRow, nameNode.startCol + 1) == []
    ensures GetDefinition(env, node, file, failed) == (None, failed + {nameNode.text})
  {
  }

  /**
   * Otherwise the answer is the first candidate, in resolver order, that is
   * a definition, nothing exactly when no candidate is one, and the failed
   * names are unchanged.
   */
  lemma GetDefinitionIsFirstDefinition(env: Env, node: Node, file: string, failed: set<string>, nameNode: Node)
    requires ResolverStaysInProject(env)
    requires IsCrossFileCall(node) && FindChildOfType(node, Name) == Some(nameNode)
    requires env.resolver(file, nameNode.startRow, nameNode.startCol + 1) != []
    ensures var results := env.resolver(file, nameNode.startRow, nameNode.startCol + 1);
            var r := GetDefinition(env, node, file, failed);
            && r.1 == failed
            && (r.0.None? <==> forall k :: 0 <= k < |results| ==> !IsDefinition(NodeFromLocation(env.project, results[k]).0))
            && (r.0.Some? ==>
                  exists k :: 0 <= k < |results| && r.0.value == NodeFromLocation(env.project, results[k]) &&
                    forall j :: 0 <= j < k ==> !IsDefinition(NodeFromLocation(env.project, results[j]).0))
  {
    var results := env.resolver(file, nameNode.startRow, nameNode.startCol + 1);
    var defs := Definitions(Candidates(env.project, results));
    assert GetDefinition(env, node, file, failed) == (if |defs| == 0 then None else Some(defs[0]), failed);
    FirstDefinitionAmongCandidates(env.project, results);
  }

  // ----- collect_function_calls, process_member_call_expression_or_object_creation_expression, process_children -----

  /** The frame a resolved call adds: the enclosing function, its first line, the call's line. */
  function CallFrame(file: string, fn: Node, call: Node): PathObject {
    PathObject(file, FunctionOrMethodName(fn), fn.startRow + 1, call.startRow + 1)
  }

  /**
   * collect_function_calls: nothing for an empty file name or an already
   * visited node; otherwise mark the node visited, then report the node's own
   * hits (function calls and method declarations), then what the resolved
   * callee reports (member calls and object creations), then each child's
   * findings in order.
   */
  function Collect(env: Env, node: Node, path: seq<PathObject>, file: string, fn: Node, st: State): (w: Walk)
    requires ResolverStaysInProject(env) && InProject(env.project, file, node)
    ensures st.visited <= w.state.visited <= st.visited + AllKeys(env.project)
    ensures st.failedToFollow <= w.state.failedToFollow
    ensures file == "" || (file, node.id) in st.visited ==> w == Walk([], st)
    ensures file != "" ==> (file, node.id) in w.state.visited
    decreases AllKeys(env.project) - st.visited, 0, 0
  {
    if file == "" || (file, node.id) in st.visited then Walk([], st)
    else
      KeyInAllKeys(env.project, file, node);
      var marked := st.(visited := st.visited + {(file, node.id)});
      var own := if IsLocalBody(node) then MatchesIn(node, file, path, env.pattern(node.text)) else [];
      var followed := if IsCrossFileCall(node) then FollowCall(env, node, path, file, fn, marked) else Walk([], marked);
      var rest := CollectChildren(env, node, 0, path, file, fn, followed.state);
      Walk(own + followed.matches + rest.matches, rest.state)
  }

  /**
   * process_member_call_expression_or_object_creation_expression: when the
   * callee resolves, walk its definition as the new enclosing function, with
   * the caller's path extended by one frame for this call.
   */
  function FollowCall(env: Env, node: Node, path: seq<PathObject>, file: string, fn: Node, st: State): (w: Walk)
    requires ResolverStaysInProject(env)
    ensures st.visited <= w.state.visited <= st.visited + AllKeys(env.project)
    ensures st.failedToFollow <= w.state.failedToFollow
    decreases AllKeys(env.project) - st.visited, 1, 0
  {
    var lookup := GetDefinition(env, node, file, st.failedToFollow);
    var resolved := st.(failedToFollow := lookup.1);
    match lookup.0
    case None => Walk([], resolved)
    case Some(target) =>
      Collect(env, target.0, path + [CallFrame(file, fn, node)], target.1, target.0, resolved)
  }

  /** process_children from child `i` on: each child's findings in order, the state threaded through. */
  function CollectChildren(env: Env, node: Node, i: nat, path: seq<PathObject>, file: string, fn: Node, st: State)
    : (w: Walk)
    requires ResolverStaysInProject(env) && InProject(env.project, file, node) && i <= |node.children|
    ensures st.visited <= w.state.visited <= st.visited + AllKeys(env.project)
    ensures st.failedToFollow <= w.state.failedToFollow
    decreases AllKeys(env.project) - st.visited, 1, |node.children| - i
  {
    if i == |node.children| then Walk([], st)
    else
      ChildInSubtrees(node, env.project[file], i);
      var first := Collect(env, node.children[i], path, file, fn, st);
      var rest := CollectChildren(env, node, i + 1, path, file, fn, first.state);
      Walk(first.matches + rest.matches, rest.state)
  }

  /**
   * search_pattern: no results when the entry function is not in its file;
   * otherwise walk it from an empty path and an empty visited set, as its own
   * enclosing function.
   */
  function SearchResult(env: Env, file: string, functionName: string, failed: set<string>): (w: Walk)
    requires ResolverStaysInProject(env) && file in env.project
    ensures FindFunctionOrMethod(env.project[file], functionName).None? ==> w == Walk([], State({}, failed))
    ensures forall m :: m in w.matches ==> Emitted(env.project, m)
    ensures failed <= w.state.failedToFollow
  {
    match FindFunctionOrMethod(env.project[file], functionName)
    case None => Walk([], State({}, failed))
    case Some(entry) =>
      CollectSound(env, entry, [], file, entry, State({}, failed));
      Collect(env, entry, [], file, entry, State({}, failed))
  }

  // ----- what every reported match satisfies -----

  /** A record the walker can emit: a hit in a function call or method declaration of the project. */
  ghost predicate Emitted(project: Project, m: MatchObject) {
    && InProject(project, m.fileName, m.node)
    && IsLocalBody(m.node)
    && m.functionText == m.node.text
    && m.functionLineNumber == m.node.startRow + 1
    && m.functionLineNumber <= m.matchLineNumber <= m.functionLineNumber + CountNewlines(m.node.text)
  }

  /**
   * Every match of `w` is a well-formed hit of the project, comes from a node
   * this call visited for the first time, and carries a path extending `path`.
   */
  ghost predicate Sound(project: Project, st: State, path: seq<PathObject>, w: Walk) {
    forall m :: m in w.matches ==>
      && Emitted(project, m)
      && (m.fileName, m.node.id) in w.state.visited - st.visited
      && path <= m.path
  }

  lemma OwnMatchesSound(env: Env, node: Node, path: seq<PathObject>, file: string, st: State, after: State)
    requires InProject(env.project, file, node) && IsLocalBody(node)
    requires (file, node.id) in after.visited - st.visited
    ensures Sound(env.project, st, path, Walk(MatchesIn(node, file, path, env.pattern(node.text)), after))
  {
    MatchesInProperties(node, file, path, env.pattern(node.text));
  }

  lemma {:induction false} CollectSound(env: Env, node: Node, path: seq<PathObject>, file: string, fn: Node, st: State)
    requires ResolverStaysInProject(env) && InProject(env.project, file, node)
    ensures Sound(env.project, st, path, Collect(env, node, path, file, fn, st))
    decreases AllKeys(env.project) - st.visited, 0, 0
  {
    if file != "" && (file, node.id) !in st.visited {
      KeyInAllKeys(env.project, file, node);
      var w := Collect(env, node, path, file, fn, st);
      var marked := st.(visited := st.visited + {(file, node.id)});
      var own := if IsLocalBody(node) then MatchesIn(node, file, path, env.pattern(node.text)) else [];
      var followed := if IsCrossFileCall(node) then FollowCall(env, node, path, file, fn, marked) else Walk([], marked);
      var rest := CollectChildren(env, node, 0, path, file, fn, followed.state);
      assert w == Walk(own + followed.matches + rest.matches, rest.state);
      if IsLocalBody(node) {
        OwnMatchesSound(env, node, path, file, st, rest.state);
      }
      if IsCrossFileCall(node) {
        FollowSound(env, node, path, file, fn, marked);
      }
      CollectChildrenSound(env, node, 0, path, file, fn, followed.state);
      forall m | m in w.matches
        ensures Emitted(env.project, m) && (m.fileName, m.node.id) in w.state.visited - st.visited && path <= m.path
      {
        if m in own {
        } else if m in followed.matches {
        } else {
          assert m in rest.matches;
        }
      }
    }
  }

  lemma {:induction false} FollowSound(env: Env, node: Node, path: seq<PathObject>, file: string, fn: Node, st: State)
    requires ResolverStaysInProject(env)
    ensures Sound(env.project, st, path, FollowCall(env, node, path, file, fn, st))
    ensures forall m :: m in FollowCall(env, node, path, file, fn, st).matches ==>
              path + [CallFrame(file, fn, node)] <= m.path
    decreases AllKeys(env.project) - st.visited, 1, 0
  {
    var lookup := GetDefinition(env, node, file, st.failedToFollow);
    var resolved := st.(failedToFollow := lookup.1);
    if lookup.0.Some? {
      var target := lookup.0.value;
      var extended := path + [CallFrame(file, fn, node)];
      CollectSound(env, target.0, extended, target.1, target.0, resolved);
      var w := Collect(env, target.0, extended, target.1, target.0, resolved);
      forall m | m in w.matches
        ensures path <= m.path
      {
        assert path <= extended;
      }
    }
  }

  lemma {:induction false} CollectChildrenSound(env: Env, node: Node, i: nat, path: seq<PathObject>, file: string,
                                              fn: Node, st: State)
    requires ResolverStaysInProject(env) && InProject(env.project, file, node) && i <= |node.children|
    ensures Sound(env.project, st, path, CollectChildren(env, node, i, path, file, fn, st))
    decreases AllKeys(env.project) - st.visited, 1, |node.children| - i
  {
    if i < |node.children| {
      ChildInSubtrees(node, env.project[file], i);
      var first := Collect(env, node.children[i], path, file, fn, st);
      CollectSound(env, node.children[i], path, file, fn, st);
      CollectChildrenSound(env, node, i + 1, path, file, fn, first.state);
    }
  }

  // ----- a reference definition for walks that never leave the file -----

  /** The hits of every function call and method declaration of `ns`, node by node. */
  function LocalMatches(ns: seq<Node>, file: string, path: seq<PathObject>, pattern: Pattern): seq<MatchObject> {
    if ns == [] then []
    else
      (if IsLocalBody(ns[0]) then MatchesIn(ns[0], file, path, pattern(ns[0].text)) else [])
      + LocalMatches(ns[1..], file, path, pattern)
  }

  ghost function KeysOf(file: string, ns: seq<Node>): set<Key> {
    set k | 0 <= k < |ns| :: (file, ns[k].id)
  }

  /** Tree-sitter gives the nodes of one tree distinct ids. */
  ghost predicate DistinctIds(ns: seq<Node>) {
    forall a, b :: 0 <= a < b < |ns| ==> ns[a].id != ns[b].id
  }

  predicate NoCrossFileCalls(ns: seq<Node>) {
    forall k :: 0 <= k < |ns| ==> !IsCrossFileCall(ns[k])
  }

  lemma {:induction false} LocalMatchesAppend(a: seq<Node>, b: seq<Node>, file: string, path: seq<PathObject>,
                                              pattern: Pattern)
    ensures LocalMatches(a + b, file, path, pattern) == LocalMatches(a, file, path, pattern) + LocalMatches(b, file, path, pattern)
  {
    if a == [] {
      assert a + b == b;
    } else {
      assert (a + b)[1..] == a[1..] + b;
      LocalMatchesAppend(a[1..], b, file, path, pattern);
    }
  }

  lemma SplitTrees(a: seq<Node>, b: seq<Node>, file: string)
    requires DistinctIds(a + b)
    ensures DistinctIds(a) && DistinctIds(b)
    ensures KeysOf(file, a + b) == KeysOf(file, a) + KeysOf(file, b)
    ensures KeysOf(file, a) !! KeysOf(file, b)
    ensures NoCrossFileCalls(a + b) ==> NoCrossFileCalls(a) && NoCrossFileCalls(b)
  {
    forall a1, b1 | 0 <= a1 < b1 < |a| ensures a[a1].id != a[b1].id {
      assert (a + b)[a1] == a[a1] && (a + b)[b1] == a[b1];
    }
    forall a1, b1 | 0 <= a1 < b1 < |b| ensures b[a1].id != b[b1].id {
      assert (a + b)[|a| + a1] == b[a1] && (a + b)[|a| + b1] == b[b1];
    }
    forall key | key in KeysOf(file, a + b) ensures key in KeysOf(file, a) + KeysOf(file, b) {
      var k :| 0 <= k < |a + b| && key == (file, (a + b)[k].id);
      if k >= |a| {
        assert (a + b)[k] == b[k - |a|];
      }
    }
    forall key | key in KeysOf(file, a) + KeysOf(file, b) ensures key in KeysOf(file, a + b) {
      if key in KeysOf(file, a) {
        var k :| 0 <= k < |a| && key == (file, a[k].id);
        assert (a + b)[k] == a[k];
      } else {
        var k :| 0 <= k < |b| && key == (file, b[k].id);
        assert (a + b)[|a| + k] == b[k];
      }
    }
    forall k, j | 0 <= k < |a| && 0 <= j < |b| ensures a[k].id != b[j].id {
      assert (a + b)[k] == a[k] && (a + b)[|a| + j] == b[j];
    }
    if NoCrossFileCalls(a + b) {
      forall k | 0 <= k < |a| ensures !IsCrossFileCall(a[k]) {
        assert (a + b)[k] == a[k];
      }
      forall k | 0 <= k < |b| ensures !IsCrossFileCall(b[k]) {
        assert (a + b)[|a| + k] == b[k];
      }
    }
  }

  /**
   * Within one file and without member calls or object creations, walking a
   * node whose tree is not yet visited reports exactly the hits of its
   * function calls and method declarations in pre-order (a hit inside a call
   * nested in a method declaration is reported for both nodes), and marks
   * exactly the tree's nodes visited.
   */
  lemma {:induction false} CollectLocal(env: Env, node: Node, path: seq<PathObject>, file: string, fn: Node, st: State)
    requires ResolverStaysInProject(env) && InProject(env.project, file, node) && file != ""
    requires NoCrossFileCalls(PreOrder(node)) && DistinctIds(PreOrder(node))
    requires KeysOf(file, PreOrder(node)) !! st.visited
    ensures Collect(env, node, path, file, fn, st)
         == Walk(LocalMatches(PreOrder(node), file, path, env.pattern),
                 st.(visited := st.visited + KeysOf(file, PreOrder(node))))
    decreases node, 1
  {
    var below := PreOrderFrom(node, 0);
    SplitTrees([node], below, file);
    assert [node][0] == node;
    assert KeysOf(file, [node]) == {(file, node.id)};
    assert (file, node.id) !in st.visited;
    assert !IsCrossFileCall(node) by { assert PreOrder(node)[0] == node; }
    var marked := st.(visited := st.visited + {(file, node.id)});
    CollectChildrenLocal(env, node, 0, path, file, fn, marked);
    LocalMatchesAppend([node], below, file, path, env.pattern);
    assert [node][1..] == [];
  }

  lemma {:induction false} CollectChildrenLocal(env: Env, node: Node, i: nat, path: seq<PathObject>, file: string,
                                              fn: Node, st: State)
    requires ResolverStaysInProject(env) && InProject(env.project, file, node) && file != ""
    requires i <= |node.children|
    requires NoCrossFileCalls(PreOrderFrom(node, i)) && DistinctIds(PreOrderFrom(node, i))
    requires KeysOf(file, PreOrderFrom(node, i)) !! st.visited
    ensures CollectChildren(env, node, i, path, file, fn, st)
         == Walk(LocalMatches(PreOrderFrom(node, i), file, path, env.pattern),
                 st.(visited := st.visited + KeysOf(file, PreOrderFrom(node, i))))
    decreases node, 0, |node.children| - i
  {
    if i == |node.children| {
      assert KeysOf(file, []) == {};
    } else {
      var child := node.children[i];
      ChildInSubtrees(node, env.project[file], i);
      SplitTrees(PreOrder(child), PreOrderFrom(node, i + 1), file);
      CollectLocal(env, child, path, file, fn, st);
      var first := Collect(env, child, path, file, fn, st);
      CollectChildrenLocal(env, node, i + 1, path, file, fn, first.state);
      LocalMatchesAppend(PreOrder(child), PreOrderFrom(node, i + 1), file, path, env.pattern);
    }
  }

  /**
   * An entry function whose tree has no member calls or object creations
   * reports every hit with an empty path, in pre-order.
   */
  lemma SearchWithoutCalls(env: Env, file: string, functionName: string, failed: set<string>)
    requires ResolverStaysInProject(env) && file in env.project && file != ""
    requires FindFunctionOrMethod(env.project[file], functionName).Some?
    requires var entry := FindFunctionOrMethod(env.project[file], functionName).value;
             NoCrossFileCalls(PreOrder(entry)) && DistinctIds(PreOrder(entry))
    ensures var entry := FindFunctionOrMethod(env.project[file], functionName).value;
            SearchResult(env, file, functionName, failed).matches == LocalMatches(PreOrder(entry), file, [], env.pattern)
  {
    var entry := FindFunctionOrMethod(env.project[file], functionName).value;
    CollectLocal(env, entry, [], file, entry, State({}, failed));
  }
}
