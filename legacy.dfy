/**
 * The older walker of finder.py as functions of its state.  It returns
 * nothing: it appends to one shared `matches` list and one shared `path` list
 * and adds to the visited set, and every call sees the same three objects.
 * It also raises where main.py does not: an exception ends the search, so a
 * raised error is recorded in the state and every later step leaves the
 * state as it is.
 */
module Legacy {
  import opened Wrappers
  import opened Syntax
  import opened Records
  import opened LineNumbers
  import opened Walker

  /** The two exceptions the walker can raise on its own. */
  datatype PyError =
    | AttributeError   // `.start_point` of the missing name token of a call
    | NameError        // `target_tree`, which finder.py never defines

  datatype Outcome<T> = Ok(value: T) | Threw(error: PyError)

  /**
   * finder.py's own PathObject: the last field is the line of one pattern
   * hit, and the function name is None for anything but a method declaration.
   */
  datatype LegacyPathObject = LegacyPathObject(
    fileName: string,
    functionName: Option<string>,
    startLine: int,
    matchLineNumber: int)

  /** `str` of an optional string: None prints as "None". */
  function PyStr(v: Option<string>): string {
    match v
    case None => "None"
    case Some(s) => s
  }

  /** `str(PathObject)`: "{file_name}: {function_name} (line {match_line_number})". */
  function LegacyPathObjectStr(p: LegacyPathObject): string {
    p.fileName + ": " + PyStr(p.functionName) + " (line " + IntToString(p.matchLineNumber) + ")"
  }

  /**
   * The string form ends with the hit's line, which reads back exactly, and
   * does not show the start line; a missing name prints as the text "None".
   */
  lemma LegacyPathObjectStrRoundTrip(p: LegacyPathObject)
    ensures CallLineOf(LegacyPathObjectStr(p), p.fileName, PyStr(p.functionName)) == Some(p.matchLineNumber)
    ensures forall k: int :: LegacyPathObjectStr(p.(startLine := k)) == LegacyPathObjectStr(p)
    ensures p.functionName == None ==>
              LegacyPathObjectStr(p) == LegacyPathObjectStr(p.(functionName := Some("None")))
  {
    var q := PathObject(p.fileName, PyStr(p.functionName), p.startLine, p.matchLineNumber);
    assert LegacyPathObjectStr(p) == PathObjectStr(q);
    PathObjectStrRoundTrip(q);
  }

  /** The dict appended to `matches` for one hit. */
  datatype LegacyMatch = LegacyMatch(node: Node, text: string, name: string, path: seq<LegacyPathObject>)

  /** The shared lists, the visited set, and the exception that ended the search, if any. */
  datatype LState = LState(
    matches: seq<LegacyMatch>,
    path: seq<LegacyPathObject>,
    visited: set<Key>,
    raised: Option<PyError>)

  // ----- the per-hit appends of collect_function_calls -----

  /** The frame pushed for the hit at `offset`. */
  function HitFrame(node: Node, file: string, offset: nat): LegacyPathObject {
    var functionStartLine := node.startRow + 1;
    LegacyPathObject(file, LegacyFunctionOrMethodName(node), functionStartLine,
                     MatchLine(functionStartLine, node.text, offset))
  }

  function HitFrames(node: Node, file: string, offsets: seq<nat>): seq<LegacyPathObject> {
    seq(|offsets|, k requires 0 <= k < |offsets| => HitFrame(node, file, offsets[k]))
  }

  /** The k-th hit's record holds a copy of the path as it was right after its own frame was pushed. */
  function HitMatches(node: Node, file: string, offsets: seq<nat>, path: seq<LegacyPathObject>): seq<LegacyMatch> {
    var frames := HitFrames(node, file, offsets);
    seq(|offsets|, k requires 0 <= k < |offsets| => LegacyMatch(node, node.text, file, path + frames[..k + 1]))
  }

  /** The state after all the hits of `node` are recorded. */
  function Recorded(node: Node, file: string, offsets: seq<nat>, st: LState): LState {
    st.(path := st.path + HitFrames(node, file, offsets),
        matches := st.matches + HitMatches(node, file, offsets, st.path))
  }

  /** Recording one more hit appends one frame to the path and one record holding the path so far. */
  lemma RecordedSnoc(node: Node, file: string, offsets: seq<nat>, k: nat, path: seq<LegacyPathObject>)
    requires k < |offsets|
    ensures HitFrames(node, file, offsets[..k + 1]) == HitFrames(node, file, offsets[..k]) + [HitFrame(node, file, offsets[k])]
    ensures HitMatches(node, file, offsets[..k + 1], path)
         == HitMatches(node, file, offsets[..k], path)
            + [LegacyMatch(node, node.text, file, path + HitFrames(node, file, offsets[..k + 1]))]
  {
    var longer := HitFrames(node, file, offsets[..k + 1]);
    var shorter := HitFrames(node, file, offsets[..k]);
    assert longer == shorter + [HitFrame(node, file, offsets[k])];
    var more := HitMatches(node, file, offsets[..k + 1], path);
    var fewer := HitMatches(node, file, offsets[..k], path);
    forall j | 0 <= j < k
      ensures more[j] == fewer[j]
    {
      assert longer[..j + 1] == shorter[..j + 1];
    }
    assert longer[..k + 1] == longer;
  }

  // ----- get_tree_sitter_node_from_lsp_range and get_definition_node_of_member_call_expression -----

  /** The smallest node covering the location; with none, the undefined `target_tree` raises NameError. */
  function LegacyNodeFromLocation(project: Project, loc: Location): (r: Outcome<(Node, string)>)
    requires loc.file in project
    ensures r.Threw? <==> NodeForRange(project[loc.file], loc.startLine, loc.endLine).None?
    ensures r.Threw? ==> r.error == NameError
    ensures r.Ok? ==> r.value == NodeFromLocation(project, loc)
  {
    match NodeForRange(project[loc.file], loc.startLine, loc.endLine)
    case None => Threw(NameError)
    case Some(target) => Ok((target, loc.file))
  }

  /** The list comprehension over the results, which raises at the first location nothing covers. */
  function LegacyCandidates(project: Project, results: seq<Location>): (r: Outcome<seq<(Node, string)>>)
    requires forall k :: 0 <= k < |results| ==> results[k].file in project
    ensures r.Threw? <==> exists k :: 0 <= k < |results| && LegacyNodeFromLocation(project, results[k]).Threw?
    ensures r.Threw? ==> r == Threw(NameError)
    ensures r.Ok? ==> r.value == Candidates(project, results)
  {
    if results == [] then Ok([])
    else
      var head := LegacyNodeFromLocation(project, results[0]);
      var rest := LegacyCandidates(project, results[1..]);
      assert forall k :: 1 <= k < |results| ==> results[1..][k - 1] == results[k];
      if head.Threw? || rest.Threw? then
        Threw(NameError)
      else
        assert forall k :: 0 <= k < |results| ==> LegacyNodeFromLocation(project, results[k]).Ok? by {
          forall k | 0 <= k < |results|
            ensures LegacyNodeFromLocation(project, results[k]).Ok?
          {
            if k > 0 {
              assert results[1..][k - 1] == results[k];
            }
          }
        }
        var cs := Candidates(project, results);
        assert [head.value] + rest.value == cs by {
          assert cs[0] == head.value;
          assert forall k :: 1 <= k < |cs| ==> cs[k] == rest.value[k - 1];
        }
        Ok([head.value] + rest.value)
  }

  /**
   * get_definition_node_of_member_call_expression of finder.py: None for a
   * node that is not a member call or object creation; AttributeError when
   * the call has no `name` token; otherwise the resolver is asked at the
   * token's own column, None when it knows nothing or no candidate is a
   * definition, and the first definition in resolver order otherwise.
   */
  function LegacyGetDefinition(env: Env, node: Node, file: string): (r: Outcome<Option<(Node, string)>>)
    requires ResolverStaysInProject(env)
    ensures r.Ok? && r.value.Some? ==> IsDefinition(r.value.value.0) && InProject(env.project, r.value.value.1, r.value.value.0)
  {
    if !IsCrossFileCall(node) then Ok(None)
    else match FindChildOfType(node, Name)
      case None => Threw(AttributeError)
      case Some(nameNode) =>
        var results := env.resolver(file, nameNode.startRow, nameNode.startCol);
        if |results| == 0 then Ok(None)
        else match LegacyCandidates(env.project, results)
          case Threw(e) => Threw(e)
          case Ok(cs) =>
            var defs := Definitions(cs);
            if |defs| == 0 then Ok(None) else Ok(Some(defs[0]))
  }

  /**
   * finder.py's lookup without candidates: None for a node that is not a
   * member call or object creation, AttributeError for one without a `name`
   * token, and None when the query at the token's own column returns nothing.
   */
  lemma LegacyGetDefinitionWithoutCandidates(env: Env, node: Node, file: string)
    requires ResolverStaysInProject(env)
    ensures !IsCrossFileCall(node) ==> LegacyGetDefinition(env, node, file) == Ok(None)
    ensures IsCrossFileCall(node) && FindChildOfType(node, Name).None? ==>
              LegacyGetDefinition(env, node, file) == Threw(AttributeError)
    ensures IsCrossFileCall(node) && FindChildOfType(node, Name).Some? ==>
              var nameNode := FindChildOfType(node, Name).value;
              env.resolver(file, nameNode.startRow, nameNode.startCol) == [] ==> LegacyGetDefinition(env, node, file) == Ok(None)
  {
  }

  /** With candidates, the lookup raises NameError exactly when some location is covered by no node. */
  lemma LegacyGetDefinitionRaises(env: Env, node: Node, file: string, nameNode: Node)
    requires ResolverStaysInProject(env)
    requires IsCrossFileCall(node) && FindChildOfType(node, Name) == Some(nameNode)
    requires env.resolver(file, nameNode.startRow, nameNode.startCol) != []
    ensures var results := env.resolver(file, nameNode.startRow, nameNode.startCol);
            var r := LegacyGetDefinition(env, node, file);
            && (r.Threw? <==> exists k :: 0 <= k < |results| && NodeForRange(env.project[results[k].file], results[k].startLine, results[k].endLine).None?)
            && (r.Threw? ==> r.error == NameError)
  {
    var results := env.resolver(file, nameNode.startRow, nameNode.startCol);
    var lc := LegacyCandidates(env.project, results);
    assert LegacyGetDefinition(env, node, file)
        == match lc
           case Threw(e) => Threw(e)
           case Ok(cs) => if |Definitions(cs)| == 0 then Ok(None) else Ok(Some(Definitions(cs)[0]));
  }

  /**
   * When every location is covered, the lookup answers the first candidate,
   * in resolver order, that is a definition, and None exactly when no
   * candidate is one.
   */
  lemma LegacyGetDefinitionIsFirstDefinition(env: Env, node: Node, file: string, nameNode: Node)
    requires ResolverStaysInProject(env)
    requires IsCrossFileCall(node) && FindChildOfType(node, Name) == Some(nameNode)
    requires var results := env.resolver(file, nameNode.startRow, nameNode.startCol);
             results != [] &&
             forall k :: 0 <= k < |results| ==> NodeForRange(env.project[results[k].file], results[k].startLine, results[k].endLine).Some?
    ensures var results := env.resolver(file, nameNode.startRow, nameNode.startCol);
            var r := LegacyGetDefinition(env, node, file);
            && r.Ok?
            && (r.value.None? <==> forall k :: 0 <= k < |results| ==> !IsDefinition(NodeFromLocation(env.project, results[k]).0))
            && (r.value.Some? ==>
                  exists k :: 0 <= k < |results| && r.value.value == NodeFromLocation(env.project, results[k]) &&
                    forall j :: 0 <= j < k ==> !IsDefinition(NodeFromLocation(env.project, results[j]).0))
  {
    var results := env.resolver(file, nameNode.startRow, nameNode.startCol);
    var lc := LegacyCandidates(env.project, results);
    assert lc == Ok(Candidates(env.project, results));
    var defs := Definitions(Candidates(env.project, results));
    assert LegacyGetDefinition(env, node, file) == if |defs| == 0 then Ok(None) else Ok(Some(defs[0]));
    FirstDefinitionAmongCandidates(env.project, results);
  }

  /**
   * Where finder.py's bridge does not raise, it finds what main.py's bridge
   * finds in the same project when main.py's query, one column to the right,
   * gets the answer finder.py's query gets: the two differ only in the column
   * they ask about and in raising where main.py falls back to the root.
   */
  lemma BridgesAgree(legacy: Env, current: Env, node: Node, file: string, failed: set<string>)
    requires ResolverStaysInProject(legacy) && ResolverStaysInProject(current)
    requires current.project == legacy.project
    requires IsCrossFileCall(node) && FindChildOfType(node, Name).Some? ==>
               var nameNode := FindChildOfType(node, Name).value;
               current.resolver(file, nameNode.startRow, nameNode.startCol + 1)
                 == legacy.resolver(file, nameNode.startRow, nameNode.startCol)
    requires LegacyGetDefinition(legacy, node, file).Ok?
    ensures LegacyGetDefinition(legacy, node, file).value == GetDefinition(current, node, file, failed).0
  {
    if IsCrossFileCall(node) && FindChildOfType(node, Name).Some? {
      var nameNode := FindChildOfType(node, Name).value;
      var results := legacy.resolver(file, nameNode.startRow, nameNode.startCol);
      var found := GetDefinition(current, node, file, failed).0;
      if |results| > 0 {
        var defs := Definitions(Candidates(legacy.project, results));
        LegacyLookupWithCandidates(legacy, node, file, nameNode);
        assert found == if |defs| == 0 then None else Some(defs[0]);
      } else {
        assert found == None;
      }
    }
  }

  /** Where finder.py's lookup has candidates and raises nothing, it takes the first definition among them. */
  lemma LegacyLookupWithCandidates(env: Env, node: Node, file: string, nameNode: Node)
    requires ResolverStaysInProject(env)
    requires IsCrossFileCall(node) && FindChildOfType(node, Name) == Some(nameNode)
    requires |env.resolver(file, nameNode.startRow, nameNode.startCol)| > 0
    requires LegacyGetDefinition(env, node, file).Ok?
    ensures var defs := Definitions(Candidates(env.project, env.resolver(file, nameNode.startRow, nameNode.startCol)));
            LegacyGetDefinition(env, node, file) == if |defs| == 0 then Ok(None) else Ok(Some(defs[0]))
  {
    var results := env.resolver(file, nameNode.startRow, nameNode.startCol);
    var lc := LegacyCandidates(env.project, results);
    assert LegacyGetDefinition(env, node, file)
        == match lc
           case Threw(e) => Threw(e)
           case Ok(cs) => if |Definitions(cs)| == 0 then Ok(None) else Ok(Some(Definitions(cs)[0]));
  }

  // ----- collect_function_calls of finder.py -----

  /**
   * collect_function_calls: nothing once an exception was raised or for an
   * already visited node; otherwise mark the node visited (whatever the file
   * name, even ""), record its hits (function calls and method declarations),
   * walk the resolved callee with the same shared lists (member calls and
   * object creations), then walk each child in order.
   */
  function LCollect(env: Env, node: Node, file: string, st: LState): (r: LState)
    requires ResolverStaysInProject(env) && InProject(env.project, file, node)
    ensures st.visited <= r.visited <= st.visited + AllKeys(env.project)
    ensures st.path <= r.path && st.matches <= r.matches
    ensures st.raised.Some? || (file, node.id) in st.visited ==> r == st
    ensures st.raised.None? ==> (file, node.id) in r.visited
    decreases AllKeys(env.project) - st.visited, 0, 0
  {
    if st.raised.Some? || (file, node.id) in st.visited then st
    else
      KeyInAllKeys(env.project, file, node);
      var marked := st.(visited := st.visited + {(file, node.id)});
      var own := if IsLocalBody(node) then Recorded(node, file, env.pattern(node.text), marked) else marked;
      var followed := if IsCrossFileCall(node) then LFollow(env, node, file, own) else own;
      LChildren(env, node, 0, file, followed)
  }

  /** The cross-file step: the resolved definition is walked with the same path, no frame added. */
  function LFollow(env: Env, node: Node, file: string, st: LState): (r: LState)
    requires ResolverStaysInProject(env)
    ensures st.visited <= r.visited <= st.visited + AllKeys(env.project)
    ensures st.path <= r.path && st.matches <= r.matches
    ensures st.raised.Some? ==> r == st
    decreases AllKeys(env.project) - st.visited, 1, 0
  {
    if st.raised.Some? then st
    else match LegacyGetDefinition(env, node, file)
      case Threw(e) => st.(raised := Some(e))
      case Ok(None) => st
      case Ok(Some(target)) => LCollect(env, target.0, target.1, st)
  }

  /** The loop over the children from child `i` on. */
  function LChildren(env: Env, node: Node, i: nat, file: string, st: LState): (r: LState)
    requires ResolverStaysInProject(env) && InProject(env.project, file, node) && i <= |node.children|
    ensures st.visited <= r.visited <= st.visited + AllKeys(env.project)
    ensures st.path <= r.path && st.matches <= r.matches
    ensures st.raised.Some? ==> r == st
    decreases AllKeys(env.project) - st.visited, 1, |node.children| - i
  {
    if i == |node.children| then st
    else
      ChildInSubtrees(node, env.project[file], i);
      LChildren(env, node, i + 1, file, LCollect(env, node.children[i], file, st))
  }

  /** `get_path_object_from_node`: the entry's frame, its name passed through `str`, both lines its first line. */
  function SeedFrame(entry: Node, file: string): (p: LegacyPathObject)
    ensures p.fileName == file && p.functionName.Some?
    ensures p.startLine == p.matchLineNumber == entry.startRow + 1
  {
    LegacyPathObject(file, Some(PyStr(LegacyFunctionOrMethodName(entry))), entry.startRow + 1, entry.startRow + 1)
  }

  /**
   * search_pattern of finder.py: None, without walking, when the entry
   * function is not in its file; otherwise the state after walking the entry
   * from empty lists and an empty visited set, the path seeded with the
   * entry's own frame.
   */
  function LegacySearch(env: Env, file: string, functionName: string): (r: Option<LState>)
    requires ResolverStaysInProject(env) && file in env.project
    ensures r.None? <==> FindFunctionOrMethod(env.project[file], functionName).None?
    ensures r.Some? ==> |r.value.path| >= 1 &&
                        r.value.path[0] == SeedFrame(FindFunctionOrMethod(env.project[file], functionName).value, file)
  {
    match FindFunctionOrMethod(env.project[file], functionName)
    case None => None
    case Some(entry) =>
      var r := LCollect(env, entry, file, LState([], [SeedFrame(entry, file)], {}, None));
      assert [SeedFrame(entry, file)] <= r.path;
      Some(r)
  }

  // ----- the shape of the shared lists -----

  /**
   * A record the walker can emit: a hit in a function call or method
   * declaration of the project, whose path ends with the frame pushed for it.
   */
  ghost predicate LegacyEmitted(project: Project, m: LegacyMatch) {
    && InProject(project, m.name, m.node)
    && IsLocalBody(m.node)
    && m.text == m.node.text
    && |m.path| >= 1
    && var last := m.path[|m.path| - 1];
       && last.fileName == m.name
       && last.functionName == LegacyFunctionOrMethodName(m.node)
       && last.startLine == m.node.startRow + 1
       && last.startLine <= last.matchLineNumber <= last.startLine + CountNewlines(m.node.text)
  }

  /**
   * After `base` seed frames, the path holds one frame per match, and the
   * j-th match holds a copy of the path as it was when it was recorded.
   */
  ghost predicate Snapshots(s: LState, base: nat) {
    && |s.path| == base + |s.matches|
    && forall j :: 0 <= j < |s.matches| ==> s.matches[j].path == s.path[..base + j + 1]
  }

  /** The shared lists keep their shape, and the new records are well formed. */
  ghost predicate Grows(project: Project, st: LState, r: LState, base: nat) {
    && Snapshots(r, base)
    && forall j :: |st.matches| <= j < |r.matches| ==> LegacyEmitted(project, r.matches[j])
  }

  lemma RecordedGrows(env: Env, node: Node, file: string, st: LState, base: nat)
    requires InProject(env.project, file, node) && IsLocalBody(node) && Snapshots(st, base)
    ensures Grows(env.project, st, Recorded(node, file, env.pattern(node.text), st), base)
  {
    var offsets := env.pattern(node.text);
    var frames := HitFrames(node, file, offsets);
    var r := Recorded(node, file, offsets, st);
    forall j | 0 <= j < |r.matches|
      ensures r.matches[j].path == r.path[..base + j + 1]
    {
      if j >= |st.matches| {
        var k := j - |st.matches|;
        assert r.path[..base + j + 1] == st.path + frames[..k + 1];
      } else {
        assert r.path[..base + j + 1] == st.path[..base + j + 1];
      }
    }
    forall j | |st.matches| <= j < |r.matches|
      ensures LegacyEmitted(env.project, r.matches[j])
    {
      var k := j - |st.matches|;
      MatchLineBounds(node.startRow + 1, node.text, offsets[k]);
      assert r.matches[j].path[|r.matches[j].path| - 1] == frames[k];
    }
  }

  lemma {:induction false} LCollectGrows(env: Env, node: Node, file: string, st: LState, base: nat)
    requires ResolverStaysInProject(env) && InProject(env.project, file, node) && Snapshots(st, base)
    ensures Grows(env.project, st, LCollect(env, node, file, st), base)
    decreases AllKeys(env.project) - st.visited, 0, 0
  {
    if st.raised.None? && (file, node.id) !in st.visited {
      KeyInAllKeys(env.project, file, node);
      var marked := st.(visited := st.visited + {(file, node.id)});
      var own := if IsLocalBody(node) then Recorded(node, file, env.pattern(node.text), marked) else marked;
      var followed := if IsCrossFileCall(node) then LFollow(env, node, file, own) else own;
      var r := LChildren(env, node, 0, file, followed);
      if IsLocalBody(node) {
        RecordedGrows(env, node, file, marked, base);
      }
      if IsCrossFileCall(node) {
        LFollowGrows(env, node, file, own, base);
      }
      LChildrenGrows(env, node, 0, file, followed, base);
      forall j | |st.matches| <= j < |r.matches|
        ensures LegacyEmitted(env.project, r.matches[j])
      {
        if j < |own.matches| {
          assert r.matches[j] == own.matches[j];
        } else if j < |followed.matches| {
          assert r.matches[j] == followed.matches[j];
        }
      }
    }
  }

  lemma {:induction false} LFollowGrows(env: Env, node: Node, file: string, st: LState, base: nat)
    requires ResolverStaysInProject(env) && Snapshots(st, base)
    ensures Grows(env.project, st, LFollow(env, node, file, st), base)
    decreases AllKeys(env.project) - st.visited, 1, 0
  {
    if st.raised.None? {
      var lookup := LegacyGetDefinition(env, node, file);
      if lookup.Ok? && lookup.value.Some? {
        LCollectGrows(env, lookup.value.value.0, lookup.value.value.1, st, base);
      }
    }
  }

  lemma {:induction false} LChildrenGrows(env: Env, node: Node, i: nat, file: string, st: LState, base: nat)
    requires ResolverStaysInProject(env) && InProject(env.project, file, node) && i <= |node.children|
    requires Snapshots(st, base)
    ensures Grows(env.project, st, LChildren(env, node, i, file, st), base)
    decreases AllKeys(env.project) - st.visited, 1, |node.children| - i
  {
    if i < |node.children| {
      ChildInSubtrees(node, env.project[file], i);
      var first := LCollect(env, node.children[i], file, st);
      LCollectGrows(env, node.children[i], file, st, base);
      LChildrenGrows(env, node, i + 1, file, first, base);
      var r := LChildren(env, node, i + 1, file, first);
      forall j | |st.matches| <= j < |r.matches|
        ensures LegacyEmitted(env.project, r.matches[j])
      {
        if j < |first.matches| {
          assert r.matches[j] == first.matches[j];
        }
      }
    }
  }

  /**
   * A search's path is its seed frame followed by one frame per match, and
   * the j-th match carries the seed and the first j + 1 hit frames; the path
   * only ever grows.
   */
  lemma LegacySearchShape(env: Env, file: string, functionName: string)
    requires ResolverStaysInProject(env) && file in env.project
    ensures var r := LegacySearch(env, file, functionName);
            r.Some? ==>
              var entry := FindFunctionOrMethod(env.project[file], functionName).value;
              && |r.value.path| == 1 + |r.value.matches|
              && r.value.path[0] == SeedFrame(entry, file)
              && forall j :: 0 <= j < |r.value.matches| ==>
                   && r.value.matches[j].path == r.value.path[..j + 2]
                   && LegacyEmitted(env.project, r.value.matches[j])
  {
    var r := LegacySearch(env, file, functionName);
    if r.Some? {
      var entry := FindFunctionOrMethod(env.project[file], functionName).value;
      LCollectGrows(env, entry, file, LState([], [SeedFrame(entry, file)], {}, None), 1);
    }
  }
}
