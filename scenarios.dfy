/**
 * Worked examples of the model.  The first is the two-file setup of
 * tests/test_search_pattern.py's first case: `method1` of test1.php names
 * TestClass2 on line 11 and calls `method2` of test2.php, which names it on
 * line 7.  The last lemma holds for every project: a hit inside a plain call
 * nested in a method declaration is reported once for each of the two nodes.
 */
module Scenarios {
  import opened Wrappers
  import opened Syntax
  import opened Records
  import opened LineNumbers
  import opened Walker

  const Method1Text := "function method1() {" + "\n" + "  $t = " + "TestClass2::class;\n  $this->other->method2();\n}"
  const Method2Text := "function method2() {" + "\n" + "  return new " + "TestClass2();\n}"

  /** test1.php: `method1` on rows 9-12; its call of `method2` on row 11, the name token at column 16. */
  function Test1(): Node {
    var name := Node(3, Name, 9, 11, 9, "method1", None, []);
    var calleeName := Node(6, Name, 11, 16, 11, "method2", None, []);
    var call := Node(5, MemberCallExpression, 11, 2, 11, "$this->other->method2()", None, [calleeName]);
    var method1 := Node(2, MethodDeclaration, 9, 2, 12, Method1Text, Some("method1"), [name, call]);
    Node(1, Other, 0, 0, 14, "", None, [method1])
  }

  /** test2.php: `method2` on rows 5-7. */
  function Test2(): Node {
    var name := Node(3, Name, 5, 11, 5, "method2", None, []);
    var method2 := Node(2, MethodDeclaration, 5, 2, 7, Method2Text, Some("method2"), [name]);
    Node(1, Other, 0, 0, 9, "", None, [method2])
  }

  /** The language server knows only the call of `method2`, at any column of its name token. */
  function ScenarioResolver(): Resolver {
    (f: string, row: nat, col: nat) =>
      if f == "test1.php" && row == 11 && 16 <= col < 23 then [Location("test2.php", 5, 7)] else []
  }

  /** `re.compile(r"TestClass2").finditer`, as start offsets, for the two texts it is run over. */
  function ScenarioPattern(): Pattern {
    (t: string) => if t == Method1Text then [28] else if t == Method2Text then [34] else []
  }

  function ScenarioEnv(): Env {
    Env(map["test1.php" := Test1(), "test2.php" := Test2()], ScenarioResolver(), ScenarioPattern())
  }

  lemma ScenarioResolverStaysInProject()
    ensures ResolverStaysInProject(ScenarioEnv())
  {
    var env := ScenarioEnv();
    forall f: string, row: nat, col: nat, k: int | 0 <= k < |env.resolver(f, row, col)|
      ensures env.resolver(f, row, col)[k].file in env.project
    {
    }
  }

  /** Every node the walk reaches is a node of its file. */
  lemma ScenarioNodes()
    ensures var project := ScenarioEnv().project;
            && InProject(project, "test1.php", Test1().children[0])
            && InProject(project, "test1.php", Test1().children[0].children[0])
            && InProject(project, "test1.php", Test1().children[0].children[1])
            && InProject(project, "test1.php", Test1().children[0].children[1].children[0])
            && InProject(project, "test2.php", Test2().children[0])
            && InProject(project, "test2.php", Test2().children[0].children[0])
  {
    var method1 := Test1().children[0];
    ChildInSubtrees(Test1(), Test1(), 0);
    ChildInSubtrees(method1, Test1(), 0);
    ChildInSubtrees(method1, Test1(), 1);
    ChildInSubtrees(method1.children[1], Test1(), 0);
    ChildInSubtrees(Test2(), Test2(), 0);
    ChildInSubtrees(Test2().children[0], Test2(), 0);
  }

  /** A leaf that is neither a call nor a declaration is only marked visited. */
  lemma WalkLeaf(env: Env, node: Node, path: seq<PathObject>, file: string, fn: Node, st: State)
    requires ResolverStaysInProject(env) && InProject(env.project, file, node)
    requires !IsLocalBody(node) && !IsCrossFileCall(node) && node.children == []
    requires file != "" && (file, node.id) !in st.visited
    ensures Collect(env, node, path, file, fn, st) == Walk([], st.(visited := st.visited + {(file, node.id)}))
  {
    var marked := st.(visited := st.visited + {(file, node.id)});
    assert CollectChildren(env, node, 0, path, file, fn, marked) == Walk([], marked);
  }

  /** The children of a node whose only child is such a leaf. */
  lemma WalkOnlyLeafChild(env: Env, node: Node, path: seq<PathObject>, file: string, fn: Node, st: State)
    requires ResolverStaysInProject(env) && InProject(env.project, file, node) && |node.children| == 1
    requires !IsLocalBody(node.children[0]) && !IsCrossFileCall(node.children[0]) && node.children[0].children == []
    requires file != "" && (file, node.children[0].id) !in st.visited
    ensures CollectChildren(env, node, 0, path, file, fn, st)
         == Walk([], st.(visited := st.visited + {(file, node.children[0].id)}))
  {
    ChildInSubtrees(node, env.project[file], 0);
    var marked := st.(visited := st.visited + {(file, node.children[0].id)});
    WalkLeaf(env, node.children[0], path, file, fn, st);
    assert CollectChildren(env, node, 1, path, file, fn, marked) == Walk([], marked);
  }

  /** One step of the walk at a call node that is not itself searched. */
  lemma CollectAtCall(env: Env, node: Node, path: seq<PathObject>, file: string, fn: Node, st: State,
                      hits: seq<MatchObject>, followed: State, finished: State)
    requires ResolverStaysInProject(env) && InProject(env.project, file, node)
    requires IsCrossFileCall(node) && !IsLocalBody(node)
    requires file != "" && (file, node.id) !in st.visited
    requires FollowCall(env, node, path, file, fn, st.(visited := st.visited + {(file, node.id)})) == Walk(hits, followed)
    requires CollectChildren(env, node, 0, path, file, fn, followed) == Walk([], finished)
    ensures Collect(env, node, path, file, fn, st) == Walk(hits, finished)
  {
    var marked := st.(visited := st.visited + {(file, node.id)});
    var own: seq<MatchObject> := [];
    var call := FollowCall(env, node, path, file, fn, marked);
    var rest := CollectChildren(env, node, 0, path, file, fn, call.state);
    assert call.state == followed && rest == Walk([], finished);
    assert Collect(env, node, path, file, fn, st) == Walk(own + call.matches + rest.matches, rest.state);
    assert own + hits + [] == hits;
  }

  /** One step of the walk at a searched node that is not a call. */
  lemma CollectAtBody(env: Env, node: Node, path: seq<PathObject>, file: string, fn: Node, st: State,
                      below: seq<MatchObject>, finished: State)
    requires ResolverStaysInProject(env) && InProject(env.project, file, node)
    requires !IsCrossFileCall(node) && IsLocalBody(node)
    requires file != "" && (file, node.id) !in st.visited
    requires CollectChildren(env, node, 0, path, file, fn, st.(visited := st.visited + {(file, node.id)})) == Walk(below, finished)
    ensures Collect(env, node, path, file, fn, st) == Walk(MatchesIn(node, file, path, env.pattern(node.text)) + below, finished)
  {
    var marked := st.(visited := st.visited + {(file, node.id)});
    var own := MatchesIn(node, file, path, env.pattern(node.text));
    var rest := CollectChildren(env, node, 0, path, file, fn, marked);
    assert rest.matches == below && rest.state == finished;
    assert Collect(env, node, path, file, fn, st) == Walk(own + [] + rest.matches, rest.state);
    assert own + [] + below == own + below;
  }

  lemma FindsMethod1()
    ensures FindFunctionOrMethod(Test1(), "method1") == Some(Test1().children[0])
  {
    var root1 := Test1();
    var method1 := root1.children[0];
    assert FindFirst(method1, m => IsDefinition(m) && m.nameField == Some("method1")) == Some(method1);
  }

  lemma ResolvesCall()
    ensures ResolverStaysInProject(ScenarioEnv())
    ensures GetDefinition(ScenarioEnv(), Test1().children[0].children[1], "test1.php", {})
         == (Some((Test2().children[0], "test2.php")), {})
  {
    ScenarioResolverStaysInProject();
    var call := Test1().children[0].children[1];
    assert FindChildOfType(call, Name) == Some(call.children[0]);
    assert NodeForRange(Test2(), 5, 7) == Some(Test2().children[0]);
  }

  /** Both hits are on the second line of their function's text. */
  lemma HitLines()
    ensures NewlinesBefore(Method1Text, 28) == 1
    ensures NewlinesBefore(Method2Text, 34) == 1
  {
    assert CountNewlines("\n") == 1 by { assert "\n"[..0] == []; }
    assert Method1Text[..28] == "function method1() {" + "\n" + "  $t = ";
    NoNewlines("function method1() {");
    NoNewlines("  $t = ");
    CountNewlinesAppend("function method1() {", "\n");
    CountNewlinesAppend("function method1() {" + "\n", "  $t = ");
    assert Method2Text[..34] == "function method2() {" + "\n" + "  return new ";
    NoNewlines("function method2() {");
    NoNewlines("  return new ");
    CountNewlinesAppend("function method2() {", "\n");
    CountNewlinesAppend("function method2() {" + "\n", "  return new ");
  }

  /** Walking `method2` reports its one hit, with the path it was given. */
  lemma WalkMethod2(path: seq<PathObject>, st: State)
    requires ("test2.php", 2) !in st.visited && ("test2.php", 3) !in st.visited
    ensures ResolverStaysInProject(ScenarioEnv())
    ensures InProject(ScenarioEnv().project, "test2.php", Test2().children[0])
    ensures Collect(ScenarioEnv(), Test2().children[0], path, "test2.php", Test2().children[0], st)
         == Walk([MatchObject(Test2().children[0], "test2.php", Method2Text, 6, 7, path)],
                 st.(visited := st.visited + {("test2.php", 2), ("test2.php", 3)}))
  {
    ScenarioResolverStaysInProject();
    ScenarioNodes();
    HitLines();
    var env := ScenarioEnv();
    var method2 := Test2().children[0];
    var hit := MatchObject(method2, "test2.php", Method2Text, 6, 7, path);
    var marked := st.(visited := st.visited + {("test2.php", 2)});
    WalkOnlyLeafChild(env, method2, path, "test2.php", method2, marked);
    CollectAtBody(env, method2, path, "test2.php", method2, st, [], marked.(visited := marked.visited + {("test2.php", 3)}));
    assert env.pattern(Method2Text) == [34];
    assert MatchesIn(method2, "test2.php", path, [34]) == [hit];
    assert [hit] + [] == [hit];
  }

  lemma NameOfMethod1()
    ensures FunctionOrMethodName(Test1().children[0]) == "method1"
  {
    var method1 := Test1().children[0];
    assert OwnNameFrom(method1, 0) == Some("method1");
  }

  /** The resolved call is followed into `method2`, with one frame for the call. */
  lemma FollowsCall(st: State)
    requires st.failedToFollow == {}
    requires ("test2.php", 2) !in st.visited && ("test2.php", 3) !in st.visited
    ensures ResolverStaysInProject(ScenarioEnv())
    ensures FollowCall(ScenarioEnv(), Test1().children[0].children[1], [], "test1.php", Test1().children[0], st)
         == Walk([MatchObject(Test2().children[0], "test2.php", Method2Text, 6, 7, [PathObject("test1.php", "method1", 10, 12)])],
                 st.(visited := st.visited + {("test2.php", 2), ("test2.php", 3)}))
  {
    ScenarioResolverStaysInProject();
    ScenarioNodes();
    var env := ScenarioEnv();
    var method1 := Test1().children[0];
    var call := method1.children[1];
    var method2 := Test2().children[0];
    var frame := PathObject("test1.php", "method1", 10, 12);
    ResolvesCall();
    NameOfMethod1();
    assert CallFrame("test1.php", method1, call) == frame;
    WalkMethod2([frame], st);
    var lookup := GetDefinition(env, call, "test1.php", st.failedToFollow);
    assert lookup == (Some((method2, "test2.php")), {});
    assert st.(failedToFollow := lookup.1) == st;
    assert [] + [CallFrame("test1.php", method1, call)] == [frame];
    assert FollowCall(env, call, [], "test1.php", method1, st)
        == Collect(env, lookup.0.value.0, [] + [CallFrame("test1.php", method1, call)], lookup.0.value.1, lookup.0.value.0, st);
  }

  /** The call's name token is still unvisited after `method2` has been walked. */
  lemma NameUnvisitedAfterFollow(visited: set<Key>)
    requires ("test1.php", 6) !in visited
    ensures ("test1.php", 6) !in visited + {("test1.php", 5)} + {("test2.php", 2), ("test2.php", 3)}
  {
  }

  lemma CallChildren(st: State)
    requires ("test1.php", 6) !in st.visited
    ensures ResolverStaysInProject(ScenarioEnv())
    ensures InProject(ScenarioEnv().project, "test1.php", Test1().children[0].children[1])
    ensures CollectChildren(ScenarioEnv(), Test1().children[0].children[1], 0, [], "test1.php", Test1().children[0], st)
         == Walk([], st.(visited := st.visited + {("test1.php", 6)}))
  {
    ScenarioResolverStaysInProject();
    ScenarioNodes();
    WalkOnlyLeafChild(ScenarioEnv(), Test1().children[0].children[1], [], "test1.php", Test1().children[0], st);
  }

  /** The call on row 11 leads to `method2`, whose hit carries one frame for the call. */
  lemma WalkCall(st: State)
    requires st.failedToFollow == {}
    requires ("test1.php", 5) !in st.visited && ("test1.php", 6) !in st.visited
    requires ("test2.php", 2) !in st.visited && ("test2.php", 3) !in st.visited
    ensures ResolverStaysInProject(ScenarioEnv())
    ensures InProject(ScenarioEnv().project, "test1.php", Test1().children[0].children[1])
    ensures Collect(ScenarioEnv(), Test1().children[0].children[1], [], "test1.php", Test1().children[0], st)
         == Walk([MatchObject(Test2().children[0], "test2.php", Method2Text, 6, 7, [PathObject("test1.php", "method1", 10, 12)])],
                 st.(visited := st.visited + {("test1.php", 5)} + {("test2.php", 2), ("test2.php", 3)} + {("test1.php", 6)}))
  {
    var call := Test1().children[0].children[1];
    assert call.id == 5 && IsCrossFileCall(call) && !IsLocalBody(call);
    var m3 := st.(visited := st.visited + {("test1.php", call.id)});
    var m4 := m3.(visited := m3.visited + {("test2.php", 2), ("test2.php", 3)});
    FollowsCall(m3);
    NameUnvisitedAfterFollow(st.visited);
    CallChildren(m4);
    CollectAtCall(ScenarioEnv(), call, [], "test1.php", Test1().children[0], st,
                  [MatchObject(Test2().children[0], "test2.php", Method2Text, 6, 7, [PathObject("test1.php", "method1", 10, 12)])],
                  m4, m4.(visited := m4.visited + {("test1.php", 6)}));
  }

  /** The keys of `method1`'s name token and call are distinct from those walked after them. */
  lemma KeysFreshAfterName(visited: set<Key>)
    requires ("test1.php", 5) !in visited && ("test1.php", 6) !in visited
    requires ("test2.php", 2) !in visited && ("test2.php", 3) !in visited
    ensures var after := visited + {("test1.php", 3)};
            && ("test1.php", 5) !in after && ("test1.php", 6) !in after
            && ("test2.php", 2) !in after && ("test2.php", 3) !in after
  {
  }

  lemma KeysFreshAfterMethod1(visited: set<Key>)
    requires ("test1.php", 3) !in visited && ("test1.php", 5) !in visited && ("test1.php", 6) !in visited
    requires ("test2.php", 2) !in visited && ("test2.php", 3) !in visited
    ensures var after := visited + {("test1.php", 2)};
            && ("test1.php", 3) !in after && ("test1.php", 5) !in after && ("test1.php", 6) !in after
            && ("test2.php", 2) !in after && ("test2.php", 3) !in after
  {
  }

  /** The children of a node with two children: the first child's findings, then the second's. */
  lemma WalkTwoChildren(env: Env, node: Node, path: seq<PathObject>, file: string, fn: Node, st: State,
                        first: Walk, second: Walk)
    requires ResolverStaysInProject(env) && InProject(env.project, file, node) && |node.children| == 2
    requires InProject(env.project, file, node.children[0]) && InProject(env.project, file, node.children[1])
    requires Collect(env, node.children[0], path, file, fn, st) == first
    requires Collect(env, node.children[1], path, file, fn, first.state) == second
    ensures CollectChildren(env, node, 0, path, file, fn, st) == Walk(first.matches + second.matches, second.state)
  {
    assert CollectChildren(env, node, 2, path, file, fn, second.state) == Walk([], second.state);
    assert CollectChildren(env, node, 1, path, file, fn, first.state) == Walk(second.matches + [], second.state);
    assert second.matches + [] == second.matches;
  }

  /** Below `method1`: nothing at its name token, then `method2`'s hit through the call. */
  lemma Method1Children(st: State)
    requires st.failedToFollow == {}
    requires ("test1.php", 3) !in st.visited && ("test1.php", 5) !in st.visited && ("test1.php", 6) !in st.visited
    requires ("test2.php", 2) !in st.visited && ("test2.php", 3) !in st.visited
    ensures ResolverStaysInProject(ScenarioEnv())
    ensures InProject(ScenarioEnv().project, "test1.php", Test1().children[0])
    ensures CollectChildren(ScenarioEnv(), Test1().children[0], 0, [], "test1.php", Test1().children[0], st).matches
         == [MatchObject(Test2().children[0], "test2.php", Method2Text, 6, 7, [PathObject("test1.php", "method1", 10, 12)])]
  {
    ScenarioResolverStaysInProject();
    ScenarioNodes();
    var env := ScenarioEnv();
    var method1 := Test1().children[0];
    var first := Collect(env, method1.children[0], [], "test1.php", method1, st);
    WalkLeaf(env, method1.children[0], [], "test1.php", method1, st);
    KeysFreshAfterName(st.visited);
    WalkCall(first.state);
    var second := Collect(env, method1.children[1], [], "test1.php", method1, first.state);
    WalkTwoChildren(env, method1, [], "test1.php", method1, st, first, second);
  }

  /** Walking `method1` reports its own hit, then the hit of `method2` through the call on line 12. */
  lemma WalkMethod1(st: State)
    requires st.failedToFollow == {}
    requires ("test1.php", 2) !in st.visited && ("test1.php", 3) !in st.visited
    requires ("test1.php", 5) !in st.visited && ("test1.php", 6) !in st.visited
    requires ("test2.php", 2) !in st.visited && ("test2.php", 3) !in st.visited
    ensures ResolverStaysInProject(ScenarioEnv())
    ensures InProject(ScenarioEnv().project, "test1.php", Test1().children[0])
    ensures Collect(ScenarioEnv(), Test1().children[0], [], "test1.php", Test1().children[0], st).matches
         == [MatchObject(Test1().children[0], "test1.php", Method1Text, 10, 11, []),
             MatchObject(Test2().children[0], "test2.php", Method2Text, 6, 7, [PathObject("test1.php", "method1", 10, 12)])]
  {
    ScenarioResolverStaysInProject();
    ScenarioNodes();
    HitLines();
    var env := ScenarioEnv();
    var method1 := Test1().children[0];
    var marked := st.(visited := st.visited + {("test1.php", 2)});
    KeysFreshAfterMethod1(st.visited);
    Method1Children(marked);
    var below := CollectChildren(env, method1, 0, [], "test1.php", method1, marked);
    CollectAtBody(env, method1, [], "test1.php", method1, st, below.matches, below.state);
    assert env.pattern(Method1Text) == [28];
    assert MatchesIn(method1, "test1.php", [], [28]) == [MatchObject(method1, "test1.php", Method1Text, 10, 11, [])];
  }

  /**
   * search_pattern(test1.php, "method1", TestClass2) gives two matches: the
   * one in test1.php on line 11 with an empty path, then the one in
   * test2.php on line 7, reached through the call on line 12 of `method1`.
   */
  lemma TestSearchPatternTest1()
    ensures ResolverStaysInProject(ScenarioEnv())
    ensures var ms := SearchResult(ScenarioEnv(), "test1.php", "method1", {}).matches;
            && |ms| == 2
            && ms[0].fileName == "test1.php" && ms[0].matchLineNumber == 11 && ms[0].path == []
            && ms[1].fileName == "test2.php" && ms[1].matchLineNumber == 7
            && ms[1].path == [PathObject("test1.php", "method1", 10, 12)]
  {
    FindsMethod1();
    WalkMethod1(State({}, {}));
  }

  /**
   * A method declaration whose body is one plain function call: the search
   * reports the declaration's hits and then, again, the hits in the call's
   * own text, so a hit inside the call is reported twice, on the same line.
   */
  lemma NestedCallReportedTwice(env: Env, file: string, functionName: string, entry: Node, call: Node)
    requires ResolverStaysInProject(env) && file in env.project && file != ""
    requires FindFunctionOrMethod(env.project[file], functionName) == Some(entry)
    requires entry.kind == MethodDeclaration && entry.children == [call]
    requires call.kind == FunctionCall && call.children == [] && call.id != entry.id
    ensures SearchResult(env, file, functionName, {}).matches
         == MatchesIn(entry, file, [], env.pattern(entry.text)) + MatchesIn(call, file, [], env.pattern(call.text))
  {
    assert PreOrder(call) == [call];
    assert PreOrderFrom(entry, 1) == [];
    assert PreOrderFrom(entry, 0) == [call];
    var order := PreOrder(entry);
    assert order == [entry, call];
    assert order[1..] == [call] && order[1..][1..] == [];
    SearchWithoutCalls(env, file, functionName, {});
    var own := MatchesIn(entry, file, [], env.pattern(entry.text));
    var nested := MatchesIn(call, file, [], env.pattern(call.text));
    assert LocalMatches([call], file, [], env.pattern) == nested + [];
    assert LocalMatches(order, file, [], env.pattern) == own + LocalMatches([call], file, [], env.pattern);
    assert nested + [] == nested;
  }
}
