/**
 * What a walk of main.py reports, cross-file calls included: the nodes it
 * visits for the first time, in visit order, each with the path it was
 * reached with.  Every such node that is a function call or method
 * declaration contributes exactly the records of its own hits, as one block,
 * and nothing else is reported.
 */
module WalkerTrace {
  import opened Syntax
  import opened Records
  import opened Walker

  /** A first visit: the node, its file, and the call path it was reached with. */
  datatype Visit = Visit(node: Node, file: string, path: seq<PathObject>)

  /** The nodes Collect visits for the first time, in the order it visits them. */
  ghost function Visits(env: Env, node: Node, path: seq<PathObject>, file: string, fn: Node, st: State): seq<Visit>
    requires ResolverStaysInProject(env) && InProject(env.project, file, node)
    decreases AllKeys(env.project) - st.visited, 0, 0
  {
    if file == "" || (file, node.id) in st.visited then []
    else
      KeyInAllKeys(env.project, file, node);
      var marked := st.(visited := st.visited + {(file, node.id)});
      var followed := if IsCrossFileCall(node) then FollowCall(env, node, path, file, fn, marked).state else marked;
      [Visit(node, file, path)]
      + (if IsCrossFileCall(node) then FollowVisits(env, node, path, file, fn, marked) else [])
      + ChildrenVisits(env, node, 0, path, file, fn, followed)
  }

  /** The first visits made through a resolved call. */
  ghost function FollowVisits(env: Env, node: Node, path: seq<PathObject>, file: string, fn: Node, st: State)
    : seq<Visit>
    requires ResolverStaysInProject(env)
    decreases AllKeys(env.project) - st.visited, 1, 0
  {
    var lookup := GetDefinition(env, node, file, st.failedToFollow);
    var resolved := st.(failedToFollow := lookup.1);
    match lookup.0
    case None => []
    case Some(target) => Visits(env, target.0, path + [CallFrame(file, fn, node)], target.1, target.0, resolved)
  }

  /** The first visits made by the children from child `i` on. */
  ghost function ChildrenVisits(env: Env, node: Node, i: nat, path: seq<PathObject>, file: string, fn: Node,
                                st: State): seq<Visit>
    requires ResolverStaysInProject(env) && InProject(env.project, file, node) && i <= |node.children|
    decreases AllKeys(env.project) - st.visited, 1, |node.children| - i
  {
    if i == |node.children| then []
    else
      ChildInSubtrees(node, env.project[file], i);
      Visits(env, node.children[i], path, file, fn, st)
      + ChildrenVisits(env, node, i + 1, path, file, fn, Collect(env, node.children[i], path, file, fn, st).state)
  }

  /** The records a visit contributes: its node's hits when it is a function call or method declaration. */
  function OwnHits(v: Visit, pattern: Pattern): seq<MatchObject> {
    if IsLocalBody(v.node) then MatchesIn(v.node, v.file, v.path, pattern(v.node.text)) else []
  }

  /** The records of a sequence of visits, block after block. */
  function Hits(vs: seq<Visit>, pattern: Pattern): seq<MatchObject> {
    if vs == [] then [] else OwnHits(vs[0], pattern) + Hits(vs[1..], pattern)
  }

  ghost function VisitKeys(vs: seq<Visit>): set<Key> {
    set k | 0 <= k < |vs| :: (vs[k].file, vs[k].node.id)
  }

  ghost predicate DistinctVisits(vs: seq<Visit>) {
    forall a, b :: 0 <= a < b < |vs| ==> (vs[a].file, vs[a].node.id) != (vs[b].file, vs[b].node.id)
  }

  /**
   * `w` reports exactly the hits of the visits `vs`, block after block; the
   * visits are exactly the keys `w` newly marked, each once; each is a node
   * of the project reached with a path extending `path`.
   */
  ghost predicate Accounts(project: Project, pattern: Pattern, st: State, path: seq<PathObject>, w: Walk, vs: seq<Visit>) {
    && w.matches == Hits(vs, pattern)
    && VisitKeys(vs) == w.state.visited - st.visited
    && DistinctVisits(vs)
    && forall k :: 0 <= k < |vs| ==> InProject(project, vs[k].file, vs[k].node) && path <= vs[k].path
  }

  lemma {:induction false} HitsAppend(a: seq<Visit>, b: seq<Visit>, pattern: Pattern)
    ensures Hits(a + b, pattern) == Hits(a, pattern) + Hits(b, pattern)
  {
    if a == [] {
      assert a + b == b;
    } else {
      assert (a + b)[1..] == a[1..] + b;
      HitsAppend(a[1..], b, pattern);
    }
  }

  lemma VisitKeysAppend(a: seq<Visit>, b: seq<Visit>)
    ensures VisitKeys(a + b) == VisitKeys(a) + VisitKeys(b)
  {
    forall key | key in VisitKeys(a + b)
      ensures key in VisitKeys(a) + VisitKeys(b)
    {
      var k :| 0 <= k < |a + b| && key == ((a + b)[k].file, (a + b)[k].node.id);
      if k < |a| {
        assert (a + b)[k] == a[k];
      } else {
        assert (a + b)[k] == b[k - |a|];
      }
    }
    forall key | key in VisitKeys(a) + VisitKeys(b)
      ensures key in VisitKeys(a + b)
    {
      if key in VisitKeys(a) {
        var k :| 0 <= k < |a| && key == (a[k].file, a[k].node.id);
        assert (a + b)[k] == a[k];
      } else {
        var k :| 0 <= k < |b| && key == (b[k].file, b[k].node.id);
        assert (a + b)[|a| + k] == b[k];
      }
    }
  }

  lemma DistinctVisitsAppend(a: seq<Visit>, b: seq<Visit>)
    requires DistinctVisits(a) && DistinctVisits(b) && VisitKeys(a) !! VisitKeys(b)
    ensures DistinctVisits(a + b)
  {
    forall x, y | 0 <= x < y < |a + b|
      ensures ((a + b)[x].file, (a + b)[x].node.id) != ((a + b)[y].file, (a + b)[y].node.id)
    {
      if y < |a| {
        assert (a + b)[x] == a[x] && (a + b)[y] == a[y];
      } else if x >= |a| {
        assert (a + b)[x] == b[x - |a|] && (a + b)[y] == b[y - |a|];
      } else {
        assert (a + b)[x] == a[x] && (a + b)[y] == b[y - |a|];
        assert (a[x].file, a[x].node.id) in VisitKeys(a);
        assert (b[y - |a|].file, b[y - |a|].node.id) in VisitKeys(b);
      }
    }
  }

  lemma ReachedAppend(project: Project, path: seq<PathObject>, a: seq<Visit>, b: seq<Visit>)
    requires forall k :: 0 <= k < |a| ==> InProject(project, a[k].file, a[k].node) && path <= a[k].path
    requires forall k :: 0 <= k < |b| ==> InProject(project, b[k].file, b[k].node) && path <= b[k].path
    ensures forall k :: 0 <= k < |a + b| ==> InProject(project, (a + b)[k].file, (a + b)[k].node) && path <= (a + b)[k].path
  {
    forall k | 0 <= k < |a + b|
      ensures InProject(project, (a + b)[k].file, (a + b)[k].node) && path <= (a + b)[k].path
    {
      if k < |a| {
        assert (a + b)[k] == a[k];
      } else {
        assert (a + b)[k] == b[k - |a|];
      }
    }
  }

  /** The records of the k-th visit form one block, after those of the earlier visits and before the later ones. */
  lemma {:induction false} VisitBlock(vs: seq<Visit>, k: nat, pattern: Pattern)
    requires k < |vs|
    ensures Hits(vs, pattern) == Hits(vs[..k], pattern) + OwnHits(vs[k], pattern) + Hits(vs[k + 1..], pattern)
  {
    var before, here, after := vs[..k], [vs[k]], vs[k + 1..];
    assert before + here == vs[..k + 1];
    assert vs[..k + 1] + after == vs;
    HitsAppend(vs[..k + 1], after, pattern);
    HitsAppend(before, here, pattern);
    var own := OwnHits(vs[k], pattern);
    assert Hits(here, pattern) == own by {
      assert here[1..] == [];
    }
  }

  /** Two runs of visits with disjoint keys concatenate into one run. */
  lemma JoinVisits(project: Project, pattern: Pattern, s0: State, s1: State, s2: State, path: seq<PathObject>,
                   wa: Walk, a: seq<Visit>, wb: Walk, b: seq<Visit>)
    requires s0.visited <= s1.visited <= s2.visited
    requires wa.state == s1 && wb.state == s2
    requires Accounts(project, pattern, s0, path, wa, a) && Accounts(project, pattern, s1, path, wb, b)
    ensures Accounts(project, pattern, s0, path, Walk(wa.matches + wb.matches, s2), a + b)
  {
    HitsAppend(a, b, pattern);
    VisitKeysAppend(a, b);
    DistinctVisitsAppend(a, b);
    ReachedAppend(project, path, a, b);
  }

  /** The walk from `node` reports exactly the hits of its first visits, the first being `node` itself. */
  lemma {:induction false} CollectAccounts(env: Env, node: Node, path: seq<PathObject>, file: string, fn: Node,
                                           st: State)
    requires ResolverStaysInProject(env) && InProject(env.project, file, node)
    ensures Accounts(env.project, env.pattern, st, path, Collect(env, node, path, file, fn, st),
                     Visits(env, node, path, file, fn, st))
    ensures file != "" && (file, node.id) !in st.visited ==>
              Visits(env, node, path, file, fn, st)[0] == Visit(node, file, path)
    decreases AllKeys(env.project) - st.visited, 0, 0
  {
    if file != "" && (file, node.id) !in st.visited {
      KeyInAllKeys(env.project, file, node);
      var marked := st.(visited := st.visited + {(file, node.id)});
      var own := [Visit(node, file, path)];
      var fw := if IsCrossFileCall(node) then FollowCall(env, node, path, file, fn, marked) else Walk([], marked);
      var fv := if IsCrossFileCall(node) then FollowVisits(env, node, path, file, fn, marked) else [];
      var rw := CollectChildren(env, node, 0, path, file, fn, fw.state);
      var rv := ChildrenVisits(env, node, 0, path, file, fn, fw.state);
      assert Collect(env, node, path, file, fn, st) == Walk(OwnHits(own[0], env.pattern) + fw.matches + rw.matches, rw.state);
      assert Visits(env, node, path, file, fn, st) == own + fv + rv;
      assert Hits(own, env.pattern) == OwnHits(own[0], env.pattern) + [] by {
        assert own[1..] == [];
      }
      assert VisitKeys(own) == {(file, node.id)} by {
        assert own[0] == Visit(node, file, path);
      }
      assert Accounts(env.project, env.pattern, st, path, Walk(OwnHits(own[0], env.pattern), marked), own);
      if IsCrossFileCall(node) {
        FollowAccounts(env, node, path, file, fn, marked);
        assert forall k :: 0 <= k < |fv| ==> path <= path + [CallFrame(file, fn, node)] <= fv[k].path;
      } else {
        assert VisitKeys(fv) == {};
      }
      assert Accounts(env.project, env.pattern, marked, path, fw, fv);
      JoinVisits(env.project, env.pattern, st, marked, fw.state, path,
                 Walk(OwnHits(own[0], env.pattern), marked), own, fw, fv);
      ChildrenAccounts(env, node, 0, path, file, fn, fw.state);
      JoinVisits(env.project, env.pattern, st, fw.state, rw.state, path,
                 Walk(OwnHits(own[0], env.pattern) + fw.matches, fw.state), own + fv, rw, rv);
    }
  }

  /** A resolved call reports exactly the hits of the target's first visits, all with the call's frame. */
  lemma {:induction false} FollowAccounts(env: Env, node: Node, path: seq<PathObject>, file: string, fn: Node,
                                          st: State)
    requires ResolverStaysInProject(env)
    ensures Accounts(env.project, env.pattern, st, path + [CallFrame(file, fn, node)],
                     FollowCall(env, node, path, file, fn, st), FollowVisits(env, node, path, file, fn, st))
    decreases AllKeys(env.project) - st.visited, 1, 0
  {
    var lookup := GetDefinition(env, node, file, st.failedToFollow);
    var resolved := st.(failedToFollow := lookup.1);
    if lookup.0.Some? {
      var target := lookup.0.value;
      CollectAccounts(env, target.0, path + [CallFrame(file, fn, node)], target.1, target.0, resolved);
    } else {
      assert VisitKeys([]) == {};
    }
  }

  lemma {:induction false} ChildrenAccounts(env: Env, node: Node, i: nat, path: seq<PathObject>, file: string,
                                            fn: Node, st: State)
    requires ResolverStaysInProject(env) && InProject(env.project, file, node) && i <= |node.children|
    ensures Accounts(env.project, env.pattern, st, path, CollectChildren(env, node, i, path, file, fn, st),
                     ChildrenVisits(env, node, i, path, file, fn, st))
    decreases AllKeys(env.project) - st.visited, 1, |node.children| - i
  {
    if i == |node.children| {
      assert VisitKeys([]) == {};
    } else {
      ChildInSubtrees(node, env.project[file], i);
      var child := node.children[i];
      var first := Collect(env, child, path, file, fn, st);
      CollectAccounts(env, child, path, file, fn, st);
      ChildrenAccounts(env, node, i + 1, path, file, fn, first.state);
      JoinVisits(env.project, env.pattern, st, first.state, CollectChildren(env, node, i + 1, path, file, fn, first.state).state,
                 path, first, Visits(env, child, path, file, fn, st),
                 CollectChildren(env, node, i + 1, path, file, fn, first.state),
                 ChildrenVisits(env, node, i + 1, path, file, fn, first.state));
    }
  }

  /**
   * A search reports exactly the hits of the nodes it visits, in visit order,
   * one block per function call or method declaration; it visits each of the
   * keys it marks exactly once, starting with the entry function and the
   * empty path.
   */
  lemma SearchAccounts(env: Env, file: string, functionName: string, failed: set<string>)
    requires ResolverStaysInProject(env) && file in env.project && file != ""
    requires FindFunctionOrMethod(env.project[file], functionName).Some?
    ensures var entry := FindFunctionOrMethod(env.project[file], functionName).value;
            var w := SearchResult(env, file, functionName, failed);
            var vs := Visits(env, entry, [], file, entry, State({}, failed));
            && w.matches == Hits(vs, env.pattern)
            && VisitKeys(vs) == w.state.visited
            && DistinctVisits(vs)
            && vs[0] == Visit(entry, file, [])
  {
    var entry := FindFunctionOrMethod(env.project[file], functionName).value;
    CollectAccounts(env, entry, [], file, entry, State({}, failed));
  }

  /**
   * Completeness: each visited node's own hits are in the search result, as
   * one block between those of the nodes visited before and after it.
   */
  lemma SearchReportsEveryVisit(env: Env, file: string, functionName: string, failed: set<string>)
    requires ResolverStaysInProject(env) && file in env.project && file != ""
    requires FindFunctionOrMethod(env.project[file], functionName).Some?
    ensures var entry := FindFunctionOrMethod(env.project[file], functionName).value;
            var w := SearchResult(env, file, functionName, failed);
            var vs := Visits(env, entry, [], file, entry, State({}, failed));
            forall k :: 0 <= k < |vs| ==>
              w.matches == Hits(vs[..k], env.pattern) + OwnHits(vs[k], env.pattern) + Hits(vs[k + 1..], env.pattern)
  {
    var entry := FindFunctionOrMethod(env.project[file], functionName).value;
    var vs := Visits(env, entry, [], file, entry, State({}, failed));
    SearchAccounts(env, file, functionName, failed);
    forall k | 0 <= k < |vs|
      ensures Hits(vs, env.pattern) == Hits(vs[..k], env.pattern) + OwnHits(vs[k], env.pattern) + Hits(vs[k + 1..], env.pattern)
    {
      VisitBlock(vs, k, env.pattern);
    }
  }

  /**
   * A cross-file call that resolves to a definition not yet visited is
   * followed at once: the definition is the next node visited, reached with
   * the caller's path plus this call's frame.
   */
  lemma {:induction false} CallVisitsTargetNext(env: Env, node: Node, path: seq<PathObject>, file: string, fn: Node,
                                                st: State)
    requires ResolverStaysInProject(env) && InProject(env.project, file, node)
    requires file != "" && (file, node.id) !in st.visited && IsCrossFileCall(node)
    ensures var marked := st.(visited := st.visited + {(file, node.id)});
            var lookup := GetDefinition(env, node, file, marked.failedToFollow);
            lookup.0.Some? && lookup.0.value.1 != "" && (lookup.0.value.1, lookup.0.value.0.id) !in marked.visited ==>
              |Visits(env, node, path, file, fn, st)| >= 2 &&
              Visits(env, node, path, file, fn, st)[1] == Visit(lookup.0.value.0, lookup.0.value.1, path + [CallFrame(file, fn, node)])
  {
    var marked := st.(visited := st.visited + {(file, node.id)});
    var lookup := GetDefinition(env, node, file, marked.failedToFollow);
    if lookup.0.Some? && lookup.0.value.1 != "" && (lookup.0.value.1, lookup.0.value.0.id) !in marked.visited {
      var target := lookup.0.value;
      var resolved := marked.(failedToFollow := lookup.1);
      var fv := FollowVisits(env, node, path, file, fn, marked);
      assert fv == Visits(env, target.0, path + [CallFrame(file, fn, node)], target.1, target.0, resolved);
      assert fv[0] == Visit(target.0, target.1, path + [CallFrame(file, fn, node)]);
    }
  }
}
