/**
 * What a walk of finder.py records, cross-file calls included: the nodes it
 * visits for the first time, in visit order.  When nothing is raised, every
 * such node that is a function call or method declaration pushes the frames
 * of its own hits onto the shared path and appends their records, as one
 * block each, and nothing else is pushed or appended.
 */
module LegacyTrace {
  import opened Wrappers
  import opened Syntax
  import opened Walker
  import opened Legacy

  /** A first visit of the older walker: the node and its file (the path is shared, not passed down). */
  datatype LVisit = LVisit(node: Node, file: string)

  /** The nodes LCollect visits for the first time, in the order it visits them. */
  ghost function LVisits(env: Env, node: Node, file: string, st: LState): seq<LVisit>
    requires ResolverStaysInProject(env) && InProject(env.project, file, node)
    decreases AllKeys(env.project) - st.visited, 0, 0
  {
    if st.raised.Some? || (file, node.id) in st.visited then []
    else
      KeyInAllKeys(env.project, file, node);
      var marked := st.(visited := st.visited + {(file, node.id)});
      var own := if IsLocalBody(node) then Recorded(node, file, env.pattern(node.text), marked) else marked;
      var followed := if IsCrossFileCall(node) then LFollow(env, node, file, own) else own;
      [LVisit(node, file)]
      + (if IsCrossFileCall(node) then LFollowVisits(env, node, file, own) else [])
      + LChildrenVisits(env, node, 0, file, followed)
  }

  /** The first visits made through a resolved call. */
  ghost function LFollowVisits(env: Env, node: Node, file: string, st: LState): seq<LVisit>
    requires ResolverStaysInProject(env)
    decreases AllKeys(env.project) - st.visited, 1, 0
  {
    if st.raised.Some? then []
    else match LegacyGetDefinition(env, node, file)
      case Threw(_) => []
      case Ok(None) => []
      case Ok(Some(target)) => LVisits(env, target.0, target.1, st)
  }

  /** The first visits made by the children from child `i` on. */
  ghost function LChildrenVisits(env: Env, node: Node, i: nat, file: string, st: LState): seq<LVisit>
    requires ResolverStaysInProject(env) && InProject(env.project, file, node) && i <= |node.children|
    decreases AllKeys(env.project) - st.visited, 1, |node.children| - i
  {
    if i == |node.children| then []
    else
      ChildInSubtrees(node, env.project[file], i);
      LVisits(env, node.children[i], file, st)
      + LChildrenVisits(env, node, i + 1, file, LCollect(env, node.children[i], file, st))
  }

  /** The frames a visit pushes: one per hit when it is a function call or method declaration. */
  function OwnFrames(v: LVisit, pattern: Pattern): seq<LegacyPathObject> {
    if IsLocalBody(v.node) then HitFrames(v.node, v.file, pattern(v.node.text)) else []
  }

  /** The records a visit appends when the shared path is `path` as it starts. */
  function OwnRecords(v: LVisit, pattern: Pattern, path: seq<LegacyPathObject>): seq<LegacyMatch> {
    if IsLocalBody(v.node) then HitMatches(v.node, v.file, pattern(v.node.text), path) else []
  }

  /** The frames of a sequence of visits, block after block. */
  function VisitFrames(vs: seq<LVisit>, pattern: Pattern): seq<LegacyPathObject> {
    if vs == [] then [] else OwnFrames(vs[0], pattern) + VisitFrames(vs[1..], pattern)
  }

  /** The records of a sequence of visits, each block taken against the path its predecessors left. */
  function VisitRecords(vs: seq<LVisit>, pattern: Pattern, path: seq<LegacyPathObject>): seq<LegacyMatch> {
    if vs == [] then []
    else OwnRecords(vs[0], pattern, path) + VisitRecords(vs[1..], pattern, path + OwnFrames(vs[0], pattern))
  }

  ghost function LVisitKeys(vs: seq<LVisit>): set<Key> {
    set k | 0 <= k < |vs| :: (vs[k].file, vs[k].node.id)
  }

  ghost predicate DistinctLVisits(vs: seq<LVisit>) {
    forall a, b :: 0 <= a < b < |vs| ==> (vs[a].file, vs[a].node.id) != (vs[b].file, vs[b].node.id)
  }

  /**
   * Going from `st` to `r`, the walk pushed exactly the frames of the visits
   * `vs` and appended exactly their records; the visits are exactly the keys
   * it newly marked, each once, and each is a node of the project.
   */
  ghost predicate LAccounts(project: Project, pattern: Pattern, st: LState, r: LState, vs: seq<LVisit>) {
    && r.path == st.path + VisitFrames(vs, pattern)
    && r.matches == st.matches + VisitRecords(vs, pattern, st.path)
    && LVisitKeys(vs) == r.visited - st.visited
    && DistinctLVisits(vs)
    && forall k :: 0 <= k < |vs| ==> InProject(project, vs[k].file, vs[k].node)
  }

  lemma {:induction false} VisitFramesAppend(a: seq<LVisit>, b: seq<LVisit>, pattern: Pattern)
    ensures VisitFrames(a + b, pattern) == VisitFrames(a, pattern) + VisitFrames(b, pattern)
  {
    if a == [] {
      assert a + b == b;
    } else {
      assert (a + b)[1..] == a[1..] + b;
      VisitFramesAppend(a[1..], b, pattern);
    }
  }

  lemma ConcatAssociates<T>(a: seq<T>, b: seq<T>, c: seq<T>)
    ensures a + (b + c) == (a + b) + c
  {
  }

  lemma {:induction false} VisitRecordsAppend(a: seq<LVisit>, b: seq<LVisit>, pattern: Pattern, path: seq<LegacyPathObject>)
    ensures VisitRecords(a + b, pattern, path)
         == VisitRecords(a, pattern, path) + VisitRecords(b, pattern, path + VisitFrames(a, pattern))
  {
    if a == [] {
      assert a + b == b;
      assert path + VisitFrames(a, pattern) == path;
    } else {
      var head, tail := a[0], a[1..];
      var next := path + OwnFrames(head, pattern);
      var own := OwnRecords(head, pattern, path);
      assert (a + b)[0] == head && (a + b)[1..] == tail + b;
      assert VisitRecords(a + b, pattern, path) == own + VisitRecords(tail + b, pattern, next);
      VisitRecordsAppend(tail, b, pattern, next);
      var x, y := VisitRecords(tail, pattern, next), VisitRecords(b, pattern, next + VisitFrames(tail, pattern));
      assert VisitRecords(a, pattern, path) == own + x;
      var f, g := OwnFrames(head, pattern), VisitFrames(tail, pattern);
      assert VisitFrames(a, pattern) == f + g;
      ConcatAssociates(path, f, g);
      ConcatAssociates(own, x, y);
    }
  }

  lemma LVisitKeysAppend(a: seq<LVisit>, b: seq<LVisit>)
    ensures LVisitKeys(a + b) == LVisitKeys(a) + LVisitKeys(b)
  {
    forall key | key in LVisitKeys(a + b)
      ensures key in LVisitKeys(a) + LVisitKeys(b)
    {
      var k :| 0 <= k < |a + b| && key == ((a + b)[k].file, (a + b)[k].node.id);
      if k < |a| {
        assert (a + b)[k] == a[k];
      } else {
        assert (a + b)[k] == b[k - |a|];
      }
    }
    forall key | key in LVisitKeys(a) + LVisitKeys(b)
      ensures key in LVisitKeys(a + b)
    {
      if key in LVisitKeys(a) {
        var k :| 0 <= k < |a| && key == (a[k].file, a[k].node.id);
        assert (a + b)[k] == a[k];
      } else {
        var k :| 0 <= k < |b| && key == (b[k].file, b[k].node.id);
        assert (a + b)[|a| + k] == b[k];
      }
    }
  }

  lemma DistinctLVisitsAppend(a: seq<LVisit>, b: seq<LVisit>)
    requires DistinctLVisits(a) && DistinctLVisits(b) && LVisitKeys(a) !! LVisitKeys(b)
    ensures DistinctLVisits(a + b)
  {
    forall x, y | 0 <= x < y < |a + b|
      ensures ((a + b)[x].file, (a + b)[x].node.id) != ((a + b)[y].file, (a + b)[y].node.id)
    {
      if y < |a| {
        assert (a + b)[x] == a[x] && (a + b)[y] == a[y];
      } else if x >= |a| {
        assert (a + b)[x] == b[x - |a|] && (a + b)[y] == b[y - |a|];
      } else {
        assert (a + b)[x] == a[x] && (a + b)[y] == b[y - |a|];
        assert (a[x].file, a[x].node.id) in LVisitKeys(a);
        assert (b[y - |a|].file, b[y - |a|].node.id) in LVisitKeys(b);
      }
    }
  }

  lemma InProjectAppend(project: Project, a: seq<LVisit>, b: seq<LVisit>)
    requires forall k :: 0 <= k < |a| ==> InProject(project, a[k].file, a[k].node)
    requires forall k :: 0 <= k < |b| ==> InProject(project, b[k].file, b[k].node)
    ensures forall k :: 0 <= k < |a + b| ==> InProject(project, (a + b)[k].file, (a + b)[k].node)
  {
    forall k | 0 <= k < |a + b|
      ensures InProject(project, (a + b)[k].file, (a + b)[k].node)
    {
      if k < |a| {
        assert (a + b)[k] == a[k];
      } else {
        assert (a + b)[k] == b[k - |a|];
      }
    }
  }

  /** Two consecutive stretches of the walk concatenate into one. */
  lemma JoinLVisits(project: Project, pattern: Pattern, s0: LState, s1: LState, s2: LState,
                    a: seq<LVisit>, b: seq<LVisit>)
    requires s0.visited <= s1.visited <= s2.visited
    requires LAccounts(project, pattern, s0, s1, a) && LAccounts(project, pattern, s1, s2, b)
    ensures LAccounts(project, pattern, s0, s2, a + b)
  {
    VisitFramesAppend(a, b, pattern);
    VisitRecordsAppend(a, b, pattern, s0.path);
    ConcatAssociates(s0.path, VisitFrames(a, pattern), VisitFrames(b, pattern));
    ConcatAssociates(s0.matches, VisitRecords(a, pattern, s0.path),
                     VisitRecords(b, pattern, s0.path + VisitFrames(a, pattern)));
    LVisitKeysAppend(a, b);
    DistinctLVisitsAppend(a, b);
    InProjectAppend(project, a, b);
  }

  /**
   * Unless it raises, the walk from `node` pushes and appends exactly the
   * frames and records of its first visits, the first being `node` itself.
   */
  lemma {:induction false} LCollectAccounts(env: Env, node: Node, file: string, st: LState)
    requires ResolverStaysInProject(env) && InProject(env.project, file, node)
    ensures LCollect(env, node, file, st).raised.None? ==>
              LAccounts(env.project, env.pattern, st, LCollect(env, node, file, st), LVisits(env, node, file, st))
    ensures st.raised.None? && (file, node.id) !in st.visited ==> LVisits(env, node, file, st)[0] == LVisit(node, file)
    decreases AllKeys(env.project) - st.visited, 0, 0
  {
    var r := LCollect(env, node, file, st);
    if st.raised.Some? || (file, node.id) in st.visited {
      assert LVisitKeys([]) == {};
    } else if r.raised.None? {
      KeyInAllKeys(env.project, file, node);
      var marked := st.(visited := st.visited + {(file, node.id)});
      var own := if IsLocalBody(node) then Recorded(node, file, env.pattern(node.text), marked) else marked;
      var followed := if IsCrossFileCall(node) then LFollow(env, node, file, own) else own;
      var ov := [LVisit(node, file)];
      var fv := if IsCrossFileCall(node) then LFollowVisits(env, node, file, own) else [];
      var rv := LChildrenVisits(env, node, 0, file, followed);
      assert r == LChildren(env, node, 0, file, followed);
      assert LVisits(env, node, file, st) == ov + fv + rv;
      assert followed.raised.None? && own.raised.None?;
      assert VisitFrames(ov, env.pattern) == OwnFrames(ov[0], env.pattern) by {
        assert ov[1..] == [];
      }
      assert VisitRecords(ov, env.pattern, st.path) == OwnRecords(ov[0], env.pattern, st.path) by {
        assert ov[1..] == [];
      }
      assert LVisitKeys(ov) == {(file, node.id)} by {
        assert ov[0] == LVisit(node, file);
      }
      assert LAccounts(env.project, env.pattern, st, own, ov);
      if IsCrossFileCall(node) {
        LFollowAccounts(env, node, file, own);
      } else {
        assert LVisitKeys(fv) == {};
      }
      assert LAccounts(env.project, env.pattern, own, followed, fv);
      JoinLVisits(env.project, env.pattern, st, own, followed, ov, fv);
      LChildrenAccounts(env, node, 0, file, followed);
      JoinLVisits(env.project, env.pattern, st, followed, r, ov + fv, rv);
    }
  }

  /** Unless it raises, a resolved call pushes and appends exactly the frames and records of the target's first visits. */
  lemma {:induction false} LFollowAccounts(env: Env, node: Node, file: string, st: LState)
    requires ResolverStaysInProject(env)
    ensures LFollow(env, node, file, st).raised.None? ==>
              LAccounts(env.project, env.pattern, st, LFollow(env, node, file, st), LFollowVisits(env, node, file, st))
    decreases AllKeys(env.project) - st.visited, 1, 0
  {
    var lookup := LegacyGetDefinition(env, node, file);
    if st.raised.None? && lookup.Ok? && lookup.value.Some? {
      LCollectAccounts(env, lookup.value.value.0, lookup.value.value.1, st);
    } else {
      assert LVisitKeys([]) == {};
    }
  }

  lemma {:induction false} LChildrenAccounts(env: Env, node: Node, i: nat, file: string, st: LState)
    requires ResolverStaysInProject(env) && InProject(env.project, file, node) && i <= |node.children|
    ensures LChildren(env, node, i, file, st).raised.None? ==>
              LAccounts(env.project, env.pattern, st, LChildren(env, node, i, file, st), LChildrenVisits(env, node, i, file, st))
    decreases AllKeys(env.project) - st.visited, 1, |node.children| - i
  {
    if i == |node.children| {
      assert LVisitKeys([]) == {};
    } else {
      ChildInSubtrees(node, env.project[file], i);
      var child := node.children[i];
      var first := LCollect(env, child, file, st);
      var r := LChildren(env, node, i + 1, file, first);
      if r.raised.None? {
        assert first.raised.None?;
        LCollectAccounts(env, child, file, st);
        LChildrenAccounts(env, node, i + 1, file, first);
        JoinLVisits(env.project, env.pattern, st, first, r,
                    LVisits(env, child, file, st), LChildrenVisits(env, node, i + 1, file, first));
      }
    }
  }

  /**
   * Unless it raises, a search's path is the seed frame followed by the frames
   * of the nodes it visits, in visit order, and its matches are exactly their
   * records; it visits each marked node once, starting with the entry.
   */
  lemma LegacySearchAccounts(env: Env, file: string, functionName: string)
    requires ResolverStaysInProject(env) && file in env.project
    requires FindFunctionOrMethod(env.project[file], functionName).Some?
    ensures var entry := FindFunctionOrMethod(env.project[file], functionName).value;
            var seed := [SeedFrame(entry, file)];
            var r := LegacySearch(env, file, functionName).value;
            var vs := LVisits(env, entry, file, LState([], seed, {}, None));
            && vs[0] == LVisit(entry, file)
            && (r.raised.None? ==>
                  && r.path == seed + VisitFrames(vs, env.pattern)
                  && r.matches == VisitRecords(vs, env.pattern, seed)
                  && LVisitKeys(vs) == r.visited
                  && DistinctLVisits(vs))
  {
    var entry := FindFunctionOrMethod(env.project[file], functionName).value;
    LCollectAccounts(env, entry, file, LState([], [SeedFrame(entry, file)], {}, None));
  }

  /** The records of the k-th visit form one block, taken against the path the earlier visits left. */
  lemma VisitRecordsBlock(vs: seq<LVisit>, k: nat, pattern: Pattern, path: seq<LegacyPathObject>)
    requires k < |vs|
    ensures VisitRecords(vs, pattern, path)
         == VisitRecords(vs[..k], pattern, path)
            + OwnRecords(vs[k], pattern, path + VisitFrames(vs[..k], pattern))
            + VisitRecords(vs[k + 1..], pattern, path + VisitFrames(vs[..k + 1], pattern))
  {
    var before, here, after := vs[..k], [vs[k]], vs[k + 1..];
    var mid := path + VisitFrames(before, pattern);
    assert before + here == vs[..k + 1];
    assert vs[..k + 1] + after == vs;
    VisitRecordsAppend(vs[..k + 1], after, pattern, path);
    VisitRecordsAppend(before, here, pattern, path);
    assert VisitRecords(here, pattern, mid) == OwnRecords(vs[k], pattern, mid) by {
      assert here[1..] == [];
    }
  }

  /**
   * Completeness: unless the search raises, the records of every visited
   * node, in whatever file and however deep in the call graph, appear in its
   * matches as one block between those of earlier and later visits, each
   * holding the path as the earlier visits left it.
   */
  lemma LegacySearchRecordsEveryVisit(env: Env, file: string, functionName: string)
    requires ResolverStaysInProject(env) && file in env.project
    requires FindFunctionOrMethod(env.project[file], functionName).Some?
    ensures var entry := FindFunctionOrMethod(env.project[file], functionName).value;
            var seed := [SeedFrame(entry, file)];
            var r := LegacySearch(env, file, functionName).value;
            var vs := LVisits(env, entry, file, LState([], seed, {}, None));
            r.raised.None? ==>
              forall k :: 0 <= k < |vs| ==>
                r.matches == VisitRecords(vs[..k], env.pattern, seed)
                             + OwnRecords(vs[k], env.pattern, seed + VisitFrames(vs[..k], env.pattern))
                             + VisitRecords(vs[k + 1..], env.pattern, seed + VisitFrames(vs[..k + 1], env.pattern))
  {
    var entry := FindFunctionOrMethod(env.project[file], functionName).value;
    var seed := [SeedFrame(entry, file)];
    var vs := LVisits(env, entry, file, LState([], seed, {}, None));
    LegacySearchAccounts(env, file, functionName);
    forall k | 0 <= k < |vs|
      ensures VisitRecords(vs, env.pattern, seed)
           == VisitRecords(vs[..k], env.pattern, seed)
              + OwnRecords(vs[k], env.pattern, seed + VisitFrames(vs[..k], env.pattern))
              + VisitRecords(vs[k + 1..], env.pattern, seed + VisitFrames(vs[..k + 1], env.pattern))
    {
      VisitRecordsBlock(vs, k, env.pattern, seed);
    }
  }

  /**
   * A member call or object creation whose definition the older lookup finds,
   * not yet visited, is followed at once: the definition is the next node
   * visited.
   */
  lemma {:induction false} LCallVisitsTargetNext(env: Env, node: Node, file: string, st: LState)
    requires ResolverStaysInProject(env) && InProject(env.project, file, node)
    requires st.raised.None? && (file, node.id) !in st.visited && IsCrossFileCall(node)
    ensures var lookup := LegacyGetDefinition(env, node, file);
            lookup.Ok? && lookup.value.Some? && (lookup.value.value.1, lookup.value.value.0.id) != (file, node.id)
            && (lookup.value.value.1, lookup.value.value.0.id) !in st.visited ==>
              |LVisits(env, node, file, st)| >= 2 &&
              LVisits(env, node, file, st)[1] == LVisit(lookup.value.value.0, lookup.value.value.1)
  {
    var lookup := LegacyGetDefinition(env, node, file);
    var marked := st.(visited := st.visited + {(file, node.id)});
    var own := if IsLocalBody(node) then Recorded(node, file, env.pattern(node.text), marked) else marked;
    if lookup.Ok? && lookup.value.Some? && (lookup.value.value.1, lookup.value.value.0.id) != (file, node.id)
       && (lookup.value.value.1, lookup.value.value.0.id) !in st.visited {
      var target := lookup.value.value;
      var fv := LFollowVisits(env, node, file, own);
      assert fv == LVisits(env, target.0, target.1, own);
      LCollectAccounts(env, target.0, target.1, own);
      assert fv[0] == LVisit(target.0, target.1);
    }
  }
}
