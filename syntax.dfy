/**
 * The parts of a tree-sitter PHP syntax tree the walker looks at, and the
 * lookups it performs on them: pre-order searches for a definition by name,
 * for the first `name` token, for the node covering a line range, and the
 * climb to the enclosing function or method.
 */
module Syntax {
  import opened Wrappers

  /** The node types the walker dispatches on; every other tree-sitter type is `Other`. */
  datatype Kind =
    | FunctionDefinition        // "function_definition"
    | MethodDeclaration         // "method_declaration"
    | FunctionCall              // "function_call"
    | MemberCallExpression      // "member_call_expression"
    | ObjectCreationExpression  // "object_creation_expression"
    | Name                      // "name"
    | Other

  /**
   * A syntax node: its per-parse identity, its type, its zero-based start row
   * and column and end row, its source text, the text of the child stored in its
   * `name` field (if any), and its children in source order.
   */
  datatype Node = Node(
    id: nat,
    kind: Kind,
    startRow: nat,
    startCol: nat,
    endRow: nat,
    text: string,
    nameField: Option<string>,
    children: seq<Node>)

  predicate IsDefinition(n: Node) {
    n.kind == FunctionDefinition || n.kind == MethodDeclaration
  }

  /** Nodes whose text the pattern is run over. */
  predicate IsLocalBody(n: Node) {
    n.kind == FunctionCall || n.kind == MethodDeclaration
  }

  /** Nodes whose callee is looked up through the definition resolver. */
  predicate IsCrossFileCall(n: Node) {
    n.kind == MemberCallExpression || n.kind == ObjectCreationExpression
  }

  /** Every node of the tree rooted at `n`, `n` included. */
  function Subtrees(n: Node): set<Node>
    decreases n, 1
  {
    {n} + SubtreesFrom(n, 0)
  }

  /** Every node of the trees rooted at `n.children[i..]`. */
  function SubtreesFrom(n: Node, i: nat): set<Node>
    decreases n, 0
  {
    set j, m | i <= j < |n.children| && m in Subtrees(n.children[j]) :: m
  }

  lemma {:induction false} SubtreesClosed(m: Node, n: Node)
    requires m in Subtrees(n)
    ensures Subtrees(m) <= Subtrees(n)
    decreases n
  {
    if m != n {
      var j :| 0 <= j < |n.children| && m in Subtrees(n.children[j]);
      SubtreesClosed(m, n.children[j]);
    }
  }

  /** A child of a node of a tree is a node of that tree. */
  lemma ChildInSubtrees(n: Node, root: Node, i: nat)
    requires n in Subtrees(root) && i < |n.children|
    ensures n.children[i] in Subtrees(root)
  {
    assert n.children[i] in Subtrees(n.children[i]);
    assert n.children[i] in SubtreesFrom(n, 0);
    SubtreesClosed(n, root);
  }

  /** The nodes of the tree rooted at `n` in pre-order (depth-first, children in order). */
  function PreOrder(n: Node): seq<Node>
    decreases n, 1
  {
    [n] + PreOrderFrom(n, 0)
  }

  function PreOrderFrom(n: Node, i: nat): seq<Node>
    requires i <= |n.children|
    decreases n, 0, |n.children| - i
  {
    if i == |n.children| then [] else PreOrder(n.children[i]) + PreOrderFrom(n, i + 1)
  }

  /** The first element of `s` satisfying `p`: the reference meaning of "first in pre-order". */
  function FirstWhere(s: seq<Node>, p: Node -> bool): (r: Option<Node>)
    ensures r.Some? ==> r.value in s && p(r.value)
    ensures r.None? ==> forall k :: 0 <= k < |s| ==> !p(s[k])
  {
    if s == [] then None else if p(s[0]) then Some(s[0]) else FirstWhere(s[1..], p)
  }

  lemma {:induction false} FirstWhereAppend(a: seq<Node>, b: seq<Node>, p: Node -> bool)
    ensures FirstWhere(a + b, p) == if FirstWhere(a, p).Some? then FirstWhere(a, p) else FirstWhere(b, p)
  {
    if a != [] {
      assert (a + b)[1..] == a[1..] + b;
      FirstWhereAppend(a[1..], b, p);
    } else {
      assert a + b == b;
    }
  }

  /**
   * Depth-first search of the tree rooted at `n` for a node satisfying `p`:
   * the node itself first, then each child's tree in order, the first hit winning.
   * This is the recursion of find_function_or_method and of find_name.
   */
  function FindFirst(n: Node, p: Node -> bool): (r: Option<Node>)
    ensures r.Some? ==> p(r.value) && r.value in Subtrees(n)
    ensures r.None? ==> forall m :: m in Subtrees(n) ==> !p(m)
    decreases n, 1
  {
    if p(n) then Some(n) else FindFirstFrom(n, 0, p)
  }

  /** The same search over the trees of `n.children[i..]`. */
  function FindFirstFrom(n: Node, i: nat, p: Node -> bool): (r: Option<Node>)
    requires i <= |n.children|
    ensures r.Some? ==> p(r.value) && r.value in SubtreesFrom(n, i)
    ensures r.None? ==> forall m :: m in SubtreesFrom(n, i) ==> !p(m)
    decreases n, 0, |n.children| - i
  {
    if i == |n.children| then None
    else match FindFirst(n.children[i], p)
      case Some(m) => Some(m)
      case None => FindFirstFrom(n, i + 1, p)
  }

  /** The depth-first search returns exactly the first pre-order node satisfying `p`. */
  lemma {:induction false} FindFirstIsFirstInPreOrder(n: Node, p: Node -> bool)
    ensures FindFirst(n, p) == FirstWhere(PreOrder(n), p)
    decreases n, 1
  {
    FirstWhereAppend([n], PreOrderFrom(n, 0), p);
    assert FirstWhere([n], p) == if p(n) then Some(n) else FirstWhere([], p);
    if !p(n) {
      FindFirstFromIsFirstInPreOrder(n, 0, p);
    }
  }

  lemma {:induction false} FindFirstFromIsFirstInPreOrder(n: Node, i: nat, p: Node -> bool)
    requires i <= |n.children|
    ensures FindFirstFrom(n, i, p) == FirstWhere(PreOrderFrom(n, i), p)
    decreases n, 0, |n.children| - i
  {
    if i < |n.children| {
      FindFirstIsFirstInPreOrder(n.children[i], p);
      FindFirstFromIsFirstInPreOrder(n, i + 1, p);
      FirstWhereAppend(PreOrder(n.children[i]), PreOrderFrom(n, i + 1), p);
    }
  }

  /**
   * find_function_or_method: the first function or method definition, in
   * pre-order, whose `name` field holds `name`.
   */
  function FindFunctionOrMethod(root: Node, name: string): (r: Option<Node>)
    ensures r.Some? ==> IsDefinition(r.value) && r.value.nameField == Some(name) && r.value in Subtrees(root)
    ensures r.None? ==> forall m :: m in Subtrees(root) ==> !(IsDefinition(m) && m.nameField == Some(name))
  {
    FindFirst(root, m => IsDefinition(m) && m.nameField == Some(name))
  }

  /** find_function_or_method returns the first matching definition in pre-order. */
  lemma FindFunctionOrMethodIsFirst(root: Node, name: string)
    ensures FindFunctionOrMethod(root, name)
         == FirstWhere(PreOrder(root), m => IsDefinition(m) && m.nameField == Some(name))
  {
    FindFirstIsFirstInPreOrder(root, m => IsDefinition(m) && m.nameField == Some(name));
  }

  /** A `name` token whose text is non-empty: what find_name's truthiness test accepts. */
  predicate IsNameToken(m: Node) {
    m.kind == Name && m.text != ""
  }

  /**
   * A declaration's own name: its first child that is a non-empty `name`
   * token.  In the PHP grammar that child is the one the declaration's `name`
   * field holds; the `name` tokens of attributes, parameters, return types and
   * the body all sit further down.
   */
  function OwnName(n: Node): (r: Option<string>)
    ensures r.None? <==> forall j :: 0 <= j < |n.children| ==> !IsNameToken(n.children[j])
    ensures r.Some? ==> exists k :: 0 <= k < |n.children| && IsNameToken(n.children[k]) && n.children[k].text == r.value &&
                                    forall j :: 0 <= j < k ==> !IsNameToken(n.children[j])
  {
    OwnNameFrom(n, 0)
  }

  function OwnNameFrom(n: Node, i: nat): (r: Option<string>)
    requires i <= |n.children|
    ensures r.None? <==> forall j :: i <= j < |n.children| ==> !IsNameToken(n.children[j])
    ensures r.Some? ==> exists k :: i <= k < |n.children| && IsNameToken(n.children[k]) && n.children[k].text == r.value &&
                                    forall j :: i <= j < k ==> !IsNameToken(n.children[j])
    decreases |n.children| - i
  {
    if i == |n.children| then None
    else if IsNameToken(n.children[i]) then Some(n.children[i].text)
    else OwnNameFrom(n, i + 1)
  }

  /** The sentinel main.py returns for a node that is not a method declaration. */
  const NotCalledOnAMethod := "Not called on a method"

  /**
   * get_function_or_method_name of main.py, corrected (see FindNameAsWritten):
   * the sentinel for anything but a method declaration, otherwise the
   * declaration's own name, or "" when it has none.
   */
  function FunctionOrMethodName(n: Node): (r: string)
    ensures n.kind != MethodDeclaration ==> r == NotCalledOnAMethod
    ensures n.kind == MethodDeclaration ==>
              (r == "" <==> forall j :: 0 <= j < |n.children| ==> !IsNameToken(n.children[j]))
    ensures n.kind == MethodDeclaration && r != "" ==>
              exists k :: 0 <= k < |n.children| && IsNameToken(n.children[k]) && n.children[k].text == r &&
                          forall j :: 0 <= j < k ==> !IsNameToken(n.children[j])
  {
    if n.kind != MethodDeclaration then NotCalledOnAMethod
    else
      match OwnName(n)
      case Some(s) => s
      case None => ""
  }

  /**
   * get_function_or_method_name of finder.py, corrected likewise: `None` for
   * anything but a method declaration, and `None` when it has no own name.
   */
  function LegacyFunctionOrMethodName(n: Node): (r: Option<string>)
    ensures n.kind != MethodDeclaration ==> r == None
    ensures n.kind == MethodDeclaration ==>
              (r.None? <==> forall j :: 0 <= j < |n.children| ==> !IsNameToken(n.children[j]))
    ensures r.Some? ==> r.value != ""
    ensures r.Some? ==> exists k :: 0 <= k < |n.children| && IsNameToken(n.children[k]) && n.children[k].text == r.value &&
                                    forall j :: 0 <= j < k ==> !IsNameToken(n.children[j])
  {
    if n.kind != MethodDeclaration then None else OwnName(n)
  }

  /** Python values find_name can produce: bytes, str, None, or a raised AttributeError. */
  datatype PyValue = Bytes(b: string) | Str(s: string) | NoneValue | Raised

  /** What find_name returns when nothing is found: "" in main.py, None in finder.py. */
  predicate IsNotFound(v: PyValue) {
    v == Str("") || v == NoneValue
  }

  predicate Truthy(v: PyValue) {
    match v
    case Bytes(b) => b != ""
    case Str(s) => s != ""
    case NoneValue => false
    case Raised => false
  }

  /**
   * find_name exactly as written: a `name` node yields its bytes; a hit from a
   * child is decoded with `.decode()`, which raises AttributeError when the hit
   * is already a `str`, that is when it came from two or more levels down.
   * `notFound` is "" in main.py and None in finder.py.
   */
  function FindNameAsWritten(n: Node, notFound: PyValue): (r: PyValue)
    requires IsNotFound(notFound)
    ensures r.Bytes? ==> n.kind == Name
    decreases n, 1
  {
    if n.kind == Name then Bytes(n.text) else FindNameAsWrittenFrom(n, 0, notFound)
  }

  function FindNameAsWrittenFrom(n: Node, i: nat, notFound: PyValue): (r: PyValue)
    requires i <= |n.children| && IsNotFound(notFound)
    ensures !r.Bytes?
    decreases n, 0, |n.children| - i
  {
    if i == |n.children| then notFound
    else
      var v := FindNameAsWritten(n.children[i], notFound);
      if v.Raised? then Raised
      else if Truthy(v) then (if v.Bytes? then Str(v.b) else Raised)
      else FindNameAsWrittenFrom(n, i + 1, notFound)
  }

  /** get_function_or_method_name of main.py as written. */
  function FunctionOrMethodNameAsWritten(n: Node): PyValue {
    if n.kind != MethodDeclaration then Str(NotCalledOnAMethod) else FindNameAsWritten(n, Str(""))
  }

  /** get_function_or_method_name of finder.py as written. */
  function LegacyFunctionOrMethodNameAsWritten(n: Node): PyValue {
    if n.kind != MethodDeclaration then NoneValue else FindNameAsWritten(n, NoneValue)
  }

  /**
   * The discrepancy: a method declaration with an attribute, as in
   * `#[Pure] public function f() {}`, makes get_function_or_method_name raise
   * in both files, since the attribute's `name` comes first and sits two
   * levels down; the corrected lookup gives the method's own name.
   */
  lemma NestedNameRaises()
    ensures var nested := Node(2, Name, 0, 2, 0, "Pure", None, []);
            var attribute := Node(1, Other, 0, 0, 0, "#[Pure]", None, [nested]);
            var own := Node(3, Name, 1, 16, 1, "f", None, []);
            var decl := Node(0, MethodDeclaration, 0, 0, 1, "#[Pure]\npublic function f() {}", Some("f"), [attribute, own]);
            && FunctionOrMethodNameAsWritten(decl) == Raised && LegacyFunctionOrMethodNameAsWritten(decl) == Raised
            && FunctionOrMethodName(decl) == "f" && LegacyFunctionOrMethodName(decl) == Some("f")
            && decl.nameField == Some("f")
  {
    var nested := Node(2, Name, 0, 2, 0, "Pure", None, []);
    var attribute := Node(1, Other, 0, 0, 0, "#[Pure]", None, [nested]);
    var own := Node(3, Name, 1, 16, 1, "f", None, []);
    var decl := Node(0, MethodDeclaration, 0, 0, 1, "#[Pure]\npublic function f() {}", Some("f"), [attribute, own]);
    assert FindNameAsWrittenFrom(attribute, 0, Str("")) == Str("Pure");
    assert FindNameAsWrittenFrom(decl, 0, Str("")) == Raised;
    assert FindNameAsWrittenFrom(attribute, 0, NoneValue) == Str("Pure");
    assert FindNameAsWrittenFrom(decl, 0, NoneValue) == Raised;
    assert OwnNameFrom(decl, 1) == Some("f");
  }

  /** Whenever main.py's lookup as written returns, it returns the corrected name. */
  lemma AsWrittenAgreesWhenNoRaise(n: Node)
    requires FunctionOrMethodNameAsWritten(n) != Raised
    ensures FunctionOrMethodNameAsWritten(n) == Str(FunctionOrMethodName(n))
  {
    if n.kind == MethodDeclaration {
      FindNameAsWrittenFromAgrees(n, 0, Str(""));
    }
  }

  /** Whenever finder.py's lookup as written returns, it returns the corrected name, None for none. */
  lemma LegacyAsWrittenAgreesWhenNoRaise(n: Node)
    requires LegacyFunctionOrMethodNameAsWritten(n) != Raised
    ensures LegacyFunctionOrMethodNameAsWritten(n)
         == match LegacyFunctionOrMethodName(n) case Some(s) => Str(s) case None => NoneValue
  {
    if n.kind == MethodDeclaration {
      FindNameAsWrittenFromAgrees(n, 0, NoneValue);
    }
  }

  /**
   * Without a raise, the loop of find_name over the children from `i` on
   * stops at the first child that is a non-empty `name` token and decodes it:
   * every earlier child gave a falsy value, since a truthy one from below a
   * child would already be a str and raise.
   */
  lemma {:induction false} FindNameAsWrittenFromAgrees(n: Node, i: nat, notFound: PyValue)
    requires i <= |n.children| && IsNotFound(notFound)
    requires FindNameAsWrittenFrom(n, i, notFound) != Raised
    ensures FindNameAsWrittenFrom(n, i, notFound)
         == match OwnNameFrom(n, i) case Some(s) => Str(s) case None => notFound
    decreases |n.children| - i
  {
    if i < |n.children| && !Truthy(FindNameAsWritten(n.children[i], notFound)) {
      FindNameAsWrittenFromAgrees(n, i + 1, notFound);
    }
  }

  /**
   * find_child_of_type(node, "name") (a tree-sitter helper not part of this
   * model): the first node of kind `k` strictly below `n`, in pre-order.
   */
  function FindChildOfType(n: Node, k: Kind): (r: Option<Node>)
    ensures r.Some? ==> r.value.kind == k && r.value in SubtreesFrom(n, 0)
    ensures r.None? ==> forall m :: m in SubtreesFrom(n, 0) ==> m.kind != k
  {
    FindFirstFrom(n, 0, HasKind(k))
  }

  /** The name token find_child_of_type finds is the first descendant of its kind in pre-order. */
  lemma FindChildOfTypeIsFirst(n: Node, k: Kind)
    ensures FindChildOfType(n, k) == FirstWhere(PreOrderFrom(n, 0), HasKind(k))
  {
    FindFirstFromIsFirstInPreOrder(n, 0, HasKind(k));
  }

  function HasKind(k: Kind): Node -> bool {
    (m: Node) => m.kind == k
  }

  /** The node's rows span the zero-based line range [startLine, endLine]. */
  predicate Covers(n: Node, startLine: nat, endLine: nat) {
    n.startRow <= startLine && endLine <= n.endRow
  }

  /** Index of the first of `n.children[i..]` covering the range, or |n.children|. */
  function FirstCoveringChild(n: Node, i: nat, startLine: nat, endLine: nat): (k: nat)
    requires i <= |n.children|
    ensures i <= k <= |n.children|
    ensures k < |n.children| ==> Covers(n.children[k], startLine, endLine)
    ensures forall j :: i <= j < k ==> !Covers(n.children[j], startLine, endLine)
    decreases |n.children| - i
  {
    if i == |n.children| || Covers(n.children[i], startLine, endLine) then i
    else FirstCoveringChild(n, i + 1, startLine, endLine)
  }

  /** Descends through covering children until no child covers the range. */
  function Narrow(n: Node, startLine: nat, endLine: nat): (r: Node)
    requires Covers(n, startLine, endLine)
    ensures r in Subtrees(n) && Covers(r, startLine, endLine)
    ensures forall j :: 0 <= j < |r.children| ==> !Covers(r.children[j], startLine, endLine)
    decreases n
  {
    var k := FirstCoveringChild(n, 0, startLine, endLine);
    if k == |n.children| then n
    else
      var r := Narrow(n.children[k], startLine, endLine);
      assert r in SubtreesFrom(n, 0);
      r
  }

  /**
   * find_node_for_range (a tree-sitter helper not part of this model): a
   * smallest node of the tree covering the line range, or None when even
   * the root does not cover it.
   */
  function NodeForRange(root: Node, startLine: nat, endLine: nat): (r: Option<Node>)
    ensures r.None? <==> !Covers(root, startLine, endLine)
    ensures r.Some? ==> r.value in Subtrees(root) && Covers(r.value, startLine, endLine)
    ensures r.Some? ==> forall j :: 0 <= j < |r.value.children| ==> !Covers(r.value.children[j], startLine, endLine)
  {
    if Covers(root, startLine, endLine) then Some(Narrow(root, startLine, endLine)) else None
  }

  /** `chain` lists a node's ancestors from some root down to the node itself (its parent pointers). */
  predicate IsAncestry(chain: seq<Node>) {
    forall k :: 0 < k < |chain| ==> chain[k] in chain[k - 1].children
  }

  /** Every node of an ancestry chain lies below each of its ancestors. */
  lemma {:induction false} AncestryBelow(chain: seq<Node>, k: nat)
    requires IsAncestry(chain) && k < |chain|
    ensures chain[|chain| - 1] in Subtrees(chain[k])
    decreases |chain| - k
  {
    if k < |chain| - 1 {
      AncestryBelow(chain, k + 1);
      var c := chain[k + 1];
      var j :| 0 <= j < |chain[k].children| && chain[k].children[j] == c;
      ChildInSubtrees(chain[k], chain[k], j);
      SubtreesClosed(c, chain[k]);
    }
  }

  /**
   * find_parent_function_or_method: climbs parent pointers from the node
   * (the last element of `chain`; an empty chain is a `None` node) until a
   * function or method definition is reached, or past the root.
   */
  method FindParentFunctionOrMethod(chain: seq<Node>) returns (r: Option<Node>)
    ensures r.Some? ==> IsDefinition(r.value)
    ensures r.Some? ==> exists k :: 0 <= k < |chain| && chain[k] == r.value &&
                          forall j :: k < j < |chain| ==> !IsDefinition(chain[j])
    ensures r.None? <==> forall j :: 0 <= j < |chain| ==> !IsDefinition(chain[j])
  {
    var i := |chain|;
    while i > 0 && !IsDefinition(chain[i - 1])
      invariant 0 <= i <= |chain|
      invariant forall j :: i <= j < |chain| ==> !IsDefinition(chain[j])
    {
      i := i - 1;
    }
    if i == 0 {
      r := None;
    } else {
      r := Some(chain[i - 1]);
    }
  }

  /** The enclosing definition found by the climb contains the starting node. */
  lemma ParentContainsNode(chain: seq<Node>, k: nat)
    requires IsAncestry(chain) && k < |chain| && IsDefinition(chain[k])
    requires forall j :: k < j < |chain| ==> !IsDefinition(chain[j])
    ensures chain[|chain| - 1] in Subtrees(chain[k])
    ensures IsDefinition(chain[|chain| - 1]) ==> k == |chain| - 1
  {
    AncestryBelow(chain, k);
  }
}
