# lsp_tree_finder call-graph walker, in Dafny

lsp_tree_finder searches PHP code for a regular expression. The search starts at
a named function or method and also covers everything that function reaches
through method calls and object creations. The search runs in these steps:

- It parses each file with tree-sitter and finds the entry definition.
- It walks the syntax tree depth-first.
- It runs the pattern over the text of every `function_call` and `method_declaration` node.
- For every `member_call_expression` and `object_creation_expression` it asks a
  PHP language server for the callee's definition. It follows the first
  candidate that is a function or method definition, into whatever file that
  candidate is in.
- A visited set of `(file, node id)` pairs stops the walk from revisiting a node,
  so recursive call graphs terminate.

Each hit is reported with its file line and the chain of calls that led to it.

The project models two versions of the walker, plus the records they produce.

- **Current walker** (`src/lsp_tree_finder/main.py`). It returns lists of
  `MatchObject` and copies the call path for each followed call.
  - Module `Walker` states it as functions of the search state: the visited set,
    and the names the language server could not resolve.
  - Module `WalkerSession` states it as the program runs it: a `Session` class
    whose fields are the parsed-file cache, `failed_to_follow` and the visited
    set, which its methods update in place. Every method is proved to return,
    and to leave behind, exactly what the `Walker` functions describe. The
    parse cache only grows and always holds the project's parse of each file.
- **Older walker** (`build/lib/lsp_tree_finder/finder.py`). It returns nothing.
  It appends to one shared `matches` list and one shared `path` list, pushing one
  frame per hit, and it can raise.
  - Module `Legacy` gives its functional meaning. A raised exception is recorded
    in the state and ends the search.
  - Module `LegacyWalkerSession` gives the in-place class, with its methods
    proved equal to that meaning.
- **Records** (`lsp_tree_finder/src/lsp_tree_finder/data_classes.py`). Module
  `Records` holds `PathObject` and `MatchObject`. Their constructors only store
  their arguments, so they are datatypes. The module also holds the frame's
  string form, with a parse-back proving which fields that string shows.
- **What a walk visits**. Module `WalkerTrace` lists the nodes a walk of
  main.py visits for the first time, cross-file calls included. It proves that
  the walk reports exactly their hits, in visit order, and each of them once.
- **What the older walk records**. Module `LegacyTrace` does the same for
  finder.py. Unless the walk raises, the shared path and `matches` list grow
  by exactly the hit frames and records of the nodes it visits, in visit order.
- **Tree lookups**. Module `Syntax` holds the tree-sitter node, the pre-order
  searches and the climb to the enclosing definition.
- **Line numbers**. Module `LineNumbers` turns a hit's offset into a line.
- **Tests**. Module `Scenarios` states the repository's first test case on a
  two-file project.

The project models the outside world as parameters:

- The parser is a map from each file name to its root node.
- The language server's `textDocument/definition` request is a function from
  (file, zero-based line, column) to a list of locations.
- The compiled pattern is a function from a text to the start offsets of its
  matches.

Two facts about that outside world are assumed, each stated as a precondition:

- Every location the language server returns names a file of the project. The
  source would otherwise fail to open the file.
- The nodes of one parse have distinct ids. Only the lemmas that compute a
  walk's exact result need this; the walkers themselves do not.

Termination of both walkers rests on the same measure: the project's
`(file, node id)` pairs that are not yet visited.

## Model

| member | source | states |
|---|---|---|
| Syntax.FindFirstIsFirstInPreOrder | src/lsp_tree_finder/main.py:62-65 | The recursive search (node first, then each child in order, first hit wins) returns exactly the first node, in pre-order, that satisfies the predicate. |
| Syntax.FindFunctionOrMethod | src/lsp_tree_finder/main.py:56-67 | The result is a function or method definition whose `name` field is the requested name and lies in the tree. `None` means no node of the tree is such a definition. |
| Syntax.FindFunctionOrMethodIsFirst | src/lsp_tree_finder/main.py:56-67 | find_function_or_method returns the first matching definition in pre-order. |
| Syntax.OwnName | src/lsp_tree_finder/main.py:38-47 | A declaration's own name is the text of its first direct child that is a non-empty `name` token. `None` exactly when no direct child is one. |
| Syntax.FunctionOrMethodName | src/lsp_tree_finder/main.py:33-47 | The sentinel "Not called on a method" for any node that is not a method declaration. Otherwise "" exactly when no direct child is a non-empty `name` token, and else the text of the first such child: the declaration's own name. |
| Syntax.LegacyFunctionOrMethodName | build/lib/lsp_tree_finder/finder.py:54-67 | `None` for any node that is not a method declaration. For a method declaration, `None` exactly when no direct child is a non-empty `name` token; otherwise the text of the first such child, never empty. |
| Syntax.NestedNameRaises | src/lsp_tree_finder/main.py:38-41 | For `#[Pure] public function f() {}`, whose attribute holds a `name` token "Pure" before the declaration's own name "f", both versions as written raise AttributeError. The corrected lookups return "f", the value of the declaration's `name` field. |
| Syntax.AsWrittenAgreesWhenNoRaise | src/lsp_tree_finder/main.py:33-47 | Whenever get_function_or_method_name of main.py as written returns, its value is the corrected name. |
| Syntax.LegacyAsWrittenAgreesWhenNoRaise | build/lib/lsp_tree_finder/finder.py:54-67 | Whenever get_function_or_method_name of finder.py as written returns, its value is the corrected name, or None where the corrected lookup finds none. |
| Syntax.FindNameAsWrittenFromAgrees | src/lsp_tree_finder/main.py:34-42 | Unless find_name as written raises, scanning the children from a given index returns the first non-empty `name` child's text from there on, or the not-found value when there is none. |
| Syntax.FindChildOfType | src/lsp_tree_finder/main.py:224 | The name token of a call is a strict descendant of the call of the requested kind. `None` means no strict descendant has that kind. |
| Syntax.FindChildOfTypeIsFirst | src/lsp_tree_finder/main.py:224 | The token found is the first strict descendant of the requested kind in pre-order. |
| Syntax.NodeForRange | src/lsp_tree_finder/main.py:197-199 | `None` exactly when the root does not cover the line range. Otherwise a node of the tree that covers the range and has no child covering it. |
| Syntax.FindParentFunctionOrMethod | src/lsp_tree_finder/main.py:50-53 | The climb returns the nearest definition at or above the node, with no definition between it and the node. `None` means no node on the chain is a definition. |
| Syntax.ParentContainsNode | src/lsp_tree_finder/main.py:50-53 | The enclosing definition found by the climb contains the starting node. When the node is itself a definition, the climb returns the node. |
| Records.NatToStringRoundTrip | lsp_tree_finder/src/lsp_tree_finder/data_classes.py:9 | The decimal digits written for a natural number read back as that number. |
| Records.IntToStringRoundTrip | lsp_tree_finder/src/lsp_tree_finder/data_classes.py:9 | `str(int)` writes an optional '-' and then digits only, and these read back as the number. |
| Records.PathObjectRepr | lsp_tree_finder/src/lsp_tree_finder/data_classes.py:11-12 | `repr` of a frame equals its `str`. The call line reads back from it, and the start line does not show in it. |
| Records.PathObjectStrRoundTrip | lsp_tree_finder/src/lsp_tree_finder/data_classes.py:8-9 | The string is the file name, ": ", the function name and " (line N)". N reads back as the call line. Changing the start line never changes the string. |
| Records.PathObjectStrDistinguishesCallLines | lsp_tree_finder/src/lsp_tree_finder/data_classes.py:8-9 | Two frames of the same file and function print alike if and only if their call lines are equal. |
| LineNumbers.NewlinesBeforeMonotone | src/lsp_tree_finder/main.py:81 | Counting newlines before a later offset never gives fewer. |
| LineNumbers.MatchLineBounds | src/lsp_tree_finder/main.py:80-82 | A hit's line lies between the node's first line and that line plus the newlines in the node's text, whatever the offset. |
| LineNumbers.MatchLineMonotone | src/lsp_tree_finder/main.py:79-82 | A later hit is never reported on an earlier line. |
| LineNumbers.MatchLineOnFirstLine | src/lsp_tree_finder/main.py:81-82 | A hit with no newline before it is reported on the node's start line. |
| Walker.MatchesInProperties | src/lsp_tree_finder/main.py:75-93 | One record per hit. Every record carries the node, the file, the node's text, the path passed in, function line = start row + 1, and match line = function line + newlines before the hit, within the node's lines. With increasing offsets the match lines never decrease. |
| Walker.NodeFromLocation | src/lsp_tree_finder/main.py:189-204 | The node a location points at lies in the location's file. It covers the location's lines, and when no node does it is the file's root. |
| Walker.Definitions | src/lsp_tree_finder/main.py:236-240 | Keeps only function and method definitions, all drawn from the candidates. It is empty exactly when no candidate is a definition. Its head is a candidate preceded only by non-definitions. |
| Walker.GetDefinition | src/lsp_tree_finder/main.py:214-226 | A found target is a definition inside the project. The failed names only grow. The answer is `None`, with the failed names unchanged, for a node that is neither a member call nor an object creation, or that has no name token. |
| Walker.FirstDefinitionAmongCandidates | src/lsp_tree_finder/main.py:235-245 | Over the located candidates, there is no definition exactly when no candidate is one. Otherwise the result is the first candidate, in resolver order, that is a definition. |
| Walker.GetDefinitionUnknownName | src/lsp_tree_finder/main.py:229-233 | When the query at (name row, name column + 1) returns nothing, the answer is `None` and the name's text is added to the failed names. |
| Walker.GetDefinitionIsFirstDefinition | src/lsp_tree_finder/main.py:229-245 | When the query at (name row, name column + 1) returns results, the failed names are unchanged. The answer is `None` exactly when no candidate is a definition, and otherwise the first candidate in resolver order that is one. |
| Walker.Collect | src/lsp_tree_finder/main.py:159-186 | An empty file name or an already visited node gives no matches and the same state. Otherwise the node ends up visited, the visited set only grows and stays within the project's pairs, and the failed names only grow. |
| Walker.FollowCall | src/lsp_tree_finder/main.py:96-131 | Following a call only adds to the visited set, within the project's pairs, and only adds failed names. |
| Walker.CollectChildren | src/lsp_tree_finder/main.py:134-156 | Walking the children only adds to the visited set, within the project's pairs, and only adds failed names. |
| Walker.SearchResult | src/lsp_tree_finder/main.py:269-288 | No matches and an empty visited set when the entry function is absent. Every reported match is a well-formed hit of a function call or method declaration of the project, on a line within that node. |
| Walker.CollectSound | src/lsp_tree_finder/main.py:159-186 | Every match of a walk comes from a node that this walk, and no earlier one, marked visited, is a well-formed hit, and carries a path that extends the caller's path. |
| Walker.FollowSound | src/lsp_tree_finder/main.py:109-130 | Every match found through a followed call carries a path that starts with the caller's path plus this call's frame: the enclosing function's file, name and first line, and the call's line. Deeper calls add more frames after it. |
| Walker.CollectLocal | src/lsp_tree_finder/main.py:168-186 | Within one file, and without member calls or object creations, walking an unvisited tree gives exactly the hits of its function calls and method declarations in pre-order. It marks exactly that tree's nodes visited. |
| Walker.SearchWithoutCalls | src/lsp_tree_finder/main.py:269-288 | An entry function without member calls or object creations reports every hit of its tree in pre-order, all with the empty path. |
| WalkerTrace.CollectAccounts | src/lsp_tree_finder/main.py:159-186 | A walk reports exactly the hits of the nodes it visits for the first time, in visit order, each node's hits as one block, cross-file calls included. It marks exactly those nodes visited, each once, and every one is a node of the project reached with a path extending the caller's. An unvisited node is the first visit. |
| WalkerTrace.FollowAccounts | src/lsp_tree_finder/main.py:96-131 | The same account for a followed call, with every visit's path extending the caller's path plus the call's frame. |
| WalkerTrace.ChildrenAccounts | src/lsp_tree_finder/main.py:134-156 | The same account for the children loop from a given child on. |
| WalkerTrace.SearchAccounts | src/lsp_tree_finder/main.py:269-288 | A search reports exactly the hits of the nodes it visits, in visit order. It visits each marked node once, starting with the entry definition and the empty path. |
| WalkerTrace.SearchReportsEveryVisit | src/lsp_tree_finder/main.py:269-288 | Completeness: the hits of every visited node, in whatever file and however deep in the call graph, appear in the search result as one block between those of earlier and later visits. |
| WalkerTrace.CallVisitsTargetNext | src/lsp_tree_finder/main.py:109-130 | A member call or object creation whose definition resolves to an unvisited node is followed at once. The definition is the next node visited, reached with the caller's path plus the call's frame. |
| WalkerSession.ProcessFunctionCallOrDeclaration | src/lsp_tree_finder/main.py:69-93 | The loop builds one record per hit, in hit order, each with the node's start line + 1 and the hit's file line. |
| WalkerSession.Session.constructor | src/lsp_tree_finder/main.py:17-18 | The module state starts with an empty parse cache and an empty failed set. |
| WalkerSession.Session.ParseFile | src/lsp_tree_finder/main.py:21-30 | Returns the file's parse and leaves it cached; nothing else changes. |
| WalkerSession.Session.GetTreeSitterNodeFromLspRange | src/lsp_tree_finder/main.py:189-204 | Returns the covering node, or the file's root, as NodeFromLocation, caching the parse. |
| WalkerSession.Session.GetDefinitionNodeOfMemberCallExpression | src/lsp_tree_finder/main.py:214-245 | The answer and the new failed names are those of GetDefinition for the failed names before the call. The visited set is untouched. |
| WalkerSession.Session.CollectFunctionCalls | src/lsp_tree_finder/main.py:159-186 | The returned matches, the visited set and the failed names left behind are exactly those of Collect for the state before the call. |
| WalkerSession.Session.ProcessMemberCallExpressionOrObjectCreationExpression | src/lsp_tree_finder/main.py:96-131 | The result and new state are exactly those of FollowCall: the target is walked with the path extended by one frame. |
| WalkerSession.Session.ProcessChildren | src/lsp_tree_finder/main.py:134-156 | The loop over the children returns exactly CollectChildren's matches and state, the visited set shared through the loop. |
| WalkerSession.Session.SearchPattern | src/lsp_tree_finder/main.py:269-288 | Returns SearchResult's matches and leaves its failed names. When the entry exists, it also leaves that search's visited set. Every match is a well-formed hit. |
| Legacy.LegacyPathObjectStrRoundTrip | build/lib/lsp_tree_finder/finder.py:47-51 | The older frame's string ends with the hit's line, which reads back exactly. The start line never shows, and a missing function name prints as "None". |
| Legacy.RecordedSnoc | build/lib/lsp_tree_finder/finder.py:107-133 | Recording one more hit appends one frame to the path, and one record holding a copy of the path as it stands after that frame. |
| Legacy.LegacyNodeFromLocation | build/lib/lsp_tree_finder/finder.py:165-180 | NameError exactly when no node covers the location (the fallback names an undefined variable). Otherwise the same node as main.py's lookup. |
| Legacy.LegacyCandidates | build/lib/lsp_tree_finder/finder.py:210 | The candidate list raises NameError exactly when some location is covered by no node, and otherwise equals main.py's candidates. |
| Legacy.LegacyGetDefinition | build/lib/lsp_tree_finder/finder.py:190-220 | A found target is a function or method definition inside the project. |
| Legacy.LegacyGetDefinitionWithoutCandidates | build/lib/lsp_tree_finder/finder.py:190-207 | `None` for a node that is not a member call or object creation. AttributeError when the call has no name token. `None` when the query at the token's own column returns nothing. |
| Legacy.LegacyGetDefinitionRaises | build/lib/lsp_tree_finder/finder.py:200-211 | With results, the lookup raises exactly when some result's location is covered by no node, and what it raises is NameError. |
| Legacy.LegacyGetDefinitionIsFirstDefinition | build/lib/lsp_tree_finder/finder.py:200-220 | With results whose locations are all covered, the lookup does not raise. It returns `None` exactly when no candidate is a definition, and otherwise the first candidate in resolver order that is one. |
| Legacy.BridgesAgree | build/lib/lsp_tree_finder/finder.py:200-203 | Where the older lookup does not raise, it finds what main.py's lookup finds, whenever main.py's query at column + 1 gets the answer the older query gets at the token's column. |
| Legacy.LegacyLookupWithCandidates | build/lib/lsp_tree_finder/finder.py:209-220 | Where the lookup has results and raises nothing, it returns the first definition among the candidates, or `None` when there is none. |
| Legacy.LCollect | build/lib/lsp_tree_finder/finder.py:94-162 | After a raise, or for a visited node, nothing changes; the empty file name does not stop the walk. Otherwise the node ends up visited. The visited set only grows, within the project's pairs, and the shared `path` and `matches` lists are only appended to. LegacyTrace.LCollectAccounts states exactly what it appends. |
| Legacy.LFollow | build/lib/lsp_tree_finder/finder.py:135-157 | The cross-file step only appends to the shared lists and only grows the visited set. Once an exception has been raised it changes nothing. |
| Legacy.LChildren | build/lib/lsp_tree_finder/finder.py:159-162 | The children loop only appends to the shared lists and only grows the visited set. Once an exception has been raised it changes nothing. |
| Legacy.SeedFrame | build/lib/lsp_tree_finder/finder.py:183-187 | The entry's frame has the entry's file, a name passed through `str`, and start line = match line = entry start row + 1. |
| Legacy.LegacySearch | build/lib/lsp_tree_finder/finder.py:223-243 | Nothing is walked exactly when the entry function is absent. Otherwise the path starts with the entry's seed frame. |
| Legacy.RecordedGrows | build/lib/lsp_tree_finder/finder.py:107-133 | After recording a node's hits, the path still holds one frame per match after the seed frames. Each match holds a copy of the path up to and including its own frame, a well-formed frame for that hit. |
| Legacy.LCollectGrows | build/lib/lsp_tree_finder/finder.py:94-162 | The whole walk, cross-file steps included, keeps that shape: the path never shrinks, one frame per match, and each match's path is the prefix ending at its own frame. |
| Legacy.LegacySearchShape | build/lib/lsp_tree_finder/finder.py:223-243 | A finished search's path is the seed frame followed by one frame per match. The j-th match holds the seed and the first j + 1 hit frames, and its last frame (the one the output prints) describes that hit. |
| LegacyTrace.LCollectAccounts | build/lib/lsp_tree_finder/finder.py:94-162 | Unless the walk raises, the shared path grows by exactly the hit frames of the nodes it visits for the first time, in visit order, cross-file targets included. The matches grow by exactly their records, each holding the path as it stood after its own frame. It marks exactly those nodes visited, each once, and an unvisited node is the first visit. |
| LegacyTrace.LFollowAccounts | build/lib/lsp_tree_finder/finder.py:135-157 | The same account for the cross-file step, unless it raises. |
| LegacyTrace.LChildrenAccounts | build/lib/lsp_tree_finder/finder.py:159-162 | The same account for the children loop from a given child on, unless it raises. |
| LegacyTrace.LegacySearchAccounts | build/lib/lsp_tree_finder/finder.py:223-243 | The entry is the first visit. Unless the search raises, its path is the seed frame followed by the visits' frames, its matches are exactly the visits' records, and its visited set is exactly the visits' keys, each visited once. |
| LegacyTrace.LegacySearchRecordsEveryVisit | build/lib/lsp_tree_finder/finder.py:223-243 | Completeness: unless the search raises, the records of every visited node appear in its matches as one block between those of earlier and later visits. |
| LegacyTrace.LCallVisitsTargetNext | build/lib/lsp_tree_finder/finder.py:135-157 | A member call or object creation whose definition the older lookup finds, not yet visited, is followed at once: the definition is the next node visited. |
| LegacyWalkerSession.Session.ParseFile | build/lib/lsp_tree_finder/finder.py:28-37 | Returns the file's parse and leaves it cached; the search state is untouched. |
| LegacyWalkerSession.Session.GetTreeSitterNodeFromLspRange | build/lib/lsp_tree_finder/finder.py:165-180 | Returns LegacyNodeFromLocation's outcome, NameError included. |
| LegacyWalkerSession.Session.GetDefinitionNodeOfMemberCallExpression | build/lib/lsp_tree_finder/finder.py:190-220 | Returns LegacyGetDefinition's outcome; the search state is untouched. |
| LegacyWalkerSession.Session.RecordHits | build/lib/lsp_tree_finder/finder.py:107-133 | The hit loop leaves the path and matches exactly as Recorded describes. |
| LegacyWalkerSession.Session.CollectFunctionCalls | build/lib/lsp_tree_finder/finder.py:94-162 | The shared lists, the visited set and the raised exception are exactly those of LCollect for the state before the call. |
| LegacyWalkerSession.Session.CollectChildren | build/lib/lsp_tree_finder/finder.py:159-162 | The children loop, stopped by an exception, leaves exactly LChildren's state. |
| LegacyWalkerSession.Session.FollowDefinition | build/lib/lsp_tree_finder/finder.py:135-157 | The cross-file step leaves exactly LFollow's state. |
| LegacyWalkerSession.Session.SearchPattern | build/lib/lsp_tree_finder/finder.py:223-243 | Changes nothing when the entry is absent. Otherwise it leaves exactly LegacySearch's state: fresh lists, the seed frame, and the walk. |
| Scenarios.TestSearchPatternTest1 | tests/test_search_pattern.py:18-28 | For `method1` of test1.php and the pattern `TestClass2`, the search reports exactly two matches: test1.php line 11 with the empty path, then test2.php line 7 with the path holding the `method1` frame for the call on line 12. |
| Scenarios.NestedCallReportedTwice | src/lsp_tree_finder/main.py:174-177 | A method declaration whose body is one plain function call reports the declaration's hits, then the call's hits again, so a hit inside the call appears twice. |

## Left out

- Language-server plumbing (subprocess, JSON-RPC, the reader thread, `didOpen`) is not part of this model. The definition request is a function parameter, and its one assumed property is that it returns locations in files of the project.
- The tree-sitter parser and its native library build are not modelled. The project is a map from file name to parsed root. `find_child_of_type` and `find_node_for_range` are not shown in the source; they are given the specifications Syntax.FindChildOfType and Syntax.NodeForRange. Which `name` descendant of a call is found is not pinned to tree-sitter-php's trees: the model takes the first in pre-order, and in a real `$obj->m()` the receiver's `name` token would come before the method's own.
- The regular-expression engine is a function from text to match start offsets. The line arithmetic clamps offsets as Python's slice does, so it needs no in-bounds assumption.
- `os.path.relpath`, `os.getcwd` and the `file://` prefix stripping are not modelled; file names are opaque strings.
- Printing, `print_matches`, the CLI, argument parsing and `sys.exit` are not modelled. This includes the older search's output loop, finder.py:245-255, and its diagnostic prints.
- Null nodes (`not node`) are not modelled: a datatype node is never null. Any tree-sitter node is truthy, so the `if target_node:` tests always hold.
- Exceptions from opening or parsing a file are not modelled.
- `find_function_or_method_by_name` (finder.py:90-91) refers to an undefined `root_node` and is never called. It is not modelled.
- get_path_object_from_node of main.py (207-211) is never called there and is not modelled. Its finder.py twin is Legacy.SeedFrame.
- Legacy.LegacyGetDefinition: its own contract states only that a found target is a definition. The full outcome is stated by Legacy.LegacyGetDefinitionWithoutCandidates, Legacy.LegacyGetDefinitionRaises and Legacy.LegacyGetDefinitionIsFirstDefinition.
- Walker.GetDefinition: its own contract states only the cases that give `None` without a query. The query cases are stated by Walker.GetDefinitionUnknownName and Walker.GetDefinitionIsFirstDefinition.
- Both walkers name frames with the corrected name lookup (see Findings), not with the raising one.
- LegacyTrace.LCollectAccounts: states the lists only for a walk that raises nothing. For a walk that raises, only their shape (Legacy.LCollectGrows) and the raise itself are stated, because what was recorded before the raise depends on where in the call graph it happened.
- Walker.SearchResult and the two session classes do not model the failed-to-follow set being printed.
- Scenarios.TestSearchPatternTest1 states only the first test case. The test's PHP files (test1.php, test2.php) are not part of this model; the scenario's two syntax trees are built to place the calls and hits on the lines that the test expects. The other two test cases are not modelled.

## Findings

| source | as written | input that shows it | evidently intended | confidence | as-written member | corrected member |
|---|---|---|---|---|---|---|
| src/lsp_tree_finder/main.py:38-41 | `find_name` decodes every truthy hit from a child. A hit from a grandchild or deeper is already a `str`, so `.decode()` raises AttributeError. finder.py:59-62 has the same code. | A method declaration whose first `name` token sits inside another node, such as the PHP 8 attribute in `#[Pure] public function f() {}` | Return the declaration's own name: the text of its first direct child that is a non-empty `name` token, the name its `name` field holds | not executed | Syntax.NestedNameRaises | Syntax.FunctionOrMethodName |
