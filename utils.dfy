/** Syntax nodes, node paths, the callable classifier, the tree walker, the
    upward parent search and the code isolator of callable-extractor
    (src/utils.ts). The parser, the code generator and the transpiler are
    foreign libraries: they appear here only as function-valued parameters. */
module Utils {

  datatype Option<T> = None | Some(value: T)

  /** The one error kind of the core boundary (`ErrorCallableNotFound`). */
  datatype Error = CallableNotFound

  datatype Result<T> = Ok(value: T) | Err(error: Error)

  // Node type tags used by the core (Babel's `node.type` strings).
  const ClassMethod: string := "ClassMethod"
  const FunctionDeclaration: string := "FunctionDeclaration"
  const FunctionExpression: string := "FunctionExpression"
  const ArrowFunctionExpression: string := "ArrowFunctionExpression"
  const ClassDeclaration: string := "ClassDeclaration"
  const VariableDeclarator: string := "VariableDeclarator"

  /** `callableTypes`: the four callable node kinds, in declaration order. */
  const CallableTypes: seq<string> :=
    [ClassMethod, FunctionDeclaration, FunctionExpression, ArrowFunctionExpression]

  /** A syntax node: only the fields the core reads or rewrites.
      `loc` is `loc.start.line` (absent when the node has no location),
      `id` and `key` are `id.name` and `key.name` (absent when there is no
      such identifier), `accessibility` is the TypeScript modifier
      (`null` is None). */
  datatype Node = Node(
    nodeType: string,
    loc: Option<nat>,
    id: Option<string>,
    key: Option<string>,
    isAsync: bool,
    isStatic: bool,
    accessibility: Option<string>,
    children: seq<Node>)

  /** A node path: the node and the path of its parent (None at the top). */
  datatype Path = Path(node: Node, parentPath: Option<Path>)

  /** `isCallableNode`: membership of the node's type in `callableTypes`. */
  predicate IsCallableNode(node: Node)
    ensures IsCallableNode(node) <==>
      node.nodeType == ClassMethod || node.nodeType == FunctionDeclaration ||
      node.nodeType == FunctionExpression || node.nodeType == ArrowFunctionExpression
  {
    node.nodeType in CallableTypes
  }

  // ---------------------------------------------------------------------
  // Tree walker

  /** The paths the traversal enters for node `n` and its whole subtree,
      depth first, a node before its children, children left to right. */
  function Walk(n: Node, parentPath: Option<Path>): seq<Path>
    decreases n, 1
  {
    var p := Path(n, parentPath);
    [p] + WalkAll(n.children, Some(p))
  }

  /** The paths entered for a list of sibling subtrees, in order. */
  function WalkAll(ns: seq<Node>, parentPath: Option<Path>): seq<Path>
    decreases ns, 0
  {
    if ns == [] then [] else Walk(ns[0], parentPath) + WalkAll(ns[1..], parentPath)
  }

  /** Every path the `enter` visitor sees when the tree `root` is traversed:
      the traversal starts at the children of the node it is given (the
      root itself is not entered), and their paths have no parent path. */
  function Traverse(root: Node): seq<Path>
  {
    WalkAll(root.children, None)
  }

  /** The order-preserving subsequence of `s` whose elements satisfy `keep`. */
  function Filter<T(!new)>(s: seq<T>, keep: T -> bool): (r: seq<T>)
    ensures |r| <= |s|
    ensures forall x :: x in r <==> x in s && keep(x)
    decreases |s|
  {
    if s == [] then []
    else Filter(s[..|s| - 1], keep) + (if keep(s[|s| - 1]) then [s[|s| - 1]] else [])
  }

  /** Nothing passes a filter that rejects every element. */
  lemma {:induction false} FilterRejectingAll<T(!new)>(s: seq<T>, keep: T -> bool)
    requires forall i :: 0 <= i < |s| ==> !keep(s[i])
    ensures Filter(s, keep) == []
    decreases |s|
  {
    if s != [] {
      FilterRejectingAll(s[..|s| - 1], keep);
    }
  }

  /** Filtering from the front: the head is kept or dropped, then the rest
      is filtered. */
  lemma {:induction false} FilterCons<T(!new)>(x: T, s: seq<T>, keep: T -> bool)
    ensures Filter([x] + s, keep) == (if keep(x) then [x] else []) + Filter(s, keep)
    decreases |s|
  {
    if s != [] {
      var init := s[..|s| - 1];
      FilterCons(x, init, keep);
      assert ([x] + s)[..|s|] == [x] + init;
    }
  }

  /** Filtering a prefix gives a prefix of the filtered sequence. */
  lemma {:induction false} FilterOfPrefix<T(!new)>(s: seq<T>, keep: T -> bool, i: nat)
    requires i <= |s|
    ensures Filter(s[..i], keep) <= Filter(s, keep)
    decreases |s|
  {
    if i < |s| {
      var init := s[..|s| - 1];
      assert init[..i] == s[..i];
      FilterOfPrefix(init, keep, i);
    } else {
      assert s[..i] == s;
    }
  }

  /** The filtered sequence grows by one element exactly when `keep` admits
      the next element. */
  lemma FilterStep<T(!new)>(s: seq<T>, keep: T -> bool, i: nat)
    requires i < |s|
    ensures Filter(s[..i + 1], keep) == Filter(s[..i], keep) + (if keep(s[i]) then [s[i]] else [])
  {
    assert s[..i + 1][..i] == s[..i];
  }

  /** The visitor's test: no filter admits every node, a filter admits the
      nodes whose type it lists. */
  predicate Admits(types: Option<seq<string>>, p: Path)
  {
    types.None? || p.node.nodeType in types.value
  }

  /** The visitor's test as a function value. */
  function Admitted(types: Option<seq<string>>): Path -> bool
  {
    p => Admits(types, p)
  }

  /** `getNodePaths`: runs the traversal and pushes, in visiting order, every
      entered path whose node the type filter admits. */
  method GetNodePaths(parent: Node, types: Option<seq<string>>) returns (result: seq<Path>)
    ensures result == Filter(Traverse(parent), Admitted(types))
    ensures types.None? ==> result == Traverse(parent)
    ensures forall p :: p in result <==> p in Traverse(parent) && Admits(types, p)
  {
    var visited := Traverse(parent);
    result := [];
    for i := 0 to |visited|
      invariant result == Filter(visited[..i], Admitted(types))
      invariant types.None? ==> result == visited[..i]
    {
      assert visited[..i + 1][..i] == visited[..i];
      if types.None? || visited[i].node.nodeType in types.value {
        result := result + [visited[i]];
      }
    }
    assert visited[..|visited|] == visited;
  }

  // ---------------------------------------------------------------------
  // Facts about the walker

  /** A path's own node heads what the walk enters below it. */
  lemma {:induction false} WalkAllContainsEachChild(ns: seq<Node>, parentPath: Option<Path>, c: Node)
    requires c in ns
    ensures Path(c, parentPath) in WalkAll(ns, parentPath)
    decreases ns
  {
    if ns[0] != c {
      WalkAllContainsEachChild(ns[1..], parentPath, c);
    }
  }

  /** Descent: when a path is entered, the path of each of its children is
      entered as well. */
  lemma {:induction false} WalkEntersChildren(n: Node, parentPath: Option<Path>, p: Path, c: Node)
    requires p in Walk(n, parentPath) && c in p.node.children
    ensures Path(c, Some(p)) in Walk(n, parentPath)
    decreases n, 1
  {
    var top := Path(n, parentPath);
    if p == top {
      WalkAllContainsEachChild(n.children, Some(top), c);
    } else {
      WalkAllEntersChildren(n.children, Some(top), p, c);
    }
  }

  lemma {:induction false} WalkAllEntersChildren(ns: seq<Node>, parentPath: Option<Path>, p: Path, c: Node)
    requires p in WalkAll(ns, parentPath) && c in p.node.children
    ensures Path(c, Some(p)) in WalkAll(ns, parentPath)
    decreases ns, 0
  {
    if p in Walk(ns[0], parentPath) {
      WalkEntersChildren(ns[0], parentPath, p, c);
    } else {
      WalkAllEntersChildren(ns[1..], parentPath, p, c);
    }
  }

  /** Every entered path with a parent path has its parent entered too. */
  lemma {:induction false} WalkEntersParents(n: Node, parentPath: Option<Path>, p: Path)
    requires p in Walk(n, parentPath) && p.parentPath.Some?
    ensures p.parentPath == parentPath || p.parentPath.value in Walk(n, parentPath)
    decreases n, 1
  {
    var top := Path(n, parentPath);
    if p != top {
      WalkAllEntersParents(n.children, Some(top), p);
    }
  }

  lemma {:induction false} WalkAllEntersParents(ns: seq<Node>, parentPath: Option<Path>, p: Path)
    requires p in WalkAll(ns, parentPath) && p.parentPath.Some?
    ensures p.parentPath == parentPath || p.parentPath.value in WalkAll(ns, parentPath)
    decreases ns, 0
  {
    if p in Walk(ns[0], parentPath) {
      WalkEntersParents(ns[0], parentPath, p);
    } else {
      WalkAllEntersParents(ns[1..], parentPath, p);
    }
  }

  /** The traversal is closed upward: the parent path of every entered path
      was entered as well. */
  lemma TraverseEntersParents(root: Node, p: Path)
    requires p in Traverse(root) && p.parentPath.Some?
    ensures p.parentPath.value in Traverse(root)
  {
    WalkAllEntersParents(root.children, None, p);
  }

  /** Filtering never stops descent: a child whose type the filter admits is
      emitted even when the filter rejects its parent. */
  lemma FilterKeepsAdmittedChildren(root: Node, types: Option<seq<string>>, p: Path, c: Node)
    requires p in Traverse(root) && c in p.node.children
    requires types.None? || c.nodeType in types.value
    ensures Path(c, Some(p)) in Filter(Traverse(root), Admitted(types))
  {
    WalkAllEntersChildren(root.children, None, p, c);
  }

  /** Subtrees without a callable node yield no callable path. */
  lemma {:induction false} WalkAllWithoutCallables(ns: seq<Node>, parentPath: Option<Path>)
    requires forall c :: c in ns ==> !ContainsCallable(c)
    ensures forall p :: p in WalkAll(ns, parentPath) ==> !IsCallableNode(p.node)
    decreases ns, 0
  {
    if ns != [] {
      WalkWithoutCallables(ns[0], parentPath);
      WalkAllWithoutCallables(ns[1..], parentPath);
    }
  }

  lemma {:induction false} WalkWithoutCallables(n: Node, parentPath: Option<Path>)
    requires !ContainsCallable(n)
    ensures forall p :: p in Walk(n, parentPath) ==> !IsCallableNode(p.node)
    decreases n, 1
  {
    WalkAllWithoutCallables(n.children, Some(Path(n, parentPath)));
  }

  /** Whether `n` or some node below it is callable. */
  predicate ContainsCallable(n: Node)
    decreases n
  {
    IsCallableNode(n) || exists c :: c in n.children && ContainsCallable(c)
  }

  // ---------------------------------------------------------------------
  // Upward search

  /** The nodes along a path's parent chain, starting with its own node. */
  function Ancestry(p: Path): (r: seq<Node>)
    ensures |r| >= 1 && r[0] == p.node
  {
    [p.node] + (if p.parentPath.Some? then Ancestry(p.parentPath.value) else [])
  }

  /** No node of type `t` comes before position `i` of the parent chain. */
  predicate NoneOfTypeBefore(p: Path, t: string, i: nat)
  {
    forall j :: 0 <= j < i && j < |Ancestry(p)| ==> Ancestry(p)[j].nodeType != t
  }

  /** `getParentNodeByType`: the nearest node of type `t` on the parent
      chain, starting with the path's own node; None when the chain ends. */
  function GetParentNodeByType(p: Path, t: string): (r: Option<Node>)
    ensures r.None? <==> forall i :: 0 <= i < |Ancestry(p)| ==> Ancestry(p)[i].nodeType != t
    ensures r.Some? ==> r.value.nodeType == t
    ensures r.Some? ==> exists i :: 0 <= i < |Ancestry(p)| && Ancestry(p)[i] == r.value && NoneOfTypeBefore(p, t, i)
  {
    if p.node.nodeType == t then
      assert Ancestry(p)[0].nodeType == t;
      Some(p.node)
    else if p.parentPath.Some? then
      var r := GetParentNodeByType(p.parentPath.value, t);
      assert forall i :: 1 <= i < |Ancestry(p)| ==> Ancestry(p)[i] == Ancestry(p.parentPath.value)[i - 1];
      if r.Some? then
        var k :| 0 <= k < |Ancestry(p.parentPath.value)| && Ancestry(p.parentPath.value)[k] == r.value &&
          NoneOfTypeBefore(p.parentPath.value, t, k);
        assert Ancestry(p)[k + 1] == r.value;
        r
      else r
    else None
  }

  // ---------------------------------------------------------------------
  // Code isolator

  /** Whether the isolator re-attaches `async ` as text: the original was an
      asynchronous method or declaration, whose flag the copy loses. */
  predicate TakesAsyncPrefix(n: Node)
  {
    (n.nodeType == ClassMethod || n.nodeType == FunctionDeclaration) && n.isAsync
  }

  /** The shallow copy the isolator hands to the generator: a method loses
      `async`, `static` and its accessibility; a declaration loses `async` and
      its name; any other node is copied unchanged. */
  function StripContext(n: Node): (c: Node)
    ensures c.nodeType == n.nodeType && c.loc == n.loc && c.key == n.key && c.children == n.children
    ensures n.nodeType == ClassMethod ==>
      !c.isAsync && !c.isStatic && c.accessibility.None? && c.id == n.id
    ensures n.nodeType == FunctionDeclaration ==>
      !c.isAsync && c.id.None? && c.isStatic == n.isStatic && c.accessibility == n.accessibility
    ensures n.nodeType != ClassMethod && n.nodeType != FunctionDeclaration ==> c == n
  {
    if n.nodeType == ClassMethod then n.(isAsync := false, isStatic := false, accessibility := None)
    else if n.nodeType == FunctionDeclaration then n.(isAsync := false, id := None)
    else n
  }

  /** The text handed to the transpiler for a callable node, given the
      generator. */
  function IsolatedText(n: Node, generate: Node -> string): string
  {
    (if TakesAsyncPrefix(n) then "async " else "") +
    (if n.nodeType == ClassMethod then "function " else "") +
    generate(StripContext(n))
  }

  /** `extractCallableCode`: refuses a node that is not callable; otherwise
      edits a shallow copy field by field, generates its text, prefixes
      `function ` for a method and then `async ` for an asynchronous method
      or declaration, and transpiles the result. */
  method ExtractCallableCode(nodePath: Path, generate: Node -> string, transpile: string -> string)
    returns (r: Result<string>)
    ensures !IsCallableNode(nodePath.node) <==> r == Err(CallableNotFound)
    ensures IsCallableNode(nodePath.node) ==>
      r == Ok(transpile(IsolatedText(nodePath.node, generate)))
  {
    if !IsCallableNode(nodePath.node) {
      return Err(CallableNotFound);
    }
    var preparedNode := nodePath.node;
    var isAsync := false;
    if preparedNode.nodeType == ClassMethod {
      isAsync := preparedNode.isAsync;
      preparedNode := preparedNode.(isAsync := false);
      preparedNode := preparedNode.(isStatic := false);
      preparedNode := preparedNode.(accessibility := None);
    }
    if preparedNode.nodeType == FunctionDeclaration {
      isAsync := preparedNode.isAsync;
      preparedNode := preparedNode.(isAsync := false);
      preparedNode := preparedNode.(id := None);
    }
    var code := generate(preparedNode);
    if nodePath.node.nodeType == ClassMethod {
      code := "function " + code;
    }
    if isAsync {
      code := "async " + code;
    }
    assert preparedNode == StripContext(nodePath.node);
    assert code == IsolatedText(nodePath.node, generate);
    return Ok(transpile(code));
  }

  /** Async-ness survives isolation exactly once: for a callable node, the
      original is asynchronous iff either the generated copy still carries
      the flag or the `async ` prefix is added, and never both. */
  lemma AsyncSurvivesIsolation(n: Node)
    requires IsCallableNode(n)
    ensures n.isAsync <==> StripContext(n).isAsync || TakesAsyncPrefix(n)
    ensures !(StripContext(n).isAsync && TakesAsyncPrefix(n))
  {
  }

  /** The prefixes, by kind: an async method becomes `async function …`, a
      plain method `function …`, an async declaration `async …`, and any
      other callable is passed through as generated. */
  lemma IsolatedTextShape(n: Node, generate: Node -> string)
    requires IsCallableNode(n)
    ensures var body := generate(StripContext(n));
      (n.nodeType == ClassMethod && n.isAsync ==> IsolatedText(n, generate) == "async function " + body) &&
      (n.nodeType == ClassMethod && !n.isAsync ==> IsolatedText(n, generate) == "function " + body) &&
      (n.nodeType == FunctionDeclaration && n.isAsync ==> IsolatedText(n, generate) == "async " + body) &&
      (n.nodeType == FunctionDeclaration && !n.isAsync ==> IsolatedText(n, generate) == body) &&
      (n.nodeType != ClassMethod && n.nodeType != FunctionDeclaration ==>
        IsolatedText(n, generate) == generate(n))
  {
    var body := generate(StripContext(n));
    if n.nodeType == ClassMethod && n.isAsync {
      assert "async " + ("function " + body) == "async function " + body;
    }
  }
}
