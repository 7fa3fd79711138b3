/** The `CallableExtractor` facade (src/index.ts): the four lookups over the
    callable node paths, the owner and name resolution they use, the handle
    they return, and the publish → invoke → reset sequence of `call`. */
module Extractor {
  import opened Utils
  import opened JsText
  import opened Scope

  /** The handle a lookup returns (`ICallable`). Its caller may replace the
      context, the scope and the safety flag before calling it. */
  datatype Invocable = Invocable(code: string, context: Value, scope: Entries, safe: bool)

  /** `createCallable`, with its defaults: no context, an empty scope, safe. */
  function CreateCallable(code: string, context: Value := Null, scope: Entries := [], safe: bool := true): (r: Invocable)
    ensures r.code == code && r.context == context && r.scope == scope && r.safe == safe
  {
    Invocable(code, context, scope, safe)
  }

  /** A handle made from code alone has no context, an empty scope and the
      safe flag set. */
  lemma CreateCallableDefaults(code: string)
    ensures CreateCallable(code) == Invocable(code, Null, [], true)
  {
  }

  /** The handle's `call` closure: `call` applied to the handle's fields as
      they are when it runs, not as they were at creation. After a normal
      return no scope key is left; after a throw every scope entry stays
      published; in safe mode there is never a collision. */
  function HandleCall(vars: map<string, Value>, h: Invocable, args: seq<Value>,
                      invoke: (string, Value, seq<Value>, map<string, Value>) -> Completion): (r: (CallResult, map<string, Value>))
    ensures h.safe ==> !r.0.ScopeExists?
    ensures r.0.ScopeExists? ==> r.0.key in Keys(h.scope)
    ensures r.0.Returned? ==> r.1 == vars - Keys(h.scope)
    ensures r.0.Threw? && DistinctKeys(h.scope) ==>
      forall i :: 0 <= i < |h.scope| ==> h.scope[i].0 in r.1 && r.1[h.scope[i].0] == h.scope[i].1
  {
    var run := v => invoke(h.code, h.context, args, v);
    var r := CallEffect(vars, h.scope, h.safe, run);
    if r.0.Returned? then
      CallReturnedRemovesScope(vars, h.scope, h.safe, run);
      r
    else if r.0.Threw? && DistinctKeys(h.scope) then
      CallThrewKeepsScope(vars, h.scope, h.safe, run);
      r
    else
      r
  }

  /** A handle whose context and scope the caller replaced after creation
      publishes the new scope and passes the new context: the call never
      collides (the handle stays safe), the invocation sees every new scope
      entry, and the globals afterwards are the old ones without the new
      scope keys after a return, or hold the new scope after a throw. */
  lemma ReconfiguredHandleCall(code: string, context: Value, scope: Entries, args: seq<Value>,
                               invoke: (string, Value, seq<Value>, map<string, Value>) -> Completion,
                               vars: map<string, Value>)
    requires DistinctKeys(scope)
    ensures var h := CreateCallable(code).(context := context, scope := scope);
      var r := HandleCall(vars, h, args, invoke);
      && !r.0.ScopeExists?
      && (r.0.Returned? ==> r.1 == vars - Keys(scope))
      && (r.0.Threw? ==> forall i :: 0 <= i < |scope| ==> scope[i].0 in r.1 && r.1[scope[i].0] == scope[i].1)
      && Publish(vars, scope, true).0 == Published
      && r.0 == (match invoke(code, context, args, Publish(vars, scope, true).1)
                 case Normal(v) => Returned(v)
                 case Abrupt(e) => Threw(e))
  {
    var h := CreateCallable(code).(context := context, scope := scope);
    assert h.safe && h.scope == scope && h.code == code && h.context == context;
    CalleeSeesScope(vars, scope, true);
  }

  // ---------------------------------------------------------------------
  // Candidates and the lookup criteria

  predicate IsCallablePath(p: Path)
  {
    IsCallableNode(p.node)
  }

  /** `loc?.start.line === lineNumber`: a node without a location never
      starts on any line. */
  predicate StartsOnLine(p: Path, lineNumber: int)
  {
    p.node.loc.Some? && p.node.loc.value == lineNumber
  }

  /** The callable candidates, in walker order. */
  function Candidates(paths: seq<Path>): seq<Path>
  {
    Filter(paths, IsCallablePath)
  }

  /** The test of `getCallableByLineNumber` on one node path. */
  function OnLine(lineNumber: int): Path -> bool
  {
    p => StartsOnLine(p, lineNumber) && IsCallablePath(p)
  }

  /** The callable candidates that start on `lineNumber`, in walker order. */
  function LineCandidates(paths: seq<Path>, lineNumber: int): seq<Path>
  {
    Filter(paths, OnLine(lineNumber))
  }

  /** Whether an optional name is present and non-empty (truthy). */
  predicate Truthy(name: Option<string>)
  {
    name.Some? && name.value != ""
  }

  /** `getOwnerName`: the name of the nearest node of type `t` on the parent
      chain, starting with the path's own node; `''` when there is none or
      it has no (non-empty) name. */
  function GetOwnerName(p: Path, t: string): (r: string)
    ensures var owner := GetParentNodeByType(p, t);
      (r != "" <==> owner.Some? && Truthy(owner.value.id)) &&
      (r != "" ==> owner.value.id == Some(r))
    ensures (forall i :: 0 <= i < |Ancestry(p)| ==> Ancestry(p)[i].nodeType != t) ==> r == ""
  {
    match GetParentNodeByType(p, t)
    case None => ""
    case Some(owner) => if Truthy(owner.id) then owner.id.value else ""
  }

  /** The derived name of a candidate: its own `id.name`, else its
      `key.name`, else the name of the nearest enclosing variable declarator,
      else `''`, each taken only when non-empty. */
  function DerivedName(p: Path): (r: string)
    ensures Truthy(p.node.id) ==> r == p.node.id.value
    ensures !Truthy(p.node.id) && Truthy(p.node.key) ==> r == p.node.key.value
  {
    if Truthy(p.node.id) then p.node.id.value
    else if Truthy(p.node.key) then p.node.key.value
    else GetOwnerName(p, VariableDeclarator)
  }

  /** An anonymous candidate (no usable `id` or `key` name) is named after
      the nearest variable declarator on its parent chain, and is unnamed
      when no declarator encloses it. */
  lemma AnonymousNamedByDeclarator(p: Path)
    requires !Truthy(p.node.id) && !Truthy(p.node.key)
    ensures DerivedName(p) != "" ==> exists i :: (0 <= i < |Ancestry(p)| &&
      Ancestry(p)[i].nodeType == VariableDeclarator && Ancestry(p)[i].id == Some(DerivedName(p)) &&
      NoneOfTypeBefore(p, VariableDeclarator, i))
    ensures (forall i :: 0 <= i < |Ancestry(p)| ==> Ancestry(p)[i].nodeType != VariableDeclarator) ==>
      DerivedName(p) == ""
    ensures var d := GetParentNodeByType(p, VariableDeclarator);
      d.Some? && Truthy(d.value.id) ==> DerivedName(p) == d.value.id.value
    ensures var d := GetParentNodeByType(p, VariableDeclarator);
      d.Some? && !Truthy(d.value.id) ==> DerivedName(p) == ""
  {
    var owner := GetParentNodeByType(p, VariableDeclarator);
    if DerivedName(p) != "" {
      assert owner.Some? && owner.value.id == Some(DerivedName(p));
    }
  }

  /** The derived owner: forced to `''` when no class name is asked for,
      otherwise the name of the nearest enclosing class declaration. */
  function DerivedOwner(p: Path, className: string): (r: string)
    ensures className == "" ==> r == ""
    ensures var c := GetParentNodeByType(p, ClassDeclaration);
      className != "" ==> (r != "" <==> c.Some? && Truthy(c.value.id))
    ensures r != "" ==> GetParentNodeByType(p, ClassDeclaration).value.id == Some(r)
  {
    if className != "" then GetOwnerName(p, ClassDeclaration) else ""
  }

  /** The test of `getCallableByName` on one candidate. */
  predicate NameMatches(p: Path, callableName: string, className: string)
  {
    DerivedName(p) == callableName && DerivedOwner(p, className) == className
  }

  /** The callable candidates that `getCallableByName` accepts, in walker
      order. */
  function NameCandidates(paths: seq<Path>, callableName: string, className: string): seq<Path>
  {
    Filter(paths, Named(callableName, className))
  }

  /** The test of `getCallableByName` on one node path. */
  function Named(callableName: string, className: string): Path -> bool
  {
    p => IsCallablePath(p) && NameMatches(p, callableName, className)
  }

  // ---------------------------------------------------------------------
  // Facts about the lookup criteria

  /** The test of a line alone. */
  function StartsOn(lineNumber: int): Path -> bool
  {
    p => StartsOnLine(p, lineNumber)
  }

  /** The candidates on a line are the callable candidates, in the same
      order, restricted to that line: the k-th on a line is the k-th
      callable candidate starting there, whatever lies between them. */
  lemma {:induction false} LineCandidatesRefineCandidates(paths: seq<Path>, lineNumber: int)
    ensures LineCandidates(paths, lineNumber) == Filter(Candidates(paths), StartsOn(lineNumber))
    decreases |paths|
  {
    if paths != [] {
      var init := paths[..|paths| - 1];
      var last := paths[|paths| - 1];
      LineCandidatesRefineCandidates(init, lineNumber);
      var cands := Candidates(init);
      if IsCallablePath(last) {
        assert Candidates(paths) == cands + [last];
        assert (cands + [last])[..|cands|] == cands;
        assert Filter(cands + [last], StartsOn(lineNumber)) ==
          Filter(cands, StartsOn(lineNumber)) + (if StartsOnLine(last, lineNumber) then [last] else []);
      } else {
        assert Candidates(paths) == cands;
      }
    }
  }

  /** The node paths the constructor keeps are all callable, so the
      classifier test the lookups repeat keeps every one of them. */
  lemma {:induction false} KeptPathsAreCandidates(paths: seq<Path>)
    ensures Candidates(Filter(paths, Admitted(Some(CallableTypes)))) ==
      Filter(paths, Admitted(Some(CallableTypes)))
    decreases |paths|
  {
    if paths != [] {
      var init := paths[..|paths| - 1];
      KeptPathsAreCandidates(init);
      var kept := Filter(init, Admitted(Some(CallableTypes)));
      var last := paths[|paths| - 1];
      assert paths[..|paths| - 1] == init;
      if Admitted(Some(CallableTypes))(last) {
        assert Filter(paths, Admitted(Some(CallableTypes))) == kept + [last];
        assert IsCallablePath(last);
        assert (kept + [last])[..|kept|] == kept;
        assert Candidates(kept + [last]) == Candidates(kept) + [last];
      } else {
        assert Filter(paths, Admitted(Some(CallableTypes))) == kept;
      }
    }
  }

  /** A tree without any callable node (as parsed from an empty text) gives
      no candidates, so no lookup can succeed. */
  lemma NoCallableNodeNoCandidates(root: Node, lineNumber: int, callableName: string, className: string)
    requires forall c :: c in root.children ==> !ContainsCallable(c)
    ensures Candidates(Traverse(root)) == []
    ensures LineCandidates(Traverse(root), lineNumber) == []
    ensures NameCandidates(Traverse(root), callableName, className) == []
  {
    var paths := Traverse(root);
    WalkAllWithoutCallables(root.children, None);
    assert forall i :: 0 <= i < |paths| ==> paths[i] in paths;
    FilterRejectingAll(paths, IsCallablePath);
    FilterRejectingAll(paths, OnLine(lineNumber));
    FilterRejectingAll(paths, Named(callableName, className));
  }

  /** With no class asked for, the owner plays no part: any candidate with
      the name matches, whichever class encloses it. */
  lemma UnownedLookupIgnoresOwner(p: Path, callableName: string)
    ensures NameMatches(p, callableName, "") <==> DerivedName(p) == callableName
  {
  }

  /** With a class asked for, a candidate matches only when the nearest
      enclosing class declaration (the candidate itself included) carries
      exactly that name; so a candidate outside every class never matches. */
  lemma OwnedLookupNeedsThatClass(p: Path, callableName: string, className: string)
    requires className != "" && NameMatches(p, callableName, className)
    ensures exists i :: (0 <= i < |Ancestry(p)| && Ancestry(p)[i].nodeType == ClassDeclaration &&
      Ancestry(p)[i].id == Some(className) && NoneOfTypeBefore(p, ClassDeclaration, i))
  {
    var owner := GetParentNodeByType(p, ClassDeclaration);
    assert owner.Some? && owner.value.id == Some(className);
  }

  /** A candidate that no class declaration encloses is never found by a
      lookup that names a class. */
  lemma FreeCallableNeverMatchesOwnedLookup(p: Path, callableName: string, className: string)
    requires className != ""
    requires forall i :: 0 <= i < |Ancestry(p)| ==> Ancestry(p)[i].nodeType != ClassDeclaration
    ensures !NameMatches(p, callableName, className)
  {
  }

  /** A handle as `createCallable` makes it publishes nothing: a call that
      returns leaves the globals as they were. */
  lemma DefaultHandleLeavesGlobals(code: string, vars: map<string, Value>, run: map<string, Value> -> Completion)
    requires CallEffect(vars, CreateCallable(code).scope, CreateCallable(code).safe, run).0.Returned?
    ensures CallEffect(vars, CreateCallable(code).scope, CreateCallable(code).safe, run).1 == vars
  {
    CallReturnedRemovesScope(vars, [], true, run);
    assert Keys([]) == {};
  }

  // ---------------------------------------------------------------------
  // The facade

  class CallableExtractor {
    /** The source text. */
    const code: string
    /** The node paths of the parsed tree whose type is a callable type. */
    const nodePaths: seq<Path>
    /** The code generator and the transpiler, with the configured options. */
    const generate: Node -> string
    const transpile: string -> string

    /** Parses the text and keeps the paths of the callable-typed nodes. */
    constructor (code: string, parse: string -> Node, generate: Node -> string, transpile: string -> string)
      ensures this.code == code && this.generate == generate && this.transpile == transpile
      ensures nodePaths == Filter(Traverse(parse(code)), Admitted(Some(CallableTypes)))
    {
      this.code := code;
      this.generate := generate;
      this.transpile := transpile;
      var ast := parse(code);
      var paths := GetNodePaths(ast, Some(CallableTypes));
      this.nodePaths := paths;
    }

    /** The handle a successful lookup of `p` returns: the isolated code of
        its node with the default context, scope and safety flag. */
    function HandleFor(p: Path): Invocable
    {
      CreateCallable(transpile(IsolatedText(p.node, generate)))
    }

    /** `getCallable`: the `position`-th callable candidate (1-based). */
    method GetCallable(position: int := 1) returns (r: Result<Invocable>)
      ensures r.Ok? <==> 1 <= position <= |Candidates(nodePaths)|
      ensures r.Ok? ==> r.value == HandleFor(Candidates(nodePaths)[position - 1])
      ensures r.Err? ==> r.error == CallableNotFound
    {
      var pos := 1;
      for i := 0 to |nodePaths|
        invariant pos == |Candidates(nodePaths[..i])| + 1
        invariant !(1 <= position < pos)
      {
        var nodePath := nodePaths[i];
        FilterStep(nodePaths, IsCallablePath, i);
        if IsCallableNode(nodePath.node) {
          if position == pos {
            FilterOfPrefix(nodePaths, IsCallablePath, i + 1);
            ghost var seen := Candidates(nodePaths[..i + 1]);
            assert |seen| == pos && seen[pos - 1] == nodePath;
            assert Candidates(nodePaths)[position - 1] == nodePath;
            var code := ExtractCallableCode(nodePath, generate, transpile);
            return Ok(CreateCallable(code.value));
          }
          pos := pos + 1;
        }
      }
      assert nodePaths[..|nodePaths|] == nodePaths;
      return Err(CallableNotFound);
    }

    /** `getCallableByLineNumber`: the `position`-th callable candidate
        (1-based) among those that start on `lineNumber`; the counter moves
        only on such candidates. */
    method GetCallableByLineNumber(lineNumber: int, position: int := 1) returns (r: Result<Invocable>)
      ensures r.Ok? <==> 1 <= position <= |LineCandidates(nodePaths, lineNumber)|
      ensures r.Ok? ==> r.value == HandleFor(LineCandidates(nodePaths, lineNumber)[position - 1])
      ensures r.Err? ==> r.error == CallableNotFound
    {
      var pos := 1;
      for i := 0 to |nodePaths|
        invariant pos == |LineCandidates(nodePaths[..i], lineNumber)| + 1
        invariant !(1 <= position < pos)
      {
        var nodePath := nodePaths[i];
        FilterStep(nodePaths, OnLine(lineNumber), i);
        var line := nodePath.node.loc;
        assert OnLine(lineNumber)(nodePath) <==>
          line.Some? && line.value == lineNumber && IsCallableNode(nodePath.node);
        if line.Some? && line.value == lineNumber && IsCallableNode(nodePath.node) {
          if position == pos {
            FilterOfPrefix(nodePaths, OnLine(lineNumber), i + 1);
            ghost var seen := LineCandidates(nodePaths[..i + 1], lineNumber);
            assert |seen| == pos && seen[pos - 1] == nodePath;
            assert LineCandidates(nodePaths, lineNumber)[position - 1] == nodePath;
            var code := ExtractCallableCode(nodePath, generate, transpile);
            return Ok(CreateCallable(code.value));
          }
          pos := pos + 1;
        }
      }
      assert nodePaths[..|nodePaths|] == nodePaths;
      return Err(CallableNotFound);
    }

    /** `getCallableByLineContent`: finds the first line (splitting on
        `'\n'`) that contains `partialContent` and delegates to
        `getCallableByLineNumber` with its 1-based number. */
    method GetCallableByLineContent(partialContent: string, position: int := 1) returns (r: Result<Invocable>)
      ensures FindIndex(Split(code), partialContent).None? ==> r == Err(CallableNotFound)
      ensures var idx := FindIndex(Split(code), partialContent);
        idx.Some? ==>
          (r.Ok? <==> 1 <= position <= |LineCandidates(nodePaths, idx.value + 1)|) &&
          (r.Ok? ==> r.value == HandleFor(LineCandidates(nodePaths, idx.value + 1)[position - 1])) &&
          (r.Err? ==> r.error == CallableNotFound)
    {
      var lines := Split(code);
      var idx := FindIndex(lines, partialContent);
      if idx.None? {
        return Err(CallableNotFound);
      }
      r := GetCallableByLineNumber(idx.value + 1, position);
    }

    /** `getCallableByName`: the first callable candidate whose derived name
        is `callableName` and whose derived owner is `className`. */
    method GetCallableByName(callableName: string, className: string := "") returns (r: Result<Invocable>)
      ensures r.Ok? <==> NameCandidates(nodePaths, callableName, className) != []
      ensures r.Ok? ==> r.value == HandleFor(NameCandidates(nodePaths, callableName, className)[0])
      ensures r.Err? ==> r.error == CallableNotFound
    {
      for i := 0 to |nodePaths|
        invariant NameCandidates(nodePaths[..i], callableName, className) == []
      {
        var nodePath := nodePaths[i];
        FilterStep(nodePaths, Named(callableName, className), i);
        if IsCallableNode(nodePath.node) {
          var name :=
            if Truthy(nodePath.node.id) then nodePath.node.id.value
            else if Truthy(nodePath.node.key) then nodePath.node.key.value
            else GetOwnerName(nodePath, VariableDeclarator);
          var owner := if className != "" then GetOwnerName(nodePath, ClassDeclaration) else "";
          if name == callableName && owner == className {
            FilterOfPrefix(nodePaths, Named(callableName, className), i + 1);
            var code := ExtractCallableCode(nodePath, generate, transpile);
            return Ok(CreateCallable(code.value));
          }
        }
      }
      assert nodePaths[..|nodePaths|] == nodePaths;
      return Err(CallableNotFound);
    }

    /** `setScope`: writes the scope entries into the globals in key order;
        in unsafe mode it throws at the first key whose global value is not
        `undefined`, keeping what it already wrote. */
    method SetScope(globals: GlobalObject, scope: Entries, safe: bool := true) returns (outcome: Outcome)
      modifies globals
      ensures (outcome, globals.vars) == Publish(old(globals.vars), scope, safe)
    {
      var i := 0;
      while i < |scope|
        invariant 0 <= i <= |scope|
        invariant Publish(old(globals.vars), scope, safe) == Publish(globals.vars, scope[i..], safe)
      {
        var (k, v) := scope[i];
        assert scope[i..][0] == (k, v) && scope[i..][1..] == scope[i + 1..];
        if !safe && Get(globals.vars, k) != Undefined {
          return Collision(k);
        }
        globals.vars := globals.vars[k := v];
        i := i + 1;
      }
      return Published;
    }

    /** The closure `setScope` returns: deletes every scope key. */
    method ResetScope(globals: GlobalObject, scope: Entries)
      modifies globals
      ensures globals.vars == Reset(old(globals.vars), scope)
    {
      for i := 0 to |scope|
        invariant globals.vars == old(globals.vars) - Keys(scope[..i])
      {
        assert Keys(scope[..i + 1]) == Keys(scope[..i]) + {scope[i].0} by {
          assert forall j :: 0 <= j < i ==> scope[..i + 1][j] == scope[..i][j];
          assert scope[..i + 1][i] == scope[i];
        }
        globals.vars := globals.vars - {scope[i].0};
      }
      assert scope[..|scope|] == scope;
    }

    /** The handle's `call`: `Call` with the handle's current fields. */
    method CallHandle(globals: GlobalObject, h: Invocable, args: seq<Value>,
                      invoke: (string, Value, seq<Value>, map<string, Value>) -> Completion)
      returns (r: CallResult)
      modifies globals
      ensures (r, globals.vars) == HandleCall(old(globals.vars), h, args, invoke)
    {
      r := Call(globals, h.code, args, h.context, h.scope, h.safe, invoke);
    }

    /** `call`: publishes the scope, compiles and invokes the code with the
        context and arguments (`invoke` stands for both steps), and resets
        the scope only when the invocation returned. */
    method Call(globals: GlobalObject, code: string, args: seq<Value>, context: Value, scope: Entries, safe: bool,
                invoke: (string, Value, seq<Value>, map<string, Value>) -> Completion)
      returns (r: CallResult)
      modifies globals
      ensures (r, globals.vars) ==
        CallEffect(old(globals.vars), scope, safe, vars => invoke(code, context, args, vars))
    {
      var outcome := SetScope(globals, scope, safe);
      if outcome.Collision? {
        return ScopeExists(outcome.key);
      }
      var result := invoke(code, context, args, globals.vars);
      match result
      case Abrupt(e) =>
        return Threw(e);
      case Normal(v) =>
        ResetScope(globals, scope);
        return Returned(v);
    }
  }
}
