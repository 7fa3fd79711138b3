# callable-extractor, modelled in Dafny

callable-extractor finds one function-like unit (a "callable": a class
method, a function declaration, a function expression or an arrow function)
in a piece of TypeScript/JavaScript source, regenerates its code as a
standalone expression, and hands back a handle that can call it later with
an injected `this` context and injected free variables (the "scope").

This project models the extraction-and-selection core:

- `utils.dfy` (module `Utils`, from `src/utils.ts`): syntax nodes and node
  paths, the callable classifier, the tree walker (`getNodePaths`) as a
  pre-order flattening of the tree filtered by type, the upward search
  `getParentNodeByType`, and the isolator `extractCallableCode` with the code
  generator and the transpiler as function-valued parameters, so that its
  result is `transpile(prefix + generate(copy))`.
- `text.dfy` (module `JsText`): the string operations used by
  `getCallableByLineContent` — `split('\n')`, `includes`, `findIndex`.
- `scope.dfy` (module `Scope`): the shared global object, the publication
  loop of `setScope`, its reset closure, and one `call` as
  publish → invoke → reset.
- `extractor.dfy` (module `Extractor`): the `CallableExtractor` class with
  its four lookups, `getOwnerName`, `createCallable`, `setScope`, the reset
  closure and `call`; the lookups are loops over the walker's output (the
  positional ones with a position counter), proved against filter functions
  over that output.
- `examples.dfy` (module `Examples`): a concrete tree showing how
  `getCallableByName` treats a method and a free function with the same
  name.

The parser, the generator, the transpiler and `new Function` are parameters
(`parse`, `generate`, `transpile`, `invoke`). Two behaviours of the code are
worth knowing, and the model keeps both:

- Cleanup after a call is not guaranteed and does not restore anything.
  `call` has no `try`/`finally` (src/index.ts:111-116), so a throwing
  callable or a scope collision leaves the published keys behind
  (`CallThrewKeepsScope`, `UnsafePublishStopsAtFirstDefined`); and the reset
  deletes every scope key (src/index.ts:166-168), so a value a global held
  before the call is gone afterwards (`CallReturnedRemovesScope`).
- With `className` empty the owner of every candidate is forced to `''`
  (src/index.ts:89), so `getCallableByName(name)` can return a class method
  of that name when the method comes first in walker order
  (`UnownedLookupCanReturnAMethod`).

## Model

| member | source | states |
|---|---|---|
| `Utils.IsCallableNode` | src/utils.ts:6-15 | a node is callable iff its type is one of the four callable kinds; total |
| `Utils.GetNodePaths` | src/utils.ts:21-32 | the output is the subsequence, in visiting order, of the visited paths whose type the filter admits; without a filter it is every visited path |
| `Utils.FilterKeepsAdmittedChildren` | src/utils.ts:23-29 | filtering never stops descent: an admitted child of any visited path is emitted even when its parent is filtered out |
| `Utils.TraverseEntersParents` | src/utils.ts:23-29 | the parent path of every visited path was visited as well |
| `Utils.GetParentNodeByType` | src/utils.ts:64-71 | returns the first node of the given type along the parent chain, starting with the path's own node, and None exactly when no node on the chain has that type |
| `Utils.StripContext` | src/utils.ts:39-51 | the copy keeps type, location, key and children; a method loses `async`, `static` and accessibility; a declaration loses `async` and its name; other callables are copied unchanged |
| `Utils.ExtractCallableCode` | src/utils.ts:34-62 | fails with CallableNotFound exactly for a non-callable node; otherwise returns the transpiled prefixed text of the generated copy |
| `Utils.IsolatedTextShape` | src/utils.ts:52-59 | an async method becomes `async function …`, a method `function …`, an async declaration `async …`; expressions get no prefix |
| `Utils.AsyncSurvivesIsolation` | src/utils.ts:40-59 | a callable is async iff its copy keeps the flag or the `async ` prefix is added, never both |
| `JsText.Split` | src/index.ts:68 | splitting yields one more line than there are newlines, and no line contains a newline |
| `JsText.JoinSplit` | src/index.ts:68 | joining the split lines with newlines gives back the source text |
| `JsText.FindIndex` | src/index.ts:69-73 | returns the lowest index of a line containing the text, and None exactly when no line contains it |
| `JsText.EmptyContentOnFirstLine` | src/index.ts:67-75 | an empty `partialContent` is found on the first line of any source |
| `JsText.EmptyTextLines` | src/index.ts:67-75 | the empty source is one empty line, which only the empty text matches |
| `Extractor.CallableExtractor.constructor` | src/index.ts:14-23 | keeps the source text, generator and transpiler, and stores exactly the walker's paths of the parsed tree whose type is a callable type, in visiting order |
| `Extractor.CallableExtractor.GetCallable` | src/index.ts:30-40 | succeeds iff 1 <= position <= number of candidates, and then returns the handle of the position-th candidate in walker order |
| `Extractor.CallableExtractor.GetCallableByLineNumber` | src/index.ts:48-59 | succeeds iff 1 <= position <= number of candidates starting on that line, and then returns the position-th of them; nodes without a location never match |
| `Extractor.CallableExtractor.GetCallableByLineContent` | src/index.ts:67-75 | fails when no line contains the text, otherwise returns exactly what the line-number lookup returns for the first such line (1-based) |
| `Extractor.CallableExtractor.GetCallableByName` | src/index.ts:83-100 | succeeds iff some candidate has the derived name and owner, and then returns the first one in walker order |
| `Extractor.LineCandidatesRefineCandidates` | src/index.ts:52-54 | the candidates on a line are the callable candidates restricted to that line, in the same order |
| `Extractor.KeptPathsAreCandidates` | src/index.ts:22 | every node path the constructor keeps is callable, so the classifier test the lookups repeat drops none |
| `Extractor.NoCallableNodeNoCandidates` | src/index.ts:30-100 | a tree with no callable node gives no candidate for any of the lookups |
| `Extractor.GetOwnerName` | src/index.ts:125-128 | the result is the non-empty name of the nearest node of the type on the parent chain, and `''` when there is none or it is unnamed |
| `Extractor.AnonymousNamedByDeclarator` | src/index.ts:88 | a callable without `id` or `key` name takes the non-empty name of the nearest variable declarator on its parent chain; it is `''` when that declarator is unnamed or none encloses it |
| `Extractor.DerivedName` | src/index.ts:88 | a non-empty `id` name wins; otherwise a non-empty `key` name |
| `Extractor.DerivedOwner` | src/index.ts:89 | `''` when no class name is asked for; otherwise non-empty exactly when the nearest class declaration on the parent chain has a non-empty name, and then that name |
| `Extractor.UnownedLookupIgnoresOwner` | src/index.ts:89-92 | with no class name, a candidate matches iff its derived name matches |
| `Extractor.OwnedLookupNeedsThatClass` | src/index.ts:89-92 | with a class name, a match implies that the nearest enclosing class declaration has exactly that name |
| `Extractor.FreeCallableNeverMatchesOwnedLookup` | src/index.ts:89-92 | a candidate outside every class never matches a lookup that names a class |
| `Examples.UnownedLookupCanReturnAMethod` | src/index.ts:86-92 | for a class method `f1` followed by a free function `f1`, the lookup without a class name finds the method first; naming the class finds only the method |
| `Extractor.DefaultHandleLeavesGlobals` | src/index.ts:138-151 | a handle as created (empty scope, safe) leaves the globals unchanged by a call that returns |
| `Extractor.CreateCallable` | src/index.ts:138-151 | the handle carries exactly the code, context, scope and safety flag it was made with |
| `Extractor.HandleCall` | src/index.ts:145-147 | the handle's `call` closure uses the handle's current scope and safety flag: a safe handle never collides; after a return no scope key is left in the globals; after a throw every scope entry stays published |
| `Extractor.ReconfiguredHandleCall` | src/index.ts:138-151 | a created handle whose context and scope the caller replaced publishes the new scope without collision, invokes the code with the new context over the published globals, and afterwards leaves the old globals minus the new scope keys (return) or the new scope published (throw) |
| `Extractor.CallableExtractor.CallHandle` | src/index.ts:145-147 | the result and the new globals are those of `HandleCall` on the old globals |
| `Extractor.CreateCallableDefaults` | src/index.ts:138 | a handle made from code alone has a `null` context, an empty scope and the safe flag |
| `Extractor.CallableExtractor.SetScope` | src/index.ts:158-165 | the outcome and the new globals are those of the publication loop `Publish` applied to the old globals |
| `Extractor.CallableExtractor.ResetScope` | src/index.ts:166-168 | the new globals are the old ones without any scope key |
| `Extractor.CallableExtractor.Call` | src/index.ts:110-117 | the result and the new globals are those of `CallEffect`: publish, invoke with the published globals, reset only after a normal return |
| `Scope.CallEffect` | src/index.ts:110-117 | safe mode never collides; a collision names a scope key; after a normal return no scope key is left; after a throw or a collision the globals are as published; keys outside the scope keep their values either way |
| `Scope.Publish` | src/index.ts:160-165 | keys outside the scope are untouched; safe mode always completes; a collision names a scope key |
| `Scope.PublishedWritesEveryEntry` | src/index.ts:160-165 | after a completed publication every scope key holds its scope value |
| `Scope.UnsafePublishStopsAtFirstDefined` | src/index.ts:161-164 | unsafe mode throws at the first key (in key order) whose global value is not `undefined`, keeping the entries before it published |
| `Scope.UnsafePublishWithoutCollision` | src/index.ts:160-165 | with no key already defined, unsafe mode publishes exactly what safe mode does |
| `Scope.Reset` | src/index.ts:166-168 | every scope key is deleted; every other key keeps its value |
| `Scope.CallReturnedRemovesScope` | src/index.ts:111-116 | after a call that returned, the globals are the old globals without the scope keys: values those keys held before the call are lost (for own properties, see Left out) |
| `Scope.CallThrewKeepsScope` | src/index.ts:111-116 | after a call whose invocation threw, every scope key stays published |
| `Scope.CalleeSeesScope` | src/index.ts:111-114 | during the invocation every scope key reads as its scope value |

## Left out

- Parsing (`parseAst`), code generation and transpilation: foreign libraries,
  modelled only as the function parameters `parse`, `generate` and
  `transpile`; the text they produce is not modelled.
- Babel's traversal internals and the `NodePath` API: traversal is a
  pre-order flattening of the abstract tree in which only `node` and
  `parentPath` are used; as in Babel, the node handed to the traversal is not
  itself visited.
- `new Function` and the invocation of the compiled code: modelled as the
  parameter `invoke`, which returns or throws; what the callable does to its
  context object or to the globals while it runs is not modelled.
- `fromFile` (file reading) and the merging of parser and compiler options
  with their defaults: I/O and configuration passed only to the foreign
  libraries.
- `result.call.bind(result)` in `createCallable`: its result is discarded and
  it concerns only JavaScript `this` binding. The handle is a value, and its
  `call` closure is `HandleCall` (or the method `CallHandle`): `call` applied
  to the handle's fields as they are when it runs.
- Asynchronous callables and interleaved calls on the shared global object:
  concurrency is not modelled; every call runs to completion before the next.
- Scope keys are assumed distinct (as the property names of an object are)
  in the lemmas about publication; the publication function itself handles
  any sequence of entries.
- Line numbers from the parser count only what `split('\n')` counts when
  the model relates the two lookups; the parser also ends lines at a lone
  carriage return and at U+2028 and U+2029, so for sources holding those the
  line found by content and the parser's line numbers can differ, which the
  model does not capture.
- Scope.Publish, Scope.Reset: the global object is a map of writable,
  deletable own properties. Inherited properties (`toString`,
  `constructor`, …), which `globals[k] !== undefined` also reads and which
  read again after `delete`, and read-only globals (`undefined`, `NaN`,
  `Infinity`), whose assignment throws in strict-mode module code even in
  safe mode, are not modelled.
- Extractor.CallableExtractor.Call: a `null` scope is replaced by `{}`
  (src/index.ts:111); the model's scope is always an entry list, the empty
  one standing for both.
