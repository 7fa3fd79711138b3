/** The shared global object and what `setScope`, its reset closure and
    `call` do to it (src/index.ts): scope entries are written into the
    globals in key order, an unsafe publication stops at the first key that
    already holds a value, and the reset deletes every scope key. */
module Scope {

  /** A JavaScript value, as far as the core can tell them apart: `undefined`,
      `null`, or some other value the core only passes along. */
  datatype Value = Undefined | Null | Opaque(ref: nat)

  /** The entries of a scope object in `Object.keys` order. */
  type Entries = seq<(string, Value)>

  /** How publication ended: every entry written, or the key that was
      already defined in unsafe mode. */
  datatype Outcome = Published | Collision(key: string)

  /** What a compiled callable does when invoked: return or throw. */
  datatype Completion = Normal(value: Value) | Abrupt(error: Value)

  /** What `call` hands back to its caller. */
  datatype CallResult = Returned(value: Value) | Threw(error: Value) | ScopeExists(key: string)

  /** The process-wide global object. */
  class GlobalObject {
    var vars: map<string, Value>

    constructor (vars: map<string, Value>)
      ensures this.vars == vars
    {
      this.vars := vars;
    }
  }

  /** `globals[k]`: an absent property reads as `undefined`. */
  function Get(vars: map<string, Value>, k: string): Value
  {
    if k in vars then vars[k] else Undefined
  }

  /** The keys of a scope. */
  function Keys(scope: Entries): set<string>
  {
    set i | 0 <= i < |scope| :: scope[i].0
  }

  /** Property names of an object are distinct. */
  predicate DistinctKeys(scope: Entries)
  {
    forall i, j :: 0 <= i < j < |scope| ==> scope[i].0 != scope[j].0
  }

  /** The publication loop of `setScope`, entry by entry in key order: in
      unsafe mode an entry whose key currently reads as anything but
      `undefined` stops it, leaving the entries before it written. */
  function Publish(vars: map<string, Value>, scope: Entries, safe: bool): (r: (Outcome, map<string, Value>))
    ensures forall k :: k !in Keys(scope) ==> (k in r.1 <==> k in vars)
    ensures forall k :: k !in Keys(scope) && k in vars ==> r.1[k] == vars[k]
    ensures safe ==> r.0 == Published
    ensures r.0.Collision? ==> r.0.key in Keys(scope)
    decreases |scope|
  {
    if scope == [] then (Published, vars)
    else
      var (k, v) := scope[0];
      KeysOfTail(scope);
      if !safe && Get(vars, k) != Undefined then (Collision(k), vars)
      else Publish(vars[k := v], scope[1..], safe)
  }

  /** The keys of a non-empty scope are its first key and the tail's keys. */
  lemma KeysOfTail(scope: Entries)
    requires scope != []
    ensures Keys(scope) == {scope[0].0} + Keys(scope[1..])
  {
    forall x | x in Keys(scope) ensures x in {scope[0].0} + Keys(scope[1..]) {
      var i :| 0 <= i < |scope| && scope[i].0 == x;
      if i > 0 { assert scope[1..][i - 1].0 == x; }
    }
    forall x | x in Keys(scope[1..]) ensures x in Keys(scope) {
      var i :| 0 <= i < |scope[1..]| && scope[1..][i].0 == x;
      assert scope[i + 1].0 == x;
    }
  }

  /** A publication that was not stopped leaves every scope key holding its
      scope value (in safe and in unsafe mode). */
  lemma {:induction false} PublishedWritesEveryEntry(vars: map<string, Value>, scope: Entries, safe: bool)
    requires DistinctKeys(scope)
    requires Publish(vars, scope, safe).0 == Published
    ensures forall i :: 0 <= i < |scope| ==>
      scope[i].0 in Publish(vars, scope, safe).1 && Publish(vars, scope, safe).1[scope[i].0] == scope[i].1
    decreases |scope|
  {
    if scope != [] {
      var (k, v) := scope[0];
      var tail := scope[1..];
      PublishedWritesEveryEntry(vars[k := v], tail, safe);
      forall j | 0 <= j < |tail| ensures tail[j].0 != k {
        assert tail[j] == scope[j + 1];
      }
      assert k !in Keys(tail);
      forall i | 0 <= i < |scope|
        ensures scope[i].0 in Publish(vars, scope, safe).1 && Publish(vars, scope, safe).1[scope[i].0] == scope[i].1
      {
        if i > 0 { assert scope[i] == tail[i - 1]; }
      }
    }
  }

  /** Unsafe publication stops at the first key, in key order, whose global
      value is not `undefined`; the entries before it stay written (there is
      no rollback) and nothing after it is written. */
  lemma {:induction false} UnsafePublishStopsAtFirstDefined(vars: map<string, Value>, scope: Entries, i: nat)
    requires DistinctKeys(scope)
    requires i < |scope| && Get(vars, scope[i].0) != Undefined
    requires forall j :: 0 <= j < i ==> Get(vars, scope[j].0) == Undefined
    ensures Publish(vars, scope, false) == (Collision(scope[i].0), Publish(vars, scope[..i], true).1)
    decreases i
  {
    if i > 0 {
      var (k, v) := scope[0];
      var tail := scope[1..];
      var vars' := vars[k := v];
      forall j | 0 <= j < |tail| ensures Get(vars', tail[j].0) == Get(vars, tail[j].0) {
        assert tail[j].0 == scope[j + 1].0;
      }
      UnsafePublishStopsAtFirstDefined(vars', tail, i - 1);
      assert scope[..i][0] == (k, v);
      assert scope[..i][1..] == tail[..i - 1];
    }
  }

  /** With no key already defined, unsafe publication writes exactly what
      safe publication writes. */
  lemma {:induction false} UnsafePublishWithoutCollision(vars: map<string, Value>, scope: Entries)
    requires DistinctKeys(scope)
    requires forall j :: 0 <= j < |scope| ==> Get(vars, scope[j].0) == Undefined
    ensures Publish(vars, scope, false) == Publish(vars, scope, true)
    decreases |scope|
  {
    if scope != [] {
      var (k, v) := scope[0];
      var tail := scope[1..];
      forall j | 0 <= j < |tail| ensures Get(vars[k := v], tail[j].0) == Undefined {
        assert tail[j].0 == scope[j + 1].0;
      }
      UnsafePublishWithoutCollision(vars[k := v], tail);
    }
  }

  /** The reset closure: every scope key deleted, nothing restored. */
  function Reset(vars: map<string, Value>, scope: Entries): (r: map<string, Value>)
    ensures forall k :: k in Keys(scope) ==> k !in r
    ensures forall k :: k !in Keys(scope) ==> (k in r <==> k in vars) && (k in vars ==> r[k] == vars[k])
  {
    vars - Keys(scope)
  }

  /** One `call`: publish the scope, invoke (`run` gets the globals as
      published), and run the reset only when the invocation returned.
      A collision or a throw propagates and skips the reset. */
  function CallEffect(vars: map<string, Value>, scope: Entries, safe: bool,
                      run: map<string, Value> -> Completion): (r: (CallResult, map<string, Value>))
    ensures safe ==> !r.0.ScopeExists?
    ensures r.0.ScopeExists? ==> r.0.key in Keys(scope)
    ensures r.0.Returned? ==> forall k :: k in Keys(scope) ==> k !in r.1
    ensures !r.0.Returned? ==> r.1 == Publish(vars, scope, safe).1
    ensures forall k :: k !in Keys(scope) ==> (k in r.1 <==> k in vars) && (k in vars ==> r.1[k] == vars[k])
  {
    var (outcome, published) := Publish(vars, scope, safe);
    match outcome
    case Collision(k) => (ScopeExists(k), published)
    case Published =>
      match run(published)
      case Normal(v) => (Returned(v), Reset(published, scope))
      case Abrupt(e) => (Threw(e), published)
  }

  /** After a call that returned, no scope key is left in the globals, even
      one that held a value before the call (it is deleted, not restored),
      and every other key is as it was. */
  lemma CallReturnedRemovesScope(vars: map<string, Value>, scope: Entries, safe: bool,
                                 run: map<string, Value> -> Completion)
    requires CallEffect(vars, scope, safe, run).0.Returned?
    ensures CallEffect(vars, scope, safe, run).1 == vars - Keys(scope)
  {
    var published := Publish(vars, scope, safe).1;
    assert Reset(published, scope) == vars - Keys(scope);
  }

  /** After a call whose invocation threw, the scope stays published: the
      reset is skipped. */
  lemma CallThrewKeepsScope(vars: map<string, Value>, scope: Entries, safe: bool,
                            run: map<string, Value> -> Completion)
    requires DistinctKeys(scope)
    requires CallEffect(vars, scope, safe, run).0.Threw?
    ensures forall i :: 0 <= i < |scope| ==>
      scope[i].0 in CallEffect(vars, scope, safe, run).1 &&
      CallEffect(vars, scope, safe, run).1[scope[i].0] == scope[i].1
  {
    PublishedWritesEveryEntry(vars, scope, safe);
  }

  /** The callee sees every scope entry in the globals. */
  lemma CalleeSeesScope(vars: map<string, Value>, scope: Entries, safe: bool)
    requires DistinctKeys(scope)
    requires Publish(vars, scope, safe).0 == Published
    ensures forall i :: 0 <= i < |scope| ==> Get(Publish(vars, scope, safe).1, scope[i].0) == scope[i].1
  {
    PublishedWritesEveryEntry(vars, scope, safe);
  }
}
