/**
 * The part of the tfjs engine the utilities drive: the depth of open scopes, the id the
 * next tensor will get, and the log of reclamation calls made on it. What a scope's end
 * or a reclamation call frees is the engine's business and is not modelled.
 */
module TfEngine {

  /**
   * `startScope`, `endScope`, `disposeVariables` (`tf.engine().disposeVariables()` and
   * `tf.disposeVariables()` are the same call), and `tf.dispose()` with no argument.
   */
  datatype EngineCall = StartScope | EndScope | DisposeVariables | DisposeAll

  /** How many more scopes the calls open than close. */
  function ScopeBalance(calls: seq<EngineCall>): int
  {
    if calls == [] then 0
    else (match calls[0] case StartScope => 1 case EndScope => -1 case _ => 0) + ScopeBalance(calls[1..])
  }

  lemma {:induction false} ScopeBalanceAppend(a: seq<EngineCall>, b: seq<EngineCall>)
    ensures ScopeBalance(a + b) == ScopeBalance(a) + ScopeBalance(b)
  {
    if a == [] {
      assert a + b == b;
    } else {
      assert (a + b)[0] == a[0] && (a + b)[1..] == a[1..] + b;
      ScopeBalanceAppend(a[1..], b);
    }
  }

  /** The calls leave the scope depth where they found it and never close a scope they did not open. */
  ghost predicate Bracketed(calls: seq<EngineCall>)
  {
    ScopeBalance(calls) == 0 && forall k :: 0 <= k <= |calls| ==> ScopeBalance(calls[..k]) >= 0
  }

  /** `body` run between `startScope` and `endScope`, as a `try`/`finally` does it. */
  function InScope(body: seq<EngineCall>): seq<EngineCall>
  {
    [StartScope] + body + [EndScope]
  }

  /** A body that opens and closes no scope, run inside one, is bracketed. */
  lemma InScopeBracketed(body: seq<EngineCall>)
    requires forall i :: 0 <= i < |body| ==> body[i] != StartScope && body[i] != EndScope
    ensures Bracketed(InScope(body))
  {
    assert ScopeBalance(body) == 0 by { NoScopeCalls(body); }
    ScopeBalanceAppend([StartScope] + body, [EndScope]);
    ScopeBalanceAppend([StartScope], body);
    var calls := InScope(body);
    forall k | 0 <= k <= |calls| ensures ScopeBalance(calls[..k]) >= 0 {
      if 1 <= k <= |body| + 1 {
        assert calls[..k] == [StartScope] + body[..k - 1];
        assert forall i :: 0 <= i < k - 1 ==> body[..k - 1][i] == body[i];
        NoScopeCalls(body[..k - 1]);
        ScopeBalanceAppend([StartScope], body[..k - 1]);
      } else if k == |calls| {
        assert calls[..k] == calls;
      }
    }
  }

  lemma {:induction false} NoScopeCalls(body: seq<EngineCall>)
    requires forall i :: 0 <= i < |body| ==> body[i] != StartScope && body[i] != EndScope
    ensures ScopeBalance(body) == 0
  {
    if body != [] {
      NoScopeCalls(body[1..]);
    }
  }

  class Engine {
    var scopeDepth: nat
    var nextId: nat
    var log: seq<EngineCall>

    constructor ()
      ensures scopeDepth == 0 && nextId == 0 && log == []
    {
      scopeDepth, nextId, log := 0, 0, [];
    }

    method StartScope()
      modifies this
      ensures scopeDepth == old(scopeDepth) + 1 && nextId == old(nextId)
      ensures log == old(log) + [EngineCall.StartScope]
    {
      scopeDepth := scopeDepth + 1;
      log := log + [EngineCall.StartScope];
    }

    method EndScope()
      requires scopeDepth > 0
      modifies this
      ensures scopeDepth == old(scopeDepth) - 1 && nextId == old(nextId)
      ensures log == old(log) + [EngineCall.EndScope]
    {
      scopeDepth := scopeDepth - 1;
      log := log + [EngineCall.EndScope];
    }

    method DisposeVariables()
      modifies this
      ensures scopeDepth == old(scopeDepth) && nextId == old(nextId)
      ensures log == old(log) + [EngineCall.DisposeVariables]
    {
      log := log + [EngineCall.DisposeVariables];
    }

    /** `tf.dispose()` called with no argument. */
    method DisposeAll()
      modifies this
      ensures scopeDepth == old(scopeDepth) && nextId == old(nextId)
      ensures log == old(log) + [EngineCall.DisposeAll]
    {
      log := log + [EngineCall.DisposeAll];
    }

    /** A new tensor takes the next id. */
    method Allocate() returns (id: nat)
      modifies this
      ensures id == old(nextId) && nextId == old(nextId) + 1
      ensures scopeDepth == old(scopeDepth) && log == old(log)
    {
      id := nextId;
      nextId := nextId + 1;
    }
  }
}
