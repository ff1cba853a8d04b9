/**
 * The three manager classes and their lazily created singletons: `MemoryManager` (the
 * process cipher, the periodic cleanup timer, scoped execution, encryption),
 * `VectorProcessor` (input normalisation inside a scope) and `AutomaticMemoryMaintenance`
 * (the five-minute forced reclamation).
 */
module Managers {
  import opened Wrappers
  import opened Values
  import opened Validation
  import opened Gcm
  import opened Float32Bytes
  import TensorCrypto
  import opened TfEngine
  import opened Timers
  import VectorInput

  /** The cleanup timer's period: every minute. */
  const CLEANUP_PERIOD_MS: nat := 60000
  /** The maintenance timer's period: every five minutes. */
  const MAINTENANCE_PERIOD_MS: nat := 300000
  /** Above this many live tensors both reclamation ticks force disposal. */
  const TENSOR_CEILING: int := 1000
  /** Above this many live bytes (`1e8`) the maintenance tick forces disposal. */
  const BYTE_CEILING: int := 100000000

  /**
   * The cleanup callback's calls, given the tensor count it reads after its first
   * `disposeVariables`: always that `disposeVariables`, and the forced disposal only above
   * the ceiling, all inside one scope that the `finally` closes.
   */
  function CleanupTrace(numTensors: int): (calls: seq<EngineCall>)
    ensures |calls| >= 3 && calls[0] == StartScope && calls[1] == DisposeVariables && calls[|calls| - 1] == EndScope
    ensures DisposeAll in calls <==> numTensors > TENSOR_CEILING
    ensures Bracketed(calls)
  {
    var body := [DisposeVariables] + if numTensors > TENSOR_CEILING then [DisposeVariables, DisposeAll] else [];
    InScopeBracketed(body);
    InScope(body)
  }

  /** The maintenance callback's calls: a forced disposal exactly when either usage figure is above its ceiling. */
  function MaintenanceTrace(numTensors: int, numBytes: int): (calls: seq<EngineCall>)
    ensures |calls| >= 2 && calls[0] == StartScope && calls[|calls| - 1] == EndScope
    ensures DisposeAll in calls <==> numTensors > TENSOR_CEILING || numBytes > BYTE_CEILING
    ensures DisposeVariables in calls <==> DisposeAll in calls
    ensures Bracketed(calls)
  {
    var body := if numTensors > TENSOR_CEILING || numBytes > BYTE_CEILING
                then [DisposeVariables, DisposeVariables, DisposeAll] else [];
    InScopeBracketed(body);
    InScope(body)
  }

  class MemoryManager {
    const encryptionKey: seq<byte>
    const iv: seq<byte>
    /** AES-256-GCM under `encryptionKey` and `iv` (`createCipheriv('aes-256-gcm', key, iv)`). */
    const cipher: Cipher
    const engine: Engine
    const scheduler: Scheduler
    var cleanupInterval: Option<nat>
    /** Every timer handle this instance has obtained. */
    ghost var handles: set<nat>

    /** The object invariant: in particular, of this instance's timers only the current one can still be scheduled. */
    ghost predicate Valid()
      reads this, scheduler
    {
      scheduler.Valid() && |encryptionKey| == 32 && |iv| == 16 &&
      (forall h :: h in handles ==> h < scheduler.next) &&
      (cleanupInterval.Some? ==> cleanupInterval.value in handles) &&
      (forall h :: h in handles && h in scheduler.active ==> cleanupInterval == Some(h))
    }

    /**
     * The constructor: the key and IV come from `crypto.randomBytes(32)` and `(16)`, and
     * `aes` stands for AES-256-GCM keyed by them; the cleanup timer starts.
     */
    constructor (key: seq<byte>, iv: seq<byte>, aes: (seq<byte>, seq<byte>) -> Cipher, engine: Engine, scheduler: Scheduler)
      requires |key| == 32 && |iv| == 16 && scheduler.Valid()
      modifies scheduler
      ensures Valid()
      ensures encryptionKey == key && this.iv == iv && cipher == aes(key, iv)
      ensures this.engine == engine && this.scheduler == scheduler
      ensures cleanupInterval == Some(old(scheduler.next)) && handles == {old(scheduler.next)}
      ensures scheduler.active == old(scheduler.active)[old(scheduler.next) := CLEANUP_PERIOD_MS]
      ensures scheduler.next == old(scheduler.next) + 1
    {
      encryptionKey := key;
      this.iv := iv;
      cipher := aes(key, iv);
      this.engine := engine;
      this.scheduler := scheduler;
      cleanupInterval := None;
      handles := {};
      new;
      StartPeriodicCleanup();
    }

    /** `startPeriodicCleanup`: clear the current timer, if any, and schedule a new one. */
    method StartPeriodicCleanup()
      requires Valid()
      modifies this, scheduler
      ensures Valid()
      ensures cleanupInterval == Some(old(scheduler.next)) && handles == old(handles) + {old(scheduler.next)}
      ensures scheduler.active ==
                (if old(cleanupInterval).Some? then old(scheduler.active) - {old(cleanupInterval).value}
                 else old(scheduler.active))[old(scheduler.next) := CLEANUP_PERIOD_MS]
      ensures scheduler.next == old(scheduler.next) + 1
    {
      if cleanupInterval.Some? {
        scheduler.ClearInterval(cleanupInterval.value);
      }
      var h := scheduler.SetInterval(CLEANUP_PERIOD_MS);
      cleanupInterval := Some(h);
      handles := handles + {h};
    }

    /** The cleanup callback, with the tensor count `tf.memory()` reports to it. */
    method CleanupTick(numTensors: int)
      modifies engine
      ensures engine.log == old(engine.log) + CleanupTrace(numTensors)
      ensures engine.scopeDepth == old(engine.scopeDepth) && engine.nextId == old(engine.nextId)
    {
      engine.StartScope();
      engine.DisposeVariables();
      if numTensors > TENSOR_CEILING {
        engine.DisposeVariables();
        engine.DisposeAll();
      }
      engine.EndScope();
    }

    /** `validateVectorShape`: the rank-and-wildcard rule, with no liveness check, inside its own `tf.tidy`. */
    method ValidateVectorShape(t: Tensor, expected: seq<int>) returns (r: bool)
      modifies engine
      ensures r <==> |t.shape| == |expected| &&
                     forall i :: 0 <= i < |expected| ==> expected[i] == -1 || expected[i] == t.shape[i]
      ensures engine.log == old(engine.log) + InScope([])
      ensures engine.scopeDepth == old(engine.scopeDepth) && engine.nextId == old(engine.nextId)
    {
      engine.StartScope();
      r := ShapeMatches(t.shape, expected);
      engine.EndScope();
    }

    /** `encryptTensor`: the float32 bytes of the tensor under the process cipher, tag appended. */
    function EncryptTensor(t: Tensor): (r: Result<seq<byte>, ErrorValue>)
      ensures r.Ok? <==> !t.isDisposed
      ensures r.Ok? ==> |r.value| == 4 * |t.data| + TAG_LENGTH && Open(cipher, r.value) == Ok(Serialize(t.data))
    {
      TensorCrypto.EncryptTensor(cipher, t)
    }

    /** `decryptTensor`, in its corrected form; a tensor it builds takes the engine's next id. */
    method DecryptTensor(encrypted: seq<byte>, shape: seq<int>) returns (r: Result<Tensor, ErrorValue>)
      modifies engine
      ensures r == TensorCrypto.DecryptTensor(cipher, encrypted, shape, old(engine.nextId))
      ensures engine.nextId == old(engine.nextId) + (if r.Ok? then 1 else 0)
      ensures engine.scopeDepth == old(engine.scopeDepth) && engine.log == old(engine.log)
    {
      r := TensorCrypto.DecryptTensor(cipher, encrypted, shape, engine.nextId);
      if r.Ok? {
        var _ := engine.Allocate();
      }
    }

    /**
     * `wrapWithMemoryManagement` (`tf.tidy`): the callback runs inside a new scope, and its
     * outcome, a value or the error it threw, is passed on unchanged after the scope closes.
     */
    method WrapWithMemoryManagement<T>(outcome: Result<T, ErrorValue>) returns (r: Result<T, ErrorValue>)
      modifies engine
      ensures r == outcome
      ensures engine.scopeDepth == old(engine.scopeDepth) && engine.nextId == old(engine.nextId)
      ensures engine.log == old(engine.log) + InScope([])
    {
      engine.StartScope();
      r := outcome;
      engine.EndScope();
    }

    /**
     * `wrapWithMemoryManagementAsync`: `startScope`, `await fn()` in a `try`, `endScope` in
     * the `finally`. On both exits the depth is back to its entry value and the outcome,
     * a value or the original error, is passed on unchanged.
     */
    method WrapWithMemoryManagementAsync<T>(outcome: Result<T, ErrorValue>) returns (r: Result<T, ErrorValue>)
      modifies engine
      ensures r == outcome
      ensures engine.scopeDepth == old(engine.scopeDepth) && engine.nextId == old(engine.nextId)
      ensures engine.log == old(engine.log) + InScope([])
    {
      engine.StartScope();
      r := outcome;
      engine.EndScope();
    }

    /** `dispose`: clear the cleanup timer and forget it; a second call changes nothing. */
    method Dispose()
      requires Valid()
      modifies this, scheduler
      ensures Valid() && cleanupInterval == None && handles == old(handles)
      ensures forall h :: h in handles ==> h !in scheduler.active
      ensures scheduler.active ==
                if old(cleanupInterval).Some? then old(scheduler.active) - {old(cleanupInterval).value}
                else old(scheduler.active)
      ensures scheduler.next == old(scheduler.next)
    {
      if cleanupInterval.Some? {
        scheduler.ClearInterval(cleanupInterval.value);
        cleanupInterval := None;
      }
    }
  }

  class VectorProcessor {
    const memoryManager: MemoryManager

    constructor (memoryManager: MemoryManager)
      ensures this.memoryManager == memoryManager
    {
      this.memoryManager := memoryManager;
    }

    /** `processInput`, run inside a scope; a tensor it produces takes the engine's next id. */
    method ProcessInput(input: JsValue, fround: real -> F32) returns (r: Result<Tensor, ErrorValue>)
      modifies memoryManager.engine
      ensures r == VectorInput.ProcessInput(input, old(memoryManager.engine.nextId), fround)
      ensures memoryManager.engine.nextId == old(memoryManager.engine.nextId) + (if r.Ok? then 1 else 0)
      ensures memoryManager.engine.scopeDepth == old(memoryManager.engine.scopeDepth)
      ensures memoryManager.engine.log == old(memoryManager.engine.log) + InScope([])
    {
      var engine := memoryManager.engine;
      engine.StartScope();
      r := VectorInput.ProcessInput(input, engine.nextId, fround);
      if r.Ok? {
        var _ := engine.Allocate();
      }
      engine.EndScope();
    }

    /**
     * `validateAndNormalize`, run inside a scope; the shape check opens a nested one. The
     * TensorFlow.js normalisation `tf.div(t, tf.norm(t))` is the parameter `normalize`.
     */
    method ValidateAndNormalize(t: Tensor, expected: seq<int>, normalize: Tensor -> Result<Tensor, ErrorValue>)
      returns (r: Result<Tensor, ErrorValue>)
      modifies memoryManager.engine
      ensures r == VectorInput.ValidateAndNormalize(t, expected, normalize)
      ensures !DimsAgree(t.shape, expected) ==> r.Err?
      ensures memoryManager.engine.nextId == old(memoryManager.engine.nextId)
      ensures memoryManager.engine.scopeDepth == old(memoryManager.engine.scopeDepth)
      ensures memoryManager.engine.log == old(memoryManager.engine.log) + InScope(InScope([]))
    {
      var engine := memoryManager.engine;
      engine.StartScope();
      var ok := memoryManager.ValidateVectorShape(t, expected);
      if !ok {
        r := Err(VectorInput.ShapeError(expected, t.shape));
      } else {
        r := normalize(t);
      }
      engine.EndScope();
    }

    /**
     * `encodeText(text, maxLength)`, with the text given by its UTF-8 bytes: a rank-1 tensor
     * of exactly `maxLength` byte values, the text truncated or zero padded. A negative
     * length makes `new Uint8Array` throw.
     */
    method EncodeText(text: seq<byte>, maxLength: int, fround: real -> F32) returns (r: Result<Tensor, ErrorValue>)
      modifies memoryManager.engine
      ensures maxLength < 0 ==> r.Err? && r.error.name == "RangeError"
      ensures maxLength >= 0 ==>
                r == Ok(VectorInput.Tensor1d(old(memoryManager.engine.nextId),
                                             VectorInput.ByteValues(VectorInput.Padded(text, maxLength)), fround))
      ensures r.Ok? ==> r.value.shape == [maxLength]
      ensures memoryManager.engine.nextId == old(memoryManager.engine.nextId) + (if r.Ok? then 1 else 0)
      ensures memoryManager.engine.scopeDepth == old(memoryManager.engine.scopeDepth)
      ensures memoryManager.engine.log == old(memoryManager.engine.log) + InScope([])
    {
      var engine := memoryManager.engine;
      engine.StartScope();
      if maxLength < 0 {
        r := Err(ErrorValue("RangeError", "Invalid typed array length: " + VectorInput.IntToString(maxLength)));
      } else {
        var padded := VectorInput.PadToLength(text, maxLength);
        VectorInput.PaddingUnique(padded, VectorInput.Padded(text, maxLength), text, maxLength);
        var id := engine.Allocate();
        r := Ok(VectorInput.Tensor1d(id, VectorInput.ByteValues(padded), fround));
      }
      engine.EndScope();
    }

    /** `encodeText(text)`: the default length of 768. */
    method EncodeTextWithDefaultLength(text: seq<byte>, fround: real -> F32) returns (r: Result<Tensor, ErrorValue>)
      modifies memoryManager.engine
      ensures r == Ok(VectorInput.Tensor1d(old(memoryManager.engine.nextId),
                                           VectorInput.ByteValues(VectorInput.Padded(text, VectorInput.DEFAULT_MAX_LENGTH)), fround))
      ensures r.value.shape == [768]
      ensures memoryManager.engine.nextId == old(memoryManager.engine.nextId) + 1
      ensures memoryManager.engine.scopeDepth == old(memoryManager.engine.scopeDepth)
      ensures memoryManager.engine.log == old(memoryManager.engine.log) + InScope([])
    {
      r := EncodeText(text, VectorInput.DEFAULT_MAX_LENGTH, fround);
    }
  }

  class AutomaticMemoryMaintenance {
    const memoryManager: MemoryManager
    const scheduler: Scheduler
    var maintenanceInterval: Option<nat>
    /** Every timer handle this instance has obtained. */
    ghost var handles: set<nat>

    ghost predicate Valid()
      reads this, scheduler
    {
      scheduler.Valid() &&
      (forall h :: h in handles ==> h < scheduler.next) &&
      (maintenanceInterval.Some? ==> maintenanceInterval.value in handles) &&
      (forall h :: h in handles && h in scheduler.active ==> maintenanceInterval == Some(h))
    }

    /** The constructor: takes the memory manager singleton and starts the maintenance timer. */
    constructor (memoryManager: MemoryManager)
      requires memoryManager.scheduler.Valid()
      modifies memoryManager.scheduler
      ensures Valid() && this.memoryManager == memoryManager && scheduler == memoryManager.scheduler
      ensures maintenanceInterval == Some(old(memoryManager.scheduler.next))
      ensures handles == {old(memoryManager.scheduler.next)}
      ensures scheduler.active ==
                old(memoryManager.scheduler.active)[old(memoryManager.scheduler.next) := MAINTENANCE_PERIOD_MS]
      ensures scheduler.next == old(memoryManager.scheduler.next) + 1
    {
      this.memoryManager := memoryManager;
      scheduler := memoryManager.scheduler;
      maintenanceInterval := None;
      handles := {};
      new;
      StartMaintenanceLoop();
    }

    /** `startMaintenanceLoop`: clear the current timer, if any, and schedule a new one. */
    method StartMaintenanceLoop()
      requires Valid()
      modifies this, scheduler
      ensures Valid()
      ensures maintenanceInterval == Some(old(scheduler.next)) && handles == old(handles) + {old(scheduler.next)}
      ensures scheduler.active ==
                (if old(maintenanceInterval).Some? then old(scheduler.active) - {old(maintenanceInterval).value}
                 else old(scheduler.active))[old(scheduler.next) := MAINTENANCE_PERIOD_MS]
      ensures scheduler.next == old(scheduler.next) + 1
    {
      if maintenanceInterval.Some? {
        scheduler.ClearInterval(maintenanceInterval.value);
      }
      var h := scheduler.SetInterval(MAINTENANCE_PERIOD_MS);
      maintenanceInterval := Some(h);
      handles := handles + {h};
    }

    /** `performMaintenance`, with the usage figures `tf.memory()` reports to it. */
    method PerformMaintenance(numTensors: int, numBytes: int)
      modifies memoryManager.engine
      ensures memoryManager.engine.log == old(memoryManager.engine.log) + MaintenanceTrace(numTensors, numBytes)
      ensures memoryManager.engine.scopeDepth == old(memoryManager.engine.scopeDepth)
      ensures memoryManager.engine.nextId == old(memoryManager.engine.nextId)
    {
      var engine := memoryManager.engine;
      engine.StartScope();
      if numTensors > TENSOR_CEILING || numBytes > BYTE_CEILING {
        engine.DisposeVariables();
        engine.DisposeVariables();
        engine.DisposeAll();
      }
      engine.EndScope();
    }

    /** `dispose`: clear the maintenance timer and forget it; a second call changes nothing. */
    method Dispose()
      requires Valid()
      modifies this, scheduler
      ensures Valid() && maintenanceInterval == None && handles == old(handles)
      ensures forall h :: h in handles ==> h !in scheduler.active
      ensures scheduler.active ==
                if old(maintenanceInterval).Some? then old(scheduler.active) - {old(maintenanceInterval).value}
                else old(scheduler.active)
      ensures scheduler.next == old(scheduler.next)
    {
      if maintenanceInterval.Some? {
        scheduler.ClearInterval(maintenanceInterval.value);
        maintenanceInterval := None;
      }
    }
  }

  /**
   * The static `instance` fields of the three classes, with the engine and event loop they
   * share. The key, IV and cipher passed to the getters are used only when the memory
   * manager is first created.
   */
  class Singletons {
    const engine: Engine
    const scheduler: Scheduler
    var memoryManager: MemoryManager?
    var vectorProcessor: VectorProcessor?
    var maintenance: AutomaticMemoryMaintenance?

    ghost predicate Valid()
      reads this, scheduler, memoryManager, maintenance
    {
      scheduler.Valid() &&
      (memoryManager != null ==>
         memoryManager.scheduler == scheduler && memoryManager.engine == engine && memoryManager.Valid()) &&
      (vectorProcessor != null ==> memoryManager != null && vectorProcessor.memoryManager == memoryManager) &&
      (maintenance != null ==>
         memoryManager != null && maintenance.memoryManager == memoryManager &&
         maintenance.scheduler == scheduler && maintenance.Valid())
    }

    constructor (engine: Engine, scheduler: Scheduler)
      requires scheduler.Valid()
      ensures Valid() && this.engine == engine && this.scheduler == scheduler
      ensures memoryManager == null && vectorProcessor == null && maintenance == null
    {
      this.engine := engine;
      this.scheduler := scheduler;
      memoryManager, vectorProcessor, maintenance := null, null, null;
    }

    /** `MemoryManager.getInstance`: the existing instance, or a new one on the first call. */
    method GetMemoryManager(key: seq<byte>, iv: seq<byte>, aes: (seq<byte>, seq<byte>) -> Cipher) returns (m: MemoryManager)
      requires Valid() && |key| == 32 && |iv| == 16
      modifies this, scheduler
      ensures Valid() && memoryManager == m
      ensures old(memoryManager) != null ==> m == old(memoryManager) && unchanged(scheduler)
      ensures old(memoryManager) == null ==> fresh(m) && m.encryptionKey == key && m.iv == iv && m.cipher == aes(key, iv)
      ensures old(memoryManager) == null ==>
                m.cleanupInterval == Some(old(scheduler.next)) &&
                scheduler.active == old(scheduler.active)[old(scheduler.next) := CLEANUP_PERIOD_MS]
      ensures vectorProcessor == old(vectorProcessor) && maintenance == old(maintenance)
    {
      if memoryManager == null {
        memoryManager := new MemoryManager(key, iv, aes, engine, scheduler);
      }
      m := memoryManager;
    }

    /** `VectorProcessor.getInstance`: the existing instance, or a new one over the memory manager singleton. */
    method GetVectorProcessor(key: seq<byte>, iv: seq<byte>, aes: (seq<byte>, seq<byte>) -> Cipher) returns (p: VectorProcessor)
      requires Valid() && |key| == 32 && |iv| == 16
      modifies this, scheduler
      ensures Valid() && vectorProcessor == p && p.memoryManager == memoryManager
      ensures old(vectorProcessor) != null ==> p == old(vectorProcessor) && unchanged(scheduler)
      ensures old(vectorProcessor) == null ==> fresh(p)
      ensures maintenance == old(maintenance)
      ensures old(memoryManager) != null ==> memoryManager == old(memoryManager)
    {
      if vectorProcessor == null {
        var m := GetMemoryManager(key, iv, aes);
        vectorProcessor := new VectorProcessor(m);
      }
      p := vectorProcessor;
    }

    /** `AutomaticMemoryMaintenance.getInstance`: the existing instance, or a new one whose timer starts. */
    method GetMaintenance(key: seq<byte>, iv: seq<byte>, aes: (seq<byte>, seq<byte>) -> Cipher) returns (a: AutomaticMemoryMaintenance)
      requires Valid() && |key| == 32 && |iv| == 16
      modifies this, scheduler
      ensures Valid() && maintenance == a && a.memoryManager == memoryManager
      ensures old(maintenance) != null ==> a == old(maintenance) && unchanged(scheduler)
      ensures old(maintenance) == null ==> fresh(a) && a.maintenanceInterval.Some?
      ensures old(maintenance) == null ==>
                a.maintenanceInterval.value in scheduler.active &&
                scheduler.active[a.maintenanceInterval.value] == MAINTENANCE_PERIOD_MS
      ensures vectorProcessor == old(vectorProcessor)
      ensures old(memoryManager) != null ==> memoryManager == old(memoryManager)
    {
      if maintenance == null {
        var m := GetMemoryManager(key, iv, aes);
        maintenance := new AutomaticMemoryMaintenance(m);
      }
      a := maintenance;
    }
  }

  /** Two calls of `getInstance` return the same object. */
  method GetInstanceTwice(s: Singletons, key: seq<byte>, iv: seq<byte>, aes: (seq<byte>, seq<byte>) -> Cipher)
    returns (first: MemoryManager, second: MemoryManager)
    requires s.Valid() && |key| == 32 && |iv| == 16
    modifies s, s.scheduler
    ensures first == second
  {
    first := s.GetMemoryManager(key, iv, aes);
    second := s.GetMemoryManager(key, iv, aes);
  }

  /** Of the timers an instance has obtained, at most one is still scheduled. */
  lemma AtMostOneCleanupTimer(m: MemoryManager, a: nat, b: nat)
    requires m.Valid()
    requires a in m.handles && a in m.scheduler.active && b in m.handles && b in m.scheduler.active
    ensures a == b
  {
  }
}
