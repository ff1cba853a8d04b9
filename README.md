# Titan memory utilities, modelled in Dafny

This project models the utility layer of the Titan memory server, an MCP
server that keeps a neural memory in TensorFlow.js tensors:

- the tensor guards `checkNullOrUndefined`, `validateTensor` and
  `validateTensorShape`, and the `SafeTensorOps` wrappers that run a
  TensorFlow.js operation only on live tensors;
- the `MemoryManager` singleton. It owns a per-process AES-256-GCM key and IV,
  runs a one-minute cleanup timer that forces tensor disposal above 1000 live
  tensors, checks vector shapes, encrypts tensors to `ciphertext ‖ tag`,
  decrypts them back, and runs callbacks inside engine scopes;
- the `VectorProcessor` singleton, which turns strings, numbers, number arrays
  and tensors into rank-1 or cloned tensors, checks and normalises shapes, and
  encodes text into a zero-padded byte tensor of fixed length;
- the `AutomaticMemoryMaintenance` singleton, whose five-minute timer forces
  disposal above 1000 tensors or 10^8 bytes;
- from the type definitions: the `TitanMemoryConfigSchema`, with its thirteen
  defaults and bounds and zod's parse semantics, the identity
  `wrapTensor`/`unwrapTensor`, and the `TensorError`/`MemoryError` names.

## Modelling choices

- **Values.** A JavaScript argument is a `JsValue`. A tensor is a value: a
  handle `id`, a shape, its float32 elements as IEEE-754 bit patterns (`bv32`)
  and a disposed flag. Conversion from a JavaScript number to float32
  (`Math.fround`) is a function parameter `fround`.
- **The TensorFlow.js engine** is the class `TfEngine.Engine`. It holds the
  scope depth, the next tensor handle and a log of the calls the code makes
  (`startScope`, `endScope`, `disposeVariables`, `dispose`). `tf.tidy` and
  `startScope`/`endScope` are modelled by what they do to that state.
- **Timers.** `setInterval`/`clearInterval` are the class `Timers.Scheduler`.
  Each manager keeps a ghost set of the handles it has obtained. It is proved
  that at most one of them is still scheduled.
- **AES-256-GCM** is `Gcm.Cipher`: a keystream XORed with the data (GCTR) and a
  16-byte tag function over the ciphertext. The key and IV are fixed when the
  manager is created. `Open` follows Node's `decipher` behaviour:
  - it rejects tag lengths other than 4, 8 and 12–16;
  - it compares the given tag with that many leading bytes of the computed tag;
  - on a mismatch it fails with "Unsupported state or unable to authenticate data".
- **Node buffers.** `Buffer.concat` allocates through `Buffer.allocUnsafe`.
  For sizes of 1 to 4095 bytes that allocation is a view into a shared
  8192-byte pool slab, so `buffer.buffer` is the whole slab and not just the
  view. `NodeBuffers.Concat` models this; the slab's other bytes and the
  offset are parameters.
- **Config parsing** models zod:
  - a missing or `undefined` field takes its default, and the default is then
    checked like any other value;
  - every check on every field runs, and each failing check adds one issue
    (path and code);
  - the parse succeeds exactly when no issue was raised;
  - the issue codes are zod's: `invalid_type` for a value that is not a number
    and for a failed `.int()`, `too_small` for `.positive()`/`.min`, and
    `too_big` for `.max`;
  - `z.object` reads any non-array object, so a tensor passed as the input
    has none of the keys and parses to the defaults; primitives, `null`,
    `undefined` and arrays are an `invalid_type` at the root.

`performMaintenance` has no `try`/`catch` (`src/utils.ts:188-199`): an error
in the tick propagates, and the model has no error path there.

## Model

| member | source | states |
|---|---|---|
| Validation.CheckNullOrUndefined | src/utils.ts:210-212 | true exactly for `null` and `undefined` |
| Validation.ValidateTensor | src/utils.ts:214-216 | true exactly for a tensor that is not disposed; false for null and undefined |
| Validation.EveryDimFromIff | src/utils.ts:222 | the recursive per-dimension scan agrees with the quantified rule (each expected entry is -1 or equal to the dimension) |
| Validation.ShapeMatches | src/utils.ts:221-222 | true exactly when the ranks agree and every dimension matches its expected entry or that entry is -1 |
| Validation.ValidateTensorShape | src/utils.ts:218-223 | true exactly for a live tensor whose shape agrees with the expected one under the -1 wildcard rule |
| Validation.LiveTensorMatchesOwnShape | src/utils.ts:218-223 | a live tensor always matches its own shape |
| Validation.OtherDimensionRejected | src/utils.ts:222 | changing one expected dimension to a different non-wildcard value makes the check fail |
| SafeTensorOps.Reshape | src/utils.ts:227-232 | a live tensor goes to the primitive; otherwise the error "Invalid tensor for reshape operation" |
| SafeTensorOps.MatMul | src/utils.ts:234-239 | both operands live: the primitive's outcome; otherwise "Invalid tensors for matMul operation" |
| SafeTensorOps.Add | src/utils.ts:241-246 | both operands live: the primitive's outcome; otherwise "Invalid tensors for add operation" |
| SafeTensorOps.Sub | src/utils.ts:248-253 | both operands live: the primitive's outcome; otherwise "Invalid tensors for sub operation" |
| SafeTensorOps.Mul | src/utils.ts:255-260 | both operands live: the primitive's outcome; otherwise "Invalid tensors for mul operation" |
| SafeTensorOps.Div | src/utils.ts:262-267 | both operands live: the primitive's outcome; otherwise "Invalid tensors for div operation" |
| Values.NewError | src/utils.ts:123 | a plain `Error` carries the name "Error" and the given message |
| Float32Bytes.WordBytes | src/utils.ts:56 | one float32 occupies four bytes |
| Float32Bytes.WordRoundTrip | src/utils.ts:56 | reading back the four little-endian bytes of a float32 gives the same bit pattern |
| Float32Bytes.Serialize | src/utils.ts:56 | `Float32Array(data).buffer` holds four bytes per element |
| Float32Bytes.Words | src/utils.ts:72 | a byte sequence of length 4n reads as n float32 values |
| Float32Bytes.View | src/utils.ts:72 | `new Float32Array(buffer)` succeeds exactly when the byte length is a multiple of 4, and then has a quarter as many elements |
| Float32Bytes.WordsSerialize | src/utils.ts:56 | reading the serialised bytes gives back the original floats |
| Float32Bytes.ViewSerialize | src/utils.ts:72 | viewing the serialised bytes as a `Float32Array` gives back the original floats |
| NodeBuffers.Concat | src/utils.ts:68-71 | the result shows exactly the concatenated bytes; for 1 to 4095 bytes they sit in a shared slab of 8192 bytes, otherwise (including 0 bytes) in a buffer of their own |
| Gcm.Gctr | src/utils.ts:54-58 | length preserved; each byte XORed with the keystream byte at its position |
| Gcm.GctrInvolution | src/utils.ts:66-71 | encrypting twice under the same key and IV gives the plaintext back |
| Gcm.Seal | src/utils.ts:54-60 | the output is the ciphertext followed by its 16-byte tag |
| Gcm.TagPart | src/utils.ts:64 | `slice(-16)`: the last 16 bytes, or the whole blob when it is shorter |
| Gcm.CiphertextPart | src/utils.ts:65 | `slice(0, -16)`: everything before the last 16 bytes, or nothing for a shorter blob |
| Gcm.SplitBlob | src/utils.ts:64-65 | the two slices are the blob split in two, ciphertext first |
| Gcm.Open | src/utils.ts:64-71 | the last 16 bytes are taken as the tag and the rest as ciphertext; for a blob of at least 16 bytes, success exactly when the tag matches; the plaintext is then the ciphertext decrypted |
| Gcm.OpenSeal | src/utils.ts:52-71 | opening what was sealed gives the plaintext back |
| Gcm.OpenRejectsAlteredTag | src/utils.ts:67-71 | a blob with a changed tag fails to authenticate |
| TensorCrypto.EncryptTensor | src/utils.ts:52-61 | fails exactly for a disposed tensor (`dataSync`); otherwise has 4 bytes per element plus 16, and opens to the tensor's float32 bytes |
| TensorCrypto.MakeTensor | src/utils.ts:73 | `tf.tensor(values, shape)` succeeds exactly when the dimensions are non-negative and multiply to the number of values, and then builds that tensor |
| TensorCrypto.DecryptTensor | src/utils.ts:63-74 | corrected decryption: a success is a live, well-formed tensor of the requested shape whose float32 bytes are the authenticated plaintext |
| TensorCrypto.ViewWordsSerialize | src/utils.ts:72 | serialising what was read from a byte sequence of length 4n gives those bytes back |
| TensorCrypto.DecryptTensorAsWritten | src/utils.ts:63-74 | decryption as written: an authentication failure is passed on; a success holds the float32 values of the whole backing array buffer of the decrypted `Buffer`, in the requested shape |
| TensorCrypto.DecryptTensorViewed | src/utils.ts:68-73 | reading the decrypted bytes exactly where the buffer's view lies gives the corrected decryption |
| TensorCrypto.DecryptEncrypt | src/utils.ts:52-74 | decrypting an encrypted live, well-formed tensor with its own shape gives a live tensor with the same shape and elements |
| TensorCrypto.DecryptWithOtherShape | src/utils.ts:63-74 | decryption with any other shape of the same size reshapes the same elements |
| TensorCrypto.DecryptRejectsAlteredTag | src/utils.ts:64-71 | an encrypted tensor with a changed tag does not decrypt |
| TensorCrypto.AsWrittenRejectsSmallTensors | src/utils.ts:68-73 | as written, decrypting an encrypted tensor of 1 to 1023 elements always fails |
| TensorCrypto.AsWrittenCorrectForLargeTensors | src/utils.ts:68-73 | as written, tensors of 1024 or more elements still come back intact |
| TitanTypes.WrapTensor | src/types.ts:20 | wrapping returns the same tensor |
| TitanTypes.UnwrapTensor | src/types.ts:27 | unwrapping returns the same tensor |
| TitanTypes.UnwrapWrap | src/types.ts:20-27 | unwrap undoes wrap |
| TitanTypes.NewTensorError | src/types.ts:310-315 | the error carries the name "TensorError" and the message |
| TitanTypes.NewMemoryError | src/types.ts:317-322 | the error carries the name "MemoryError" and the message |
| TitanConfig.CheckIssues | src/types.ts:66-78 | no issue exactly when every check of the field passes; every issue is reported at the field's path |
| TitanConfig.FieldIssues | src/types.ts:66-78 | no issue exactly when the field's value (given or default) is a number passing all its checks |
| TitanConfig.ParseFields | src/types.ts:65-79 | one value per field; no issue exactly when every field is accepted, and the values are then the given or default numbers |
| TitanConfig.ObjectFields | src/types.ts:65 | `z.object` reads the fields of an object literal, nothing from a tensor, and rejects every other kind of value |
| TitanConfig.Parse | src/types.ts:65-79 | a failed parse reports at least one issue; anything that is not an object is one `invalid_type` issue at the root |
| TitanConfig.ParseTensorYieldsDefaults | src/types.ts:65-79 | a tensor passed as the config parses to the thirteen defaults |
| TitanConfig.ParseOkIff | src/types.ts:65-79 | an object parses exactly when all thirteen fields are accepted |
| TitanConfig.ParseFieldValue | src/types.ts:65-79 | each parsed field holds the given value, or the default when the key is absent or undefined |
| TitanConfig.BuildFieldAt | src/types.ts:81 | the config record keeps each real field as given and each integer field as an integer |
| TitanConfig.AcceptedInteger | src/types.ts:66 | a value accepted by an `int()` field is an integer |
| TitanConfig.KeysDistinct | src/types.ts:66-78 | the thirteen keys are distinct |
| TitanConfig.DefaultAccepted | src/types.ts:66-78 | every default satisfies its own field's checks |
| TitanConfig.ParseEmptyOk | src/types.ts:65-79 | the empty object parses |
| TitanConfig.ParseEmptyField | src/types.ts:66-78 | parsing the empty object gives each field its default |
| TitanConfig.AllDefaults | src/types.ts:66-78 | the defaults are 768, 512, 1024, 6, 8, 2048, 0.1, 512, 5000, 0.65, 0.9, 1000 and 1.0 |
| TitanConfig.ParseEmptyYieldsDefaults | src/types.ts:65-79 | `parse({})` is the configuration of all thirteen defaults |
| TitanConfig.PositiveIntegerFields | src/types.ts:66-77 | the eight `int().positive()` fields accept exactly positive integers |
| TitanConfig.TransformerLayersBound | src/types.ts:69 | `transformerLayers` accepts exactly integers from 1 to 12 |
| TitanConfig.IntervalField | src/types.ts:72-76 | a `min(lo).max(hi)` field accepts exactly numbers in [lo, hi] |
| TitanConfig.RealFieldBounds | src/types.ts:72-78 | dropoutRate in [0, 0.9], similarityThreshold and surpriseDecay in [0, 1], gradientClip above 0 |
| TitanConfig.OverrideLeavesOtherField | src/types.ts:65-79 | overriding one key does not change another field's parsed value |
| TitanConfig.OverrideOneField | src/types.ts:65-79 | overriding one key with an accepted number sets that field and leaves the other twelve as they were |
| TfEngine.ScopeBalanceAppend | src/utils.ts:28-40 | the scope balance of a concatenated call log is the sum of the parts' balances |
| TfEngine.InScopeBracketed | src/utils.ts:28-40 | a body without scope calls, wrapped in start/end, is balanced and never closes below its entry depth |
| TfEngine.NoScopeCalls | src/utils.ts:31-37 | a body without scope calls leaves the depth unchanged |
| TfEngine.Engine.StartScope | src/utils.ts:81 | depth up by one, the call logged |
| TfEngine.Engine.EndScope | src/utils.ts:85 | depth down by one (only inside a scope), the call logged |
| TfEngine.Engine.DisposeVariables | src/utils.ts:31 | the call logged, nothing else changes |
| TfEngine.Engine.DisposeAll | src/utils.ts:37 | the call logged, nothing else changes |
| TfEngine.Engine.Allocate | src/utils.ts:73 | a new tensor takes the next handle |
| Timers.Scheduler.SetInterval | src/utils.ts:27-42 | the new handle was not in use and is now scheduled with the period |
| Timers.Scheduler.ClearInterval | src/utils.ts:25 | the handle is no longer scheduled; the others are untouched |
| VectorInput.Tensor1d | src/utils.ts:117-128 | `tf.tensor1d(xs)` is a live rank-1 tensor of length \|xs\| holding each value rounded to float32 |
| VectorInput.ByteValues | src/utils.ts:117 | `Array.from(bytes)` holds each byte as a number |
| VectorInput.SomeNonNumber | src/utils.ts:125 | true exactly when some element is not a number |
| VectorInput.Numbers | src/utils.ts:128 | the numeric array has one value per element |
| VectorInput.ProcessInput | src/utils.ts:112-137 | per input kind: UTF-8 bytes as a rank-1 tensor; a number as a one-element tensor; the empty-array and non-number errors; a numeric array as a rank-1 tensor; a rank-0 tensor rejected; a live tensor cloned under a new handle; everything else "Invalid input type" |
| VectorInput.CloneIsNewHandle | src/utils.ts:133 | a tensor's clone is a different handle with the same shape |
| VectorInput.ValidateAndNormalize | src/utils.ts:139-147 | a matching shape is normalised; otherwise the error names the expected and actual shapes |
| VectorInput.Padded | src/utils.ts:150-157 | the padded encoding has the requested length, holds the text's bytes up to it and zeros after |
| VectorInput.PaddingUnique | src/utils.ts:150-157 | the padded encoding is determined by the text and the length |
| VectorInput.EmptyTextPadsWithZeros | src/utils.ts:150-157 | the empty text pads to all zeros |
| VectorInput.PadToLength | src/utils.ts:151-156 | the in-place copy and zero fill produce exactly the padded encoding |
| Managers.CleanupTrace | src/utils.ts:27-42 | the cleanup tick always calls `disposeVariables` inside one balanced scope, and forces `dispose` exactly above 1000 tensors |
| Managers.MaintenanceTrace | src/utils.ts:188-199 | the maintenance tick forces disposal exactly above 1000 tensors or 10^8 bytes, inside one balanced scope |
| Managers.MemoryManager.constructor | src/utils.ts:10-14 | the key and IV are fixed, the cipher is AES-256-GCM keyed by them, and one cleanup timer of 60000 ms is scheduled |
| Managers.MemoryManager.StartPeriodicCleanup | src/utils.ts:23-43 | the previous timer is cleared and a new one of 60000 ms is the only live timer of this manager |
| Managers.MemoryManager.CleanupTick | src/utils.ts:27-42 | the engine log grows by the cleanup trace; depth and handles unchanged |
| Managers.MemoryManager.ValidateVectorShape | src/utils.ts:45-50 | true exactly when the ranks agree and every dimension matches or its expected entry is -1; runs inside one balanced scope |
| Managers.MemoryManager.EncryptTensor | src/utils.ts:52-61 | fails exactly for a disposed tensor; otherwise opens under the manager's cipher to the tensor's float32 bytes |
| Managers.MemoryManager.DecryptTensor | src/utils.ts:63-74 | the corrected decryption under the manager's cipher; a new tensor takes the next handle |
| Managers.MemoryManager.WrapWithMemoryManagement | src/utils.ts:76-78 | the callback's outcome is passed on unchanged inside one balanced scope |
| Managers.MemoryManager.WrapWithMemoryManagementAsync | src/utils.ts:80-87 | on success and on error the outcome is passed on and the scope depth is restored |
| Managers.MemoryManager.Dispose | src/utils.ts:89-94 | no timer of this manager remains scheduled; a second call changes nothing |
| Managers.VectorProcessor.constructor | src/utils.ts:101-103 | the processor uses the given memory manager |
| Managers.VectorProcessor.ProcessInput | src/utils.ts:112-137 | the input conversion, inside a scope; a produced tensor takes the next handle |
| Managers.VectorProcessor.ValidateAndNormalize | src/utils.ts:139-147 | a shape the manager rejects is the error naming both shapes; otherwise normalised; the shape check's scope is nested in the outer one |
| Managers.VectorProcessor.EncodeTextWithDefaultLength | src/utils.ts:148 | without a length, the text is encoded into a tensor of shape [768] |
| Managers.VectorProcessor.EncodeText | src/utils.ts:148-159 | a tensor of shape [maxLength] holding the text's bytes truncated or zero padded; a negative length is a RangeError |
| Managers.AutomaticMemoryMaintenance.constructor | src/utils.ts:167-170 | one maintenance timer of 300000 ms is scheduled |
| Managers.AutomaticMemoryMaintenance.StartMaintenanceLoop | src/utils.ts:179-186 | the previous timer is cleared and a new one of 300000 ms is the only live timer of this instance |
| Managers.AutomaticMemoryMaintenance.PerformMaintenance | src/utils.ts:188-199 | the engine log grows by the maintenance trace; depth and handles unchanged |
| Managers.AutomaticMemoryMaintenance.Dispose | src/utils.ts:201-206 | no maintenance timer remains scheduled; a second call changes nothing |
| Managers.Singletons.constructor | src/utils.ts:5 | no instance exists yet |
| Managers.Singletons.GetMemoryManager | src/utils.ts:16-21 | the first call creates the manager and later calls return it, with no new timer |
| Managers.Singletons.GetVectorProcessor | src/utils.ts:105-110 | the first call creates the processor over the manager singleton; later calls return it |
| Managers.Singletons.GetMaintenance | src/utils.ts:172-177 | the first call creates the instance and schedules its 300000 ms timer; later calls return it |
| Managers.GetInstanceTwice | src/utils.ts:16-21 | two calls of `getInstance` return the same object |
| Managers.AtMostOneCleanupTimer | src/utils.ts:23-43 | of the timers a manager has obtained, at most one is still scheduled |

## Findings

| source | as written | input that shows it | evidently intended | confidence | as-written member | corrected member |
|---|---|---|---|---|---|---|
| src/utils.ts:72 | `new Float32Array(decrypted.buffer)` views the whole backing `ArrayBuffer`. For a result of 1 to 4095 bytes, `Buffer.concat` puts it in Node's shared 8192-byte pool slab, so the view has 2048 floats; `tf.tensor(values, shape)` then throws | encrypt, then decrypt, any live tensor of 1 to 1023 elements (e.g. shape [768]) | read only the decrypted bytes (`new Float32Array(decrypted.buffer, decrypted.byteOffset, decrypted.length / 4)`), so that decryption inverts encryption | medium, not executed | TensorCrypto.AsWrittenRejectsSmallTensors | TensorCrypto.DecryptEncrypt |

The as-written function is `TensorCrypto.DecryptTensorAsWritten`. The
corrected one is `TensorCrypto.DecryptTensor`, which the managers use.

## Left out

- TensorCrypto.DecryptEncrypt: the model has only float32 tensors and keeps bit patterns exactly, which the source does not. `new Float32Array(tensor.dataSync())` (src/utils.ts:53-56) converts int32 and bool tensors to float32, rounding integers above 2^24, and the decrypted tensor is always float32. `Array.from` (src/utils.ts:73) passes the elements through JavaScript numbers, which turns a signalling NaN into a quiet one. So the bit-exact round trip holds in the source only for float32 tensors without signalling NaNs.
- TensorCrypto.DecryptWithOtherShape: it has the same gap as `DecryptEncrypt`. There are only float32 tensors, with bit patterns kept, and the dtype conversion at src/utils.ts:56 and the NaN quieting through `Array.from` at src/utils.ts:73 are not modelled.
- TensorCrypto.AsWrittenCorrectForLargeTensors: "intact" holds in the source only for float32 data without signalling NaNs. The model has no dtype, so it does not capture the conversion at src/utils.ts:56 or the NaN quieting at src/utils.ts:73.
- Managers.MemoryManager.DecryptTensor: this models the corrected decryption, so it succeeds for tensors of 1 to 1023 elements, where the program as written throws (see "## Findings"; the as-written behaviour is `TensorCrypto.DecryptTensorAsWritten`).

- Real AES-256-GCM: the block cipher and GHASH are abstract (`Gcm.Cipher`). The framing, the tag handling and the round trip are modelled.
- The random key and IV (`crypto.randomBytes`): they are constructor parameters.
- Elapsed time and the event loop: the timer callbacks are the methods `CleanupTick` and `PerformMaintenance`, called directly.
- The numbers `tf.memory()` reports: they are parameters of those two methods.
- TensorFlow.js numerics (`tf.reshape`, `matMul`, `add`, `sub`, `mul`, `div`, `tf.div(t, tf.norm(t))`): these are function parameters. The guards around them are modelled.
- Which tensors `disposeVariables`, `dispose()`, `endScope` and `tidy` actually free: the engine only logs the calls and keeps the scope depth. `tf.dispose()` with no argument frees nothing in TensorFlow.js.
- `const tensors = tf.engine().state.numTensors`: the read at `src/utils.ts:35` and `:194` is unused, so it is left out.
- Managers.MemoryManager.WrapWithMemoryManagement: the callback is given by its outcome, so the engine calls it makes inside the scope are not logged.
- Managers.MemoryManager.WrapWithMemoryManagementAsync: the `await` and the interleaving of other asynchronous work inside the scope are not modelled.
- Managers.VectorProcessor.ValidateAndNormalize: the tensors that normalisation allocates do not advance the engine's handle counter.
- Managers.VectorProcessor.EncodeText: a non-integer `maxLength` is not modelled. The length is an `int`; a negative one raises RangeError, and the exact message text is approximate.
- String encoding: text reaches `processInput` and `encodeText` as its UTF-8 bytes. `TextEncoder` itself is not modelled.
- Tensors without a `shape` property: the check at `src/utils.ts:130` treats them like rank 0, but every modelled tensor has a shape.
- Library error messages ("Tensor is disposed.", the `Float32Array` RangeError, tf's shape-mismatch error): only their kind matters to the model, and the texts are approximate.
- Host byte order: little-endian is assumed for `Float32Array`. Node also runs on big-endian hosts, where the bytes would be reversed.
- Zod issue messages and other issue fields (`expected`, `received`, bounds): an issue keeps only its path and its code.
- Zod's type coercion: none is modelled, because the schema uses none.
- NaN and ±Infinity: numbers are reals, so they cannot be represented. Zod rejects NaN, but `z.number()` accepts ±Infinity; `gradientClip: Infinity`, for one, would pass `.positive()`.
- Everything else in `src/types.ts`: those are interfaces with no behaviour.
