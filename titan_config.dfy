/**
 * `TitanMemoryConfigSchema.parse`: a zod object schema whose thirteen numeric fields each
 * have a default and a list of checks. A missing or undefined field takes its default,
 * which then goes through the same checks; every failed check of every field is reported.
 */
module TitanConfig {
  import opened Wrappers
  import opened Values

  /** The zod number refinements used: `.int()`, `.positive()`, `.min(b)`, `.max(b)`. */
  datatype Check = IsInt | Gt(bound: real) | Ge(bound: real) | Le(bound: real)

  datatype FieldSpec = FieldSpec(key: string, checks: seq<Check>, default: real)

  /** zod's issue codes for these checks; a failed `.int()` is reported as `invalid_type`. */
  datatype IssueCode = InvalidType | TooSmall | TooBig

  datatype Issue = Issue(path: string, code: IssueCode)

  /** `Number.isInteger` on a finite number. */
  predicate IsInteger(x: real)
  {
    x.Floor as real == x
  }

  predicate Passes(c: Check, x: real)
  {
    match c
    case IsInt => IsInteger(x)
    case Gt(b) => x > b
    case Ge(b) => x >= b
    case Le(b) => x <= b
  }

  function CodeOf(c: Check): IssueCode
  {
    match c
    case IsInt => InvalidType
    case Gt(_) => TooSmall
    case Ge(_) => TooSmall
    case Le(_) => TooBig
  }

  /** The issues of the failing checks, in the order the checks were declared. */
  function CheckIssues(key: string, checks: seq<Check>, x: real): (issues: seq<Issue>)
    ensures issues == [] <==> forall i :: 0 <= i < |checks| ==> Passes(checks[i], x)
    ensures forall j :: 0 <= j < |issues| ==> issues[j].path == key
  {
    if checks == [] then []
    else
      (if Passes(checks[0], x) then [] else [Issue(key, CodeOf(checks[0]))]) + CheckIssues(key, checks[1..], x)
  }

  /** The schema, field by field. */
  const Schema: seq<FieldSpec> := [
    FieldSpec("inputDim", [IsInt, Gt(0.0)], 768.0),
    FieldSpec("hiddenDim", [IsInt, Gt(0.0)], 512.0),
    FieldSpec("memoryDim", [IsInt, Gt(0.0)], 1024.0),
    FieldSpec("transformerLayers", [IsInt, Gt(0.0), Le(12.0)], 6.0),
    FieldSpec("numHeads", [IsInt, Gt(0.0)], 8.0),
    FieldSpec("ffDimension", [IsInt, Gt(0.0)], 2048.0),
    FieldSpec("dropoutRate", [Ge(0.0), Le(0.9)], 0.1),
    FieldSpec("maxSequenceLength", [IsInt, Gt(0.0)], 512.0),
    FieldSpec("memorySlots", [IsInt, Gt(0.0)], 5000.0),
    FieldSpec("similarityThreshold", [Ge(0.0), Le(1.0)], 0.65),
    FieldSpec("surpriseDecay", [Ge(0.0), Le(1.0)], 0.9),
    FieldSpec("pruningInterval", [IsInt, Gt(0.0)], 1000.0),
    FieldSpec("gradientClip", [Gt(0.0)], 1.0)
  ]

  /** The positions in `Schema` of the fields declared `.int().positive()` with no upper bound. */
  const PositiveIntFields: set<nat> := {0, 1, 2, 4, 5, 7, 8, 11}
  /** The schema positions of the fields that are not `int()`. */
  const RealFields: set<nat> := {6, 9, 10, 12}

  /** The value a field is checked on: its input, or its default when missing or undefined. */
  function FieldValue(f: FieldSpec, fields: map<string, JsValue>): JsValue
  {
    if f.key !in fields || fields[f.key] == Undefined then Num(f.default) else fields[f.key]
  }

  /** The field is a number that passes all of its checks. */
  predicate Accepted(f: FieldSpec, fields: map<string, JsValue>)
  {
    FieldValue(f, fields).Num? && forall i :: 0 <= i < |f.checks| ==> Passes(f.checks[i], FieldValue(f, fields).n)
  }

  function FieldIssues(f: FieldSpec, fields: map<string, JsValue>): (issues: seq<Issue>)
    ensures issues == [] <==> Accepted(f, fields)
  {
    var v := FieldValue(f, fields);
    if !v.Num? then [Issue(f.key, InvalidType)] else CheckIssues(f.key, f.checks, v.n)
  }

  /** The checked values of `specs`, in order, and the issues of all of them. */
  function ParseFields(specs: seq<FieldSpec>, fields: map<string, JsValue>): (r: (seq<real>, seq<Issue>))
    ensures |r.0| == |specs|
    ensures r.1 == [] <==> forall i :: 0 <= i < |specs| ==> Accepted(specs[i], fields)
    ensures r.1 == [] ==> forall i :: 0 <= i < |specs| ==> r.0[i] == FieldValue(specs[i], fields).n
  {
    if specs == [] then ([], [])
    else
      var rest := ParseFields(specs[1..], fields);
      var v := FieldValue(specs[0], fields);
      var issues := FieldIssues(specs[0], fields) + rest.1;
      var r := ([if v.Num? then v.n else 0.0] + rest.0, issues);
      assert r.1 == [] ==> forall i :: 1 <= i < |specs| ==> specs[i] == specs[1..][i - 1];
      r
  }

  datatype TitanMemoryConfig = TitanMemoryConfig(
    inputDim: int, hiddenDim: int, memoryDim: int, transformerLayers: int, numHeads: int,
    ffDimension: int, dropoutRate: real, maxSequenceLength: int, memorySlots: int,
    similarityThreshold: real, surpriseDecay: real, pruningInterval: int, gradientClip: real)

  /** The value of the config field at schema position `i`. */
  function FieldAt(c: TitanMemoryConfig, i: nat): real
    requires i < |Schema|
  {
    match i
    case 0 => c.inputDim as real
    case 1 => c.hiddenDim as real
    case 2 => c.memoryDim as real
    case 3 => c.transformerLayers as real
    case 4 => c.numHeads as real
    case 5 => c.ffDimension as real
    case 6 => c.dropoutRate
    case 7 => c.maxSequenceLength as real
    case 8 => c.memorySlots as real
    case 9 => c.similarityThreshold
    case 10 => c.surpriseDecay
    case 11 => c.pruningInterval as real
    case 12 => c.gradientClip
  }

  function Build(vs: seq<real>): TitanMemoryConfig
    requires |vs| == |Schema|
  {
    TitanMemoryConfig(vs[0].Floor, vs[1].Floor, vs[2].Floor, vs[3].Floor, vs[4].Floor, vs[5].Floor,
                      vs[6], vs[7].Floor, vs[8].Floor, vs[9], vs[10], vs[11].Floor, vs[12])
  }

  /**
   * The properties `z.object` reads from its input: an object literal's own, and none of the
   * thirteen keys for any other object such as a tensor; `None` for the values zod does not
   * parse as objects (primitives, `null`, `undefined`, arrays).
   */
  function ObjectFields(input: JsValue): (r: Option<map<string, JsValue>>)
    ensures r.Some? <==> input.Obj? || input.TensorVal?
    ensures input.Obj? ==> r == Some(input.fields)
    ensures input.TensorVal? ==> r == Some(map[])
  {
    match input
    case Obj(fields) => Some(fields)
    case TensorVal(_) => Some(map[])
    case _ => None
  }

  /** `TitanMemoryConfigSchema.safeParse(input)`: the config, or every issue found. */
  function Parse(input: JsValue): (r: Result<TitanMemoryConfig, seq<Issue>>)
    ensures r.Err? ==> r.error != []
    ensures !(input.Obj? || input.TensorVal?) ==> r == Err([Issue("", InvalidType)])
  {
    var fields := ObjectFields(input);
    if fields.None? then Err([Issue("", InvalidType)])
    else
      var (vs, issues) := ParseFields(Schema, fields.value);
      if issues != [] then Err(issues) else Ok(Build(vs))
  }

  /** An object input is accepted exactly when every field is accepted. */
  lemma ParseOkIff(fields: map<string, JsValue>)
    ensures Parse(Obj(fields)).Ok? <==> forall i :: 0 <= i < |Schema| ==> Accepted(Schema[i], fields)
  {
  }

  /** Reading field `i` back from a built config: the integer fields lose their fractional part. */
  lemma BuildFieldAt(vs: seq<real>, i: nat)
    requires |vs| == |Schema| && i < |Schema|
    ensures FieldAt(Build(vs), i) == if i in RealFields then vs[i] else vs[i].Floor as real
  {
  }

  /** A value accepted by a field whose first check is `int()` is an integer. */
  lemma AcceptedInteger(f: FieldSpec, fields: map<string, JsValue>)
    requires Accepted(f, fields) && |f.checks| > 0 && f.checks[0] == IsInt
    ensures IsInteger(FieldValue(f, fields).n)
  {
    assert Passes(f.checks[0], FieldValue(f, fields).n);
  }

  /** Each field of an accepted config is its input value, or its default when the input is missing or undefined. */
  lemma ParseFieldValue(fields: map<string, JsValue>, i: nat)
    requires i < |Schema| && Parse(Obj(fields)).Ok?
    ensures FieldAt(Parse(Obj(fields)).value, i) == FieldValue(Schema[i], fields).n
  {
    var (vs, issues) := ParseFields(Schema, fields);
    assert Parse(Obj(fields)).value == Build(vs);
    BuildFieldAt(vs, i);
    assert vs[i] == FieldValue(Schema[i], fields).n;
    if i !in RealFields {
      assert Schema[i].checks[0] == IsInt;
      AcceptedInteger(Schema[i], fields);
    }
  }

  /** Distinct fields have distinct keys. */
  lemma KeysDistinct(i: nat, j: nat)
    requires i < |Schema| && j < |Schema| && i != j
    ensures Schema[i].key != Schema[j].key
  {
  }

  /** Every default passes its own field's checks. */
  lemma DefaultAccepted(i: nat)
    requires i < |Schema|
    ensures Accepted(Schema[i], map[])
  {
    var empty: map<string, JsValue> := map[];
    assert FieldValue(Schema[i], empty) == Num(Schema[i].default);
  }

  lemma ParseEmptyOk()
    ensures Parse(Obj(map[])).Ok?
  {
    var empty: map<string, JsValue> := map[];
    forall i | 0 <= i < |Schema| ensures Accepted(Schema[i], empty) {
      DefaultAccepted(i);
    }
    ParseOkIff(empty);
  }

  lemma ParseEmptyField(i: nat)
    requires i < |Schema|
    ensures Parse(Obj(map[])).Ok? && FieldAt(Parse(Obj(map[])).value, i) == Schema[i].default
  {
    var empty: map<string, JsValue> := map[];
    ParseEmptyOk();
    ParseFieldValue(empty, i);
    assert FieldValue(Schema[i], empty) == Num(Schema[i].default);
  }

  /** A config whose every field is its default is the documented default record. */
  lemma AllDefaults(c: TitanMemoryConfig)
    requires forall i :: 0 <= i < |Schema| ==> FieldAt(c, i) == Schema[i].default
    ensures c == TitanMemoryConfig(768, 512, 1024, 6, 8, 2048, 0.1, 512, 5000, 0.65, 0.9, 1000, 1.0)
  {
    assert FieldAt(c, 0) == Schema[0].default;
    assert FieldAt(c, 1) == Schema[1].default;
    assert FieldAt(c, 2) == Schema[2].default;
    assert FieldAt(c, 3) == Schema[3].default;
    assert FieldAt(c, 4) == Schema[4].default;
    assert FieldAt(c, 5) == Schema[5].default;
    assert FieldAt(c, 6) == Schema[6].default;
    assert FieldAt(c, 7) == Schema[7].default;
    assert FieldAt(c, 8) == Schema[8].default;
    assert FieldAt(c, 9) == Schema[9].default;
    assert FieldAt(c, 10) == Schema[10].default;
    assert FieldAt(c, 11) == Schema[11].default;
    assert FieldAt(c, 12) == Schema[12].default;
  }

  /** Parsing an empty object yields the documented defaults. */
  lemma ParseEmptyYieldsDefaults()
    ensures Parse(Obj(map[])) == Ok(TitanMemoryConfig(768, 512, 1024, 6, 8, 2048, 0.1, 512, 5000, 0.65, 0.9, 1000, 1.0))
  {
    ParseEmptyOk();
    var c := Parse(Obj(map[])).value;
    forall i | 0 <= i < |Schema| ensures FieldAt(c, i) == Schema[i].default {
      ParseEmptyField(i);
    }
    AllDefaults(c);
  }

  /** The integer fields are accepted only as positive integers. */
  lemma PositiveIntegerFields(fields: map<string, JsValue>, i: nat)
    requires i in PositiveIntFields
    ensures Accepted(Schema[i], fields) <==>
              FieldValue(Schema[i], fields).Num? && IsInteger(FieldValue(Schema[i], fields).n) && FieldValue(Schema[i], fields).n > 0.0
  {
    var checks := Schema[i].checks;
    assert checks == [IsInt, Gt(0.0)];
    var v := FieldValue(Schema[i], fields);
    if v.Num? {
      assert Passes(checks[0], v.n) <==> IsInteger(v.n);
      assert Passes(checks[1], v.n) <==> v.n > 0.0;
    }
  }

  /** `transformerLayers` is accepted only as a positive integer of at most 12. */
  lemma TransformerLayersBound(fields: map<string, JsValue>)
    ensures Accepted(Schema[3], fields) <==>
              FieldValue(Schema[3], fields).Num? && IsInteger(FieldValue(Schema[3], fields).n) &&
              0.0 < FieldValue(Schema[3], fields).n <= 12.0
  {
    var checks := Schema[3].checks;
    assert checks == [IsInt, Gt(0.0), Le(12.0)];
    var v := FieldValue(Schema[3], fields);
    if v.Num? {
      assert Passes(checks[0], v.n) <==> IsInteger(v.n);
      assert Passes(checks[1], v.n) <==> v.n > 0.0;
      assert Passes(checks[2], v.n) <==> v.n <= 12.0;
    }
  }

  /** A field checked by `.min(lo).max(hi)` is accepted exactly in [lo, hi]. */
  lemma IntervalField(fields: map<string, JsValue>, i: nat, lo: real, hi: real)
    requires i < |Schema| && Schema[i].checks == [Ge(lo), Le(hi)]
    ensures Accepted(Schema[i], fields) <==>
              FieldValue(Schema[i], fields).Num? && lo <= FieldValue(Schema[i], fields).n <= hi
  {
    var v := FieldValue(Schema[i], fields);
    if v.Num? {
      assert Passes(Schema[i].checks[0], v.n) <==> lo <= v.n;
      assert Passes(Schema[i].checks[1], v.n) <==> v.n <= hi;
    }
  }

  /** `dropoutRate` lies in [0, 0.9]; `similarityThreshold` and `surpriseDecay` in [0, 1]; `gradientClip` is positive. */
  lemma RealFieldBounds(fields: map<string, JsValue>)
    ensures Accepted(Schema[6], fields) <==> FieldValue(Schema[6], fields).Num? && 0.0 <= FieldValue(Schema[6], fields).n <= 0.9
    ensures Accepted(Schema[9], fields) <==> FieldValue(Schema[9], fields).Num? && 0.0 <= FieldValue(Schema[9], fields).n <= 1.0
    ensures Accepted(Schema[10], fields) <==> FieldValue(Schema[10], fields).Num? && 0.0 <= FieldValue(Schema[10], fields).n <= 1.0
    ensures Accepted(Schema[12], fields) <==> FieldValue(Schema[12], fields).Num? && FieldValue(Schema[12], fields).n > 0.0
  {
    IntervalField(fields, 6, 0.0, 0.9);
    IntervalField(fields, 9, 0.0, 1.0);
    IntervalField(fields, 10, 0.0, 1.0);
    var v := FieldValue(Schema[12], fields);
    if v.Num? {
      assert Passes(Schema[12].checks[0], v.n) <==> v.n > 0.0;
    }
  }

  /** Providing a value for field `i` leaves field `j` as it was. */
  lemma OverrideLeavesOtherField(fields: map<string, JsValue>, i: nat, j: nat, x: real)
    requires i < |Schema| && j < |Schema| && i != j && Parse(Obj(fields)).Ok?
    requires Parse(Obj(fields[Schema[i].key := Num(x)])).Ok?
    ensures FieldAt(Parse(Obj(fields[Schema[i].key := Num(x)])).value, j) == FieldAt(Parse(Obj(fields)).value, j)
  {
    var fields' := fields[Schema[i].key := Num(x)];
    KeysDistinct(i, j);
    assert FieldValue(Schema[j], fields') == FieldValue(Schema[j], fields);
    ParseFieldValue(fields', j);
    ParseFieldValue(fields, j);
  }

  /** A valid value provided for one field overrides its default and leaves every other field as it was. */
  lemma OverrideOneField(fields: map<string, JsValue>, i: nat, x: real)
    requires i < |Schema| && Parse(Obj(fields)).Ok?
    requires Parse(Obj(fields[Schema[i].key := Num(x)])).Ok?
    ensures FieldAt(Parse(Obj(fields[Schema[i].key := Num(x)])).value, i) == x
    ensures forall j :: 0 <= j < |Schema| && j != i ==>
              FieldAt(Parse(Obj(fields[Schema[i].key := Num(x)])).value, j) == FieldAt(Parse(Obj(fields)).value, j)
  {
    ParseFieldValue(fields[Schema[i].key := Num(x)], i);
    forall j | 0 <= j < |Schema| && j != i
      ensures FieldAt(Parse(Obj(fields[Schema[i].key := Num(x)])).value, j) == FieldAt(Parse(Obj(fields)).value, j)
    {
      OverrideLeavesOtherField(fields, i, j, x);
    }
  }

  /** A tensor has none of the schema's keys, so it parses to the default configuration. */
  lemma ParseTensorYieldsDefaults(t: Tensor)
    ensures Parse(TensorVal(t)) == Ok(TitanMemoryConfig(768, 512, 1024, 6, 8, 2048, 0.1, 512, 5000, 0.65, 0.9, 1000, 1.0))
  {
    assert Parse(TensorVal(t)) == Parse(Obj(map[]));
    ParseEmptyYieldsDefaults();
  }
}
