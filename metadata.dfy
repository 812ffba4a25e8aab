/**
 * The metadata-validation loop of `upload_file`: every field of the stored
 * schema, in order, either gets a value in the validated metadata or an entry
 * in the error map; errors do not stop the loop.
 */
module Metadata {
  import opened PyText
  import opened PyValue
  import opened Validator
  import opened ValidationService
  import Register
  import PyNumber
  import Jsonb

  /** The messages of the error map. */
  datatype FieldError =
    | RequiredMissing                                      // "This field is required but missing"
    | InvalidValue(value: Value, field: string, dtype: string) // "Invalid value '<value>' for field '<field>' of type '<dtype>'."

  /** What the loop does with one field. */
  datatype FieldOutcome =
    | Rejected(error: FieldError)
    | Accepted(value: Value)
    | FieldCrash   // an exception nothing catches: the request ends with 500

  /** The type name of a spec: `(spec["type"] if isinstance(spec, dict) else spec).strip().lower()`; `None` when that raises. */
  function SpecType(spec: Value): (r: Option<string>)
    ensures r.Some? <==> spec.VStr? || (spec.VDict? && Get(spec.entries, "type").Some? && Get(spec.entries, "type").value.VStr?)
  {
    match spec
    case VStr(t) => Some(Register.TypeName(t))
    case VDict(entries) =>
      (match Get(entries, "type")
       case Some(VStr(t)) => Some(Register.TypeName(t))
       case _ => None)
    case _ => None
  }

  /** `bool(spec.get("required", False))` for an object spec; `False` otherwise. */
  predicate Required(spec: Value) {
    spec.VDict? && Get(spec.entries, "required").Some? && Truthy(Get(spec.entries, "required").value)
  }

  /** `spec.get("default")` for an object spec, `None` standing also for a JSON `null`. */
  function Default(spec: Value): (r: Option<Value>)
    ensures r.Some? ==> r.value != VNone
  {
    if spec.VDict? then
      match Get(spec.entries, "default")
      case Some(d) => if d == VNone then None else Some(d)
      case None => None
    else None
  }

  /** `value.get(field)` on the parsed metadata object, `None` standing also for a JSON `null`. */
  function Present(meta: Entries, field: string): Option<Value> {
    match Get(meta, field)
    case Some(v) => if v == VNone then None else Some(v)
    case None => None
  }

  /** One iteration of the loop of `upload_file`, lines 139-155. */
  function CheckField(rt: Runtime, field: string, spec: Value, meta: Value): (r: FieldOutcome)
    ensures r.FieldCrash? <==> SpecType(spec).None? || !meta.VDict?
  {
    if SpecType(spec).None? || !meta.VDict? then FieldCrash
    else
      var dtype := SpecType(spec).value;
      match Present(meta.entries, field)
      case None =>
        if Required(spec) && Default(spec).None? then Rejected(RequiredMissing)
        else if Default(spec).Some? then Accepted(Default(spec).value)
        else Accepted(VNone)
      case Some(v) =>
        match CheckType(rt, dtype, v)
        case Ok(typed) => Accepted(typed)
        case Err(_) => Rejected(InvalidValue(v, field, dtype))
  }

  /**
   * An absent or null field is an error only when it is required and has no
   * default; otherwise it gets its default, unvalidated, or else `None`.
   */
  lemma AbsentField(rt: Runtime, field: string, spec: Value, meta: Entries)
    requires SpecType(spec).Some? && Present(meta, field).None?
    ensures var r := CheckField(rt, field, spec, VDict(meta));
      && (r == Rejected(RequiredMissing) <==> Required(spec) && Default(spec).None?)
      && (Default(spec).Some? ==> r == Accepted(Default(spec).value))
      && (!Required(spec) && Default(spec).None? ==> r == Accepted(VNone))
  {
  }

  /**
   * A present value is checked by `check_type` under the spec's stripped,
   * lower-cased type name: its result is the field's value, and its failure an
   * error naming the value, the field and the type.
   */
  lemma PresentField(rt: Runtime, field: string, spec: Value, meta: Entries)
    requires SpecType(spec).Some? && Present(meta, field).Some?
    ensures var r := CheckField(rt, field, spec, VDict(meta));
      var v := Present(meta, field).value;
      var checked := CheckType(rt, SpecType(spec).value, v);
      && (r.Accepted? <==> checked.Ok?)
      && (r.Accepted? ==> r.value == checked.value)
      && (r.Rejected? ==> r.error == InvalidValue(v, field, SpecType(spec).value))
  {
  }

  /** The two dicts the loop fills: the error map and the validated metadata. */
  datatype Checked = Checked(errors: seq<(string, FieldError)>, validated: Entries)

  /** The outcome of each field's iteration, in schema order. */
  function Outcomes(rt: Runtime, schema: Entries, meta: Value): (r: seq<FieldOutcome>)
    ensures |r| == |schema|
    ensures forall k | 0 <= k < |schema| :: r[k] == CheckField(rt, schema[k].0, schema[k].1, meta)
  {
    seq(|schema|, k requires 0 <= k < |schema| => CheckField(rt, schema[k].0, schema[k].1, meta))
  }

  /**
   * The two dicts after the loop has gone through fields with the given
   * outcomes, or `None` when one of them raises.
   */
  function Collect(fields: seq<string>, outcomes: seq<FieldOutcome>): (r: Option<Checked>)
    requires |fields| == |outcomes|
    ensures r.Some? ==> |r.value.errors| + |r.value.validated| == |fields|
    decreases |fields|
  {
    if fields == [] then Some(Checked([], []))
    else
      var n := |fields|;
      match Collect(fields[..n - 1], outcomes[..n - 1])
      case None => None
      case Some(c) =>
        match outcomes[n - 1]
        case FieldCrash => None
        case Rejected(e) => Some(Checked(c.errors + [(fields[n - 1], e)], c.validated))
        case Accepted(v) => Some(Checked(c.errors, c.validated + [(fields[n - 1], v)]))
  }

  /** The two dicts after the loop has run over `schema`, or `None` when it raises. */
  function ValidateAll(rt: Runtime, schema: Entries, meta: Value): (r: Option<Checked>)
    ensures r.Some? ==> |r.value.errors| + |r.value.validated| == |schema|
  {
    Collect(Keys(schema), Outcomes(rt, schema, meta))
  }

  lemma StepCollect(fields: seq<string>, outcomes: seq<FieldOutcome>, i: nat)
    requires |fields| == |outcomes| && i < |fields|
    ensures var prev := Collect(fields[..i], outcomes[..i]);
      Collect(fields[..i + 1], outcomes[..i + 1]) ==
        if prev.None? then None
        else match outcomes[i]
          case FieldCrash => None
          case Rejected(e) => Some(Checked(prev.value.errors + [(fields[i], e)], prev.value.validated))
          case Accepted(v) => Some(Checked(prev.value.errors, prev.value.validated + [(fields[i], v)]))
  {
    assert fields[..i + 1][..i] == fields[..i];
    assert outcomes[..i + 1][..i] == outcomes[..i];
  }

  lemma {:induction false} CollectNonePrefix(fields: seq<string>, outcomes: seq<FieldOutcome>, i: nat)
    requires |fields| == |outcomes| && i <= |fields|
    requires Collect(fields[..i], outcomes[..i]).None?
    ensures Collect(fields, outcomes).None?
    decreases |fields| - i
  {
    var n := |fields|;
    if i < n {
      assert fields[..n - 1][..i] == fields[..i];
      assert outcomes[..n - 1][..i] == outcomes[..i];
      CollectNonePrefix(fields[..n - 1], outcomes[..n - 1], i);
    } else {
      assert fields[..i] == fields && outcomes[..i] == outcomes;
    }
  }

  /**
   * The loop of `upload_file`, lines 135-155. The dicts are filled in schema
   * order; a schema's field names are distinct, so each assignment adds a new
   * key at the end.
   */
  method ValidateFields(rt: Runtime, schema: Entries, meta: Value) returns (r: Option<Checked>)
    ensures r == ValidateAll(rt, schema, meta)
  {
    ghost var fields := Keys(schema);
    ghost var outcomes := Outcomes(rt, schema, meta);
    var errors: seq<(string, FieldError)> := [];
    var validated: Entries := [];
    var i := 0;
    while i < |schema|
      invariant 0 <= i <= |schema|
      invariant Collect(fields[..i], outcomes[..i]) == Some(Checked(errors, validated))
    {
      var field := schema[i].0;
      var outcome := CheckField(rt, field, schema[i].1, meta);
      assert outcome == outcomes[i] && field == fields[i];
      StepCollect(fields, outcomes, i);
      if outcome.FieldCrash? {
        CollectNonePrefix(fields, outcomes, i + 1);
        return None;
      } else if outcome.Rejected? {
        errors := errors + [(field, outcome.error)];
      } else {
        validated := validated + [(field, outcome.value)];
      }
      i := i + 1;
    }
    assert fields[..i] == fields && outcomes[..i] == outcomes;
    return Some(Checked(errors, validated));
  }

  /** The loop raises exactly when some field's iteration raises. */
  lemma {:induction false} CollectCrashIff(fields: seq<string>, outcomes: seq<FieldOutcome>)
    requires |fields| == |outcomes|
    ensures Collect(fields, outcomes).None? <==> exists k | 0 <= k < |outcomes| :: outcomes[k].FieldCrash?
    decreases |fields|
  {
    if fields != [] {
      var n := |fields|;
      CollectCrashIff(fields[..n - 1], outcomes[..n - 1]);
      assert forall k | 0 <= k < n - 1 :: outcomes[..n - 1][k] == outcomes[k];
    }
  }

  /** Every field lands in the dict its outcome names, and the two dicts have one entry per field. */
  lemma {:induction false} CollectPlaces(fields: seq<string>, outcomes: seq<FieldOutcome>)
    requires |fields| == |outcomes|
    requires Collect(fields, outcomes).Some?
    ensures var c := Collect(fields, outcomes).value;
      && |c.errors| + |c.validated| == |fields|
      && (forall k | 0 <= k < |fields| ::
            (outcomes[k].Rejected? && (fields[k], outcomes[k].error) in c.errors) ||
            (outcomes[k].Accepted? && (fields[k], outcomes[k].value) in c.validated))
    decreases |fields|
  {
    if fields != [] {
      var n := |fields|;
      CollectPlaces(fields[..n - 1], outcomes[..n - 1]);
      assert forall k | 0 <= k < n - 1 :: fields[..n - 1][k] == fields[k] && outcomes[..n - 1][k] == outcomes[k];
    }
  }

  /** Every error entry comes from a rejected field. */
  lemma {:induction false} CollectErrorsFrom(fields: seq<string>, outcomes: seq<FieldOutcome>)
    requires |fields| == |outcomes|
    requires Collect(fields, outcomes).Some?
    ensures forall e | e in Collect(fields, outcomes).value.errors :: exists k | 0 <= k < |fields| ::
      e.0 == fields[k] && outcomes[k] == Rejected(e.1)
    decreases |fields|
  {
    if fields != [] {
      var n := |fields|;
      CollectErrorsFrom(fields[..n - 1], outcomes[..n - 1]);
      assert forall k | 0 <= k < n - 1 :: fields[..n - 1][k] == fields[k] && outcomes[..n - 1][k] == outcomes[k];
    }
  }

  /** Every validated entry comes from an accepted field. */
  lemma {:induction false} CollectValidatedFrom(fields: seq<string>, outcomes: seq<FieldOutcome>)
    requires |fields| == |outcomes|
    requires Collect(fields, outcomes).Some?
    ensures forall e | e in Collect(fields, outcomes).value.validated :: exists k | 0 <= k < |fields| ::
      e.0 == fields[k] && outcomes[k] == Accepted(e.1)
    decreases |fields|
  {
    if fields != [] {
      var n := |fields|;
      CollectValidatedFrom(fields[..n - 1], outcomes[..n - 1]);
      assert forall k | 0 <= k < n - 1 :: fields[..n - 1][k] == fields[k] && outcomes[..n - 1][k] == outcomes[k];
    }
  }

  /**
   * Every field lands in exactly one of the two dicts, with its own outcome;
   * nothing else lands in either, and the two together have one entry per field.
   */
  lemma CollectPartition(fields: seq<string>, outcomes: seq<FieldOutcome>)
    requires |fields| == |outcomes|
    requires Collect(fields, outcomes).Some?
    ensures var c := Collect(fields, outcomes).value;
      && |c.errors| + |c.validated| == |fields|
      && (forall k | 0 <= k < |fields| ::
            (outcomes[k].Rejected? && (fields[k], outcomes[k].error) in c.errors) ||
            (outcomes[k].Accepted? && (fields[k], outcomes[k].value) in c.validated))
      && (forall e | e in c.errors :: exists k | 0 <= k < |fields| ::
            e.0 == fields[k] && outcomes[k] == Rejected(e.1))
      && (forall e | e in c.validated :: exists k | 0 <= k < |fields| ::
            e.0 == fields[k] && outcomes[k] == Accepted(e.1))
  {
    CollectPlaces(fields, outcomes);
    CollectErrorsFrom(fields, outcomes);
    CollectValidatedFrom(fields, outcomes);
  }

  /** With distinct field names, no field is both in error and validated. */
  lemma CollectDisjoint(fields: seq<string>, outcomes: seq<FieldOutcome>)
    requires |fields| == |outcomes|
    requires forall i, j | 0 <= i < j < |fields| :: fields[i] != fields[j]
    requires Collect(fields, outcomes).Some?
    ensures var c := Collect(fields, outcomes).value;
      forall i, j | 0 <= i < |c.errors| && 0 <= j < |c.validated| :: c.errors[i].0 != c.validated[j].0
  {
    var c := Collect(fields, outcomes).value;
    CollectPartition(fields, outcomes);
    forall i, j | 0 <= i < |c.errors| && 0 <= j < |c.validated|
      ensures c.errors[i].0 != c.validated[j].0
    {
      assert c.errors[i] in c.errors;
      assert c.validated[j] in c.validated;
      var a :| 0 <= a < |fields| && c.errors[i].0 == fields[a] && outcomes[a] == Rejected(c.errors[i].1);
      var b :| 0 <= b < |fields| && c.validated[j].0 == fields[b] && outcomes[b] == Accepted(c.validated[j].1);
      assert a != b;
    }
  }

  /**
   * The loop raises exactly when the schema has a field and either the parsed
   * metadata is not an object or some spec does not name its type with a string.
   */
  lemma ValidateAllCrash(rt: Runtime, schema: Entries, meta: Value)
    ensures ValidateAll(rt, schema, meta).None? <==>
      schema != [] && (!meta.VDict? || exists k | 0 <= k < |schema| :: SpecType(schema[k].1).None?)
  {
    var outcomes := Outcomes(rt, schema, meta);
    CollectCrashIff(Keys(schema), outcomes);
    if schema != [] && !meta.VDict? {
      assert outcomes[0].FieldCrash?;
    }
  }

  /** A schema as registration stores it never makes the loop raise on a metadata object. */
  lemma StoredSchemaNeverCrashes(rt: Runtime, schema: Entries, meta: Entries)
    requires Register.StoredSchema(schema)
    ensures ValidateAll(rt, schema, VDict(meta)).Some?
  {
    ValidateAllCrash(rt, schema, VDict(meta));
  }

  /**
   * The field names in the two dicts are schema field names, each schema field
   * is in exactly one of them, and (the names being distinct) never in both.
   */
  lemma ValidateAllPartition(rt: Runtime, schema: Entries, meta: Value)
    requires UniqueKeys(schema)
    requires ValidateAll(rt, schema, meta).Some?
    ensures var c := ValidateAll(rt, schema, meta).value;
      && |c.errors| + |c.validated| == |schema|
      && (forall e | e in c.errors :: e.0 in Keys(schema))
      && (forall e | e in c.validated :: e.0 in Keys(schema))
      && (forall i, j | 0 <= i < |c.errors| && 0 <= j < |c.validated| :: c.errors[i].0 != c.validated[j].0)
  {
    var fields := Keys(schema);
    var outcomes := Outcomes(rt, schema, meta);
    CollectPartition(fields, outcomes);
    CollectDisjoint(fields, outcomes);
  }

  /**
   * The example schema: a required string `name` and an optional integer `age` defaulting to 0,
   * written in the key order its `jsonb` column gives it back in.
   */
  const NameSpecValue: Value := VDict([("type", VStr("str")), ("required", VBool(true))])
  const AgeSpecValue: Value := VDict([("type", VStr("int")), ("default", VInt(0)), ("required", VBool(false))])
  const ExampleSchema: Entries := [("age", AgeSpecValue), ("name", NameSpecValue)]

  /** The example schema and both of its specs are in `jsonb` key order, as a stored schema is. */
  lemma ExampleSchemaInKeyOrder()
    ensures Jsonb.InKeyOrder(ExampleSchema)
    ensures Jsonb.InKeyOrder(NameSpecValue.entries) && Jsonb.InKeyOrder(AgeSpecValue.entries)
  {
    AgeBeforeName();
    PairInKeyOrder(ExampleSchema);
    Register.TypeKeyFirst();
    PairInKeyOrder(NameSpecValue.entries);
    DefaultBetween();
    TripleInKeyOrder(AgeSpecValue.entries);
  }

  lemma AgeBeforeName()
    ensures Jsonb.KeyBefore("age", "name")
  {
    Jsonb.AsciiLength("age");
    Jsonb.AsciiLength("name");
  }

  lemma DefaultBetween()
    ensures Jsonb.KeyBefore("type", "default") && Jsonb.KeyBefore("default", "required")
  {
    Jsonb.AsciiLength("type");
    Jsonb.AsciiLength("default");
    Jsonb.AsciiLength("required");
  }

  /** Two entries are in key order when the first key comes before the second. */
  lemma PairInKeyOrder(d: Entries)
    requires |d| == 2 && Jsonb.KeyBefore(d[0].0, d[1].0)
    ensures Jsonb.InKeyOrder(d)
  {
  }

  /** Three entries are in key order when each key comes before the next. */
  lemma TripleInKeyOrder(d: Entries)
    requires |d| == 3 && Jsonb.KeyBefore(d[0].0, d[1].0) && Jsonb.KeyBefore(d[1].0, d[2].0)
    ensures Jsonb.InKeyOrder(d)
  {
    Jsonb.KeyOrder(d[0].0, d[1].0, d[2].0);
  }

  /** `get` passes over an entry under another key. */
  lemma GetSkip(d: Entries, key: string)
    requires d != [] && d[0].0 != key
    ensures Get(d, key) == Get(d[1..], key)
  {
  }

  /** An object spec `{"type": t, "required": b}`. */
  lemma TypedSpec(t: string, b: bool, spec: Value)
    requires spec == VDict([("type", VStr(t)), ("required", VBool(b))])
    ensures SpecType(spec) == Some(Register.TypeName(t)) && (Required(spec) <==> b) && Default(spec).None?
  {
    var e := spec.entries;
    GetSkip(e, "required");
    GetSkip(e, "default");
    GetSkip(e[1..], "default");
    assert e[1..] == [("required", VBool(b))] && e[1..][1..] == [];
  }

  /** An object spec `{"type": t, "default": d, "required": b}`. */
  lemma DefaultedSpec(t: string, b: bool, d: Value, spec: Value)
    requires spec == VDict([("type", VStr(t)), ("default", d), ("required", VBool(b))])
    ensures SpecType(spec) == Some(Register.TypeName(t)) && (Required(spec) <==> b)
    ensures Default(spec) == if d == VNone then None else Some(d)
  {
    var e := spec.entries;
    GetSkip(e, "required");
    GetSkip(e, "default");
    GetSkip(e[1..], "required");
    assert e[1..] == [("default", d), ("required", VBool(b))] && e[1..][1..] == [("required", VBool(b))];
  }

  /** The `name` spec: type `str`, required, no default. */
  lemma NameSpec(spec: Value)
    requires spec == NameSpecValue
    ensures SpecType(spec) == Some("str") && Required(spec) && Default(spec).None?
  {
    Register.PlainTypeName("str");
    TypedSpec("str", true, spec);
  }

  /** The `age` spec: type `int`, not required, default 0. */
  lemma AgeSpec(spec: Value)
    requires spec == AgeSpecValue
    ensures SpecType(spec) == Some("int") && !Required(spec) && Default(spec) == Some(VInt(0))
  {
    Register.PlainTypeName("int");
    DefaultedSpec("int", false, VInt(0), spec);
  }

  /** The entry a field's outcome adds to the error map, if any. */
  function ErrorPart(field: string, o: FieldOutcome): seq<(string, FieldError)> {
    if o.Rejected? then [(field, o.error)] else []
  }

  /** The entry a field's outcome adds to the validated metadata, if any. */
  function ValuePart(field: string, o: FieldOutcome): Entries {
    if o.Accepted? then [(field, o.value)] else []
  }

  lemma CollectTwo(fields: seq<string>, outcomes: seq<FieldOutcome>)
    requires |fields| == 2 && |outcomes| == 2 && !outcomes[0].FieldCrash? && !outcomes[1].FieldCrash?
    ensures Collect(fields, outcomes) == Some(Checked(
      ErrorPart(fields[0], outcomes[0]) + ErrorPart(fields[1], outcomes[1]),
      ValuePart(fields[0], outcomes[0]) + ValuePart(fields[1], outcomes[1])))
  {
    StepCollect(fields, outcomes, 0);
    assert fields[..0] == [] && outcomes[..0] == [];
    assert Collect(fields[..0], outcomes[..0]) == Some(Checked([], []));
    var first := Collect(fields[..1], outcomes[..1]);
    var e0, v0 := ErrorPart(fields[0], outcomes[0]), ValuePart(fields[0], outcomes[0]);
    assert first == Some(Checked(e0, v0)) by {
      if outcomes[0].Rejected? {
        assert [] + e0 == e0;
      } else {
        assert [] + v0 == v0;
      }
    }
    StepCollect(fields, outcomes, 1);
    assert fields[..2] == fields && outcomes[..2] == outcomes;
    var e1, v1 := ErrorPart(fields[1], outcomes[1]), ValuePart(fields[1], outcomes[1]);
    if outcomes[1].Rejected? {
      assert v0 + v1 == v0;
    } else {
      assert e0 + e1 == e0;
    }
  }

  lemma ValidateAllTwo(rt: Runtime, schema: Entries, meta: Value, o0: FieldOutcome, o1: FieldOutcome)
    requires |schema| == 2 && !o0.FieldCrash? && !o1.FieldCrash?
    requires CheckField(rt, schema[0].0, schema[0].1, meta) == o0
    requires CheckField(rt, schema[1].0, schema[1].1, meta) == o1
    ensures ValidateAll(rt, schema, meta) == Some(Checked(
      ErrorPart(schema[0].0, o0) + ErrorPart(schema[1].0, o1),
      ValuePart(schema[0].0, o0) + ValuePart(schema[1].0, o1)))
  {
    var outs := Outcomes(rt, schema, meta);
    assert outs == [o0, o1];
    CollectTwo(Keys(schema), outs);
  }

  /** Of two fields, the first accepted and the second rejected: one entry in each dict. */
  lemma AcceptedThenRejected(rt: Runtime, schema: Entries, meta: Value, v: Value, e: FieldError)
    requires |schema| == 2
    requires CheckField(rt, schema[0].0, schema[0].1, meta) == Accepted(v)
    requires CheckField(rt, schema[1].0, schema[1].1, meta) == Rejected(e)
    ensures ValidateAll(rt, schema, meta) == Some(Checked([(schema[1].0, e)], [(schema[0].0, v)]))
  {
    ValidateAllTwo(rt, schema, meta, Accepted(v), Rejected(e));
    var e1 := ErrorPart(schema[1].0, Rejected(e));
    var v0 := ValuePart(schema[0].0, Accepted(v));
    assert ErrorPart(schema[0].0, Accepted(v)) == [] && ValuePart(schema[1].0, Rejected(e)) == [];
    assert [] + e1 == e1 && v0 + [] == v0;
  }

  /** Of two fields, both accepted: both in the validated metadata, in order. */
  lemma AcceptedBoth(rt: Runtime, schema: Entries, meta: Value, v0: Value, v1: Value)
    requires |schema| == 2
    requires CheckField(rt, schema[0].0, schema[0].1, meta) == Accepted(v0)
    requires CheckField(rt, schema[1].0, schema[1].1, meta) == Accepted(v1)
    ensures ValidateAll(rt, schema, meta) == Some(Checked([], [(schema[0].0, v0), (schema[1].0, v1)]))
  {
    ValidateAllTwo(rt, schema, meta, Accepted(v0), Accepted(v1));
    var e0 := ErrorPart(schema[0].0, Accepted(v0));
    var v01 := ValuePart(schema[0].0, Accepted(v0)) + ValuePart(schema[1].0, Accepted(v1));
    assert e0 == [] && ErrorPart(schema[1].0, Accepted(v1)) == [];
    assert e0 + e0 == e0;
    assert v01 == [(schema[0].0, v0), (schema[1].0, v1)];
  }

  lemma ExampleNameMissing(rt: Runtime, schema: Entries, meta: Entries)
    requires schema == ExampleSchema && meta == [("age", VInt(5))]
    ensures CheckField(rt, "name", schema[1].1, VDict(meta)) == Rejected(RequiredMissing)
  {
    NameSpec(schema[1].1);
    GetSkip(meta, "name");
    assert meta[1..] == [];
    assert Present(meta, "name").None?;
    AbsentField(rt, "name", schema[1].1, meta);
  }

  lemma ExampleAgeGiven(rt: Runtime, schema: Entries, meta: Entries)
    requires schema == ExampleSchema && meta == [("age", VInt(5))]
    ensures CheckField(rt, "age", schema[0].1, VDict(meta)) == Accepted(VInt(5))
  {
    AgeSpec(schema[0].1);
    assert Present(meta, "age") == Some(VInt(5));
    PresentField(rt, "age", schema[0].1, meta);
    Dispatch(rt, VInt(5));
  }

  /** Without `name`, the error map names `name` as required but missing, and `age` is validated. */
  lemma ExampleMissingName(rt: Runtime, schema: Entries, meta: Entries)
    requires schema == ExampleSchema && meta == [("age", VInt(5))]
    ensures ValidateAll(rt, schema, VDict(meta)) == Some(Checked([("name", RequiredMissing)], [("age", VInt(5))]))
  {
    ExampleAgeGiven(rt, schema, meta);
    ExampleNameMissing(rt, schema, meta);
    AcceptedThenRejected(rt, schema, VDict(meta), VInt(5), RequiredMissing);
  }

  lemma AnnIsAWord()
    ensures !PyNumber.FloatSyntax("Ann") && Lower("Ann") == "ann"
  {
    assert "Ann"[0] == 'A' && "Ann"[2] == 'n';
    NumberStripNoop("Ann");
    PyNumber.NotFloatSyntax("Ann");
    assert Lower("Ann")[0] == 'a';
  }

  lemma ExampleNameGiven(rt: Runtime, schema: Entries, meta: Entries)
    requires schema == ExampleSchema && meta == [("name", VStr("Ann"))]
    ensures CheckField(rt, "name", schema[1].1, VDict(meta)) == Accepted(VStr("Ann"))
  {
    NameSpec(schema[1].1);
    assert Present(meta, "name") == Some(VStr("Ann"));
    PresentField(rt, "name", schema[1].1, meta);
    Dispatch(rt, VStr("Ann"));
    AnnIsAWord();
  }

  lemma ExampleAgeDefault(rt: Runtime, schema: Entries, meta: Entries)
    requires schema == ExampleSchema && meta == [("name", VStr("Ann"))]
    ensures CheckField(rt, "age", schema[0].1, VDict(meta)) == Accepted(VInt(0))
  {
    AgeSpec(schema[0].1);
    GetSkip(meta, "age");
    assert meta[1..] == [];
    assert Present(meta, "age").None?;
    AbsentField(rt, "age", schema[0].1, meta);
  }

  /** With only `name`, the validated metadata is the default age and that name, in schema order. */
  lemma ExampleDefaultAge(rt: Runtime, schema: Entries, meta: Entries)
    requires schema == ExampleSchema && meta == [("name", VStr("Ann"))]
    ensures ValidateAll(rt, schema, VDict(meta)) == Some(Checked([], [("age", VInt(0)), ("name", VStr("Ann"))]))
  {
    ExampleAgeDefault(rt, schema, meta);
    ExampleNameGiven(rt, schema, meta);
    AcceptedBoth(rt, schema, VDict(meta), VInt(0), VStr("Ann"));
  }
}
