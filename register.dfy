/**
 * The schema-normalisation part of `register_file_type`: the loop that rewrites
 * each field spec of the parsed schema in place, and the checks around it.
 */
module Register {
  import opened PyText
  import opened PyValue
  import opened Jsonb

  /** What the handler answers. */
  datatype RegisterOutcome =
    | Registered(schema: Entries)                   // 200 "File type registered successfully."
    | AlreadyRegistered(schema: Entries)            // 409, with the stored schema
    | InvalidJsonSchema                             // 400 "Invalid JSON schema"
    | SchemaEmpty                                   // 400 "Schema cannot be empty"
    | MissingType(field: string)                    // 400 "Field '<field>' missing 'type'"
    | NotStringOrObject(field: string)              // 400 "Field '<field>' spec must be string or object"
    | UnsupportedType(dtype: string, field: string) // 400 "Unsupported type '<dtype>' for field '<field>'."
    | RegisterCrash                                 // 500: an exception nothing catches

  /** `t.strip().lower()`. */
  function TypeName(t: string): string {
    Lower(Strip(t))
  }

  /** The object a bare type-name spec is rewritten to. */
  function Canonical(dtype: string): Value {
    VDict([("type", VStr(dtype)), ("required", VBool(false))])
  }

  /** What one loop iteration makes of a field spec. */
  datatype SpecResult =
    | SpecOk(spec: Value, dtype: string)
    | SpecMissingType
    | SpecNotStringOrObject
    | SpecCrash   // `spec.get("type", "")` is not a string, so `.strip()` raises

  /** One iteration of the loop in `register_file_type`. */
  function NormaliseSpec(spec: Value): (r: SpecResult)
    ensures spec.VStr? ==> r.SpecOk?
    ensures r.SpecOk? ==> r.spec.VDict?
    ensures spec.VDict? && r.SpecOk? ==> r.spec == spec && r.dtype != ""
  {
    match spec
    case VStr(t) => SpecOk(Canonical(TypeName(t)), TypeName(t))
    case VDict(entries) =>
      var t := match Get(entries, "type") case Some(v) => v case None => VStr("");
      if !t.VStr? then SpecCrash
      else if TypeName(t.s) == "" then SpecMissingType
      else SpecOk(spec, TypeName(t.s))
    case _ => SpecNotStringOrObject
  }

  /**
   * A bare type name is rewritten to its canonical object; an object spec is
   * kept unchanged when its `type` is a non-blank string, is missing its type
   * when that is absent or blank, and makes the loop raise when it is not a
   * string; anything else is neither a string nor an object.
   */
  lemma NormaliseSpecCases(spec: Value)
    ensures var r := NormaliseSpec(spec);
      && (spec.VStr? ==> r == SpecOk(Canonical(TypeName(spec.s)), TypeName(spec.s)))
      && (spec.VDict? && r.SpecOk? ==> r.spec == spec && r.dtype != "")
      && (spec.VDict? && r.SpecOk? ==> exists t :: Get(spec.entries, "type") == Some(VStr(t)) && r.dtype == TypeName(t))
      && (r.SpecMissingType? <==>
            (spec.VDict? &&
             (Get(spec.entries, "type").None? || (Get(spec.entries, "type").value.VStr? && TypeName(Get(spec.entries, "type").value.s) == ""))))
      && (r.SpecCrash? <==> spec.VDict? && Get(spec.entries, "type").Some? && !Get(spec.entries, "type").value.VStr?)
      && (r.SpecNotStringOrObject? <==> !spec.VStr? && !spec.VDict?)
  {
  }

  /** The response for a field whose spec the loop rejects. */
  function SpecFailure(field: string, r: SpecResult): RegisterOutcome
    requires !r.SpecOk?
  {
    match r
    case SpecMissingType => MissingType(field)
    case SpecNotStringOrObject => NotStringOrObject(field)
    case SpecCrash => RegisterCrash
  }

  /** What the loop makes of each field spec, in schema order. */
  function Specs(fields: Entries): (r: seq<SpecResult>)
    ensures |r| == |fields|
  {
    if fields == [] then [] else Specs(fields[..|fields| - 1]) + [NormaliseSpec(fields[|fields| - 1].1)]
  }

  /** Entry `k` of `Specs(fields)` is what the loop makes of the `k`-th spec. */
  lemma {:induction false} SpecAt(fields: Entries, k: nat)
    requires k < |fields|
    ensures Specs(fields)[k] == NormaliseSpec(fields[k].1)
    decreases |fields|
  {
    var n := |fields|;
    if k < n - 1 {
      SpecAt(fields[..n - 1], k);
    }
  }

  lemma SpecsAt(fields: Entries)
    ensures forall k | 0 <= k < |fields| :: Specs(fields)[k] == NormaliseSpec(fields[k].1)
  {
    forall k | 0 <= k < |fields| {
      SpecAt(fields, k);
    }
  }

  /**
   * The schema after the loop has gone through fields with the given names and
   * per-spec results, or the response it stops with.
   */
  function Assemble(names: seq<string>, specs: seq<SpecResult>): (r: Result<Entries, RegisterOutcome>)
    requires |names| == |specs|
    ensures r.Err? ==> r.error.MissingType? || r.error.NotStringOrObject? || r.error.RegisterCrash?
    decreases |names|
  {
    if names == [] then Ok([])
    else
      var n := |names|;
      var prev := Assemble(names[..n - 1], specs[..n - 1]);
      if prev.Err? then prev
      else if specs[n - 1].SpecOk? then Ok(prev.value + [(names[n - 1], specs[n - 1].spec)])
      else Err(SpecFailure(names[n - 1], specs[n - 1]))
  }

  /** The schema after the loop has run over all of `fields`, or the response it stops with. */
  function NormaliseAll(fields: Entries): (r: Result<Entries, RegisterOutcome>)
    ensures r.Err? ==> r.error.MissingType? || r.error.NotStringOrObject? || r.error.RegisterCrash?
  {
    Assemble(Keys(fields), Specs(fields))
  }

  /** The loop stops at the first field whose spec is not acceptable. */
  lemma {:induction false} AssembleStopsAt(names: seq<string>, specs: seq<SpecResult>, i: nat)
    requires |names| == |specs| && i < |names|
    requires forall k | 0 <= k < i :: specs[k].SpecOk?
    requires !specs[i].SpecOk?
    ensures Assemble(names, specs) == Err(SpecFailure(names[i], specs[i]))
    decreases |names|
  {
    var n := |names|;
    var prefixN, prefixS := names[..n - 1], specs[..n - 1];
    if i < n - 1 {
      assert prefixN[i] == names[i] && prefixS[i] == specs[i];
      assert forall k | 0 <= k < i :: prefixS[k] == specs[k];
      AssembleStopsAt(prefixN, prefixS, i);
    } else {
      assert forall k | 0 <= k < n - 1 :: prefixS[k] == specs[k];
      AssembleOkIff(prefixN, prefixS);
    }
  }

  /** The first `i` entries of `schema` are the fields' names with their rewritten specs. */
  ghost predicate RewrittenUpTo(names: seq<string>, specs: seq<SpecResult>, schema: Entries, i: nat)
    requires i <= |names| == |specs| == |schema|
  {
    forall k | 0 <= k < i :: specs[k].SpecOk? && schema[k] == (names[k], specs[k].spec)
  }

  /** Rewriting entry `i` extends the rewritten prefix by one. */
  lemma RewriteNext(names: seq<string>, specs: seq<SpecResult>, schema: Entries, i: nat)
    requires i < |names| == |specs| == |schema|
    requires RewrittenUpTo(names, specs, schema, i) && specs[i].SpecOk?
    ensures RewrittenUpTo(names, specs, schema[i := (names[i], specs[i].spec)], i + 1)
  {
  }

  /** When every spec is acceptable the loop yields each name with its rewritten spec. */
  lemma AssembleAllOk(names: seq<string>, specs: seq<SpecResult>, out: Entries)
    requires |names| == |specs| == |out|
    requires forall k | 0 <= k < |out| :: specs[k].SpecOk? && out[k] == (names[k], specs[k].spec)
    ensures Assemble(names, specs) == Ok(out)
  {
    AssembleOkIff(names, specs);
    AssembleShape(names, specs);
    assert Assemble(names, specs).value == out;
  }

  /**
   * The loop of `register_file_type`, lines 65-75: each spec is checked and a
   * bare type name is replaced, in place, by its canonical object; `field` and
   * `dtype` keep the values of the last iteration.
   */
  method NormaliseFields(fields: Entries) returns (r: Result<Entries, RegisterOutcome>, field: string, dtype: string)
    requires fields != []
    ensures r == NormaliseAll(fields)
    ensures r.Ok? ==> field == fields[|fields| - 1].0 && dtype == NormaliseSpec(fields[|fields| - 1].1).dtype
  {
    ghost var names := Keys(fields);
    ghost var specs := Specs(fields);
    var schema := fields;
    field, dtype := "", "";
    var i := 0;
    while i < |schema|
      invariant 0 <= i <= |schema| == |fields|
      invariant RewrittenUpTo(names, specs, schema, i)
      invariant forall k | i <= k < |schema| :: schema[k] == fields[k]
      invariant i > 0 ==> field == names[i - 1] && dtype == specs[i - 1].dtype
    {
      field := schema[i].0;
      var s := NormaliseSpec(schema[i].1);
      SpecAt(fields, i);
      assert s == specs[i] && field == names[i];
      if !s.SpecOk? {
        AssembleStopsAt(names, specs, i);
        return Err(SpecFailure(field, s)), field, dtype;
      }
      dtype := s.dtype;
      RewriteNext(names, specs, schema, i);
      schema := schema[i := (field, s.spec)];
      i := i + 1;
    }
    AssembleAllOk(names, specs, schema);
    SpecAt(fields, i - 1);
    r := Ok(schema);
  }

  /** The loop succeeds exactly when every spec is acceptable. */
  lemma {:induction false} AssembleOkIff(names: seq<string>, specs: seq<SpecResult>)
    requires |names| == |specs|
    ensures Assemble(names, specs).Ok? <==> forall k | 0 <= k < |specs| :: specs[k].SpecOk?
    decreases |names|
  {
    if names != [] {
      var n := |names|;
      AssembleOkIff(names[..n - 1], specs[..n - 1]);
      assert forall k | 0 <= k < n - 1 :: specs[..n - 1][k] == specs[k];
    }
  }

  /** On success the schema has each name, in order, with its spec's rewritten form. */
  lemma {:induction false} AssembleShape(names: seq<string>, specs: seq<SpecResult>)
    requires |names| == |specs|
    requires Assemble(names, specs).Ok?
    ensures var out := Assemble(names, specs).value;
      && |out| == |names|
      && forall k | 0 <= k < |names| :: specs[k].SpecOk? && out[k] == (names[k], specs[k].spec)
    decreases |names|
  {
    AssembleOkIff(names, specs);
    if names != [] {
      var n := |names|;
      AssembleShape(names[..n - 1], specs[..n - 1]);
      assert forall k | 0 <= k < n - 1 :: names[..n - 1][k] == names[k] && specs[..n - 1][k] == specs[k];
    }
  }

  /** On failure the response names the first field whose spec is not acceptable. */
  lemma {:induction false} AssembleFirstFailure(names: seq<string>, specs: seq<SpecResult>)
    requires |names| == |specs|
    requires Assemble(names, specs).Err?
    ensures exists k | 0 <= k < |specs| ::
      && (forall j | 0 <= j < k :: specs[j].SpecOk?)
      && !specs[k].SpecOk?
      && Assemble(names, specs).error == SpecFailure(names[k], specs[k])
    decreases |names|
  {
    var n := |names|;
    var prefixN, prefixS := names[..n - 1], specs[..n - 1];
    if Assemble(prefixN, prefixS).Err? {
      AssembleFirstFailure(prefixN, prefixS);
      var k :| 0 <= k < |prefixS| &&
        (forall j | 0 <= j < k :: prefixS[j].SpecOk?) &&
        !prefixS[k].SpecOk? &&
        Assemble(prefixN, prefixS).error == SpecFailure(prefixN[k], prefixS[k]);
      assert prefixS[k] == specs[k] && prefixN[k] == names[k];
      assert forall j | 0 <= j < k :: prefixS[j] == specs[j];
    } else {
      AssembleOkIff(prefixN, prefixS);
      assert forall j | 0 <= j < n - 1 :: prefixS[j] == specs[j];
    }
  }

  /** The loop succeeds exactly when every field spec is acceptable. */
  lemma NormaliseAllOkIff(fields: Entries)
    ensures NormaliseAll(fields).Ok? <==> forall k | 0 <= k < |fields| :: NormaliseSpec(fields[k].1).SpecOk?
  {
    AssembleOkIff(Keys(fields), Specs(fields));
    SpecsAt(fields);
  }

  /**
   * On success the schema keeps every field name, in order; a bare type name
   * becomes its canonical object and an object spec is kept as it was.
   */
  lemma NormaliseAllShape(fields: Entries)
    requires NormaliseAll(fields).Ok?
    ensures var out := NormaliseAll(fields).value;
      && |out| == |fields|
      && forall k | 0 <= k < |fields| ::
           NormaliseSpec(fields[k].1).SpecOk? && out[k] == (fields[k].0, NormaliseSpec(fields[k].1).spec)
  {
    AssembleShape(Keys(fields), Specs(fields));
    SpecsAt(fields);
  }

  /** On failure the response names the first field whose spec is not acceptable. */
  lemma NormaliseAllFirstFailure(fields: Entries)
    requires NormaliseAll(fields).Err?
    ensures exists k | 0 <= k < |fields| ::
      && (forall j | 0 <= j < k :: NormaliseSpec(fields[j].1).SpecOk?)
      && !NormaliseSpec(fields[k].1).SpecOk?
      && NormaliseAll(fields).error == SpecFailure(fields[k].0, NormaliseSpec(fields[k].1))
  {
    var names, specs := Keys(fields), Specs(fields);
    AssembleFirstFailure(names, specs);
    var k :| 0 <= k < |specs| &&
      (forall j | 0 <= j < k :: specs[j].SpecOk?) &&
      !specs[k].SpecOk? &&
      Assemble(names, specs).error == SpecFailure(names[k], specs[k]);
    SpecAt(fields, k);
    forall j | 0 <= j < k
      ensures NormaliseSpec(fields[j].1).SpecOk?
    {
      SpecAt(fields, j);
    }
    assert names[k] == fields[k].0;
  }

  /**
   * A schema as the handler stores it: a non-empty dict of object specs, none
   * repeating a key and each naming its type with a string.
   */
  ghost predicate StoredSchema(schema: Entries) {
    && schema != []
    && UniqueKeys(schema)
    && forall k | 0 <= k < |schema| ::
         && schema[k].1.VDict?
         && UniqueKeys(schema[k].1.entries)
         && Get(schema[k].1.entries, "type").Some?
         && Get(schema[k].1.entries, "type").value.VStr?
  }

  /** `register_file_type`'s answer for a type name and schema text, given the registered types. */
  function Registration(rt: Runtime, allowed: set<string>, existing: map<string, Entries>, fileType: string, metadataSchema: string): (r: RegisterOutcome)
    ensures !TextStorable(fileType) ==> r == RegisterCrash
    ensures r.AlreadyRegistered? <==> TextStorable(fileType) && fileType in existing
    ensures r.AlreadyRegistered? ==> r.schema == existing[fileType]
    ensures r.Registered? ==> TextStorable(fileType) && Storable(VDict(r.schema))
    ensures r.UnsupportedType? ==> r.dtype !in allowed
  {
    if !TextStorable(fileType) then RegisterCrash   // the query at line 41 cannot send a NUL character
    else if fileType in existing then AlreadyRegistered(existing[fileType])
    else
      match rt.jsonLoads(metadataSchema)
      case None =>
        // only `json.JSONDecodeError` is caught
        if rt.jsonLoadsError(metadataSchema) == DecodeError then InvalidJsonSchema else RegisterCrash
      case Some(parsed) =>
        if !Truthy(parsed) then SchemaEmpty
        else if !parsed.VDict? then RegisterCrash   // `.items()` on a list, a string or a number
        else
          match NormaliseAll(parsed.entries)
          case Err(failure) => failure
          case Ok(schema) =>
            var (field, spec) := parsed.entries[|parsed.entries| - 1];
            var dtype := NormaliseSpec(spec).dtype;
            if dtype !in allowed then UnsupportedType(dtype, field)
            else if !Storable(VDict(schema)) then RegisterCrash   // the commit cannot write the `jsonb` column
            else Registered(schema)
  }

  /** Registration is write-once: a registered name is answered with 409 and the schema stored for it. */
  lemma RegisterOnce(rt: Runtime, allowed: set<string>, existing: map<string, Entries>, fileType: string, schema: Entries, again: string)
    requires TextStorable(fileType)
    ensures Registration(rt, allowed, existing[fileType := schema], fileType, again) == AlreadyRegistered(schema)
  {
  }

  /**
   * Schema text that is not JSON is answered 400, while any other exception of
   * `json.loads` escapes as 500; an empty dict is rejected as empty.
   */
  lemma RejectsEmpty(rt: Runtime, allowed: set<string>, existing: map<string, Entries>, fileType: string, metadataSchema: string)
    requires TextStorable(fileType) && fileType !in existing
    ensures rt.jsonLoads(metadataSchema).None? ==>
      (Registration(rt, allowed, existing, fileType, metadataSchema) ==
       if rt.jsonLoadsError(metadataSchema) == DecodeError then InvalidJsonSchema else RegisterCrash)
    ensures rt.jsonLoads(metadataSchema) == Some(VDict([])) ==> Registration(rt, allowed, existing, fileType, metadataSchema) == SchemaEmpty
  {
  }

  /**
   * What a successful registration stores: the normalised schema of a
   * non-empty dict whose every spec is acceptable, the last field's type being
   * an allowed one, that the commit can write; under a JSON parser it is a
   * well-formed stored schema.
   */
  lemma {:induction false} RegisteredSchema(rt: Runtime, allowed: set<string>, existing: map<string, Entries>, fileType: string, metadataSchema: string)
    requires Sane(rt)
    requires Registration(rt, allowed, existing, fileType, metadataSchema).Registered?
    ensures TextStorable(fileType) && fileType !in existing
    ensures var parsed := rt.jsonLoads(metadataSchema).value;
      && parsed.VDict? && parsed.entries != []
      && NormaliseAll(parsed.entries).Ok?
      && Registration(rt, allowed, existing, fileType, metadataSchema).schema == NormaliseAll(parsed.entries).value
      && (forall k | 0 <= k < |parsed.entries| :: NormaliseSpec(parsed.entries[k].1).SpecOk?)
      && NormaliseSpec(parsed.entries[|parsed.entries| - 1].1).dtype in allowed
      && Storable(VDict(NormaliseAll(parsed.entries).value))
    ensures StoredSchema(Registration(rt, allowed, existing, fileType, metadataSchema).schema)
  {
    assert TextStorable(fileType) && fileType !in existing && rt.jsonLoads(metadataSchema).Some?;
    var parsed := rt.jsonLoads(metadataSchema).value;
    assert Truthy(parsed) && parsed.VDict?;
    NormaliseAllOkIff(parsed.entries);
    NormalisedStoredSchema(parsed.entries);
  }

  /** A non-empty JSON object whose every spec is acceptable normalises to a well-formed stored schema. */
  lemma NormalisedStoredSchema(fields: Entries)
    requires IsJson(VDict(fields)) && fields != []
    requires NormaliseAll(fields).Ok?
    ensures StoredSchema(NormaliseAll(fields).value)
  {
    NormaliseAllOkIff(fields);
    NormaliseAllShape(fields);
    var out := NormaliseAll(fields).value;
    forall k | 0 <= k < |out|
      ensures && out[k].1.VDict? && UniqueKeys(out[k].1.entries)
              && Get(out[k].1.entries, "type").Some? && Get(out[k].1.entries, "type").value.VStr?
    {
      assert IsJson(fields[k].1);
      StoredSpec(fields[k].1);
    }
    assert UniqueKeys(fields);
    assert forall k | 0 <= k < |out| :: out[k].0 == fields[k].0;
  }

  /** An accepted spec is stored as an object whose `type` is a string, without repeated keys when it comes from JSON. */
  lemma StoredSpec(spec: Value)
    requires NormaliseSpec(spec).SpecOk?
    ensures var v := NormaliseSpec(spec).spec;
      && v.VDict? && Get(v.entries, "type").Some? && Get(v.entries, "type").value.VStr?
      && (IsJson(spec) ==> UniqueKeys(v.entries))
  {
    NormaliseSpecCases(spec);
    if spec.VStr? {
      assert Get(Canonical(TypeName(spec.s)).entries, "type") == Some(VStr(TypeName(spec.s)));
    }
  }

  /**
   * Read back from its `jsonb` column, a well-formed schema is still well
   * formed, and its fields come in `jsonb` key order: the order the upload loop
   * walks them in.
   */
  lemma StoredSchemaReadBack(schema: Entries)
    requires StoredSchema(schema)
    ensures var r := StoredEntries(schema); StoredSchema(r) && InKeyOrder(r)
  {
    var r := StoredEntries(schema);
    StoredGet(schema, "");
    forall k | 0 <= k < |r|
      ensures && r[k].1.VDict? && UniqueKeys(r[k].1.entries)
              && Get(r[k].1.entries, "type").Some? && Get(r[k].1.entries, "type").value.VStr?
    {
      StoredEntryFrom(schema, k);
      var i :| 0 <= i < |schema| && r[k] == (schema[i].0, Stored(schema[i].1));
      StoredSpecReadBack(schema[i].1);
    }
  }

  /** Read back, a field spec is still an object without repeated keys with a string `type`. */
  lemma StoredSpecReadBack(spec: Value)
    requires spec.VDict? && UniqueKeys(spec.entries)
    requires Get(spec.entries, "type").Some? && Get(spec.entries, "type").value.VStr?
    ensures var v := Stored(spec);
      && v.VDict? && UniqueKeys(v.entries)
      && Get(v.entries, "type").Some? && Get(v.entries, "type").value.VStr?
  {
    StoredGet(spec.entries, "type");
    assert Stored(spec) == VDict(StoredEntries(spec.entries));
  }

  /** A canonical spec without a NUL character can be written, and reads back unchanged: `type` is the shorter key. */
  lemma CanonicalStored(t: string)
    requires '\0' !in t
    ensures Storable(Canonical(t)) && Stored(Canonical(t)) == Canonical(t)
  {
    var entries := Canonical(t).entries;
    TypeKeyFirst();
    CanonicalValuesStored(t);
    SortPair(entries[0], entries[1]);
  }

  /** `type` comes before `required` in `jsonb` key order. */
  lemma TypeKeyFirst()
    ensures KeyBefore("type", "required") && !KeyBefore("required", "type")
  {
    AsciiLength("type");
    AsciiLength("required");
  }

  /** The values of a canonical spec are scalars, which read back unchanged. */
  lemma CanonicalValuesStored(t: string)
    ensures StoredValues(Canonical(t).entries) == Canonical(t).entries
  {
    var entries := Canonical(t).entries;
    assert StoredValues(entries)[0] == entries[0];
  }

  /** Read back, `{"name": "str", "age": "int"}` lists `age` first: the shorter key. */
  lemma ShorterKeyFirst()
    ensures StoredEntries([("name", Canonical("str")), ("age", Canonical("int"))]) ==
      [("age", Canonical("int")), ("name", Canonical("str"))]
  {
    AsciiLength("age");
    AsciiLength("name");
    StoredCanonicals("name", "age", "str", "int");
    SortPair(("name", Canonical("str")), ("age", Canonical("int")));
  }

  /** Two canonical specs without NUL characters read back unchanged. */
  lemma StoredCanonicals(a: string, b: string, s: string, t: string)
    requires '\0' !in s && '\0' !in t
    ensures StoredValues([(a, Canonical(s)), (b, Canonical(t))]) == [(a, Canonical(s)), (b, Canonical(t))]
  {
    CanonicalStored(s);
    CanonicalStored(t);
  }

  /**
   * A schema whose spec carries a NaN or an infinity passes every check, yet the
   * commit cannot write it: the answer is 500 and nothing is registered.
   */
  lemma CommitRefusesNonFinite(rt: Runtime, allowed: set<string>, existing: map<string, Entries>, fileType: string, text: string, d: Double)
    requires TextStorable(fileType) && fileType !in existing && "str" in allowed && NonFinite(d)
    requires rt.jsonLoads(text) == Some(VDict([("a", VDict([("type", VStr("str")), ("max", VFloat(d))]))]))
    ensures Registration(rt, allowed, existing, fileType, text) == RegisterCrash
  {
    var spec := VDict([("type", VStr("str")), ("max", VFloat(d))]);
    var fields := [("a", spec)];
    NonFiniteSpec(d);
    OnlyLastTypeChecked(rt, allowed, existing, fileType, text, fields);
    NormaliseAllShape(fields);
  }

  /** A string spec carrying a non-finite bound is accepted as it is, and cannot be written. */
  lemma NonFiniteSpec(d: Double)
    requires NonFinite(d)
    ensures var spec := VDict([("type", VStr("str")), ("max", VFloat(d))]);
      NormaliseSpec(spec) == SpecOk(spec, "str") && !Storable(spec)
  {
    var spec := VDict([("type", VStr("str")), ("max", VFloat(d))]);
    PlainTypeName("str");
    assert Get(spec.entries, "type") == Some(VStr("str"));
    assert !Storable(spec.entries[1].1);
  }

  /** A type name already in lower-case letters is its own normal form. */
  lemma PlainTypeName(t: string)
    requires forall k | 0 <= k < |t| :: 'a' <= t[k] <= 'z'
    ensures TypeName(t) == t
  {
    StripNoop(t);
    assert Lower(t) == t;
  }

  /** ... and a bare spec naming it is rewritten to its canonical object. */
  lemma PlainTypeSpec(t: string)
    requires forall k | 0 <= k < |t| :: 'a' <= t[k] <= 'z'
    ensures NormaliseSpec(VStr(t)) == SpecOk(Canonical(t), t)
  {
    PlainTypeName(t);
  }

  /** Two bare type names are both rewritten, in order, whatever they name. */
  lemma NormaliseTwoNames()
    ensures NormaliseAll([("a", VStr("nosuch")), ("b", VStr("str"))]) == Ok([("a", Canonical("nosuch")), ("b", Canonical("str"))])
  {
    TwoNamesNormalised("a", "b", "nosuch", "str");
  }

  /**
   * Only the last field's type is compared with the allowed names: once every
   * spec is acceptable, the answer depends on that one type alone, and then on
   * whether the commit can write the schema.
   */
  lemma OnlyLastTypeChecked(rt: Runtime, allowed: set<string>, existing: map<string, Entries>, fileType: string, text: string, fields: Entries)
    requires TextStorable(fileType) && fileType !in existing && fields != []
    requires rt.jsonLoads(text) == Some(VDict(fields))
    requires forall k | 0 <= k < |fields| :: NormaliseSpec(fields[k].1).SpecOk?
    ensures var last := fields[|fields| - 1];
      var dtype := NormaliseSpec(last.1).dtype;
      && NormaliseAll(fields).Ok?
      && Registration(rt, allowed, existing, fileType, text) ==
           if dtype !in allowed then UnsupportedType(dtype, last.0)
           else if Storable(VDict(NormaliseAll(fields).value)) then Registered(NormaliseAll(fields).value)
           else RegisterCrash
  {
    NormaliseAllOkIff(fields);
  }

  /** So a first field naming a type that is not allowed is registered all the same. */
  lemma UnknownTypeRegistered(rt: Runtime, allowed: set<string>, existing: map<string, Entries>, fileType: string, text: string)
    requires TextStorable(fileType) && fileType !in existing && "str" in allowed && "nosuch" !in allowed
    requires rt.jsonLoads(text) == Some(VDict([("a", VStr("nosuch")), ("b", VStr("str"))]))
    ensures Registration(rt, allowed, existing, fileType, text) ==
      Registered([("a", Canonical("nosuch")), ("b", Canonical("str"))])
  {
    TwoNamesRegistered(rt, allowed, existing, fileType, text, "a", "b", "nosuch", "str");
  }

  /** A schema of two bare lower-case type names is registered when the second is allowed. */
  lemma TwoNamesRegistered(rt: Runtime, allowed: set<string>, existing: map<string, Entries>, fileType: string, text: string,
                           a: string, b: string, s: string, t: string)
    requires TextStorable(fileType) && fileType !in existing && t in allowed
    requires forall k | 0 <= k < |s| :: 'a' <= s[k] <= 'z'
    requires forall k | 0 <= k < |t| :: 'a' <= t[k] <= 'z'
    requires '\0' !in a && '\0' !in b
    requires rt.jsonLoads(text) == Some(VDict([(a, VStr(s)), (b, VStr(t))]))
    ensures Registration(rt, allowed, existing, fileType, text) == Registered([(a, Canonical(s)), (b, Canonical(t))])
  {
    var fields := [(a, VStr(s)), (b, VStr(t))];
    TwoNamesNormalised(a, b, s, t);
    OnlyLastTypeChecked(rt, allowed, existing, fileType, text, fields);
    TwoCanonicalsStorable(a, b, s, t);
  }

  /** When every spec is accepted, the loop yields each name with its rewritten spec. */
  lemma NormaliseAllOfOks(fields: Entries, out: Entries)
    requires |out| == |fields|
    requires forall k | 0 <= k < |fields| :: out[k].0 == fields[k].0
    requires forall k | 0 <= k < |fields| :: NormaliseSpec(fields[k].1).SpecOk? && NormaliseSpec(fields[k].1).spec == out[k].1
    ensures NormaliseAll(fields) == Ok(out)
  {
    NormaliseAllOkIff(fields);
    NormaliseAllShape(fields);
    var r := NormaliseAll(fields).value;
    assert forall k | 0 <= k < |fields| :: r[k] == out[k];
    assert r == out;
  }

  /** Two bare lower-case type names are both rewritten to their canonical objects, in order. */
  lemma TwoNamesNormalised(a: string, b: string, s: string, t: string)
    requires forall k | 0 <= k < |s| :: 'a' <= s[k] <= 'z'
    requires forall k | 0 <= k < |t| :: 'a' <= t[k] <= 'z'
    ensures var fields := [(a, VStr(s)), (b, VStr(t))];
      && (forall k | 0 <= k < 2 :: NormaliseSpec(fields[k].1).SpecOk?)
      && NormaliseSpec(fields[1].1).dtype == t
      && NormaliseAll(fields) == Ok([(a, Canonical(s)), (b, Canonical(t))])
  {
    var fields := [(a, VStr(s)), (b, VStr(t))];
    var out := [(a, Canonical(s)), (b, Canonical(t))];
    assert NormaliseSpec(VStr(s)) == SpecOk(Canonical(s), s) by { PlainTypeSpec(s); }
    assert NormaliseSpec(VStr(t)) == SpecOk(Canonical(t), t) by { PlainTypeSpec(t); }
    assert fields[0].1 == VStr(s) && fields[1].1 == VStr(t);
    forall k | 0 <= k < 2
      ensures NormaliseSpec(fields[k].1).SpecOk? && NormaliseSpec(fields[k].1).spec == out[k].1
    {
      if k == 0 { } else { }
    }
    NormaliseAllOfOks(fields, out);
  }

  /** A schema of two canonical specs without NUL characters can be written. */
  lemma TwoCanonicalsStorable(a: string, b: string, s: string, t: string)
    requires '\0' !in a && '\0' !in b && '\0' !in s && '\0' !in t
    ensures Storable(VDict([(a, Canonical(s)), (b, Canonical(t))]))
  {
    CanonicalStored(s);
    CanonicalStored(t);
    var schema := [(a, Canonical(s)), (b, Canonical(t))];
    assert forall k | 0 <= k < 2 :: '\0' !in schema[k].0 && Storable(schema[k].1);
  }

  /** A bare type name is stored stripped and lower-cased, with `required` false. */
  lemma StringSpecCanonical()
    ensures NormaliseSpec(VStr(" Int ")) == SpecOk(VDict([("type", VStr("int")), ("required", VBool(false))]), "int")
  {
    StripUnique(" Int ", 1, 4);
    assert " Int "[1..4] == "Int";
    assert Lower("Int") == "int";
  }

  /** An object spec with a blank type is rejected as missing its type. */
  lemma BlankTypeMissing()
    ensures NormaliseSpec(VDict([("type", VStr("  "))])) == SpecMissingType
  {
    StripUnique("  ", 2, 2);
  }
}
