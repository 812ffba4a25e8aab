# Advance File Management: schema registration, metadata validation and indexing

This project models the core of the Advance File Management service in Dafny.
The service lets a client register a *file type* together with a metadata schema.
It then accepts uploads of files of that type, each carrying a JSON metadata object.
The metadata is validated field by field against the schema, and an accepted file is stored and indexed.
Indexing stores the file's text and printed metadata, cut into numbered chunks, each with its embedding vector.

The model covers:

- the six value validators of `src/services/` (`str`, `int`, `float`, `bool`, `datetime`, `list`);
- `ValidationService.check_type`, which dispatches on the type name;
- `extract_text` of `src/services/embedding.py`;
- the two handlers of `src/api/upload.py`:
  - `register_file_type`: its field-spec normalisation loop and its answers;
  - `upload_file`: its metadata-validation loop, the store it writes and the chunk rows it indexes.

Module by module:

- `PyValue`, `PyText` and `PyNumber` give the Python semantics the source relies on. They cover JSON values and truthiness, `dict.get`, `str.strip`, `str.lower`, `str.split` and `str.join`. They also cover the literal grammar accepted by `int()` and `float()`, and double-precision truncation.
- `Runtime` (in `PyValue`) is a record of the library calls the model cannot see. These are `json.loads` (with the kind of exception it raises), `json.dumps`, the UTF-8 decoder, the CSV reader, `datetime.fromisoformat`, string-to-double rounding, the text splitter and the embedding call. `Sane(rt)` lists what is assumed of them, for example that `json.loads` only parses text that starts like a JSON value.
- `StrValid`, `IntValid`, `FloatValid`, `BoolValid`, `DatetimeValid` and `ListValid` are the validators. Each `Validate` returns `Ok(converted)` or `Err(the ValueError it raises)`. An exception that the validator lets escape is `Err(Uncaught(...))`.
- `Jsonb` says what a PostgreSQL `jsonb` column does with the value a commit writes. `Storable` says whether the value can be written at all. `Stored` gives the value as it is read back, with every object's keys in `jsonb` order.
- `ValidationService` holds the registry and `CheckType`.
- `Embedding` holds `ExtractText`.
- `Register` holds the schema normalisation loop, as the method `NormaliseFields` proved against the function `NormaliseAll`, and `Registration`, the handler's answer.
- `Metadata` holds the per-field check `CheckField` and the validation loop, as the method `ValidateFields` proved against `ValidateAll`. The loop fills the error map and the validated metadata.
- `Upload` holds `UploadPlan`, what one upload answers, stores and indexes, and the class `Store`. `Store` is the database: registered types, files in upload order, and chunk rows in insertion order. Its methods `RegisterFileType` and `UploadFile` change it in place, and its invariant `Valid` says:
  - every stored schema is well formed, with its fields in `jsonb` key order;
  - every file has a registered type;
  - every chunk row belongs to a stored file;
  - each file's chunk indices run 0..n-1.

In these places the model follows the code as written:

- The registry's names are `str`, `int`, `float`, `bool`, `datetime` and `list`.
- `check_type` looks the name up exactly. Stripping and lower-casing are done by the caller, on line 139 of `upload.py`.
- The boolean validator rejects JSON `true` and `false`: it accepts only strings.
- The list validator rejects every non-string, a JSON list included. For a string whose JSON is not a list, such as `"{}"` or `"5"`, it falls back to the comma split.
- Registration compares only the **last** field's type with the allowed names (lines 77-78 of `upload.py`).
- An object spec whose `type` is not a string makes registration raise, which answers 500.
- Only `json.JSONDecodeError` is caught around `json.loads` (lines 55 and 127 of `upload.py`). Any other exception it raises answers 500. Examples are the `ValueError` for an integer literal of more than 4300 digits and the `RecursionError` for very deep nesting.
- The schema and the metadata go into PostgreSQL `jsonb` columns (`src/models/file_record.py:17` and `:28`). The commit serialises them with `json.dumps` and raises when the value cannot be written:
  - `json.dumps` raises on a `datetime`, and a present `datetime` field validates to one;
  - PostgreSQL refuses the `NaN` and `Infinity` that `json.dumps` prints for non-finite floats;
  - PostgreSQL refuses the NUL character, in the `jsonb` values and in the file name and folder columns alike;
  - PostgreSQL also refuses a lone UTF-16 surrogate, which the model cannot represent (see "## Left out").

  Such an upload answers 500 and stores nothing, so no upload with a present `datetime` field succeeds. A schema holding such a value is not registered either.
- A type name holding a NUL character cannot even be sent as a query parameter. The lookup at line 41 (registration) or line 114 (upload) raises, and the answer is 500.
- `int()` and `float()` skip less whitespace than `str.strip()`. Both skip ASCII space, `\t` to `\r` and the non-ASCII `isspace()` characters, but not the ASCII separators U+001C to U+001F. So the int and float validators reject `"\x1c5"`, and the string validator accepts it as text that is not numeric.
- The file is committed before indexing. A failure in the embedding call therefore answers 500 with the file already stored and no chunk for it.
- `jsonb` gives an object back with its keys reordered: keys with fewer UTF-8 bytes first, keys of one length byte by byte. The stored schema is read back in that order. So the upload loop visits the fields in that order, and the error map and the validated metadata are filled in that order. The 409 answer of registration also lists the stored schema in that order. The 200 answers and the indexed text keep the order Python built.

## Model

| member | source | states |
|---|---|---|
| PyNumber.ParseInt | src/services/intvalid.py:6 | `int()` of a string fails on text that is blank once the whitespace `int()` skips is removed (U+001C to U+001F are not skipped). A negative result comes from a leading `-`. |
| PyNumber.FloatSyntax | src/services/floatvalid.py:6 | `float()` of a string fails on text that is blank once the whitespace `float()` skips is removed (U+001C to U+001F are not skipped). |
| PyNumber.FloatCall | src/services/floatvalid.py:6 | Only a string can make `float()` raise `ValueError`, and a string succeeds exactly on float-literal syntax. |
| PyNumber.Truncate | src/services/intvalid.py:6 | `int()` of a float fails exactly on NaN and the infinities. Both zeros give 0, and the sign is kept. |
| PyNumber.IntCall | src/services/intvalid.py:6 | `int()` keeps an integer, fails on a float exactly when it is not finite, and fails on `None`, lists, dicts and datetimes. |
| Jsonb.StorableHasNoDatetime | src/api/upload.py:179-184 | A value the commit can write holds no datetime, so `json.dumps` can print it. |
| Jsonb.KeyOrder | src/models/file_record.py:28 | `jsonb` key order is irreflexive, transitive and total on distinct keys. |
| Jsonb.InKeyOrderUnique | src/models/file_record.py:28 | Keys in strict `jsonb` order never repeat. |
| Jsonb.Insert | src/models/file_record.py:28 | Inserting one entry adds exactly that entry. |
| Jsonb.SortByKey | src/models/file_record.py:28 | Sorting keeps the length and exactly the same entries. |
| Jsonb.InsertPermutes | src/models/file_record.py:28 | Inserting adds the entry once and keeps every other entry as often as before. |
| Jsonb.SortByKeyPermutes | src/models/file_record.py:28 | Sorting is a permutation: the multiset of entries is unchanged. |
| Jsonb.SortPair | src/models/file_record.py:28 | Two entries are swapped exactly when the second key comes first. |
| Jsonb.InsertInOrder | src/models/file_record.py:28 | Inserting a new key into entries in key order keeps them in key order. |
| Jsonb.SortInOrder | src/models/file_record.py:28 | Sorting a dict without repeated keys puts the keys strictly in `jsonb` order. |
| Jsonb.StoredGet | src/models/file_record.py:17 | Read back, a dict without repeated keys has its keys in `jsonb` order, and `get` finds under every key the value it found before, as read back. |
| Jsonb.StoredEntryFrom | src/models/file_record.py:17 | Every entry read back is an entry of the written dict, its value read back. |
| StrValid.IsNumeric | src/services/strvalid.py:6-11 | For a string, `float()` succeeds exactly on Python float-literal syntax. Booleans and floats are numeric. An integer is numeric unless it overflows a double, which raises OverflowError. `None`, lists, dicts and datetimes raise TypeError. |
| StrValid.Validate | src/services/strvalid.py:13-20 | Accepted exactly for a string that is neither a float literal nor `true`/`false` in any case. An accepted value is returned unchanged. A float-literal string fails as numeric. A non-string never gets the "not a string" error. |
| StrValid.RejectsBooleanWords | src/services/strvalid.py:16-17 | Every letter-case variant of `true`/`false` is rejected as a boolean string. |
| StrValid.BooleanWordsAreNotNumeric | src/services/strvalid.py:14-17 | Case variants of `true`/`false` are not float literals, so they reach the boolean check. |
| StrValid.NeverNotAString | src/services/strvalid.py:14-19 | The "not a string" branch is unreachable: every non-string is caught earlier by the numeric check. |
| StrValid.NonStringErrors | src/services/strvalid.py:6-15 | Which error each kind of non-string gets: bools, floats and small ints are numeric; huge ints raise OverflowError; containers raise TypeError. |
| StrValid.RejectsIntegerText | src/services/strvalid.py:14-15 | The decimal text of every integer is rejected as numeric. |
| StrValid.NumericExamples | src/services/strvalid.py:14-15 | `"1"`, `"3.14"`, `" 7 "` and `"nan"` are rejected as numeric. |
| StrValid.AcceptsPlainWord | src/services/strvalid.py:13-20 | Every non-empty lower-case word that is not a boolean word and does not start a float literal (`i`nf, `n`an) is accepted unchanged. |
| StrValid.AcceptsHello | src/services/strvalid.py:13-20 | `"hello"` is accepted as it is. |
| StrValid.AcceptsEmpty | src/services/strvalid.py:13-20 | The empty string is accepted. |
| BoolValid.Validate | src/services/boolvalid.py:4-11 | Accepted exactly for a string that lower-cases to `true` or `false`, giving that boolean. Every failure is "not a boolean". |
| BoolValid.ValidatesPrinted | src/services/boolvalid.py:4-11 | Round trip: Python's `str(b)` validates back to `b`. |
| BoolValid.CaseInsensitive | src/services/boolvalid.py:6-9 | The result depends only on the lower-cased text. |
| BoolValid.TrueVariants | src/services/boolvalid.py:6-7 | Exactly the letter-case variants of `true` validate to `True`. |
| BoolValid.MixedCaseExamples | src/services/boolvalid.py:6-9 | `"TRUE"` gives `True` and `"False"` gives `False`. |
| BoolValid.RejectsPadded | src/services/boolvalid.py:6-11 | No whitespace is stripped, so `" true"` fails. |
| BoolValid.RejectsNonStrings | src/services/boolvalid.py:6-11 | JSON booleans and every other non-string fail. |
| IntValid.Validate | src/services/intvalid.py:4-8 | Succeeds exactly when Python's `int()` does, with its value. Every failure is "not an integer". |
| IntValid.ValidatesDecimal | src/services/intvalid.py:4-8 | Round trip: `int(str(n)) == n` for every integer. |
| IntValid.ValidatesSignedPadded | src/services/intvalid.py:4-8 | Surrounding whitespace and a sign are accepted: `" -42 "` gives -42. |
| IntValid.ValidatesUnderscores | src/services/intvalid.py:4-8 | Underscores between digits are accepted: `"1_000"` gives 1000. |
| IntValid.RejectsFraction | src/services/intvalid.py:4-8 | `"3.5"` fails. |
| IntValid.RejectsWord | src/services/intvalid.py:4-8 | `"abc"` fails. |
| IntValid.RejectsEmpty | src/services/intvalid.py:4-8 | `""` fails. |
| IntValid.IntsAndBools | src/services/intvalid.py:4-8 | A JSON integer is kept; `true`/`false` become 1/0. |
| IntValid.RejectsContainers | src/services/intvalid.py:4-8 | `None`, lists, dicts and datetimes fail. |
| IntValid.TruncatesPositive | src/services/intvalid.py:4-8 | A float is truncated toward zero: 2.5 gives 2. |
| IntValid.TruncatesNegative | src/services/intvalid.py:4-8 | -2.5 gives -2, not -3. |
| IntValid.RejectsNanAndInfinity | src/services/intvalid.py:4-8 | NaN and the infinities fail. |
| FloatValid.Validate | src/services/floatvalid.py:4-8 | Succeeds exactly when `float()` does, with its value. A string succeeds exactly on float-literal syntax. Every failure is "not a float". |
| FloatValid.RejectsHugeIntegers | src/services/floatvalid.py:4-8 | Integers whose magnitude overflows a double fail. |
| FloatValid.KeepsFloats | src/services/floatvalid.py:4-8 | A JSON float is returned as it is. |
| DatetimeValid.Validate | src/services/datetimevalid.py:4-9 | Succeeds exactly for a string that `fromisoformat` parses, with that datetime. Every failure is "not a valid datetime". |
| ListValid.SplitFallback | src/services/listvalid.py:14 | One item per comma plus one. Item k is the k-th comma-separated piece, stripped. |
| ListValid.Validate | src/services/listvalid.py:4-15 | Succeeds exactly for strings. It gives the parsed list when the JSON is a list, and the comma fallback otherwise. A non-string fails with "not a list". |
| ListValid.FallbackItems | src/services/listvalid.py:14 | No fallback item contains a comma, and the pieces re-joined with commas give back the input. |
| ListValid.NotArrayText | src/services/listvalid.py:7-14 | Text that does not start with `[` always takes the comma fallback. |
| ListValid.SingleItem | src/services/listvalid.py:10-14 | A comma-free string with no surrounding whitespace (and not a JSON array) comes back as the one item. |
| ListValid.TextFallsBack | src/services/listvalid.py:7-14 | `"{}"` parses to an object, not a list, so it comes back as `["{}"]`. `"5"` comes back as `["5"]` and `""` as `[""]`. |
| ListValid.FallbackCommaText | src/services/listvalid.py:14 | `"a, b, c"` (any three visible non-comma characters) splits into the three stripped items. |
| ListValid.CommaTextSplits | src/services/listvalid.py:4-14 | `"a, b, c"` validates to `["a", "b", "c"]`. |
| ListValid.ArrayTextParses | src/services/listvalid.py:7-9 | A string that parses to a JSON array gives that array. |
| ListValid.RejectsNonStrings | src/services/listvalid.py:15 | Every non-string, a real list included, fails. |
| ValidationService.RunValidator | src/services/validation_service.py:24 | No validator answers "unsupported field type". |
| ValidationService.CheckType | src/services/validation_service.py:20-24 | "Unsupported field type" (naming the type) exactly for a name outside the registry. |
| ValidationService.SupportedNames | src/services/validation_service.py:9-16 | The supported names are exactly the six. |
| ValidationService.Dispatch | src/services/validation_service.py:9-24 | Each of the six names gives exactly its own validator's result. |
| ValidationService.ExactKeys | src/services/validation_service.py:21-23 | The lookup is exact: `"Int"` and `" int"` are unsupported. |
| ValidationService.NormalisedKey | src/services/validation_service.py:21-24 | A name stripped and lower-cased by the caller reaches the registered validator. |
| ValidationService.StrExcludesOthers | src/services/validation_service.py:9-16 | A string accepted as `int`, `float` or `bool` is rejected as `str`. |
| ValidationService.SeparatorBeforeDigits | src/services/strvalid.py:6-20 | With one of U+001C to U+001F in front of an integer's digits, the int and float validators reject the text and the string validator accepts it unchanged, since `float()` does not skip that character but `is_numeric` then fails. |
| ValidationService.NoBreakSpaceBeforeDigits | src/services/intvalid.py:6 | A no-break space U+00A0 in front of an integer's digits is skipped: the text validates to that integer. |
| Embedding.ExtractText | src/services/embedding.py:9-21 | Unknown suffixes and undecodable bytes give `""`. A `.txt` file gives its decoded text. Any non-empty result comes from decodable bytes. |
| Embedding.JsonFile | src/services/embedding.py:13-14 | A `.json` file gives its parsed content printed again, or `""` when it does not parse. |
| Embedding.CsvFile | src/services/embedding.py:15-17 | A `.csv` file gives its rows, fields joined by `", "` and rows by newlines, or `""` when it does not parse. |
| Embedding.CsvLines | src/services/embedding.py:17 | When no field holds a newline, splitting the text on newlines gives back one joined line per row. |
| Embedding.UpperCaseSuffix | src/services/embedding.py:11-19 | The suffix test is case-sensitive: `"A.TXT"` gives `""`. |
| Embedding.EmptyTextFile | src/services/embedding.py:11-12 | An empty `.txt` file gives `""`. |
| Register.NormaliseSpec | src/api/upload.py:65-75 | A bare string spec is always accepted. An accepted spec is an object. An accepted object spec is kept unchanged, with a non-blank type name. |
| Register.NormaliseSpecCases | src/api/upload.py:65-75 | What one spec becomes. A bare name is rewritten to `{"type": name.strip().lower(), "required": false}`. An object with a non-blank string type is kept. A missing or blank type answers "missing type". A non-string type raises. Anything else answers "neither string nor object". |
| Register.Specs | src/api/upload.py:65-75 | One spec result per field. |
| Register.SpecAt | src/api/upload.py:65-75 | The k-th spec result is that of the k-th field's spec. |
| Register.Assemble | src/api/upload.py:65-75 | A failure of the loop is one of the three per-field failures. |
| Register.NormaliseAll | src/api/upload.py:64-75 | A failure of the loop is one of the three per-field failures. |
| Register.AssembleStopsAt | src/api/upload.py:65-75 | The loop answers with the failure of the first spec that fails. |
| Register.AssembleAllOk | src/api/upload.py:65-75 | When every spec passes, the loop yields each name with its rewritten spec. |
| Register.NormaliseFields | src/api/upload.py:64-78 | The loop, run in place over the schema, gives `NormaliseAll`'s result. On success it leaves the last field's name and type. |
| Register.AssembleOkIff | src/api/upload.py:65-75 | The loop succeeds iff every spec passes. |
| Register.AssembleShape | src/api/upload.py:65-75 | On success the schema has the same names in the same order, each with its rewritten spec. |
| Register.AssembleFirstFailure | src/api/upload.py:65-75 | On failure the answer is the failure of the first failing spec, every earlier one having passed. |
| Register.NormaliseAllOkIff | src/api/upload.py:64-75 | The loop over a schema dict succeeds iff every field spec passes. |
| Register.NormaliseAllShape | src/api/upload.py:65-75 | On success the normalised schema keeps names and order, with each spec rewritten. |
| Register.NormaliseAllFirstFailure | src/api/upload.py:65-75 | On failure it names the first failing field. |
| Register.Registration | src/api/upload.py:35-92 | A type name holding NUL answers 500, since the lookup query raises. Otherwise 409 exactly for a name already registered, with the schema stored for it. A registered schema can be written to its `jsonb` column. An "unsupported type" answer names a type outside the allowed names. |
| Register.RegisterOnce | src/api/upload.py:41-51 | A registered name without NUL is answered with 409 and its stored schema, whatever the new text. |
| Register.RejectsEmpty | src/api/upload.py:53-64 | Schema text that raises `JSONDecodeError` answers "invalid JSON", and any other exception of `json.loads` answers 500. An empty dict answers "schema empty". |
| Register.RegisteredSchema | src/api/upload.py:53-92 | A registration succeeds only for a new name whose schema text is a non-empty dict. Every spec must pass, the last type must be allowed, and the commit must be able to write the schema. What it stores is the normalised schema, and that schema is well formed. |
| Register.StoredSpec | src/api/upload.py:66-73 | An accepted spec is stored as an object whose `type` is a string, without repeated keys when it comes from JSON. |
| Register.StoredSchemaReadBack | src/models/file_record.py:28 | A well-formed schema read back from its `jsonb` column is still well formed, and its fields are in `jsonb` key order. |
| Register.StoredSpecReadBack | src/models/file_record.py:28 | A field spec read back is still an object without repeated keys whose `type` is a string. |
| Register.CanonicalStored | src/api/upload.py:66-69 | A canonical spec without NUL can be written and reads back unchanged, since `type` is the shorter key. |
| Register.TypeKeyFirst | src/models/file_record.py:28 | `type` comes before `required` in `jsonb` key order. |
| Register.ShorterKeyFirst | src/models/file_record.py:28 | Read back, `{"name": "str", "age": "int"}` lists `age` first. |
| Register.StoredCanonicals | src/models/file_record.py:28 | Two canonical specs read back unchanged. |
| Register.CommitRefusesNonFinite | src/api/upload.py:80-86 | A spec carrying a NaN or an infinity passes every check, but the commit cannot write it: the answer is 500. |
| Register.NonFiniteSpec | src/api/upload.py:65-75 | Such a spec is accepted unchanged by the loop and cannot be written. |
| Register.TwoCanonicalsStorable | src/api/upload.py:80-86 | A schema of two canonical specs without NUL can be written. |
| Register.PlainTypeSpec | src/api/upload.py:66-69 | A lower-case bare name is rewritten to its canonical object. |
| Register.NormaliseTwoNames | src/api/upload.py:65-75 | Two bare names are both rewritten, in order, whatever they name. |
| Register.TwoNamesNormalised | src/api/upload.py:65-75 | The same for any two lower-case names: both accepted, the last one's type name kept, both rewritten in order. |
| Register.TwoNamesRegistered | src/api/upload.py:77-92 | A schema of two lower-case bare names is registered whenever the second name is allowed. |
| Register.OnlyLastTypeChecked | src/api/upload.py:77-92 | Once every spec passes, the answer depends only on the last field's type, and then on whether the commit can write the schema. The answer is "unsupported type" naming the last field when that type is not allowed, otherwise registered when the schema can be written and 500 when it cannot. |
| Register.UnknownTypeRegistered | src/api/upload.py:77-92 | A first field naming a type that is not allowed is registered all the same. |
| Register.StringSpecCanonical | src/api/upload.py:66-69 | `" Int "` is stored as `{"type": "int", "required": false}`. |
| Register.BlankTypeMissing | src/api/upload.py:70-73 | An object spec with a blank type answers "missing type". |
| Metadata.SpecType | src/api/upload.py:139 | A type name exists exactly for a bare-string spec or an object spec whose `type` is a string; otherwise the line raises. |
| Metadata.Default | src/api/upload.py:141 | A default is never `null`. |
| Metadata.CheckField | src/api/upload.py:138-155 | The iteration raises exactly when the spec has no string type or the metadata is not an object. |
| Metadata.AbsentField | src/api/upload.py:142-151 | An absent or null field fails iff it is required without a default. Otherwise it takes the default, unvalidated, or `None`. |
| Metadata.PresentField | src/api/upload.py:152-155 | A present value is checked by `check_type` under the normalised type name. Success gives the converted value. Failure gives an error naming the value, the field and the type. |
| Metadata.Collect | src/api/upload.py:137-155 | When the loop runs through, the two dicts together have one entry per field. |
| Metadata.ValidateAll | src/api/upload.py:135-155 | When the loop runs through, the two dicts together have one entry per schema field. |
| Metadata.CollectNonePrefix | src/api/upload.py:137-155 | Once an iteration raises, the whole loop raises. |
| Metadata.ValidateFields | src/api/upload.py:135-155 | The loop, filling the two dicts in place, gives `ValidateAll`'s result. |
| Metadata.CollectCrashIff | src/api/upload.py:137-155 | The loop raises iff some iteration raises. |
| Metadata.CollectPartition | src/api/upload.py:137-155 | Every field lands in exactly the dict its outcome names, with its own error or value. Nothing else lands in either dict, and together they have one entry per field. |
| Metadata.CollectDisjoint | src/api/upload.py:137-155 | With distinct field names, no field is both in error and validated. |
| Metadata.ValidateAllCrash | src/api/upload.py:135-155 | The loop raises iff the schema is non-empty and either the metadata is not an object or some spec lacks a string type. |
| Metadata.StoredSchemaNeverCrashes | src/api/upload.py:135-155 | A schema as registration stores it never makes the loop raise on a metadata object. |
| Metadata.ValidateAllPartition | src/api/upload.py:135-155 | Both dicts hold only schema fields, one entry per field overall, and never the same field in both. |
| Metadata.AcceptedThenRejected | src/api/upload.py:135-155 | An accepted field then a rejected one gives one entry in each dict. |
| Metadata.AcceptedBoth | src/api/upload.py:135-155 | Two accepted fields are validated in the order the schema is walked. |
| Metadata.ExampleSchemaInKeyOrder | src/models/file_record.py:28 | The example schema `{age: int default 0, name: str required}` and both of its specs are in the `jsonb` key order a stored schema is read back in. |
| Metadata.ExampleMissingName | src/api/upload.py:135-164 | With the example schema and metadata `{"age": 5}`, `name` is "required but missing" and `age` is validated as 5. |
| Metadata.ExampleDefaultAge | src/api/upload.py:135-155 | With metadata `{"name": "Ann"}`, the result is `age` the default 0, then `name` "Ann", in stored schema order. |
| Upload.PairChunks | src/api/upload.py:187-193 | The loop builds one row per (chunk, embedding) pair, never more than either list. |
| Upload.IndexText | src/api/upload.py:183-193 | The statements of the indexing step give exactly the rows `Indexing` describes, or none when `json.dumps` or the embedding call raises. |
| Upload.ChunkIndicesAppend | src/api/upload.py:187-194 | A file's chunk indices over two row lists are the two lists' indices in order. |
| Upload.ChunkIndicesOwn | src/api/upload.py:187-193 | Rows of one file numbered from 0 give it the index run 0..n-1. |
| Upload.PairsIndexed | src/api/upload.py:187-193 | As many rows as the shorter list. Each chunk has its own embedding. Indices run 0..n-1 under the new file and under no other. |
| Upload.AppendRowsKeepsRuns | src/api/upload.py:182-194 | Appending a new file's rows keeps every file's chunk indices a run 0..n-1. |
| Upload.Indexing | src/api/upload.py:182-193 | Empty text indexes nothing. Indexing fails only when the metadata holds a datetime or the embedding call raises. The rows are numbered 0..n-1 under the file. |
| Upload.UploadPlan | src/api/upload.py:106-203 | A type name holding NUL answers 500 and writes nothing. A 200 answer has stored the file, under the new id and the requested type. Nothing stored means no rows. A stored file means the type name has no NUL, is registered and the metadata text parsed. |
| Upload.StoreAndIndex | src/api/upload.py:167-194 | The file is stored exactly when the commit can write the metadata and the file name and folder hold no NUL. Otherwise the answer is 500 and there are no rows. A 200 answer repeats the validated metadata under the new id. A stored file without 200 means the embedding call raised, and there are no rows. Rows are numbered 0..n-1 under the new id. |
| Upload.UploadNotRegistered | src/api/upload.py:114-123 | 404 iff the type name holds no NUL and is unregistered, and then nothing is written. |
| Upload.UploadInvalidJson | src/api/upload.py:125-134 | 400 "Invalid JSON" exactly when the type is found and `json.loads` raises `JSONDecodeError`. Any other exception answers 500. Either way nothing is written. |
| Upload.UploadUnprocessable | src/api/upload.py:157-164 | 422 iff the type is found and validation finishes with errors. The answer carries the whole error map and nothing is written. |
| Upload.UploadStoresValidated | src/api/upload.py:157-180 | A file is stored only after error-free validation, when the commit can write the validated metadata and the type name, file name and folder hold no NUL. It holds that metadata as read back from `jsonb`, and its folder (`"/"` for an empty one). A 200 answer repeats the metadata as validated. |
| Upload.UploadWritesOnSuccess | src/api/upload.py:114-194 | A 200 answer has stored the file. Nothing stored means no rows. A stored file without 200 is a 500 with no rows. |
| Upload.UploadEmptyText | src/api/upload.py:182-194 | With no text, nothing is indexed and the upload succeeds. |
| Upload.UploadIndexesText | src/api/upload.py:182-193 | With text, the rows pair the chunks of the text plus the printed metadata with their embeddings, indexed 0..n-1. |
| Upload.StoredIndexesText | src/api/upload.py:167-194 | The same for the part after validation, for any validated metadata. |
| Upload.UploadUnstorableMetadata | src/api/upload.py:170-179 | After error-free validation, the file is stored exactly when the commit can write the metadata and the file name and folder hold no NUL. Otherwise, and in particular when a field validated to a datetime, the answer is 500 with nothing stored and no rows. |
| Upload.NulCharacterCrashes | src/api/upload.py:41 | A type name holding NUL answers 500 with nothing written, in registration and in upload (whose lookup is line 114). A NUL in the file name or folder makes the commit of lines 170-179 raise: 500, nothing stored, no rows. |
| Upload.Store.RegisterFileType | src/api/upload.py:35-97 | Answers as `Registration`. Only a success changes the store, adding exactly the new type with its schema as `jsonb` reads it back. Files and rows are untouched, and the store invariant is kept. |
| Upload.Store.CheckNewSchema | src/api/upload.py:53-92 | For a new type name without NUL, parsing, normalising, the last-type check and the commit check answer exactly as `Registration`. |
| Upload.Store.UploadFile | src/api/upload.py:106-203 | Answers as `UploadPlan`. Appends the stored file, if any, and its rows. Registered types are untouched, and the store invariant is kept. |
| Upload.Store.StoreAndIndexFile | src/api/upload.py:167-194 | Stores the file at the next position when the commit can write its metadata, file name and folder, then appends its rows, both as `StoreAndIndex` says, keeping the invariant. |
| Upload.Store.constructor | src/models/file_record.py:10-37 | An empty store satisfies the invariant. |

## Left out

- Unicode: `str.strip` removes Python's full `str.isspace()` set. `int()` and `float()` skip the same set except U+001C to U+001F (`NumberStrip`). But `str.lower` is modelled on ASCII letters only, and so are the digits `int()` and `float()` accept. Unicode digits and case folding are not modelled.
- `json.loads`, `json.dumps`, UTF-8 decoding, the CSV reader and `datetime.fromisoformat` are parameters of the model (`Runtime`). Only the facts in `Sane` are assumed of them: `json.loads` builds JSON values, an array text starts with `[` and an object text with `{`, and the empty byte string decodes to `""`. `json.dumps` raising on a datetime is written into `JsonDumps`.
- The rounding of decimal text and of large integers to a double is a `Runtime` parameter. Floating-point arithmetic is not modelled.
- `int()` refuses strings of more than 4300 digits; this limit is not modelled.
- `chunk_text` (the text splitter, `src/services/embedding.py:23-25`) and `get_embeddings` (the remote embedding call, lines 27-36) are parameters of the model. The 768-value dimension of an embedding is not checked.
- Fernet encryption (`encrypt_file`/`decrypt_file`) is not modelled: the ciphertext is an input of the upload.
- Database ids are UUIDs in the source. The model uses the file's position in the store instead, so the "unique id" property is by construction.
- The upload time and the response's `timestamp` (a clock read) are not modelled.
- The SQL session, transactions, concurrency between requests and the FastAPI request parsing are not modelled.
- `search_files` (`src/api/upload.py:211-249`), `save_metadata` (lines 100-104), `src/main.py` and `src/schemas/invoice.py` are outside the modelled core.
- `src/interface/types.py` is not part of this model. `ALLOWED_TYPES` is the `allowed` parameter of `Store`.
- Registration's "raise" outcomes (a non-dict schema, an object spec whose `type` is not a string) are modelled as one 500 answer without its exception text.
- `jsonb` normalises numbers: `-0.0` comes back as the float `0.0`, and a float with an integral value may come back as an `int`. The model reads numbers back unchanged.
- Lone UTF-16 surrogates: a Python string can hold one, and `json.loads` produces it from a `\uD800`–`\uDFFF` escape that is not part of a pair (metadata text at line 126 of `upload.py`, schema text at line 54). `StrValidator` accepts such a string, `json.dumps` prints it back as the same escape, and the `jsonb` column refuses it at the commit (lines 85-86 and 179), which answers 500 with nothing stored. A Dafny `char` cannot hold a surrogate, so `Value` cannot represent such a string, and `Storable` and this 500 answer do not cover it.
- A NUL character in the extracted text would make the commit of the chunk rows raise. The model does not check this.
