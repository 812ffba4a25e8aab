/**
 * The two handlers of `src/api/upload.py` over an abstract store:
 * `register_file_type` adds a schema under a new type name, and `upload_file`
 * validates the metadata against the stored schema, stores the file and then
 * indexes its text as numbered chunks with their embeddings.
 */
module Upload {
  import opened PyText
  import opened PyValue
  import opened Jsonb
  import opened Register
  import opened Metadata
  import opened Embedding

  /** A stored file: name, type name, the (encrypted) bytes, metadata as its `jsonb` column holds it, and folder. */
  datatype FileRecord = FileRecord(fileName: string, fileType: string, data: seq<byte>, metadata: Entries, folderPath: string)

  /** One indexed chunk of a file; `fileId` is the file's position in the store. */
  datatype FileEmbedding = FileEmbedding(fileId: nat, chunkIndex: nat, chunkText: string, embedding: Vector)

  /** What `upload_file` answers. */
  datatype UploadOutcome =
    | NotRegistered                                   // 404 "File type '<t>' is not registered."
    | InvalidJson                                     // 400 "Invalid JSON"
    | Unprocessable(errors: seq<(string, FieldError)>) // 422 with the whole error map
    | UploadCrash                                     // 500: an exception nothing catches
    | Uploaded(fileId: nat, fileType: string, metadata: Entries, fileName: string, folderPath: string)

  /** What one upload does: its answer, the file it stores and the chunk rows it adds. */
  datatype UploadEffect = UploadEffect(outcome: UploadOutcome, stored: Option<FileRecord>, rows: seq<FileEmbedding>)

  function Min(a: nat, b: nat): nat {
    if a <= b then a else b
  }

  /** `enumerate(zip(chunks, embeddings))` turned into rows of file `fileId`. */
  function Pairs(fileId: nat, chunks: seq<string>, embs: seq<Vector>): seq<FileEmbedding>
  {
    seq(Min(|chunks|, |embs|), k requires 0 <= k < Min(|chunks|, |embs|) => FileEmbedding(fileId, k, chunks[k], embs[k]))
  }

  /** The chunk indices stored for file `fileId`, in insertion order. */
  function ChunkIndicesOf(rows: seq<FileEmbedding>, fileId: nat): seq<nat>
    decreases |rows|
  {
    if rows == [] then []
    else
      var last := rows[|rows| - 1];
      ChunkIndicesOf(rows[..|rows| - 1], fileId) + (if last.fileId == fileId then [last.chunkIndex] else [])
  }

  /** The indices are 0, 1, ..., n-1: no gap, no repeat, in order. */
  predicate IsIndexRun(s: seq<nat>) {
    forall k | 0 <= k < |s| :: s[k] == k
  }

  /** `folder_path if folder_path else "/"`. */
  function FolderOf(folderPath: string): string {
    if folderPath == "" then "/" else folderPath
  }

  /**
   * Lines 182-193: the rows indexed for a stored file, or `None` when
   * `json.dumps` or the embedding call raises.
   */
  function Indexing(rt: Runtime, fileId: nat, text: string, validated: Entries): (r: Option<seq<FileEmbedding>>)
    ensures text == "" ==> r == Some([])
    ensures r.None? ==> HasDatetime(VDict(validated)) || rt.getEmbeddings(rt.chunkText(text + " " + JsonDumps(rt, VDict(validated)).value)).None?
    ensures r.Some? ==> forall k | 0 <= k < |r.value| :: r.value[k].fileId == fileId && r.value[k].chunkIndex == k
  {
    if text == "" then Some([])
    else
      match JsonDumps(rt, VDict(validated))
      case None => None
      case Some(dumped) =>
        var chunks := rt.chunkText(text + " " + dumped);
        match rt.getEmbeddings(chunks)
        case None => None
        case Some(embs) => Some(Pairs(fileId, chunks, embs))
  }

  /**
   * `upload_file` against the registered types: `fileId` is the position the
   * new file takes and `encrypted` the ciphertext of `raw`.
   */
  function UploadPlan(rt: Runtime, types: map<string, Entries>, fileId: nat, fileType: string, metadataValue: string,
                      fileName: string, raw: seq<byte>, encrypted: seq<byte>, folderPath: string): (r: UploadEffect)
    ensures r.outcome.Uploaded? ==> r.stored.Some? && r.outcome.fileId == fileId && r.outcome.fileType == fileType
    ensures r.stored.None? ==> r.rows == []
    ensures !TextStorable(fileType) ==> r == UploadEffect(UploadCrash, None, [])
    ensures r.stored.Some? ==> TextStorable(fileType) && fileType in types && rt.jsonLoads(metadataValue).Some?
  {
    if !TextStorable(fileType) then UploadEffect(UploadCrash, None, [])   // the query at line 114 cannot send a NUL character
    else if fileType !in types then UploadEffect(NotRegistered, None, [])
    else
      match rt.jsonLoads(metadataValue)
      case None =>
        // only `json.JSONDecodeError` is caught
        if rt.jsonLoadsError(metadataValue) == DecodeError then UploadEffect(InvalidJson, None, []) else UploadEffect(UploadCrash, None, [])
      case Some(value) =>
        match ValidateAll(rt, types[fileType], value)
        case None => UploadEffect(UploadCrash, None, [])
        case Some(c) =>
          if c.errors != [] then UploadEffect(Unprocessable(c.errors), None, [])
          else StoreAndIndex(rt, fileId, fileType, fileName, raw, encrypted, folderPath, c.validated)
  }

  /**
   * Lines 167-194, once the metadata is valid: the commit writes the file, its
   * metadata read back in `jsonb` order, or raises when the columns cannot hold
   * the metadata, the file name or the folder; then the text is indexed, and a failure there answers 500
   * with the file already stored.
   */
  function StoreAndIndex(rt: Runtime, fileId: nat, fileType: string, fileName: string, raw: seq<byte>,
                         encrypted: seq<byte>, folderPath: string, validated: Entries): (r: UploadEffect)
    ensures r.stored.Some? <==> Storable(VDict(validated)) && TextStorable(fileName) && TextStorable(folderPath)
    ensures r.stored.None? ==> r.outcome == UploadCrash && r.rows == []
    ensures r.outcome.Uploaded? ==> r.stored.Some? && r.outcome.fileId == fileId && r.outcome.metadata == validated
    ensures r.stored.Some? && !r.outcome.Uploaded? ==>
      (&& r.outcome.UploadCrash? && r.rows == []
       && JsonDumps(rt, VDict(validated)).Some?
       && rt.getEmbeddings(rt.chunkText(ExtractText(rt, fileName, raw) + " " + JsonDumps(rt, VDict(validated)).value)).None?)
    ensures forall k | 0 <= k < |r.rows| :: r.rows[k].fileId == fileId && r.rows[k].chunkIndex == k
  {
    if !Storable(VDict(validated)) || !TextStorable(fileName) || !TextStorable(folderPath) then
      UploadEffect(UploadCrash, None, [])   // `FolderOf` never adds a NUL character
    else
      StorableHasNoDatetime(VDict(validated));
      var record := FileRecord(fileName, fileType, encrypted, StoredEntries(validated), FolderOf(folderPath));
      match Indexing(rt, fileId, ExtractText(rt, fileName, raw), validated)
      case None => UploadEffect(UploadCrash, Some(record), [])
      case Some(rows) => UploadEffect(Uploaded(fileId, fileType, validated, fileName, record.folderPath), Some(record), rows)
  }

  /** The indexing loop, lines 187-193: one row per (chunk, embedding) pair, numbered from 0. */
  method PairChunks(fileId: nat, chunks: seq<string>, embs: seq<Vector>) returns (rows: seq<FileEmbedding>)
    ensures rows == Pairs(fileId, chunks, embs)
    ensures |rows| <= |chunks| && |rows| <= |embs|
  {
    rows := [];
    var idx := 0;
    while idx < |chunks| && idx < |embs|
      invariant 0 <= idx <= |chunks| && idx <= |embs|
      invariant |rows| == idx
      invariant forall k | 0 <= k < idx :: rows[k] == FileEmbedding(fileId, k, chunks[k], embs[k])
    {
      rows := rows + [FileEmbedding(fileId, idx, chunks[idx], embs[idx])];
      idx := idx + 1;
    }
  }

  /** Lines 182-193 as statements: dump the metadata, chunk the text, embed the chunks, pair them up. */
  method IndexText(rt: Runtime, fileId: nat, text: string, validated: Entries) returns (rows: Option<seq<FileEmbedding>>)
    ensures rows == Indexing(rt, fileId, text, validated)
  {
    if text == "" {
      return Some([]);
    }
    var dumped := JsonDumps(rt, VDict(validated));
    if dumped.None? {
      return None;
    }
    var chunks := rt.chunkText(text + " " + dumped.value);
    var embs := rt.getEmbeddings(chunks);
    if embs.None? {
      return None;
    }
    var paired := PairChunks(fileId, chunks, embs.value);
    rows := Some(paired);
  }

  lemma {:induction false} ChunkIndicesAppend(a: seq<FileEmbedding>, b: seq<FileEmbedding>, fileId: nat)
    ensures ChunkIndicesOf(a + b, fileId) == ChunkIndicesOf(a, fileId) + ChunkIndicesOf(b, fileId)
    decreases |b|
  {
    if b == [] {
      assert a + b == a;
    } else {
      var n := |b|;
      assert (a + b)[..|a + b| - 1] == a + b[..n - 1];
      assert (a + b)[|a + b| - 1] == b[n - 1];
      ChunkIndicesAppend(a, b[..n - 1], fileId);
    }
  }

  /** Rows of other files contribute no index to `fileId`. */
  lemma {:induction false} ChunkIndicesOther(rows: seq<FileEmbedding>, fileId: nat)
    requires forall k | 0 <= k < |rows| :: rows[k].fileId != fileId
    ensures ChunkIndicesOf(rows, fileId) == []
    decreases |rows|
  {
    if rows != [] {
      ChunkIndicesOther(rows[..|rows| - 1], fileId);
    }
  }

  /** Rows of one file numbered from 0 give that file the index run 0..n-1. */
  lemma {:induction false} ChunkIndicesOwn(rows: seq<FileEmbedding>, fileId: nat)
    requires forall k | 0 <= k < |rows| :: rows[k].fileId == fileId && rows[k].chunkIndex == k
    ensures |ChunkIndicesOf(rows, fileId)| == |rows| && IsIndexRun(ChunkIndicesOf(rows, fileId))
    decreases |rows|
  {
    if rows != [] {
      ChunkIndicesOwn(rows[..|rows| - 1], fileId);
    }
  }

  /**
   * The rows of one indexing pass: as many as the shorter of chunks and
   * embeddings, each chunk with its own embedding, numbered 0..n-1 under the new
   * file and under no other.
   */
  lemma PairsIndexed(fileId: nat, chunks: seq<string>, embs: seq<Vector>)
    ensures var rows := Pairs(fileId, chunks, embs);
      && |rows| == Min(|chunks|, |embs|)
      && (forall k | 0 <= k < |rows| :: rows[k].chunkText == chunks[k] && rows[k].embedding == embs[k])
      && |ChunkIndicesOf(rows, fileId)| == |rows| && IsIndexRun(ChunkIndicesOf(rows, fileId))
      && (forall other: nat | other != fileId :: ChunkIndicesOf(rows, other) == [])
  {
    var rows := Pairs(fileId, chunks, embs);
    ChunkIndicesOwn(rows, fileId);
    forall other: nat | other != fileId
      ensures ChunkIndicesOf(rows, other) == []
    {
      ChunkIndicesOther(rows, other);
    }
  }

  /**
   * Appending the rows of a new file (an id above every stored one, numbered
   * from 0) keeps every file's chunk indices a run 0..n-1, and the new file's
   * run is exactly its rows.
   */
  lemma AppendRowsKeepsRuns(es: seq<FileEmbedding>, fileId: nat, rows: seq<FileEmbedding>)
    requires forall k | 0 <= k < |es| :: es[k].fileId < fileId
    requires forall id: nat :: IsIndexRun(ChunkIndicesOf(es, id))
    requires forall k | 0 <= k < |rows| :: rows[k].fileId == fileId && rows[k].chunkIndex == k
    ensures forall id: nat :: IsIndexRun(ChunkIndicesOf(es + rows, id))
    ensures |ChunkIndicesOf(es + rows, fileId)| == |rows|
  {
    ChunkIndicesOther(es, fileId);
    ChunkIndicesOwn(rows, fileId);
    ChunkIndicesAppend(es, rows, fileId);
    assert [] + ChunkIndicesOf(rows, fileId) == ChunkIndicesOf(rows, fileId);
    forall id: nat
      ensures IsIndexRun(ChunkIndicesOf(es + rows, id))
    {
      ChunkIndicesAppend(es, rows, id);
      if id != fileId {
        ChunkIndicesOther(rows, id);
        assert ChunkIndicesOf(es, id) + [] == ChunkIndicesOf(es, id);
      }
    }
  }

  /** 404 exactly for an unregistered type name the query can send, and then nothing is written. */
  lemma UploadNotRegistered(rt: Runtime, types: map<string, Entries>, fileId: nat, fileType: string, metadataValue: string,
                            fileName: string, raw: seq<byte>, encrypted: seq<byte>, folderPath: string)
    ensures var plan := UploadPlan(rt, types, fileId, fileType, metadataValue, fileName, raw, encrypted, folderPath);
      && (plan.outcome.NotRegistered? <==> TextStorable(fileType) && fileType !in types)
      && (plan.outcome.NotRegistered? ==> plan.stored.None? && plan.rows == [])
  {
  }

  /**
   * Metadata text that is not JSON is answered 400, any other exception of
   * `json.loads` escapes as 500, and either way nothing is written.
   */
  lemma UploadInvalidJson(rt: Runtime, types: map<string, Entries>, fileId: nat, fileType: string, metadataValue: string,
                          fileName: string, raw: seq<byte>, encrypted: seq<byte>, folderPath: string)
    ensures var plan := UploadPlan(rt, types, fileId, fileType, metadataValue, fileName, raw, encrypted, folderPath);
      && (plan.outcome.InvalidJson? <==>
            TextStorable(fileType) && fileType in types && rt.jsonLoads(metadataValue).None? &&
            rt.jsonLoadsError(metadataValue) == DecodeError)
      && (fileType in types && rt.jsonLoads(metadataValue).None? ==>
            plan.stored.None? && plan.rows == [] &&
            (plan.outcome.InvalidJson? || plan.outcome.UploadCrash?))
  {
  }

  /**
   * 422 exactly when the loop runs through and records an error; the answer
   * carries the whole error map and nothing is written.
   */
  lemma UploadUnprocessable(rt: Runtime, types: map<string, Entries>, fileId: nat, fileType: string, metadataValue: string,
                            fileName: string, raw: seq<byte>, encrypted: seq<byte>, folderPath: string)
    ensures var plan := UploadPlan(rt, types, fileId, fileType, metadataValue, fileName, raw, encrypted, folderPath);
      && (plan.outcome.Unprocessable? <==>
            TextStorable(fileType) && fileType in types && rt.jsonLoads(metadataValue).Some? &&
            ValidateAll(rt, types[fileType], rt.jsonLoads(metadataValue).value).Some? &&
            ValidateAll(rt, types[fileType], rt.jsonLoads(metadataValue).value).value.errors != [])
      && (plan.outcome.Unprocessable? ==>
            plan.outcome.errors == ValidateAll(rt, types[fileType], rt.jsonLoads(metadataValue).value).value.errors &&
            plan.stored.None? && plan.rows == [])
  {
  }

  /**
   * A file is stored only when validation recorded no error and the commit can
   * write the validated metadata, the file name and the folder; it carries that metadata as read back from
   * its `jsonb` column, and the folder, `"/"` standing for an empty one.
   */
  lemma UploadStoresValidated(rt: Runtime, types: map<string, Entries>, fileId: nat, fileType: string, metadataValue: string,
                              fileName: string, raw: seq<byte>, encrypted: seq<byte>, folderPath: string)
    requires UploadPlan(rt, types, fileId, fileType, metadataValue, fileName, raw, encrypted, folderPath).stored.Some?
    ensures var plan := UploadPlan(rt, types, fileId, fileType, metadataValue, fileName, raw, encrypted, folderPath);
      && TextStorable(fileType) && fileType in types && rt.jsonLoads(metadataValue).Some?
      && var c := ValidateAll(rt, types[fileType], rt.jsonLoads(metadataValue).value);
      && c.Some? && c.value.errors == [] && Storable(VDict(c.value.validated))
      && TextStorable(fileName) && TextStorable(folderPath)
      && plan.stored.value == FileRecord(fileName, fileType, encrypted, StoredEntries(c.value.validated), FolderOf(folderPath))
      && plan.stored.value.folderPath != ""
      && (plan.outcome.Uploaded? ==> plan.outcome == Uploaded(fileId, fileType, c.value.validated, fileName, plan.stored.value.folderPath))
      && plan == StoreAndIndex(rt, fileId, fileType, fileName, raw, encrypted, folderPath, c.value.validated)
  {
  }

  /** Every answer other than 500 after the file is stored either stores it and answers 200, or writes nothing. */
  lemma UploadWritesOnSuccess(rt: Runtime, types: map<string, Entries>, fileId: nat, fileType: string, metadataValue: string,
                              fileName: string, raw: seq<byte>, encrypted: seq<byte>, folderPath: string)
    ensures var plan := UploadPlan(rt, types, fileId, fileType, metadataValue, fileName, raw, encrypted, folderPath);
      && (plan.outcome.Uploaded? ==> plan.stored.Some?)
      && (plan.stored.None? ==> plan.rows == [])
      && (plan.stored.Some? && !plan.outcome.Uploaded? ==> plan.outcome.UploadCrash? && plan.rows == [])
  {
  }

  /** Nothing is indexed when the extracted text is empty, and then nothing can fail after the file is stored. */
  lemma UploadEmptyText(rt: Runtime, types: map<string, Entries>, fileId: nat, fileType: string, metadataValue: string,
                        fileName: string, raw: seq<byte>, encrypted: seq<byte>, folderPath: string)
    requires UploadPlan(rt, types, fileId, fileType, metadataValue, fileName, raw, encrypted, folderPath).stored.Some?
    requires ExtractText(rt, fileName, raw) == ""
    ensures var plan := UploadPlan(rt, types, fileId, fileType, metadataValue, fileName, raw, encrypted, folderPath);
      plan.outcome.Uploaded? && plan.rows == []
  {
  }

  /**
   * With text to index, the rows pair the chunks of the text followed by the
   * printed metadata with their embeddings, numbered 0..n-1 under the new file.
   */
  lemma UploadIndexesText(rt: Runtime, types: map<string, Entries>, fileId: nat, fileType: string, metadataValue: string,
                          fileName: string, raw: seq<byte>, encrypted: seq<byte>, folderPath: string)
    requires UploadPlan(rt, types, fileId, fileType, metadataValue, fileName, raw, encrypted, folderPath).outcome.Uploaded?
    requires ExtractText(rt, fileName, raw) != ""
    ensures var plan := UploadPlan(rt, types, fileId, fileType, metadataValue, fileName, raw, encrypted, folderPath);
      var text := ExtractText(rt, fileName, raw);
      var dumped := JsonDumps(rt, VDict(plan.outcome.metadata));
      && dumped.Some?
      && var chunks := rt.chunkText(text + " " + dumped.value);
      && rt.getEmbeddings(chunks).Some?
      && plan.rows == Pairs(fileId, chunks, rt.getEmbeddings(chunks).value)
      && |ChunkIndicesOf(plan.rows, fileId)| == |plan.rows| && IsIndexRun(ChunkIndicesOf(plan.rows, fileId))
  {
    var plan := UploadPlan(rt, types, fileId, fileType, metadataValue, fileName, raw, encrypted, folderPath);
    UploadWritesOnSuccess(rt, types, fileId, fileType, metadataValue, fileName, raw, encrypted, folderPath);
    UploadStoresValidated(rt, types, fileId, fileType, metadataValue, fileName, raw, encrypted, folderPath);
    StoredIndexesText(rt, fileId, fileType, fileName, raw, encrypted, folderPath, plan.outcome.metadata);
  }

  /** `UploadIndexesText` for the part after validation, over any validated metadata. */
  lemma StoredIndexesText(rt: Runtime, fileId: nat, fileType: string, fileName: string, raw: seq<byte>,
                          encrypted: seq<byte>, folderPath: string, validated: Entries)
    requires StoreAndIndex(rt, fileId, fileType, fileName, raw, encrypted, folderPath, validated).outcome.Uploaded?
    requires ExtractText(rt, fileName, raw) != ""
    ensures var effect := StoreAndIndex(rt, fileId, fileType, fileName, raw, encrypted, folderPath, validated);
      var dumped := JsonDumps(rt, VDict(validated));
      && effect.outcome.metadata == validated
      && dumped.Some?
      && var chunks := rt.chunkText(ExtractText(rt, fileName, raw) + " " + dumped.value);
      && rt.getEmbeddings(chunks).Some?
      && effect.rows == Pairs(fileId, chunks, rt.getEmbeddings(chunks).value)
      && |ChunkIndicesOf(effect.rows, fileId)| == |effect.rows| && IsIndexRun(ChunkIndicesOf(effect.rows, fileId))
  {
    var chunks := rt.chunkText(ExtractText(rt, fileName, raw) + " " + JsonDumps(rt, VDict(validated)).value);
    PairsIndexed(fileId, chunks, rt.getEmbeddings(chunks).value);
  }

  /**
   * Valid metadata the `jsonb` column cannot hold (a `datetime` from a
   * `datetime` field, a NaN or an infinity, a NUL character) makes the commit
   * raise: the answer is 500, no file is stored and no chunk is indexed. So does
   * a NUL character in the file name or the folder. Otherwise the file is stored, and indexing can fail only in the embedding
   * call.
   */
  lemma UploadUnstorableMetadata(rt: Runtime, types: map<string, Entries>, fileId: nat, fileType: string, metadataValue: string,
                                 fileName: string, raw: seq<byte>, encrypted: seq<byte>, folderPath: string)
    requires TextStorable(fileType) && fileType in types && rt.jsonLoads(metadataValue).Some?
    requires var c := ValidateAll(rt, types[fileType], rt.jsonLoads(metadataValue).value); c.Some? && c.value.errors == []
    ensures var plan := UploadPlan(rt, types, fileId, fileType, metadataValue, fileName, raw, encrypted, folderPath);
      var validated := ValidateAll(rt, types[fileType], rt.jsonLoads(metadataValue).value).value.validated;
      && (plan.stored.Some? <==> Storable(VDict(validated)) && TextStorable(fileName) && TextStorable(folderPath))
      && (!Storable(VDict(validated)) ==> plan == UploadEffect(UploadCrash, None, []))
      && ((exists k | 0 <= k < |validated| :: validated[k].1.VDatetime?) ==> plan == UploadEffect(UploadCrash, None, []))
  {
    var validated := ValidateAll(rt, types[fileType], rt.jsonLoads(metadataValue).value).value.validated;
    assert UploadPlan(rt, types, fileId, fileType, metadataValue, fileName, raw, encrypted, folderPath) ==
      StoreAndIndex(rt, fileId, fileType, fileName, raw, encrypted, folderPath, validated);
    if k :| 0 <= k < |validated| && validated[k].1.VDatetime? {
      assert !Storable(validated[k].1);
    }
  }

  /**
   * PostgreSQL refuses a NUL character in any text: a type name holding one
   * makes the lookup query of either handler raise, and a file name or folder
   * holding one makes the commit raise, after valid metadata; each answers 500
   * and writes nothing.
   */
  lemma NulCharacterCrashes(rt: Runtime, allowed: set<string>, types: map<string, Entries>, fileId: nat, fileType: string,
                            metadataSchema: string, metadataValue: string, fileName: string, raw: seq<byte>,
                            encrypted: seq<byte>, folderPath: string, validated: Entries)
    ensures '\0' in fileType ==>
      && Registration(rt, allowed, types, fileType, metadataSchema) == RegisterCrash
      && UploadPlan(rt, types, fileId, fileType, metadataValue, fileName, raw, encrypted, folderPath) == UploadEffect(UploadCrash, None, [])
    ensures '\0' in fileName || '\0' in folderPath ==>
      StoreAndIndex(rt, fileId, fileType, fileName, raw, encrypted, folderPath, validated) == UploadEffect(UploadCrash, None, [])
  {
  }

  /** The store: registered types, files in upload order, and chunk rows in insertion order. */
  class Store {
    /** `ALLOWED_TYPES`, the type names registration accepts. */
    const allowed: set<string>
    var fileTypes: map<string, Entries>
    var files: seq<FileRecord>
    var embeddings: seq<FileEmbedding>

    /**
     * Every stored schema is as registration leaves it, read back in `jsonb`
     * key order; every file has a
     * registered type, every row belongs to a stored file, and each file's
     * chunk indices run 0..n-1.
     */
    ghost predicate Valid()
      reads this
    {
      && (forall t | t in fileTypes :: StoredSchema(fileTypes[t]) && InKeyOrder(fileTypes[t]))
      && (forall k | 0 <= k < |files| :: files[k].fileType in fileTypes)
      && (forall k | 0 <= k < |embeddings| :: embeddings[k].fileId < |files|)
      && (forall id: nat :: IsIndexRun(ChunkIndicesOf(embeddings, id)))
    }

    constructor(allowed: set<string>)
      ensures Valid()
      ensures this.allowed == allowed && fileTypes == map[] && files == [] && embeddings == []
    {
      this.allowed := allowed;
      fileTypes := map[];
      files := [];
      embeddings := [];
    }

    /**
     * `register_file_type`: answers as `Registration` says, and only a
     * successful registration changes the store, adding the one new type with
     * its schema as the `jsonb` column gives it back.
     */
    method RegisterFileType(rt: Runtime, fileType: string, metadataSchema: string) returns (r: RegisterOutcome)
      requires Valid() && Sane(rt)
      modifies this
      ensures Valid()
      ensures r == Registration(rt, allowed, old(fileTypes), fileType, metadataSchema)
      ensures fileTypes == if r.Registered? then old(fileTypes)[fileType := StoredEntries(r.schema)] else old(fileTypes)
      ensures files == old(files) && embeddings == old(embeddings)
    {
      if !TextStorable(fileType) {
        return RegisterCrash;
      }
      if fileType in fileTypes {
        return AlreadyRegistered(fileTypes[fileType]);
      }
      r := CheckNewSchema(rt, fileType, metadataSchema);
      if r.Registered? {
        RegisteredSchema(rt, allowed, fileTypes, fileType, metadataSchema);
        StoredSchemaReadBack(r.schema);
        fileTypes := fileTypes[fileType := StoredEntries(r.schema)];
      }
    }

    /**
     * The steps of `register_file_type` for a name not yet registered: parse
     * the schema text, normalise every spec, check the last field's type and
     * check that the commit can write the schema.
     */
    method CheckNewSchema(rt: Runtime, fileType: string, metadataSchema: string) returns (r: RegisterOutcome)
      requires Sane(rt) && TextStorable(fileType) && fileType !in fileTypes
      ensures r == Registration(rt, allowed, fileTypes, fileType, metadataSchema)
    {
      var loaded := rt.jsonLoads(metadataSchema);
      if loaded.None? {
        return if rt.jsonLoadsError(metadataSchema) == DecodeError then InvalidJsonSchema else RegisterCrash;
      }
      var schemaDict := loaded.value;
      if !Truthy(schemaDict) {
        return SchemaEmpty;
      }
      if !schemaDict.VDict? {
        return RegisterCrash;
      }
      var normalised, field, dtype := NormaliseFields(schemaDict.entries);
      if normalised.Err? {
        return normalised.error;
      }
      if dtype !in allowed {
        return UnsupportedType(dtype, field);
      }
      if !Storable(VDict(normalised.value)) {
        return RegisterCrash;
      }
      r := Registered(normalised.value);
    }

    /**
     * `upload_file`: answers, stores and indexes as `UploadPlan` says, the new
     * file taking the next position; the registered types are untouched.
     */
    method UploadFile(rt: Runtime, fileType: string, metadataValue: string, fileName: string,
                      raw: seq<byte>, encrypted: seq<byte>, folderPath: string) returns (r: UploadOutcome)
      requires Valid()
      modifies this
      ensures Valid()
      ensures var plan := UploadPlan(rt, old(fileTypes), |old(files)|, fileType, metadataValue, fileName, raw, encrypted, folderPath);
        && r == plan.outcome
        && files == old(files) + (if plan.stored.Some? then [plan.stored.value] else [])
        && embeddings == old(embeddings) + plan.rows
      ensures fileTypes == old(fileTypes)
    {
      if !TextStorable(fileType) {
        return UploadCrash;
      }
      if fileType !in fileTypes {
        return NotRegistered;
      }
      var loaded := rt.jsonLoads(metadataValue);
      if loaded.None? {
        return if rt.jsonLoadsError(metadataValue) == DecodeError then InvalidJson else UploadCrash;
      }
      var checked := ValidateFields(rt, fileTypes[fileType], loaded.value);
      if checked.None? {
        return UploadCrash;
      }
      var validated := checked.value.validated;
      if checked.value.errors != [] {
        return Unprocessable(checked.value.errors);
      }
      r := StoreAndIndexFile(rt, fileType, fileName, raw, encrypted, folderPath, validated);
    }

    /**
     * Lines 167-194: stores the file under the next position when the commit
     * can write its metadata, then indexes its text; answers and writes as
     * `StoreAndIndex` says.
     */
    method StoreAndIndexFile(rt: Runtime, fileType: string, fileName: string, raw: seq<byte>,
                             encrypted: seq<byte>, folderPath: string, validated: Entries) returns (r: UploadOutcome)
      requires Valid() && fileType in fileTypes
      modifies this
      ensures Valid()
      ensures var effect := StoreAndIndex(rt, |old(files)|, fileType, fileName, raw, encrypted, folderPath, validated);
        && r == effect.outcome
        && files == old(files) + (if effect.stored.Some? then [effect.stored.value] else [])
        && embeddings == old(embeddings) + effect.rows
      ensures fileTypes == old(fileTypes)
    {
      var fileId := |files|;
      if !Storable(VDict(validated)) || !TextStorable(fileName) || !TextStorable(folderPath) {
        return UploadCrash;
      }
      var record := FileRecord(fileName, fileType, encrypted, StoredEntries(validated), FolderOf(folderPath));
      files := files + [record];
      r := Uploaded(fileId, fileType, validated, fileName, record.folderPath);
      var text := ExtractText(rt, fileName, raw);
      var rows := IndexText(rt, fileId, text, validated);
      if rows.None? {
        return UploadCrash;
      }
      AppendRowsKeepsRuns(embeddings, fileId, rows.value);
      embeddings := embeddings + rows.value;
    }
  }
}
