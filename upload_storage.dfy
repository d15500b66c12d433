/**
 * `upload_files_to_storage` and `upload_file`: each file is stored under the
 * hex digest of `file.content.buffer`, the whole buffer behind its content,
 * in order, stopping at the first file that fails. A "409 / The resource
 * already exists" answer means an object of that name was stored before:
 * its id is then looked up instead of setting the owner.
 *
 * The storage calls are collaborators in `Storage`. Each takes the position
 * of the file in the batch, so their answers may differ from file to file.
 */
module UploadStorage {
  import opened Wrappers
  import opened JsValue
  import opened Hex
  import opened ContentType
  import opened UploadInterface

  datatype UploadOptions = UploadOptions(contentType: Option<string>, upsert: bool)

  /** A storage error; its `statusCode` is whatever value the storage client put there. */
  datatype StorageError = StorageError(statusCode: Value, message: string)

  datatype UploadAnswer = UploadAnswer(data: Option<StoredObject>, error: Option<StorageError>)

  /** The answer of the metadata lookup: an error, or the file ids found. */
  datatype MetadataAnswer = MetadataAnswer(error: Option<string>, fileIds: Option<seq<string>>)

  datatype Storage = Storage(
    bucket: string,
    digest: Digest,
    mediaTypes: MediaTypes,
    upload: (nat, string, seq<Byte>, UploadOptions) -> UploadAnswer,   // (file position, name, buffer, options)
    setOwner: (nat, string, string) -> Option<string>,                  // (file position, server secret, file id) -> error
    lookup: (nat, string) -> MetadataAnswer)                             // (file position, name)

  const DuplicateMessage := "The resource already exists"

  /** The storage reports that an object of that name exists already (HTTP 409 Conflict). */
  predicate IsDuplicate(e: StorageError)
  {
    e.statusCode == Str("409") && e.message == DuplicateMessage
  }

  /** The options of every upload: the media type of the path's extension, and never overwrite. */
  function UploadOptionsFor(path: string, storage: Storage): UploadOptions
  {
    UploadOptions(ContentTypeOf(path, storage.mediaTypes), false)
  }

  /** The storage's answer to the upload of the file at position `k`. */
  function UploadAnswerFor(k: nat, path: string, buffer: seq<Byte>, storage: Storage): UploadAnswer
  {
    storage.upload(k, HashSha256Hex(buffer, storage.digest), buffer, UploadOptionsFor(path, storage))
  }

  /** `upload_file`: the stored object of the file at position `k`, or `None` when it failed. */
  function UploadFile(k: nat, path: string, buffer: seq<Byte>, storage: Storage, serverSecret: string): Option<StoredObject>
  {
    var name := HashSha256Hex(buffer, storage.digest);
    var answer := UploadAnswerFor(k, path, buffer, storage);
    if answer.error.Some? && !IsDuplicate(answer.error.value) then None
    else
      match answer.data
      case Some(stored) =>
        if storage.setOwner(k, serverSecret, stored.id).Some? then None else Some(stored)
      case None =>
        var found := storage.lookup(k, name);
        if found.error.Some? || found.fileIds.None? || |found.fileIds.value| == 0 then None
        else Some(StoredObject(found.fileIds.value[0], name, storage.bucket + "/" + name))
  }

  /** The upload of one file, given its position in the batch: the stored object, or `None` when it failed. */
  type Uploader = (nat, FormFile) -> Option<StoredObject>

  /** `upload_file` applied to the file at a position, against the given storage. */
  function UploaderOf(storage: Storage, serverSecret: string): Uploader
  {
    (k: nat, file: FormFile) => UploadFile(k, file.name, file.content.buffer, storage, serverSecret)
  }

  /**
   * The results of uploading `files` in order and whether one failed: the
   * results of the files before the first failure, each tagged with its path.
   */
  function UploadAll(files: seq<FormFile>, upload: Uploader): (r: (seq<UploadResponse>, bool))
    ensures |r.0| <= |files|
    ensures forall i :: 0 <= i < |r.0| ==>
      upload(i, files[i]).Some? && r.0[i] == Tagged(files[i].name, upload(i, files[i]).value)
    ensures r.1 <==> |r.0| < |files|
    ensures r.1 ==> upload(|r.0|, files[|r.0|]).None?
  {
    if files == [] then ([], false)
    else
      var before := UploadAll(files[..|files| - 1], upload);
      if before.1 then before
      else
        match upload(|files| - 1, files[|files| - 1])
        case None => (before.0, true)
        case Some(stored) => (before.0 + [Tagged(files[|files| - 1].name, stored)], false)
  }

  method UploadFilesToStorage(storage: Storage, files: seq<FormFile>, serverSecret: string)
    returns (data: seq<UploadResponse>, error: bool)
    ensures (data, error) == UploadAll(files, UploaderOf(storage, serverSecret))
  {
    var upload := UploaderOf(storage, serverSecret);
    data := [];
    var i := 0;
    while i < |files|
      invariant 0 <= i <= |files|
      invariant UploadAll(files[..i], upload) == (data, false)
    {
      var filePath := files[i].name;
      var result := upload(i, files[i]);
      assert files[..i + 1][..i] == files[..i];
      if result.None? {
        LaterFilesIgnored(files[..i + 1], files[i + 1..], upload);
        assert files[..i + 1] + files[i + 1..] == files;
        return data, true;
      }
      data := data + [Tagged(filePath, result.value)];
      i := i + 1;
    }
    assert files[..i] == files;
    error := false;
  }

  // ---------------------------------------------------------------- properties

  /** Once a file has failed, the files after it are never attempted: they do not change the outcome. */
  lemma {:induction false} LaterFilesIgnored(files: seq<FormFile>, later: seq<FormFile>, upload: Uploader)
    requires UploadAll(files, upload).1
    ensures UploadAll(files + later, upload) == UploadAll(files, upload)
  {
    if later != [] {
      var longer := files + later;
      assert longer[..|longer| - 1] == files + later[..|later| - 1];
      LaterFilesIgnored(files, later[..|later| - 1], upload);
    } else {
      assert files + later == files;
    }
  }

  /** When every file succeeds there is no error and one result per file, under the file's own path. */
  lemma AllFilesUploaded(files: seq<FormFile>, upload: Uploader)
    requires forall k :: 0 <= k < |files| ==> upload(k, files[k]).Some?
    ensures !UploadAll(files, upload).1
    ensures |UploadAll(files, upload).0| == |files|
    ensures forall i :: 0 <= i < |files| ==> UploadAll(files, upload).0[i].file_path == files[i].name
  {
  }

  /** The first failing file ends the batch with an error and the results of the files before it. */
  lemma FirstFailureStops(files: seq<FormFile>, k: nat, upload: Uploader)
    requires k < |files|
    requires forall i :: 0 <= i < k ==> upload(i, files[i]).Some?
    requires upload(k, files[k]).None?
    ensures UploadAll(files, upload).1
    ensures |UploadAll(files, upload).0| == k
  {
  }

  /**
   * A file is named and stored by the whole buffer behind its content, not by
   * the bytes its view shows: two files showing the same bytes through views
   * on buffers of different digests get different storage names.
   */
  lemma NamedByBuffer(f: FormFile, g: FormFile, storage: Storage)
    requires Viewed(f.content) == Viewed(g.content)
    requires storage.digest(f.content.buffer) != storage.digest(g.content.buffer)
    ensures HashSha256Hex(f.content.buffer, storage.digest) != HashSha256Hex(g.content.buffer, storage.digest)
  {
    if HashSha256Hex(f.content.buffer, storage.digest) == HashSha256Hex(g.content.buffer, storage.digest) {
      HexInjective(storage.digest(f.content.buffer), storage.digest(g.content.buffer));
    }
  }

  /** A file is stored under its buffer's hex digest, with no extension, and never overwrites an object. */
  lemma StoredUnderDigest(path: string, buffer: seq<Byte>, storage: Storage)
    ensures '.' !in HashSha256Hex(buffer, storage.digest)
    ensures UploadOptionsFor(path, storage).upsert == false
    ensures UploadOptionsFor(path, storage).contentType == storage.mediaTypes(Extension(path))
  {
    HexIsLowercase(storage.digest(buffer));
  }

  /** A storage error other than the duplicate answer fails the file. */
  lemma OtherErrorsFail(k: nat, path: string, buffer: seq<Byte>, storage: Storage, serverSecret: string)
    requires var answer := UploadAnswerFor(k, path, buffer, storage);
      answer.error.Some? && !IsDuplicate(answer.error.value)
    ensures UploadFile(k, path, buffer, storage, serverSecret).None?
  {
  }

  /** After a fresh upload the owner is set; the file fails exactly when that call reports an error. */
  lemma FreshUploadSetsOwner(k: nat, path: string, buffer: seq<Byte>, storage: Storage, serverSecret: string, stored: StoredObject)
    requires UploadAnswerFor(k, path, buffer, storage) == UploadAnswer(Some(stored), None)
    ensures storage.setOwner(k, serverSecret, stored.id).Some? ==> UploadFile(k, path, buffer, storage, serverSecret).None?
    ensures storage.setOwner(k, serverSecret, stored.id).None? ==> UploadFile(k, path, buffer, storage, serverSecret) == Some(stored)
  {
    assert UploadFile(k, path, buffer, storage, serverSecret)
        == if storage.setOwner(k, serverSecret, stored.id).Some? then None else Some(stored);
  }

  /**
   * A duplicate is no failure: its id is the first one the metadata lookup
   * finds, its name the digest and its full path the bucket, '/' and the
   * digest. A lookup error or an empty answer fails the file.
   */
  lemma DuplicateIsLookedUp(k: nat, path: string, buffer: seq<Byte>, storage: Storage, serverSecret: string)
    requires var answer := UploadAnswerFor(k, path, buffer, storage);
      answer.error.Some? && IsDuplicate(answer.error.value) && answer.data.None?
    ensures var name := HashSha256Hex(buffer, storage.digest);
      var found := storage.lookup(k, name);
      && (found.error.Some? || found.fileIds.None? || found.fileIds == Some([]) ==> UploadFile(k, path, buffer, storage, serverSecret).None?)
      && (found.error.None? && found.fileIds.Some? && |found.fileIds.value| > 0 ==>
            UploadFile(k, path, buffer, storage, serverSecret)
              == Some(StoredObject(found.fileIds.value[0], name, storage.bucket + "/" + name)))
  {
  }
}
