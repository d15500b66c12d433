/**
 * The shapes the upload edge function passes around: a file of the
 * multipart form, the storage's answer to an upload, and that answer tagged
 * with the path the file was sent under.
 */
module UploadInterface {
  import opened Hex

  /**
   * A `Uint8Array`: a window of `byteLength` bytes starting at `byteOffset`
   * in the `ArrayBuffer` it views. Its `buffer` is the whole of that buffer,
   * which may hold more than the window.
   */
  datatype ByteView = ByteView(buffer: seq<Byte>, byteOffset: nat, byteLength: nat)

  /** The bytes the view shows; a window reaching past the buffer is cut at the buffer's end. */
  function Viewed(v: ByteView): (bytes: seq<Byte>)
    ensures |bytes| <= v.byteLength && |bytes| <= |v.buffer|
    ensures v.byteOffset + v.byteLength <= |v.buffer| ==> bytes == v.buffer[v.byteOffset..v.byteOffset + v.byteLength]
  {
    var lo := if v.byteOffset <= |v.buffer| then v.byteOffset else |v.buffer|;
    var hi := if v.byteOffset + v.byteLength <= |v.buffer| then v.byteOffset + v.byteLength else |v.buffer|;
    v.buffer[lo..hi]
  }

  /** A view shows its whole buffer exactly when its window starts at 0 and spans the buffer. */
  lemma ViewSpansBuffer(v: ByteView)
    requires v.byteOffset + v.byteLength <= |v.buffer|
    ensures Viewed(v) == v.buffer <==> v.byteOffset == 0 && v.byteLength == |v.buffer|
  {
  }

  /** A file of the multipart form: its name (the path it was sent under), size in bytes, content and declared type. */
  datatype FormFile = FormFile(name: string, size: nat, content: ByteView, contentType: string)

  /** The storage's record of a stored object: its id, its name in the bucket, and bucket plus name. */
  datatype StoredObject = StoredObject(id: string, path: string, fullPath: string)

  /** An upload result: the stored object and the path the file was sent under. */
  datatype UploadResponse = UploadResponse(file_path: string, id: string, path: string, fullPath: string)

  /** `{ file_path, ...result }`. */
  function Tagged(file_path: string, stored: StoredObject): UploadResponse
  {
    UploadResponse(file_path, stored.id, stored.path, stored.fullPath)
  }
}
