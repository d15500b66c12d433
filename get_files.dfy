/**
 * `get_files_from_request`, after the multipart form has been parsed: the
 * form's file fields must each hold one file, not a list, and the files
 * together must fit the size limit. The parser itself is not modelled; its
 * result is the input here.
 */
module GetFiles {
  import opened Wrappers
  import opened Text
  import opened Errors
  import opened Responses
  import opened UploadInterface

  /** A file field of the form: one file, or a list of files under the same field name. */
  datatype FormEntry = Single(file: FormFile) | Many(files: seq<FormFile>)

  /** The parsed form; `files` lists the file fields in the order the form's values are iterated. */
  datatype Multipart = Multipart(files: Option<seq<FormEntry>>)

  /** The total upload size limit, in bytes and as the megabyte figure shown to the user. */
  datatype SizeLimit = SizeLimit(bytes: nat, megabytes: nat)

  const ListLengthNote := " Got map containing list of length "

  /** The position of the first field holding a list, if any. */
  function FirstList(entries: seq<FormEntry>): (r: Option<nat>)
    ensures r.None? <==> forall j :: 0 <= j < |entries| ==> entries[j].Single?
    ensures r.Some? ==>
      r.value < |entries| && entries[r.value].Many?
      && forall j :: 0 <= j < r.value ==> entries[j].Single?
  {
    if entries == [] then None
    else if entries[0].Many? then Some(0)
    else
      match FirstList(entries[1..])
      case None => None
      case Some(k) => Some(k + 1)
  }

  /** The files of fields that each hold one file, in field order. */
  function Singles(entries: seq<FormEntry>): (files: seq<FormFile>)
    requires forall j :: 0 <= j < |entries| ==> entries[j].Single?
    ensures |files| == |entries| && forall j :: 0 <= j < |entries| ==> files[j] == entries[j].file
  {
    seq(|entries|, j requires 0 <= j < |entries| && entries[j].Single? => entries[j].file)
  }

  /** The sum of the files' sizes. */
  function TotalSize(files: seq<FormFile>): nat
  {
    if files == [] then 0 else TotalSize(files[..|files| - 1]) + files[|files| - 1].size
  }

  function ListRefusal(entries: seq<FormEntry>, messages: Messages): Response
    requires FirstList(entries).Some?
  {
    Respond(400, ErrorOnly(messages(ERR44) + ListLengthNote + IntToString(|entries[FirstList(entries).value].files|)))
  }

  function SizeRefusal(limit: SizeLimit, messages: Messages): Response
  {
    Respond(400, ErrorOnly(ReplaceFirst(messages(ERR45), '%', IntToString(limit.megabytes))))
  }

  /** The loop over the form's values: the single files in order, stopping at the first field holding a list. */
  method CollectSingles(entries: seq<FormEntry>) returns (files: seq<FormFile>, list: Option<nat>)
    ensures list == FirstList(entries)
    ensures list.None? ==> files == Singles(entries)
  {
    files := [];
    var i := 0;
    while i < |entries|
      invariant 0 <= i <= |entries|
      invariant forall j :: 0 <= j < i ==> entries[j].Single?
      invariant files == Singles(entries[..i])
    {
      if entries[i].Many? {
        return files, Some(i);
      }
      files := files + [entries[i].file];
      i := i + 1;
    }
    assert entries[..i] == entries;
    list := None;
  }

  /** The running total of the files' sizes. */
  method SumSizes(files: seq<FormFile>) returns (total: nat)
    ensures total == TotalSize(files)
  {
    total := 0;
    var j := 0;
    while j < |files|
      invariant 0 <= j <= |files|
      invariant total == TotalSize(files[..j])
    {
      assert files[..j + 1][..j] == files[..j];
      total := total + files[j].size;
      j := j + 1;
    }
    assert files[..j] == files;
  }

  method GetFilesFromRequest(payload: Option<Multipart>, limit: SizeLimit, messages: Messages)
    returns (r: Result<seq<FormFile>, Response>)
    ensures payload.None? || payload.value.files.None? ==> r == Failure(Respond(400, ErrorOnly(messages(ERR43))))
    ensures payload.Some? && payload.value.files.Some? && FirstList(payload.value.files.value).Some? ==>
      r == Failure(ListRefusal(payload.value.files.value, messages))
    ensures payload.Some? && payload.value.files.Some? && FirstList(payload.value.files.value).None? ==>
      var files := Singles(payload.value.files.value);
      && (TotalSize(files) > limit.bytes ==> r == Failure(SizeRefusal(limit, messages)))
      && (TotalSize(files) <= limit.bytes ==> r == Success(files))
  {
    if payload.None? || payload.value.files.None? {
      return Failure(Respond(400, ErrorOnly(messages(ERR43))));
    }
    var entries := payload.value.files.value;

    var files, list := CollectSingles(entries);
    if list.Some? {
      var length := |entries[list.value].files|;
      return Failure(Respond(400, ErrorOnly(messages(ERR44) + ListLengthNote + IntToString(length))));
    }

    var total := SumSizes(files);
    if total > limit.bytes {
      return Failure(Respond(400, ErrorOnly(ReplaceFirst(messages(ERR45), '%', IntToString(limit.megabytes)))));
    }
    r := Success(files);
  }

  // ---------------------------------------------------------------- properties

  /** The total size of two groups of files is the sum of their totals. */
  lemma {:induction false} TotalSizeAppend(a: seq<FormFile>, b: seq<FormFile>)
    ensures TotalSize(a + b) == TotalSize(a) + TotalSize(b)
  {
    if b == [] {
      assert a + b == a;
    } else {
      assert (a + b)[..|a + b| - 1] == a + b[..|b| - 1];
      TotalSizeAppend(a, b[..|b| - 1]);
    }
  }

  /** The total is at least the size of any one file, so one file over the limit is refused. */
  lemma {:induction false} TotalSizeBoundsEachFile(files: seq<FormFile>, k: nat)
    requires k < |files|
    ensures files[k].size <= TotalSize(files)
  {
    if k < |files| - 1 {
      TotalSizeBoundsEachFile(files[..|files| - 1], k);
    }
  }

  /** The refusal of a list names the length of the first list, whatever the sizes of the files. */
  lemma ListRefusalIgnoresSizes(before: seq<FormFile>, list: seq<FormFile>, after: seq<FormEntry>, messages: Messages)
    ensures var entries := seq(|before|, j requires 0 <= j < |before| => Single(before[j])) + [Many(list)] + after;
      FirstList(entries) == Some(|before|)
      && ListRefusal(entries, messages)
         == Response(400, Error(400, messages(ERR44) + ListLengthNote + IntToString(|list|)), CorsHeaders)
  {
    var entries := seq(|before|, j requires 0 <= j < |before| => Single(before[j])) + [Many(list)] + after;
    assert entries[|before|] == Many(list);
  }
}
