/**
 * `process_upload_results_to_map`: the uploaded files as a map from the
 * path each was sent under to the id of its stored object, written one
 * entry at a time so that a later entry for the same path wins.
 */
module UploadMap {
  import opened UploadInterface

  /** The map the entries of `data` build, in order. */
  function PathToId(data: seq<UploadResponse>): map<string, string>
  {
    if data == [] then map[]
    else PathToId(data[..|data| - 1])[data[|data| - 1].file_path := data[|data| - 1].id]
  }

  method ProcessUploadResultsToMap(data: seq<UploadResponse>) returns (m: map<string, string>)
    ensures m == PathToId(data)
  {
    m := map[];
    var i := 0;
    while i < |data|
      invariant 0 <= i <= |data|
      invariant m == PathToId(data[..i])
    {
      assert data[..i + 1][..i] == data[..i];
      m := m[data[i].file_path := data[i].id];
      i := i + 1;
    }
    assert data[..i] == data;
  }

  // ---------------------------------------------------------------- properties

  /** The keys are exactly the paths of the entries. */
  lemma {:induction false} KeysArePaths(data: seq<UploadResponse>)
    ensures forall p :: p in PathToId(data) <==> exists i :: 0 <= i < |data| && data[i].file_path == p
  {
    if data != [] {
      var init := data[..|data| - 1];
      KeysArePaths(init);
      forall p | p in PathToId(data)
        ensures exists i :: 0 <= i < |data| && data[i].file_path == p
      {
        if p != data[|data| - 1].file_path {
          assert p in PathToId(init);
          var i :| 0 <= i < |init| && init[i].file_path == p;
          assert data[i].file_path == p;
        }
      }
    }
  }

  /** Each path maps to the id of its last entry: later entries overwrite earlier ones. */
  lemma {:induction false} LastEntryWins(data: seq<UploadResponse>, i: nat)
    requires i < |data|
    requires forall j :: i < j < |data| ==> data[j].file_path != data[i].file_path
    ensures data[i].file_path in PathToId(data) && PathToId(data)[data[i].file_path] == data[i].id
  {
    if i < |data| - 1 {
      LastEntryWins(data[..|data| - 1], i);
    }
  }

  /** No entries, no keys. */
  lemma EmptyInputEmptyMap()
    ensures PathToId([]) == map[]
  {
  }

  /** With distinct paths, the map has one entry per upload result. */
  lemma {:induction false} DistinctPathsKeepEveryEntry(data: seq<UploadResponse>)
    requires forall i, j :: 0 <= i < j < |data| ==> data[i].file_path != data[j].file_path
    ensures |PathToId(data)| == |data|
  {
    if data != [] {
      var init := data[..|data| - 1];
      DistinctPathsKeepEveryEntry(init);
      KeysArePaths(init);
      assert data[|data| - 1].file_path !in PathToId(init);
    }
  }
}
