/**
 * `deno_get_content_type`: the media-type table is keyed by file extension,
 * so the path is cut down to `path.split(".").slice(-1)[0]`, the text after
 * the last '.'. The media-type table itself is a parameter.
 */
module ContentType {
  import opened Wrappers
  import opened Text

  /** The media-type lookup by extension. */
  type MediaTypes = string -> Option<string>

  /** `path.split(".").slice(-1)[0]`: the last piece of the split on '.'. */
  function Extension(path: string): string
  {
    var parts := Split(path, '.');
    parts[|parts| - 1]
  }

  function ContentTypeOf(path: string, mediaTypes: MediaTypes): Option<string>
  {
    mediaTypes(Extension(path))
  }

  // ---------------------------------------------------------------- properties of the split

  /** A string without the separator splits into itself. */
  lemma {:induction false} SplitWithoutSeparator(s: string, sep: char)
    requires sep !in s
    ensures Split(s, sep) == [s]
  {
    if s != [] {
      SplitWithoutSeparator(s[1..], sep);
      assert [s[0]] + s[1..] == s;
      assert Split(s, sep) == [[s[0]] + s[1..]] + [];
    }
  }

  /** The last piece of a split is what follows a separator that has no separator after it. */
  lemma {:induction false} LastPieceAfter(s: string, sep: char, i: nat)
    requires i < |s| && s[i] == sep && sep !in s[i + 1..]
    ensures Split(s, sep)[|Split(s, sep)| - 1] == s[i + 1..]
  {
    var rest := Split(s[1..], sep);
    if i == 0 {
      SplitWithoutSeparator(s[1..], sep);
      assert Split(s, sep) == [""] + rest;
    } else {
      assert s[1..][i - 1] == sep && s[1..][i..] == s[i + 1..];
      LastPieceAfter(s[1..], sep, i - 1);
      JoinSplit(s[1..], sep);
      SplitPartsLackSeparator(s[1..], sep);
      assert sep in s[1..];
      assert |rest| != 1;
    }
  }

  /** Either a string lacks the separator, or it has a last one, after which the separator does not occur. */
  lemma {:induction false} LastSeparator(s: string, sep: char) returns (i: int)
    ensures i == -1 ==> sep !in s
    ensures i != -1 ==> 0 <= i < |s| && s[i] == sep && sep !in s[i + 1..]
  {
    if s == [] {
      i := -1;
    } else if s[|s| - 1] == sep {
      i := |s| - 1;
      assert s[i + 1..] == [];
    } else {
      i := LastSeparator(s[..|s| - 1], sep);
      if i == -1 {
        assert s == s[..|s| - 1] + [s[|s| - 1]];
      } else {
        assert s[i + 1..] == s[..|s| - 1][i + 1..] + [s[|s| - 1]];
      }
    }
  }

  // ---------------------------------------------------------------- properties of the extension

  /** The key is the text after the last '.'. */
  lemma ExtensionAfterLastDot(before: string, after: string)
    requires '.' !in after
    ensures Extension(before + "." + after) == after
  {
    var path := before + "." + after;
    assert path[|before|] == '.' && path[|before| + 1..] == after;
    LastPieceAfter(path, '.', |before|);
  }

  /** A path without '.' is its own key. */
  lemma ExtensionWithoutDot(path: string)
    requires '.' !in path
    ensures Extension(path) == path
  {
    SplitWithoutSeparator(path, '.');
  }

  /** The key never contains '.', and it is always a suffix of the path. */
  lemma ExtensionIsDotFreeSuffix(path: string)
    ensures '.' !in Extension(path)
    ensures |Extension(path)| <= |path| && path[|path| - |Extension(path)|..] == Extension(path)
  {
    var i := LastSeparator(path, '.');
    if i == -1 {
      ExtensionWithoutDot(path);
    } else {
      LastPieceAfter(path, '.', i);
    }
  }

  /** "index.html" gives "html", "assets/image.png" gives "png", "notes." gives "", and "dir.v1/readme" gives "v1/readme". */
  lemma ExtensionExamples()
    ensures Extension("index.html") == "html"
    ensures Extension("assets/image.png") == "png"
    ensures Extension("notes.") == ""
    ensures Extension("dir.v1/readme") == "v1/readme"
  {
    assert "index.html" == "index" + "." + "html";
    ExtensionAfterLastDot("index", "html");
    assert "assets/image.png" == "assets/image" + "." + "png";
    ExtensionAfterLastDot("assets/image", "png");
    assert "notes." == "notes" + "." + "";
    ExtensionAfterLastDot("notes", "");
    assert "dir.v1/readme" == "dir" + "." + "v1/readme";
    ExtensionAfterLastDot("dir", "v1/readme");
  }
}
