/**
 * Identifiers of data components: an immutable (id, version) pair whose
 * canonical key is "{id}v{version}" (a negative id is a client-assigned
 * temporary id), and the insertion-ordered, duplicate-free id list in which
 * `add` keeps the first-seen position.
 */
module Ids {
  import opened Wrappers
  import opened Text

  datatype IdAndVersion = IdAndVersion(id: int, version: int)

  /** The canonical key "{id}v{version}", as stored in `recursive_dependency_ids` columns. */
  function ToStr(x: IdAndVersion): string
  {
    IntToString(x.id) + "v" + IntToString(x.version)
  }

  /** Position of the first occurrence of `c` in `s`. */
  function IndexOf(s: string, c: char): (r: Option<nat>)
    ensures r.None? <==> c !in s
    ensures r.Some? ==> r.value < |s| && s[r.value] == c && c !in s[..r.value]
  {
    if s == [] then None
    else if s[0] == c then Some(0)
    else match IndexOf(s[1..], c)
      case None => None
      case Some(k) =>
        assert s[..k + 1] == [s[0]] + s[1..][..k];
        Some(k + 1)
  }

  /** Reads a canonical key back: the text before the first 'v' is the id, the rest the version. */
  function FromStr(s: string): Option<IdAndVersion>
  {
    match IndexOf(s, 'v')
    case None => None
    case Some(k) =>
      match (ParseInt(s[..k]), ParseInt(s[k + 1..]))
      case (Some(id), Some(version)) => Some(IdAndVersion(id, version))
      case _ => None
  }

  lemma IndexOfFirst(a: string, c: char, b: string)
    requires c !in a
    ensures IndexOf(a + [c] + b, c) == Some(|a|)
  {
    var s := a + [c] + b;
    var r := IndexOf(s, c);
    assert s[|a|] == c;
    assert forall i :: 0 <= i < |a| ==> s[i] == a[i];
  }

  /** Every id survives being written as its canonical key and read back. */
  lemma FromStrToStr(x: IdAndVersion)
    ensures FromStr(ToStr(x)) == Some(x)
  {
    var a, b := IntToString(x.id), IntToString(x.version);
    var s := ToStr(x);
    assert forall i :: 0 <= i < |a| ==> a[i] != 'v';
    IndexOfFirst(a, 'v', b);
    assert s[..|a|] == a;
    assert s[|a| + 1..] == b;
    IntToStringRoundTrip(x.id);
    IntToStringRoundTrip(x.version);
  }

  /** The canonical keys of a list of ids, in order: the stored form of a dependency list. */
  function Keys(ids: seq<IdAndVersion>): (keys: seq<string>)
    ensures |keys| == |ids| && forall i :: 0 <= i < |ids| ==> keys[i] == ToStr(ids[i])
  {
    seq(|ids|, i requires 0 <= i < |ids| => ToStr(ids[i]))
  }

  predicate NoDuplicates(s: seq<IdAndVersion>)
  {
    forall i, j :: 0 <= i < j < |s| ==> s[i] != s[j]
  }

  /** `add` on the ordered-unique list: idempotent, and a repeat keeps its first position. */
  function Add(list: seq<IdAndVersion>, x: IdAndVersion): seq<IdAndVersion>
  {
    if x in list then list else list + [x]
  }

  /** The ordered-unique list built by adding every element of `s` in turn. */
  function FirstSeen(s: seq<IdAndVersion>): seq<IdAndVersion>
  {
    if s == [] then [] else Add(FirstSeen(s[..|s| - 1]), s[|s| - 1])
  }

  /** The ordered-unique list holds every id of the input, each exactly once. */
  lemma {:induction false} FirstSeenIsUniqueAndComplete(s: seq<IdAndVersion>)
    ensures NoDuplicates(FirstSeen(s))
    ensures forall x :: x in FirstSeen(s) <==> x in s
  {
    if s != [] {
      var init := s[..|s| - 1];
      FirstSeenIsUniqueAndComplete(init);
      assert s == init + [s[|s| - 1]];
    }
  }

  /** A list that has no repeats is kept as it is. */
  lemma {:induction false} FirstSeenOfDistinct(s: seq<IdAndVersion>)
    requires NoDuplicates(s)
    ensures FirstSeen(s) == s
  {
    if s != [] {
      var init := s[..|s| - 1];
      FirstSeenOfDistinct(init);
      assert s == init + [s[|s| - 1]];
      assert forall i :: 0 <= i < |init| ==> init[i] != s[|s| - 1];
    }
  }

  /** Adding more ids never moves the ones already present: the old list is a prefix. */
  lemma {:induction false} FirstSeenKeepsPositions(s: seq<IdAndVersion>, t: seq<IdAndVersion>)
    ensures FirstSeen(s) <= FirstSeen(s + t)
  {
    if t != [] {
      var t0 := t[..|t| - 1];
      FirstSeenKeepsPositions(s, t0);
      assert (s + t)[..|s + t| - 1] == s + t0;
    } else {
      assert s + t == s;
    }
  }
}
