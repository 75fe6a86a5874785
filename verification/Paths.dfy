/**
 * The resource-path normaliser: `path.Split('/', '\\')` followed by taking
 * the last element. The result is the file-name part of the path.
 */
module Paths {

  predicate IsSeparator(c: char) {
    c == '/' || c == '\\'
  }

  predicate NoSeparator(s: string) {
    forall i :: 0 <= i < |s| ==> !IsSeparator(s[i])
  }

  /** C#'s `String.Split('/', '\\')`: the pieces between separators, empty
      pieces included, so there is always one more piece than separators. */
  function Split(s: string): (parts: seq<string>)
    ensures |parts| >= 1
    decreases |s|
  {
    if s == [] then [[]]
    else
      var init := Split(s[..|s| - 1]);
      var c := s[|s| - 1];
      if IsSeparator(c) then init + [[]]
      else init[..|init| - 1] + [init[|init| - 1] + [c]]
  }

  /** The separators of `s`, in order. */
  function Separators(s: string): (seps: string)
    decreases |s|
  {
    if s == [] then []
    else Separators(s[..|s| - 1]) + (if IsSeparator(s[|s| - 1]) then [s[|s| - 1]] else [])
  }

  /** Interleaves pieces with separators: the inverse of Split. */
  function Join(parts: seq<string>, seps: string): (s: string)
    requires |parts| == |seps| + 1
    decreases |seps|
  {
    if seps == [] then parts[0]
    else Join(parts[..|parts| - 1], seps[..|seps| - 1]) + [seps[|seps| - 1]] + parts[|parts| - 1]
  }

  /** Lines 136-137: keep only the last piece of the split path. */
  function FileName(path: string): (name: string)
  {
    var parts := Split(path);
    parts[|parts| - 1]
  }

  /** Split yields one piece more than there are separators, and no piece holds a separator. */
  lemma {:induction false} SplitPieces(s: string)
    ensures |Split(s)| == |Separators(s)| + 1
    ensures forall i :: 0 <= i < |Split(s)| ==> NoSeparator(Split(s)[i])
    decreases |s|
  {
    if s != [] {
      SplitPieces(s[..|s| - 1]);
    }
  }

  /** Appending a non-separator character extends the last piece of a join. */
  lemma {:induction false} JoinExtendLast(parts: seq<string>, seps: string, c: char)
    requires |parts| == |seps| + 1
    ensures Join(parts[..|parts| - 1] + [parts[|parts| - 1] + [c]], seps) == Join(parts, seps) + [c]
  {
    var parts' := parts[..|parts| - 1] + [parts[|parts| - 1] + [c]];
    if seps != [] {
      assert parts'[..|parts'| - 1] == parts[..|parts| - 1];
    }
  }

  /** Split loses nothing: joining the pieces back with the separators gives the path. */
  lemma {:induction false} SplitJoin(s: string)
    ensures |Split(s)| == |Separators(s)| + 1
    ensures Join(Split(s), Separators(s)) == s
    decreases |s|
  {
    SplitPieces(s);
    if s != [] {
      var s' := s[..|s| - 1];
      var c := s[|s| - 1];
      assert s == s' + [c];
      SplitJoin(s');
      var init, seps := Split(s'), Separators(s');
      if IsSeparator(c) {
        var parts := init + [[]];
        assert Split(s) == parts;
        assert Separators(s) == seps + [c];
        assert parts[..|parts| - 1] == init;
        assert (seps + [c])[..|seps|] == seps;
        calc {
          Join(parts, seps + [c]);
          Join(init, seps) + [c] + [];
          s' + [c];
        }
      } else {
        assert Separators(s) == seps;
        JoinExtendLast(init, seps, c);
      }
    }
  }

  /** The file name is the longest separator-free suffix of the path: it is
      a suffix, holds no separator, and is either the whole path or is
      preceded by a separator. */
  lemma {:induction false} FileNameIsLastSegment(path: string)
    ensures |FileName(path)| <= |path|
    ensures FileName(path) == path[|path| - |FileName(path)|..]
    ensures NoSeparator(FileName(path))
    ensures |FileName(path)| < |path| ==> IsSeparator(path[|path| - |FileName(path)| - 1])
    decreases |path|
  {
    if path != [] {
      var p' := path[..|path| - 1];
      FileNameIsLastSegment(p');
      var c := path[|path| - 1];
      if !IsSeparator(c) {
        var init := Split(p');
        assert Split(path) == init[..|init| - 1] + [init[|init| - 1] + [c]];
        assert FileName(path) == FileName(p') + [c];
      }
    }
  }

  /** A path with no separator is already a file name. */
  lemma {:induction false} FileNameOfPlainName(s: string)
    requires NoSeparator(s)
    ensures FileName(s) == s
    decreases |s|
  {
    if s != [] {
      var s' := s[..|s| - 1];
      FileNameOfPlainName(s');
      var init := Split(s');
      assert Split(s) == init[..|init| - 1] + [init[|init| - 1] + [s[|s| - 1]]];
    }
  }

  /** The file name is what follows the last separator. */
  lemma {:induction false} FileNameAfterLastSeparator(s: string, k: nat)
    requires k < |s| && IsSeparator(s[k]) && NoSeparator(s[k + 1..])
    ensures FileName(s) == s[k + 1..]
    decreases |s|
  {
    var s' := s[..|s| - 1];
    if k < |s| - 1 {
      assert s'[k + 1..] == s[k + 1..|s| - 1];
      FileNameAfterLastSeparator(s', k);
      var init := Split(s');
      assert !IsSeparator(s[k + 1..][|s| - k - 2]);
      assert Split(s) == init[..|init| - 1] + [init[|init| - 1] + [s[|s| - 1]]];
    }
  }

  /** Normalising twice is normalising once. */
  lemma FileNameIdempotent(path: string)
    ensures FileName(FileName(path)) == FileName(path)
  {
    FileNameIsLastSegment(path);
    FileNameOfPlainName(FileName(path));
  }

  /** Mixed separators: only the part after the last one survives. */
  lemma FileNameMixedSeparators()
    ensures FileName("a/b\\c/d.jpg") == "d.jpg"
  {
    var s := "a/b\\c/d.jpg";
    assert s[5] == '/' && s[6..] == "d.jpg";
    FileNameAfterLastSeparator(s, 5);
  }

  /** A path ending in a separator, `/` or `\`, leaves an empty file name. */
  lemma FileNameTrailingSeparator(s: string)
    requires s != [] && IsSeparator(s[|s| - 1])
    ensures FileName(s) == ""
  {
    FileNameAfterLastSeparator(s, |s| - 1);
  }
}
