/** Python's substring test and stripping. */
module Strings {

  predicate PartAt(s: string, i: nat, part: string) {
    i + |part| <= |s| && s[i..i + |part|] == part
  }

  /** `part in s`. */
  predicate Contains(s: string, part: string) {
    exists i :: 0 <= i <= |s| && PartAt(s, i, part)
  }

  function StripLeft<T>(s: seq<T>, isSpace: T -> bool): (t: seq<T>)
    ensures |t| <= |s|
    ensures t == s <==> s == [] || !isSpace(s[0])
  {
    if s != [] && isSpace(s[0]) then StripLeft(s[1..], isSpace) else s
  }

  function StripRight<T>(s: seq<T>, isSpace: T -> bool): (t: seq<T>)
    ensures |t| <= |s|
    ensures t == s <==> s == [] || !isSpace(s[|s| - 1])
  {
    if s != [] && isSpace(s[|s| - 1]) then StripRight(s[..|s| - 1], isSpace) else s
  }

  /** `s.strip()`. */
  function Strip<T>(s: seq<T>, isSpace: T -> bool): (t: seq<T>) {
    StripRight(StripLeft(s, isSpace), isSpace)
  }

  lemma {:induction false} LeftKeepsParts(s: string, isSpace: char -> bool, part: string)
    ensures Contains(StripLeft(s, isSpace), part) ==> Contains(s, part)
    ensures Contains(s, part) && part != [] && !isSpace(part[0]) ==> Contains(StripLeft(s, isSpace), part)
  {
    if s != [] && isSpace(s[0]) {
      LeftKeepsParts(s[1..], isSpace, part);
      if Contains(s[1..], part) {
        var i :| 0 <= i <= |s[1..]| && PartAt(s[1..], i, part);
        assert s[1..][i..i + |part|] == s[i + 1..i + 1 + |part|];
        assert PartAt(s, i + 1, part);
      }
      if Contains(s, part) && part != [] && !isSpace(part[0]) {
        var i :| 0 <= i <= |s| && PartAt(s, i, part);
        assert s[i..i + |part|][0] == s[i];
        assert s[1..][i - 1..i - 1 + |part|] == s[i..i + |part|];
        assert PartAt(s[1..], i - 1, part);
      }
    }
  }

  lemma {:induction false} RightKeepsParts(s: string, isSpace: char -> bool, part: string)
    ensures Contains(StripRight(s, isSpace), part) ==> Contains(s, part)
    ensures Contains(s, part) && part != [] && !isSpace(part[|part| - 1]) ==> Contains(StripRight(s, isSpace), part)
  {
    if s != [] && isSpace(s[|s| - 1]) {
      var front := s[..|s| - 1];
      RightKeepsParts(front, isSpace, part);
      if Contains(front, part) {
        var i :| 0 <= i <= |front| && PartAt(front, i, part);
        assert front[i..i + |part|] == s[i..i + |part|];
        assert PartAt(s, i, part);
      }
      if Contains(s, part) && part != [] && !isSpace(part[|part| - 1]) {
        var i :| 0 <= i <= |s| && PartAt(s, i, part);
        assert s[i..i + |part|][|part| - 1] == s[i + |part| - 1];
        assert front[i..i + |part|] == s[i..i + |part|];
        assert PartAt(front, i, part);
      }
    }
  }

  /** What a stripped string contains the string contains; and the other way round for a part that
      neither begins nor ends with white space. */
  lemma {:induction false} StripKeepsParts(s: string, isSpace: char -> bool, part: string)
    ensures Contains(Strip(s, isSpace), part) ==> Contains(s, part)
    ensures Contains(s, part) && part != [] && !isSpace(part[0]) && !isSpace(part[|part| - 1]) ==>
              Contains(Strip(s, isSpace), part)
  {
    LeftKeepsParts(s, isSpace, part);
    RightKeepsParts(StripLeft(s, isSpace), isSpace, part);
  }
}
