/** Reading a cookie from `document.cookie` (app/webutil.js:88-99). The
    cookie string is a parameter; `String.prototype.split` with a
    one-character separator is modelled by `Split`, proved inverse to `Join`. */
module Cookies {
  import opened Optional

  /** `s.split(sep)` for a one-character separator: the pieces between
      separators, always at least one (the empty string splits into [""]). */
  function Split(s: string, sep: char): (r: seq<string>)
    ensures |r| >= 1
    ensures forall i :: 0 <= i < |r| ==> sep !in r[i]
    decreases |s|
  {
    if |s| == 0 then [""]
    else
      var rest := Split(s[1..], sep);
      if s[0] == sep then [""] + rest
      else [[s[0]] + rest[0]] + rest[1..]
  }

  /** `segs.join(sep)`. */
  function Join(segs: seq<string>, sep: char): string
    decreases |segs|
  {
    if |segs| == 0 then ""
    else if |segs| == 1 then segs[0]
    else segs[0] + [sep] + Join(segs[1..], sep)
  }

  /** Joining the pieces gives the string back. */
  lemma {:induction false} JoinSplit(s: string, sep: char)
    ensures Join(Split(s, sep), sep) == s
    decreases |s|
  {
    if |s| > 0 {
      var rest := Split(s[1..], sep);
      JoinSplit(s[1..], sep);
      if s[0] == sep {
        assert Split(s, sep) == [""] + rest;
        assert s == [s[0]] + s[1..];
      } else {
        var r := Split(s, sep);
        assert r == [[s[0]] + rest[0]] + rest[1..];
        if |rest| == 1 {
          assert s == [s[0]] + s[1..];
        } else {
          assert r[1..] == rest[1..];
          assert Join(rest, sep) == rest[0] + [sep] + Join(rest[1..], sep);
          assert s == [s[0]] + s[1..];
        }
      }
    }
  }

  /** A string without the separator is one piece. */
  lemma {:induction false} SplitSingle(x: string, sep: char)
    requires sep !in x
    ensures Split(x, sep) == [x]
    decreases |x|
  {
    if |x| > 0 {
      SplitSingle(x[1..], sep);
      assert [x[0]] + x[1..] == x;
    }
  }

  /** A first piece without the separator comes out of the split whole. */
  lemma {:induction false} SplitAfterPiece(x: string, sep: char, y: string)
    requires sep !in x
    ensures Split(x + [sep] + y, sep) == [x] + Split(y, sep)
    decreases |x|
  {
    var s := x + [sep] + y;
    if |x| == 0 {
      assert s[1..] == y;
    } else {
      assert s[1..] == x[1..] + [sep] + y;
      SplitAfterPiece(x[1..], sep, y);
      assert [x[0]] + x[1..] == x;
    }
  }

  /** Splitting joined pieces that do not hold the separator gives them back. */
  lemma {:induction false} SplitJoin(segs: seq<string>, sep: char)
    requires |segs| >= 1
    requires forall i :: 0 <= i < |segs| ==> sep !in segs[i]
    ensures Split(Join(segs, sep), sep) == segs
    decreases |segs|
  {
    if |segs| == 1 {
      SplitSingle(segs[0], sep);
    } else {
      SplitJoin(segs[1..], sep);
      SplitAfterPiece(segs[0], sep, Join(segs[1..], sep));
      assert [segs[0]] + segs[1..] == segs;
    }
  }

  /** The piece with its leading spaces (and only spaces) removed. */
  function TrimLeadingSpaces(c: string): (r: string)
    ensures |r| <= |c| && r == c[|c| - |r|..]
    ensures forall k :: 0 <= k < |c| - |r| ==> c[k] == ' '
    ensures r == [] || r[0] != ' '
    decreases |c|
  {
    if |c| > 0 && c[0] == ' ' then TrimLeadingSpaces(c[1..]) else c
  }

  /** A piece names the cookie when, trimmed, it starts with `name=`. */
  predicate Names(segment: string, nameEq: string) {
    nameEq <= TrimLeadingSpaces(segment)
  }

  /** Piece i is the first that names the cookie. */
  ghost predicate IsFirstMatch(segs: seq<string>, nameEq: string, i: int) {
    && 0 <= i < |segs|
    && Names(segs[i], nameEq)
    && forall j :: 0 <= j < i ==> !Names(segs[j], nameEq)
  }

  /** The inner loop of readCookie: drop one leading space at a time. */
  method StripSpaces(segment: string) returns (c: string)
    ensures c == TrimLeadingSpaces(segment)
  {
    c := segment;
    while |c| > 0 && c[0] == ' '
      invariant TrimLeadingSpaces(c) == TrimLeadingSpaces(segment)
    {
      c := c[1..];
    }
  }

  /** At most one piece is the first to name the cookie. */
  lemma FirstMatchUnique(segs: seq<string>, nameEq: string, i: int, k: int)
    requires IsFirstMatch(segs, nameEq, i) && IsFirstMatch(segs, nameEq, k)
    ensures i == k
  {
  }

  /** r is what readCookie must return for the pieces segs: the rest of the
      first piece that names the cookie, or the default when none does. */
  ghost predicate Answers(segs: seq<string>, nameEq: string, defaultValue: Option<string>, r: Option<string>) {
    && (forall i :: IsFirstMatch(segs, nameEq, i) ==> r == Some(TrimLeadingSpaces(segs[i])[|nameEq|..]))
    && ((forall i :: 0 <= i < |segs| ==> !Names(segs[i], nameEq)) ==> r == defaultValue)
  }

  /** The rest of the first piece that names the cookie is the answer. */
  lemma AnswerFound(segs: seq<string>, nameEq: string, defaultValue: Option<string>, i: int)
    requires IsFirstMatch(segs, nameEq, i)
    ensures Answers(segs, nameEq, defaultValue, Some(TrimLeadingSpaces(segs[i])[|nameEq|..]))
  {
    forall k | IsFirstMatch(segs, nameEq, k)
      ensures k == i
    {
      FirstMatchUnique(segs, nameEq, i, k);
    }
  }

  /** When no piece names the cookie, the default is the answer. */
  lemma AnswerDefault(segs: seq<string>, nameEq: string, defaultValue: Option<string>)
    requires forall i :: 0 <= i < |segs| ==> !Names(segs[i], nameEq)
    ensures Answers(segs, nameEq, defaultValue, defaultValue)
  {
  }

  /** readCookie: the rest of the first `;`-piece that starts with `name=`
      once its leading spaces are gone; the default (null when undefined)
      when no piece does. */
  method ReadCookie(cookie: string, name: string, defaultValue: Option<string>) returns (r: Option<string>)
    ensures Answers(Split(cookie, ';'), name + "=", defaultValue, r)
  {
    var nameEq := name + "=";
    var ca := Split(cookie, ';');
    var i := 0;
    while i < |ca|
      invariant 0 <= i <= |ca|
      invariant forall j :: 0 <= j < i ==> !Names(ca[j], nameEq)
    {
      var c := StripSpaces(ca[i]);
      if nameEq <= c {
        AnswerFound(ca, nameEq, defaultValue, i);
        return Some(c[|nameEq|..]);
      }
      i := i + 1;
    }
    AnswerDefault(ca, nameEq, defaultValue);
    return defaultValue;
  }
}
