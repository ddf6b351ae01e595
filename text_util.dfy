/**
 * The two string operations the merge step relies on: Go's `strings.TrimSpace`
 * and joining fragments with a single space.
 */
module TextUtil {

  /** Go's `unicode.IsSpace`: the Latin-1 spaces and the other Unicode White_Space code points. */
  predicate IsSpace(c: char)
  {
    ('\t' <= c <= '\r') || c == ' ' || c == '\U{0085}' || c == '\U{00A0}' || c == '\U{1680}'
    || ('\U{2000}' <= c <= '\U{200A}') || c == '\U{2028}' || c == '\U{2029}'
    || c == '\U{202F}' || c == '\U{205F}' || c == '\U{3000}'
  }

  predicate AllSpace(s: string)
  {
    forall i :: 0 <= i < |s| ==> IsSpace(s[i])
  }

  /**
   * `strings.TrimSpace`: white space is dropped from both ends, and what is
   * left neither starts nor ends with white space.
   */
  function TrimSpace(s: string): (r: string)
    ensures |r| <= |s|
    ensures r == [] || (!IsSpace(r[0]) && !IsSpace(r[|r| - 1]))
    decreases |s|
  {
    if s == [] then []
    else if IsSpace(s[0]) then TrimSpace(s[1..])
    else if IsSpace(s[|s| - 1]) then TrimSpace(s[..|s| - 1])
    else s
  }

  /** `s[i..j]` has only white space before and after it within `s`. */
  predicate SpaceFramed(s: string, i: nat, j: nat)
  {
    i <= j <= |s| && AllSpace(s[..i]) && AllSpace(s[j..])
  }

  /** The trimmed text is a slice of `s` with only white space on either side of it. */
  lemma {:induction false} TrimSpaceSlice(s: string)
    ensures exists i: nat, j: nat :: SpaceFramed(s, i, j) && TrimSpace(s) == s[i..j]
    decreases |s|
  {
    if s == [] {
      assert SpaceFramed(s, 0, 0) && TrimSpace(s) == s[0..0];
    } else if IsSpace(s[0]) {
      TrimSpaceSlice(s[1..]);
      var i: nat, j: nat :| SpaceFramed(s[1..], i, j) && TrimSpace(s[1..]) == s[1..][i..j];
      FramedAfterLeadingSpace(s, i, j);
    } else if IsSpace(s[|s| - 1]) {
      TrimSpaceSlice(s[..|s| - 1]);
      var i: nat, j: nat :| SpaceFramed(s[..|s| - 1], i, j) && TrimSpace(s[..|s| - 1]) == s[..|s| - 1][i..j];
      FramedBeforeTrailingSpace(s, i, j);
    } else {
      assert SpaceFramed(s, 0, |s|) && TrimSpace(s) == s[0..|s|];
    }
  }

  lemma FramedAfterLeadingSpace(s: string, i: nat, j: nat)
    requires s != [] && IsSpace(s[0]) && SpaceFramed(s[1..], i, j)
    ensures SpaceFramed(s, i + 1, j + 1) && s[1..][i..j] == s[i + 1..j + 1]
  {
    assert s[1..][j..] == s[j + 1..];
    assert s[..i + 1] == [s[0]] + s[1..][..i];
  }

  lemma FramedBeforeTrailingSpace(s: string, i: nat, j: nat)
    requires s != [] && IsSpace(s[|s| - 1]) && SpaceFramed(s[..|s| - 1], i, j)
    ensures SpaceFramed(s, i, j) && s[..|s| - 1][i..j] == s[i..j]
  {
    var t := s[..|s| - 1];
    assert t[..i] == s[..i];
    assert s[j..] == t[j..] + [s[|s| - 1]];
  }

  /** Nothing is left exactly when `s` is all white space. */
  lemma {:induction false} TrimSpaceEmptyIff(s: string)
    ensures TrimSpace(s) == [] <==> AllSpace(s)
    decreases |s|
  {
    if s != [] {
      if IsSpace(s[0]) {
        TrimSpaceEmptyIff(s[1..]);
        assert AllSpace(s) <==> AllSpace(s[1..]);
      } else if IsSpace(s[|s| - 1]) {
        TrimSpaceEmptyIff(s[..|s| - 1]);
        assert AllSpace(s) <==> AllSpace(s[..|s| - 1]);
      }
    }
  }

  /** Trimming twice is trimming once. */
  lemma TrimSpaceIdempotent(s: string)
    ensures TrimSpace(TrimSpace(s)) == TrimSpace(s)
  {
  }

  /** The fragments joined left to right, one space between neighbours. */
  function JoinSpace(parts: seq<string>): string
  {
    if |parts| == 0 then ""
    else if |parts| == 1 then parts[0]
    else parts[0] + " " + JoinSpace(parts[1..])
  }

  /** Appending a fragment to a non-empty join adds exactly one space and the fragment. */
  lemma {:induction false} JoinSpaceSnoc(parts: seq<string>, t: string)
    requires parts != []
    ensures JoinSpace(parts + [t]) == JoinSpace(parts) + " " + t
  {
    if |parts| == 1 {
      assert parts + [t] == [parts[0], t];
      assert ([parts[0], t])[1..] == [t];
    } else {
      assert (parts + [t])[1..] == parts[1..] + [t];
      JoinSpaceSnoc(parts[1..], t);
    }
  }

  /** A join of non-empty fragments is non-empty, and so is any join that begins with one. */
  lemma JoinSpaceNonEmpty(parts: seq<string>)
    requires parts != [] && parts[0] != ""
    ensures JoinSpace(parts) != ""
    ensures |JoinSpace(parts)| >= |parts[0]|
  {
  }
}
