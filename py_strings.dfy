/** The Python `str` operations the application relies on, with Python's
    semantics: `find`, `startswith`, single-character `replace` and
    `split` on a one-character separator. */
module PyStrings {

  /** `pat` occurs in `s` starting at index `i`. */
  predicate OccursAt(s: string, pat: string, i: int) {
    0 <= i && i + |pat| <= |s| && s[i..i + |pat|] == pat
  }

  lemma OccursAtShift(s: string, pat: string, d: nat, i: int)
    requires d <= |s|
    ensures OccursAt(s[d..], pat, i) <==> (0 <= i && OccursAt(s, pat, d + i))
  {
    if 0 <= i && i + |pat| <= |s| - d {
      assert s[d..][i..i + |pat|] == s[d + i..d + i + |pat|];
    }
  }

  /** `s.startswith(prefix)`. */
  function StartsWith(s: string, prefix: string): (r: bool)
    ensures r <==> prefix <= s
  {
    |prefix| <= |s| && s[..|prefix|] == prefix
  }

  /** `s.find(pat)`: the lowest index at which `pat` occurs, or -1. */
  function Find(s: string, pat: string): (r: int)
    ensures -1 <= r <= |s|
    ensures r == -1 <==> forall i :: !OccursAt(s, pat, i)
    ensures r >= 0 ==> OccursAt(s, pat, r) && forall i :: i < r ==> !OccursAt(s, pat, i)
    decreases |s|
  {
    if |s| < |pat| then -1
    else if s[..|pat|] == pat then assert OccursAt(s, pat, 0); 0
    else
      var k := Find(s[1..], pat);
      FindShift(s, pat, k);
      if k < 0 then -1 else k + 1
  }

  /** What the recursive call of `Find` on `s[1..]` says about `s`. */
  lemma FindShift(s: string, pat: string, k: int)
    requires |s| >= |pat| && s[..|pat|] != pat && k >= -1
    requires k == -1 <==> forall i :: !OccursAt(s[1..], pat, i)
    requires k >= 0 ==> OccursAt(s[1..], pat, k) && forall i :: i < k ==> !OccursAt(s[1..], pat, i)
    ensures k == -1 <==> forall i :: !OccursAt(s, pat, i)
    ensures k >= 0 ==> OccursAt(s, pat, k + 1) && forall i :: i < k + 1 ==> !OccursAt(s, pat, i)
  {
    assert !OccursAt(s, pat, 0);
    forall i | 1 <= i
      ensures OccursAt(s, pat, i) <==> OccursAt(s[1..], pat, i - 1)
    {
      OccursAtShift(s, pat, 1, i - 1);
    }
    if k >= 0 {
      OccursAtShift(s, pat, 1, k);
    } else {
      forall i ensures !OccursAt(s, pat, i) {
        if i >= 1 {
          OccursAtShift(s, pat, 1, i - 1);
          assert !OccursAt(s[1..], pat, i - 1);
        }
      }
    }
  }

  /** `s.replace(from, to)` for a one-character `from`: each occurrence of
      `from` becomes `to`, every other character is kept, in order. */
  function ReplaceChar(s: string, from: char, to: string): (r: string)
    // Nothing to replace leaves the string as it is; otherwise every
    // occurrence goes (unless `to` brings it back).
    ensures from !in s ==> r == s
    ensures from !in to ==> from !in r
    ensures |to| == 1 ==> |r| == |s|
  {
    if s == [] then []
    else
      assert s == [s[0]] + s[1..];
      (if s[0] == from then to else [s[0]]) + ReplaceChar(s[1..], from, to)
  }

  /** Every character of `s.replace(from, to)` is a character of `s` other
      than `from`, or a character of `to`. */
  lemma {:induction false} ReplaceCharChars(s: string, from: char, to: string, c: char)
    ensures c in ReplaceChar(s, from, to) ==> (c in s && c != from) || c in to
  {
    if s != [] {
      ReplaceCharChars(s[1..], from, to, c);
    }
  }

  /** `replace` works character by character, so it distributes over `+`. */
  lemma {:induction false} ReplaceCharConcat(a: string, b: string, from: char, to: string)
    ensures ReplaceChar(a + b, from, to) == ReplaceChar(a, from, to) + ReplaceChar(b, from, to)
  {
    if a == [] {
      assert a + b == b;
    } else {
      assert (a + b)[0] == a[0] && (a + b)[1..] == a[1..] + b;
      ReplaceCharConcat(a[1..], b, from, to);
    }
  }

  /** `sep.join(pieces)`. */
  function Join(pieces: seq<string>, sep: char): string {
    if pieces == [] then []
    else if |pieces| == 1 then pieces[0]
    else pieces[0] + [sep] + Join(pieces[1..], sep)
  }

  /** `s.split(sep)` for a one-character separator; it never gives an
      empty list. */
  function Split(s: string, sep: char): (r: seq<string>)
    ensures |r| >= 1
  {
    if s == [] then [""]
    else
      var rest := Split(s[1..], sep);
      if s[0] == sep then [""] + rest
      else [[s[0]] + rest[0]] + rest[1..]
  }

  /** No piece of a split contains the separator. */
  lemma {:induction false} SplitPiecesHaveNoSep(s: string, sep: char)
    ensures forall k :: 0 <= k < |Split(s, sep)| ==> sep !in Split(s, sep)[k]
  {
    if s != [] {
      SplitPiecesHaveNoSep(s[1..], sep);
      var rest := Split(s[1..], sep);
      var r := Split(s, sep);
      if s[0] == sep {
        assert forall k :: 1 <= k < |r| ==> r[k] == rest[k - 1];
      } else {
        assert |r| == |rest| && r[0] == [s[0]] + rest[0];
        assert sep !in rest[0];
        assert forall k :: 1 <= k < |r| ==> r[k] == rest[k];
      }
    }
  }

  /** Joining the pieces of a split with the separator gives the string back. */
  lemma {:induction false} JoinSplit(s: string, sep: char)
    ensures Join(Split(s, sep), sep) == s
  {
    if s != [] {
      var rest := Split(s[1..], sep);
      JoinSplit(s[1..], sep);
      assert s == [s[0]] + s[1..];
      if s[0] != sep && |rest| > 1 {
        var r := Split(s, sep);
        assert r[1..] == rest[1..];
      }
    }
  }

  /** The last piece of a split is the string's last field: all of it
      when there is one piece, the text after the last separator otherwise. */
  lemma {:induction false} SplitLastField(s: string, sep: char)
    ensures var r := Split(s, sep); var last := r[|r| - 1];
      && |last| <= |s| && s[|s| - |last|..] == last
      && (|r| == 1 ==> last == s)
      && (|r| > 1 ==> |last| < |s| && s[|s| - |last| - 1] == sep)
  {
    if s != [] {
      var t := s[1..];
      SplitLastField(t, sep);
      var rest := Split(t, sep);
      var last := rest[|rest| - 1];
      SuffixOfTail(s, last);
      var r := Split(s, sep);
      if s[0] == sep {
        assert r == [""] + rest;
        assert |r| > 1 && r[|r| - 1] == last;
      } else if |rest| > 1 {
        assert r == [[s[0]] + rest[0]] + rest[1..];
        assert |r| > 1 && r[|r| - 1] == last;
        assert t[|t| - |last| - 1] == s[|s| - |last| - 1];
      } else {
        assert r == [[s[0]] + t];
        assert [s[0]] + t == s;
      }
    }
  }

  /** A suffix of `s[1..]` is a suffix of `s`. */
  lemma SuffixOfTail(s: string, last: string)
    requires s != [] && |last| <= |s| - 1 && s[1..][|s| - 1 - |last|..] == last
    ensures s[|s| - |last|..] == last
  {
    assert s[1..][|s| - 1 - |last|..] == s[|s| - |last|..];
  }

  /** `t` is a suffix of `s` that is either all of `s` or directly
      preceded by `sep`. */
  predicate IsLastField(s: string, t: string, sep: char) {
    |t| <= |s| && s[|s| - |t|..] == t && (|t| == |s| || s[|s| - |t| - 1] == sep)
  }

  /** `s.split("/")[-1]`: the text after the last `/`, or all of `s` when
      it has none. */
  function LastSegment(s: string): (r: string)
    ensures '/' !in r
    ensures IsLastField(s, r, '/')
  {
    SplitLastField(s, '/');
    SplitPiecesHaveNoSep(s, '/');
    var pieces := Split(s, '/');
    pieces[|pieces| - 1]
  }

  /** The last field is determined by the two facts `LastSegment` promises:
      the longest suffix without `/`. */
  lemma LastSegmentUnique(s: string, t: string)
    requires '/' !in t && IsLastField(s, t, '/')
    ensures t == LastSegment(s)
  {
  }

  /** The text after the final `/` of `prefix + "/" + id` is `id`. */
  lemma LastSegmentAfterSlash(prefix: string, id: string)
    requires '/' !in id
    ensures LastSegment(prefix + "/" + id) == id
  {
    var s := prefix + "/" + id;
    assert s[|s| - |id|..] == id;
    assert s[|s| - |id| - 1] == '/';
    LastSegmentUnique(s, id);
  }
}
