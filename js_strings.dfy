/**
 * The parts of JavaScript's string library that the form controller uses:
 * `String.prototype.split` with a one-character separator, the last element
 * of the resulting array (`a[a.length - 1]` and `a.pop()`), and, as the
 * inverse of `split`, `Array.prototype.join`.
 */
module JsStrings {

  /** `s.split(sep)`: the maximal pieces of `s` between occurrences of `sep`.
      The result is never empty (`"".split(sep)` is `[""]`). */
  function Split(s: string, sep: char): (parts: seq<string>)
    ensures |parts| >= 1
    ensures forall i :: 0 <= i < |parts| ==> sep !in parts[i]
    decreases |s|
  {
    if s == [] then [[]]
    else
      var rest := Split(s[1..], sep);
      if s[0] == sep then [[]] + rest
      else [[s[0]] + rest[0]] + rest[1..]
  }

  /** `parts.join(sep)` for a one-character separator. */
  function Join(parts: seq<string>, sep: char): string
    requires |parts| >= 1
    decreases |parts|
  {
    if |parts| == 1 then parts[0] else parts[0] + [sep] + Join(parts[1..], sep)
  }

  /** The last element of a non-empty array. */
  function Last(parts: seq<string>): string
    requires |parts| >= 1
  {
    parts[|parts| - 1]
  }

  /** `l` is the text of `s` after the last occurrence of `c`, or all of `s`
      when `c` does not occur in it. */
  ghost predicate IsTextAfterLast(s: string, c: char, l: string) {
    && |l| <= |s|
    && s[|s| - |l|..] == l
    && c !in l
    && (|l| == |s| || s[|s| - |l| - 1] == c)
  }

  /** Joining the pieces of a split gives back the original string. */
  lemma {:induction false} SplitJoin(s: string, sep: char)
    ensures Join(Split(s, sep), sep) == s
    decreases |s|
  {
    if s != [] {
      SplitJoin(s[1..], sep);
      var rest := Split(s[1..], sep);
      if s[0] == sep {
        assert ([[]] + rest)[1..] == rest;
        assert s == [s[0]] + s[1..];
      } else {
        var parts := [[s[0]] + rest[0]] + rest[1..];
        if |rest| == 1 {
          assert parts == [[s[0]] + s[1..]];
          assert s == [s[0]] + s[1..];
        } else {
          assert parts[1..] == rest[1..];
          assert Join(rest, sep) == rest[0] + [sep] + Join(rest[1..], sep);
          assert s == [s[0]] + s[1..];
        }
      }
    }
  }

  /** Splitting a string that starts with a separator-free prefix `p`. */
  lemma {:induction false} SplitAfterPrefix(p: string, t: string, sep: char)
    requires sep !in p
    ensures Split(p + t, sep) == [p + Split(t, sep)[0]] + Split(t, sep)[1..]
    decreases |p|
  {
    if p != [] {
      SplitAfterPrefix(p[1..], t, sep);
      assert (p + t)[1..] == p[1..] + t;
      assert (p + t)[0] == p[0];
      assert [p[0]] + (p[1..] + Split(t, sep)[0]) == p + Split(t, sep)[0];
    } else {
      assert p + t == t;
      assert p + Split(t, sep)[0] == Split(t, sep)[0];
      assert Split(t, sep) == [Split(t, sep)[0]] + Split(t, sep)[1..];
    }
  }

  /** Splitting a join of separator-free pieces gives back the pieces. */
  lemma {:induction false} JoinSplit(parts: seq<string>, sep: char)
    requires |parts| >= 1
    requires forall i :: 0 <= i < |parts| ==> sep !in parts[i]
    ensures Split(Join(parts, sep), sep) == parts
    decreases |parts|
  {
    if |parts| == 1 {
      SplitAfterPrefix(parts[0], [], sep);
      assert parts[0] + [] == parts[0];
    } else {
      var tail := Join(parts[1..], sep);
      JoinSplit(parts[1..], sep);
      assert ([sep] + tail)[1..] == tail;
      assert Split([sep] + tail, sep) == [[]] + parts[1..];
      assert Join(parts, sep) == parts[0] + ([sep] + tail);
      SplitAfterPrefix(parts[0], [sep] + tail, sep);
      assert Split(Join(parts, sep), sep) == [parts[0] + []] + parts[1..];
      assert parts[0] + [] == parts[0];
      assert parts == [parts[0]] + parts[1..];
    }
  }

  /** The text after the last separator is determined uniquely. */
  lemma TextAfterLastUnique(s: string, c: char, l1: string, l2: string)
    requires IsTextAfterLast(s, c, l1) && IsTextAfterLast(s, c, l2)
    ensures l1 == l2
  {
  }

  /** The last piece of a split is the text after the last separator. */
  lemma {:induction false} LastSplitIsTextAfterLast(s: string, c: char)
    ensures IsTextAfterLast(s, c, Last(Split(s, c)))
    decreases |s|
  {
    if s != [] {
      var t := s[1..];
      var rest := Split(t, c);
      LastSplitIsTextAfterLast(t, c);
      var lt := Last(rest);
      assert s[|s| - |lt|..] == t[|t| - |lt|..];
      if s[0] == c {
        assert Last(Split(s, c)) == lt;
      } else if |rest| == 1 {
        SplitJoin(t, c);
        assert lt == t;
        assert Last(Split(s, c)) == [s[0]] + t == s;
      } else {
        SplitJoin(t, c);
        assert t == rest[0] + [c] + Join(rest[1..], c);
        assert c in t;
        assert Last(Split(s, c)) == lt;
      }
    }
  }

  /** With no separator in `s`, the last piece is all of `s`. */
  lemma LastSplitWithoutSeparator(s: string, c: char)
    requires c !in s
    ensures Last(Split(s, c)) == s
  {
    LastSplitIsTextAfterLast(s, c);
  }
}
