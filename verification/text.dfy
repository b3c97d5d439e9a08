/**
 The JavaScript string operations the handlers rely on, over `seq<char>`:
 `String.prototype.split` with a one-character separator, the last element
 of its result, and `String.prototype.includes`.
 */
module Text {

  /** The inverse of `Split`: the parts glued back together with `sep`. */
  function Join(parts: seq<string>, sep: char): (s: string)
  {
    if |parts| == 0 then ""
    else if |parts| == 1 then parts[0]
    else parts[0] + [sep] + Join(parts[1..], sep)
  }

  /** `s.split(sep)`: the maximal separator-free runs of `s`, in order. There is
      always at least one part; the empty string splits into `[""]`. */
  function Split(s: string, sep: char): (parts: seq<string>)
    ensures |parts| >= 1
    ensures forall i :: 0 <= i < |parts| ==> sep !in parts[i]
    ensures Join(parts, sep) == s
    decreases |s|
  {
    if |s| == 0 then [""]
    else
      var rest := Split(s[1..], sep);
      if s[0] == sep then
        [""] + rest
      else
        assert s == [s[0]] + s[1..];
        JoinConsFirst(s[0], rest, sep);
        [[s[0]] + rest[0]] + rest[1..]
  }

  /** Prepending a character to the first part prepends it to the join. */
  lemma {:induction false} JoinConsFirst(c: char, parts: seq<string>, sep: char)
    requires |parts| >= 1
    ensures Join([[c] + parts[0]] + parts[1..], sep) == [c] + Join(parts, sep)
  {
    var q := [[c] + parts[0]] + parts[1..];
    assert q[1..] == parts[1..];
  }

  /** Splitting off the last part of a join of at least two parts. */
  lemma {:induction false} JoinSnoc(parts: seq<string>, sep: char)
    requires |parts| >= 2
    ensures Join(parts, sep) == Join(parts[..|parts| - 1], sep) + [sep] + parts[|parts| - 1]
    decreases |parts|
  {
    if |parts| == 2 {
      assert parts[..1] == [parts[0]];
    } else {
      var tail := parts[1..];
      JoinSnoc(tail, sep);
      assert tail[..|tail| - 1] == parts[..|parts| - 1][1..];
      assert tail[|tail| - 1] == parts[|parts| - 1];
    }
  }

  /** The last part is a suffix of the join, and is either the whole join or
      preceded by `sep`. */
  lemma LastOfJoin(parts: seq<string>, sep: char)
    requires |parts| >= 1
    ensures var s := Join(parts, sep); var r := parts[|parts| - 1];
      && |r| <= |s|
      && s[|s| - |r|..] == r
      && (|r| < |s| ==> s[|s| - |r| - 1] == sep)
  {
    if |parts| >= 2 {
      JoinSnoc(parts, sep);
    }
  }

  /** `s.split(sep)[last]`: the text after the last `sep`, or all of `s` when
      it has none. Independently of `Split`: a separator-free suffix of `s`
      that is either all of `s` or starts right after a `sep`. */
  function LastSegment(s: string, sep: char): (r: string)
    ensures |r| <= |s|
    ensures s[|s| - |r|..] == r
    ensures sep !in r
    ensures |r| < |s| ==> s[|s| - |r| - 1] == sep
  {
    var parts := Split(s, sep);
    LastOfJoin(parts, sep);
    parts[|parts| - 1]
  }

  /** The four properties in `LastSegment`'s contract pin the result down:
      any string having them is the last segment. */
  lemma {:induction false} LastSegmentUnique(s: string, sep: char, r: string)
    requires |r| <= |s| && s[|s| - |r|..] == r
    requires sep !in r
    requires |r| < |s| ==> s[|s| - |r| - 1] == sep
    ensures LastSegment(s, sep) == r
  {
    var t := LastSegment(s, sep);
  }

  /** The last segment of `prefix + tail`, when `prefix` ends in `sep` and
      `tail` has no `sep`, is `tail` itself. */
  lemma LastSegmentAfterSepPrefix(prefix: string, tail: string, sep: char)
    requires |prefix| >= 1 && prefix[|prefix| - 1] == sep
    requires sep !in tail
    ensures LastSegment(prefix + tail, sep) == tail
  {
    var s := prefix + tail;
    assert s[|s| - |tail|..] == tail;
    LastSegmentUnique(s, sep, tail);
  }

  /** `s.includes(sub)`: `sub` occurs somewhere in `s`. The empty string occurs
      in every string. */
  predicate Includes(s: string, sub: string)
    ensures |sub| == 0 ==> Includes(s, sub)
    ensures Includes(s, sub) ==> |sub| <= |s|
    decreases |s|
  {
    sub <= s || (|s| > 0 && Includes(s[1..], sub))
  }

  /** `Includes` agrees with the positional reading: some index of `s` starts
      an occurrence of `sub`. */
  lemma {:induction false} IncludesIffOccursAt(s: string, sub: string)
    ensures Includes(s, sub) <==> exists i :: 0 <= i <= |s| && sub <= s[i..]
    decreases |s|
  {
    if sub <= s {
      assert s[0..] == s;
    } else if |s| == 0 {
      forall i | 0 <= i <= |s|
        ensures !(sub <= s[i..])
      {
        assert s[i..] == s;
      }
    } else {
      IncludesIffOccursAt(s[1..], sub);
      if Includes(s[1..], sub) {
        var i :| 0 <= i <= |s[1..]| && sub <= s[1..][i..];
        assert s[1..][i..] == s[i + 1..];
      } else {
        forall i | 0 <= i <= |s|
          ensures !(sub <= s[i..])
        {
          if i > 0 {
            assert s[1..][i - 1..] == s[i..];
          } else {
            assert s[i..] == s;
          }
        }
      }
    }
  }

  /** Whatever stands before and after it, a string includes its middle. */
  lemma {:induction false} IncludesMiddle(before: string, middle: string, after: string)
    ensures Includes(before + middle + after, middle)
    decreases |before|
  {
    var s := before + middle + after;
    if |before| == 0 {
      assert s == middle + after;
    } else {
      IncludesMiddle(before[1..], middle, after);
      assert s[1..] == before[1..] + middle + after;
    }
  }
}
