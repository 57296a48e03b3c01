/**
 A loader-chain request such as `style!css!./main.css` is a list of segments
 separated by `!`. This module gives JavaScript's `String.prototype.split` and
 `Array.prototype.join` for a one-character separator, proves that they are
 inverse to each other, and describes what replacing the last segment does to
 the request text.
 */
module RequestChain {

  /** `s.split(d)`: never empty, and no segment contains the separator.
      Adjacent separators give empty segments, as in JavaScript. */
  function Split(s: string, d: char): (parts: seq<string>)
    ensures |parts| >= 1
    ensures forall i :: 0 <= i < |parts| ==> d !in parts[i]
    decreases |s|
  {
    if |s| == 0 then [""]
    else
      var rest := Split(s[1..], d);
      if s[0] == d then [""] + rest
      else [[s[0]] + rest[0]] + rest[1..]
  }

  /** `parts.join(d)`: the segments with one separator between neighbours;
      the text starts with the first segment, and with more than one segment
      a separator follows it. */
  function Join(parts: seq<string>, d: char): (s: string)
    ensures |parts| >= 1 ==> parts[0] <= s
    ensures |parts| >= 2 ==> |parts[0]| < |s| && s[|parts[0]|] == d
    decreases |parts|
  {
    if |parts| == 0 then ""
    else if |parts| == 1 then parts[0]
    else parts[0] + [d] + Join(parts[1..], d)
  }

  /** The last segment of the request, the one `pop()` removes. */
  function LastSegment(s: string, d: char): (last: string)
    ensures d !in last
    ensures |last| <= |s| && s[|s| - |last|..] == last
  {
    SplitLastIsSuffix(s, d);
    var parts := Split(s, d);
    parts[|parts| - 1]
  }

  /** The last segment of a split ends the string; a split into a single
      segment gives back the whole string. */
  lemma {:induction false} SplitLastIsSuffix(s: string, d: char)
    ensures var parts := Split(s, d);
      && |parts[|parts| - 1]| <= |s|
      && s[|s| - |parts[|parts| - 1]|..] == parts[|parts| - 1]
      && (|parts| == 1 ==> parts[0] == s)
    decreases |s|
  {
    if |s| > 0 {
      SplitLastIsSuffix(s[1..], d);
      var rest := Split(s[1..], d);
      var last := rest[|rest| - 1];
      assert s[1..][|s[1..]| - |last|..] == s[|s| - |last|..];
      if s[0] != d && |rest| == 1 {
        assert [s[0]] + s[1..] == s;
      }
    }
  }

  /** Every segment but the last, the array left after `pop()`. */
  function LeadingSegments(s: string, d: char): (init: seq<string>)
    ensures |init| == |Split(s, d)| - 1
    ensures forall i :: 0 <= i < |init| ==> d !in init[i]
  {
    var parts := Split(s, d);
    parts[..|parts| - 1]
  }

  /** Joining the pieces that `split` produced gives back the string. */
  lemma {:induction false} JoinSplit(s: string, d: char)
    ensures Join(Split(s, d), d) == s
    decreases |s|
  {
    if |s| > 0 {
      var rest := Split(s[1..], d);
      JoinSplit(s[1..], d);
      if s[0] == d {
        var parts := [""] + rest;
        assert parts[1..] == rest;
        assert Join(parts, d) == "" + [d] + Join(rest, d);
      } else {
        JoinExtendFirst(s[0], rest, d);
        assert [s[0]] + s[1..] == s;
      }
    }
  }

  /** Putting a character in front of the first segment puts it in front of
      the joined text. */
  lemma JoinExtendFirst(c: char, parts: seq<string>, d: char)
    requires |parts| >= 1
    ensures Join([[c] + parts[0]] + parts[1..], d) == [c] + Join(parts, d)
  {
  }

  /** A separator-free string is a single segment. */
  lemma {:induction false} SplitWithoutSeparator(a: string, d: char)
    requires d !in a
    ensures Split(a, d) == [a]
    decreases |a|
  {
    if |a| > 0 {
      SplitWithoutSeparator(a[1..], d);
      assert [a[0]] + a[1..] == a;
    }
  }

  /** Splitting `a + d + b` where `a` has no separator gives `a` followed by
      the segments of `b`. */
  lemma {:induction false} SplitAfterSegment(a: string, d: char, b: string)
    requires d !in a
    ensures Split(a + [d] + b, d) == [a] + Split(b, d)
    decreases |a|
  {
    var s := a + [d] + b;
    if |a| == 0 {
      assert s[0] == d && s[1..] == b;
    } else {
      assert s[0] == a[0] && s[1..] == a[1..] + [d] + b;
      SplitAfterSegment(a[1..], d, b);
      assert [a[0]] + a[1..] == a;
    }
  }

  /** Splitting a join of separator-free segments gives the segments back. */
  lemma {:induction false} SplitJoin(parts: seq<string>, d: char)
    requires |parts| >= 1
    requires forall i :: 0 <= i < |parts| ==> d !in parts[i]
    ensures Split(Join(parts, d), d) == parts
    decreases |parts|
  {
    if |parts| == 1 {
      SplitWithoutSeparator(parts[0], d);
    } else {
      SplitJoin(parts[1..], d);
      SplitAfterSegment(parts[0], d, Join(parts[1..], d));
      assert [parts[0]] + parts[1..] == parts;
    }
  }

  /** Pushing one more segment onto a non-empty array appends a separator
      and the segment to the joined text. */
  lemma {:induction false} JoinPush(init: seq<string>, x: string, d: char)
    requires |init| >= 1
    ensures Join(init + [x], d) == Join(init, d) + [d] + x
    decreases |init|
  {
    var ps := init + [x];
    if |init| == 1 {
      assert ps[1..] == [x];
    } else {
      assert ps[0] == init[0] && ps[1..] == init[1..] + [x];
      JoinPush(init[1..], x, d);
    }
  }

  /** Replacing the last segment of `s` by `x` (pop, push, join) keeps the
      text of `s` before its last segment and puts `x` after it; `s` itself
      ends with its last segment. If `x` has no separator, the new request
      splits into the old leading segments followed by `x`. */
  lemma ReplaceLastSegment(s: string, d: char, x: string)
    ensures var last := LastSegment(s, d);
      && |last| <= |s|
      && s[|s| - |last|..] == last
      && Join(LeadingSegments(s, d) + [x], d) == s[..|s| - |last|] + x
    ensures d !in x ==>
      Split(Join(LeadingSegments(s, d) + [x], d), d) == LeadingSegments(s, d) + [x]
  {
    var parts := Split(s, d);
    var init, last := LeadingSegments(s, d), LastSegment(s, d);
    assert parts == init + [last];
    JoinSplit(s, d);
    if |init| == 0 {
      assert s == last;
      assert init + [x] == [x];
    } else {
      JoinPush(init, last, d);
      JoinPush(init, x, d);
      assert s == Join(init, d) + [d] + last;
      assert s[..|s| - |last|] == Join(init, d) + [d];
    }
    if d !in x {
      SplitJoin(init + [x], d);
    }
  }
}
