/**
 * The parts of Python's `str` that the pipeline relies on: `startswith`,
 * `in`, `find`, `split(sep)` with a non-empty separator, and `sep.join(parts)`.
 * Strings are sequences of characters; no encoding is involved.
 */
module Strings {

  /** `s.startswith(prefix)` */
  predicate StartsWith(s: string, prefix: string) {
    |prefix| <= |s| && s[..|prefix|] == prefix
  }

  /** `sep` occurs in `s` at index `j`. */
  predicate OccursAt(s: string, sep: string, j: nat) {
    j + |sep| <= |s| && s[j..j + |sep|] == sep
  }

  /** `sep in s` */
  predicate Contains(s: string, sep: string) {
    exists j: nat | j <= |s| :: OccursAt(s, sep, j)
  }

  /**
   * `s.find(sep, start)`: the least index at or after `start` where `sep`
   * occurs, or -1 when there is none.
   */
  function Find(s: string, sep: string, start: nat): (i: int)
    requires sep != "" && start <= |s|
    ensures i == -1 || (start <= i && i + |sep| <= |s|)
    decreases |s| - start
  {
    if OccursAt(s, sep, start) then start
    else if start == |s| then -1
    else Find(s, sep, start + 1)
  }

  /** `Find` returns an occurrence of `sep`, and no occurrence lies between `start` and it. */
  lemma {:induction false} FindSpec(s: string, sep: string, start: nat)
    requires sep != "" && start <= |s|
    ensures var i := Find(s, sep, start);
      && (i == -1 || (start <= i && OccursAt(s, sep, i)))
      && forall j: nat :: start <= j <= |s| && (i == -1 || j < i) ==> !OccursAt(s, sep, j)
    decreases |s| - start
  {
    if !OccursAt(s, sep, start) && start < |s| {
      FindSpec(s, sep, start + 1);
    }
  }

  /**
   * `s[start:].split(sep)`: cut at every occurrence of `sep` found from the
   * left, without overlaps. The result is never empty.
   */
  function SplitFrom(s: string, sep: string, start: nat): (parts: seq<string>)
    requires sep != "" && start <= |s|
    decreases |s| - start
  {
    var i := Find(s, sep, start);
    if i == -1 then [s[start..]] else [s[start..i]] + SplitFrom(s, sep, i + |sep|)
  }

  /** `s.split(sep)`; for instance `"".split(sep) == [""]`. */
  function Split(s: string, sep: string): seq<string>
    requires sep != ""
  {
    SplitFrom(s, sep, 0)
  }

  /** Splitting never yields the empty list. */
  lemma SplitNonEmpty(s: string, sep: string, start: nat)
    requires sep != "" && start <= |s|
    ensures |SplitFrom(s, sep, start)| >= 1
  {
  }

  /** Sum of the lengths of `parts`. */
  function TotalLength(parts: seq<string>): nat {
    if parts == [] then 0 else |parts[0]| + TotalLength(parts[1..])
  }

  /** `sep.join(parts)`: the empty list gives the empty string. */
  function Join(parts: seq<string>, sep: string): (s: string)
  {
    if |parts| == 0 then ""
    else if |parts| == 1 then parts[0]
    else parts[0] + sep + Join(parts[1..], sep)
  }

  /** `sep.join(parts)` holds every part and one separator between each two. */
  lemma {:induction false} JoinLength(parts: seq<string>, sep: string)
    ensures |Join(parts, sep)| == TotalLength(parts) + if parts == [] then 0 else (|parts| - 1) * |sep|
  {
    if |parts| > 1 {
      JoinLength(parts[1..], sep);
      assert (|parts| - 1) * |sep| == (|parts| - 2) * |sep| + |sep|;
    }
  }

  /** Where `parts[i]` begins in `Join(parts, sep)`. */
  function Offset(parts: seq<string>, sep: string, i: nat): nat
    requires i <= |parts|
  {
    if i == 0 then 0 else |parts[0]| + |sep| + Offset(parts[1..], sep, i - 1)
  }

  /**
   * Joining `part` to anything that follows after `sep`, the first occurrence
   * of `sep` is the joining one: `part` contains no `sep`, and no occurrence
   * straddles the end of `part` and the separator.
   */
  predicate Delimits(sep: string, part: string) {
    !Contains(part, sep) && forall j: nat :: j < |part| ==> !OccursAt(part + sep, sep, j)
  }

  /** A slice of a slice is a slice of the whole. */
  lemma SliceOfSlice(s: string, lo: nat, hi: nat, a: nat, b: nat)
    requires lo <= hi <= |s| && a <= b <= hi - lo
    ensures s[lo..hi][a..b] == s[lo + a..lo + b]
  {
    assert forall k :: 0 <= k < b - a ==> s[lo..hi][a..b][k] == s[lo + a + k];
  }

  /** A stretch of `s` in which no occurrence of `sep` starts does not contain `sep`. */
  lemma RangeFree(s: string, sep: string, lo: nat, hi: nat)
    requires sep != "" && lo <= hi <= |s|
    requires forall j: nat :: lo <= j < hi ==> !OccursAt(s, sep, j)
    ensures !Contains(s[lo..hi], sep)
  {
    forall j: nat | j <= hi - lo ensures !OccursAt(s[lo..hi], sep, j) {
      if j + |sep| <= hi - lo {
        assert !OccursAt(s, sep, lo + j);
        SliceOfSlice(s, lo, hi, j, j + |sep|);
      }
    }
  }

  /** A single-character separator occurs in `s` exactly when the character does. */
  lemma ContainsChar(s: string, c: char)
    ensures Contains(s, [c]) <==> c in s
  {
    if c in s {
      var j :| 0 <= j < |s| && s[j] == c;
      assert s[j..j + 1] == [c];
      assert OccursAt(s, [c], j);
    }
    if Contains(s, [c]) {
      var j: nat :| j <= |s| && OccursAt(s, [c], j);
      assert s[j..j + 1][0] == s[j];
    }
  }

  /**
   * The first part of `s.split(sep)` is the longest prefix of `s` without
   * `sep`: it is `s` itself, or it stops where `sep` first occurs.
   */
  lemma SplitFirst(s: string, sep: string)
    requires sep != ""
    ensures |Split(s, sep)| >= 1
    ensures var p := Split(s, sep)[0];
      StartsWith(s, p) && !Contains(p, sep) && (|p| < |s| ==> OccursAt(s, sep, |p|))
  {
    var i := Find(s, sep, 0);
    FindSpec(s, sep, 0);
    if i == -1 {
      RangeFree(s, sep, 0, |s|);
      assert s[0..|s|] == s[0..] == s;
    } else {
      RangeFree(s, sep, 0, i);
      assert s[0..i] == s[..i];
    }
  }

  /** No part of `s[start:].split(sep)` contains `sep`. */
  lemma {:induction false} SplitPartsFree(s: string, sep: string, start: nat)
    requires sep != "" && start <= |s|
    ensures forall k :: 0 <= k < |SplitFrom(s, sep, start)| ==> !Contains(SplitFrom(s, sep, start)[k], sep)
    decreases |s| - start
  {
    var i := Find(s, sep, start);
    FindSpec(s, sep, start);
    if i == -1 {
      RangeFree(s, sep, start, |s|);
      assert s[start..|s|] == s[start..];
    } else {
      RangeFree(s, sep, start, i);
      SplitPartsFree(s, sep, i + |sep|);
    }
  }

  /** Joining two or more parts puts the first part and `sep` in front of the rest joined. */
  lemma JoinCons(parts: seq<string>, sep: string)
    requires |parts| > 1
    ensures Join(parts, sep) == (parts[0] + sep) + Join(parts[1..], sep)
  {
  }

  /** `sep.join(s[start:].split(sep)) == s[start:]`. */
  lemma {:induction false} JoinSplitFrom(s: string, sep: string, start: nat)
    requires sep != "" && start <= |s|
    ensures Join(SplitFrom(s, sep, start), sep) == s[start..]
    decreases |s| - start
  {
    var i := Find(s, sep, start);
    FindSpec(s, sep, start);
    if i != -1 {
      var next := i + |sep|;
      var parts := SplitFrom(s, sep, start);
      var tail := SplitFrom(s, sep, next);
      assert parts == [s[start..i]] + tail;
      SplitNonEmpty(s, sep, next);
      JoinSplitFrom(s, sep, next);
      assert parts[1..] == tail;
      JoinCons(parts, sep);
      assert s[i..next] == sep;
      assert s[start..] == s[start..i] + s[i..next] + s[next..];
    }
  }

  /** `sep.join(s.split(sep)) == s` for every string `s`. */
  lemma JoinSplit(s: string, sep: string)
    requires sep != ""
    ensures Join(Split(s, sep), sep) == s
  {
    JoinSplitFrom(s, sep, 0);
    assert s[0..] == s;
  }

  /** Occurrences of `sep` in `q` are those in `p + q`, moved by `|p|`. */
  lemma OccursShift(p: string, q: string, sep: string, j: nat)
    ensures OccursAt(p + q, sep, |p| + j) == OccursAt(q, sep, j)
  {
    if j + |sep| <= |q| {
      SliceOfAppend(p, q, j, j + |sep|);
    }
  }

  /** Searching `p + q` from inside `q` finds what searching `q` finds, moved by `|p|`. */
  lemma {:induction false} FindShift(p: string, q: string, sep: string, k: nat)
    requires sep != "" && k <= |q|
    ensures var a, b := Find(p + q, sep, |p| + k), Find(q, sep, k);
      a == if b == -1 then -1 else |p| + b
    decreases |q| - k
  {
    OccursShift(p, q, sep, k);
    if !OccursAt(q, sep, k) && k < |q| {
      FindShift(p, q, sep, k + 1);
    }
  }

  /** Splitting `p + q` from inside `q` is splitting `q` alone. */
  lemma {:induction false} SplitFromShift(p: string, q: string, sep: string, k: nat)
    requires sep != "" && k <= |q|
    ensures SplitFrom(p + q, sep, |p| + k) == SplitFrom(q, sep, k)
    decreases |q| - k
  {
    FindShift(p, q, sep, k);
    var b := Find(q, sep, k);
    var pq := p + q;
    if b == -1 {
      calc {
        SplitFrom(pq, sep, |p| + k);
      == { SplitFromStep(pq, sep, |p| + k, -1); }
        [pq[|p| + k..]];
      == { assert pq[|p| + k..] == q[k..]; }
        [q[k..]];
      == { SplitFromStep(q, sep, k, b); }
        SplitFrom(q, sep, k);
      }
    } else {
      var next := b + |sep|;
      calc {
        SplitFrom(pq, sep, |p| + k);
      == { SplitFromStep(pq, sep, |p| + k, |p| + b); }
        [pq[|p| + k..|p| + b]] + SplitFrom(pq, sep, |p| + next);
      == { SliceOfAppend(p, q, k, b); SplitFromShift(p, q, sep, next); }
        [q[k..b]] + SplitFrom(q, sep, next);
      == { SplitFromStep(q, sep, k, b); }
        SplitFrom(q, sep, k);
      }
    }
  }

  /** One step of splitting, given where the next occurrence is: the piece up to it, then the rest. */
  lemma SplitFromStep(s: string, sep: string, start: nat, i: int)
    requires sep != "" && start <= |s| && i == Find(s, sep, start)
    ensures i == -1 ==> SplitFrom(s, sep, start) == [s[start..]]
    ensures i != -1 ==> SplitFrom(s, sep, start) == [s[start..i]] + SplitFrom(s, sep, i + |sep|)
  {
  }

  /** In `a + sep + b`, when no occurrence of `sep` starts inside `a`, the first one is at `|a|`. */
  lemma FindJoined(a: string, sep: string, b: string)
    requires sep != ""
    requires forall j: nat :: j < |a| ==> !OccursAt(a + sep, sep, j)
    ensures Find(a + sep + b, sep, 0) == |a|
  {
    var s := a + sep + b;
    FindSpec(s, sep, 0);
    assert s[|a|..|a| + |sep|] == sep;
    assert OccursAt(s, sep, |a|);
    forall j: nat | j < |a| ensures !OccursAt(s, sep, j) {
      assert !OccursAt(a + sep, sep, j);
      assert s[j..j + |sep|] == (a + sep)[j..j + |sep|];
    }
  }

  /** A string without `sep` is split into itself alone. */
  lemma SplitWhole(s: string, sep: string)
    requires sep != "" && !Contains(s, sep)
    ensures Split(s, sep) == [s]
  {
    assert forall j: nat :: j <= |s| ==> !OccursAt(s, sep, j);
    FindSpec(s, sep, 0);
    assert Find(s, sep, 0) == -1;
    assert s[0..] == s;
  }

  /** After a part that delimits itself, splitting cuts right at the joining separator. */
  lemma SplitJoined(x: string, sep: string, rest: string)
    requires sep != "" && Delimits(sep, x)
    ensures Split(x + sep + rest, sep) == [x] + Split(rest, sep)
  {
    var s := x + sep + rest;
    FindJoined(x, sep, rest);
    assert SplitFrom(s, sep, 0) == [s[0..|x|]] + SplitFrom(s, sep, |x| + |sep|);
    SplitFromShift(x + sep, rest, sep, 0);
    assert s[0..|x|] == x;
  }

  /**
   * `sep.join(parts).split(sep) == parts` when `parts` is not empty and every
   * part delimits itself against `sep`.
   */
  lemma {:induction false} SplitJoin(parts: seq<string>, sep: string)
    requires sep != "" && parts != []
    requires forall k :: 0 <= k < |parts| ==> Delimits(sep, parts[k])
    ensures Split(Join(parts, sep), sep) == parts
  {
    var x := parts[0];
    assert Delimits(sep, x);
    if |parts| == 1 {
      SplitWhole(x, sep);
    } else {
      var tail := parts[1..];
      forall k | 0 <= k < |tail| ensures Delimits(sep, tail[k]) {
        assert tail[k] == parts[k + 1];
      }
      SplitJoin(tail, sep);
      JoinCons(parts, sep);
      SplitJoined(x, sep, Join(tail, sep));
      assert [x] + tail == parts;
    }
  }

  /** A slice of the right operand of a concatenation, read through the concatenation. */
  lemma SliceOfAppend(a: string, b: string, lo: nat, hi: nat)
    requires lo <= hi <= |b|
    ensures (a + b)[|a| + lo..|a| + hi] == b[lo..hi]
  {
  }

  /** A slice of the left operand of a concatenation, read through the concatenation. */
  lemma SliceOfPrefix(a: string, b: string, lo: nat, hi: nat)
    requires lo <= hi <= |a|
    ensures (a + b)[lo..hi] == a[lo..hi]
  {
  }

  /**
   * In `sep.join(parts)`, part `i` stands at `Offset(parts, sep, i)` and is
   * followed by `sep` unless it is the last part.
   */
  lemma {:induction false} JoinAt(parts: seq<string>, sep: string, i: nat)
    requires i < |parts|
    ensures var o, s := Offset(parts, sep, i), Join(parts, sep);
      o + |parts[i]| <= |s| && s[o..o + |parts[i]|] == parts[i] &&
      (i + 1 < |parts| ==> o + |parts[i]| + |sep| <= |s| && s[o + |parts[i]|..o + |parts[i]| + |sep|] == sep)
  {
    if |parts| == 1 {
      assert Join(parts, sep)[0..|parts[0]|] == parts[0];
    } else {
      var head := parts[0] + sep;
      var rest := Join(parts[1..], sep);
      JoinCons(parts, sep);
      if i == 0 {
        SliceOfPrefix(head, rest, 0, |parts[0]|);
        SliceOfPrefix(parts[0], sep, 0, |parts[0]|);
        SliceOfPrefix(head, rest, |parts[0]|, |head|);
        SliceOfAppend(parts[0], sep, 0, |sep|);
      } else {
        JoinAt(parts[1..], sep, i - 1);
        var o' := Offset(parts[1..], sep, i - 1);
        var n := |parts[i]|;
        assert parts[1..][i - 1] == parts[i];
        assert Offset(parts, sep, i) == |head| + o';
        SliceOfAppend(head, rest, o', o' + n);
        if i + 1 < |parts| {
          SliceOfAppend(head, rest, o' + n, o' + n + |sep|);
        }
      }
    }
  }
}
