/**
 * Python's `str.find(sep, start)` and `str.split(sep)` for a non-empty
 * separator, together with `sep.join(pieces)`, the inverse that specifies
 * what splitting does.
 */
module StrSplit {
  import opened Wrappers

  /** `sep` occurs in `s` starting at index `j`. */
  predicate OccursAt(s: string, sep: string, j: nat) {
    j + |sep| <= |s| && s[j..j + |sep|] == sep
  }

  /** Python's `sep in s`. */
  predicate Contains(s: string, sep: string) {
    exists j: nat :: j <= |s| && OccursAt(s, sep, j)
  }

  /** A separator no proper suffix of which is also a prefix of it, such as "; ". */
  predicate Unbordered(sep: string) {
    forall k :: 0 < k < |sep| ==> sep[k..] != sep[..|sep| - k]
  }

  /** Python's `s.find(sep, i)`: the leftmost occurrence of `sep` at or after `i`, `None` for -1. */
  function Find(s: string, sep: string, i: nat): (r: Option<nat>)
    decreases |s| - i
    ensures r.Some? ==> i <= r.value && OccursAt(s, sep, r.value)
    ensures r.Some? ==> forall j: nat :: i <= j < r.value ==> !OccursAt(s, sep, j)
    ensures r.None? ==> forall j: nat :: i <= j ==> !OccursAt(s, sep, j)
  {
    if i + |sep| > |s| then None
    else if s[i..i + |sep|] == sep then Some(i)
    else Find(s, sep, i + 1)
  }

  /**
   * Python's `s.split(sep)`: cut at the leftmost occurrence, then split
   * what follows it, so that matches never overlap; "" splits to [""].
   */
  function Split(s: string, sep: string): (r: seq<string>)
    requires |sep| > 0
    decreases |s|
    ensures |r| >= 1
  {
    match Find(s, sep, 0)
    case None => [s]
    case Some(i) => [s[..i]] + Split(s[i + |sep|..], sep)
  }

  /** Python's `sep.join(pieces)`. */
  function Join(pieces: seq<string>, sep: string): string
  {
    if |pieces| == 0 then ""
    else if |pieces| == 1 then pieces[0]
    else pieces[0] + sep + Join(pieces[1..], sep)
  }

  /** No piece contains the separator. */
  predicate SeparatorFree(pieces: seq<string>, sep: string) {
    forall k :: 0 <= k < |pieces| ==> !Contains(pieces[k], sep)
  }

  /** Joining a piece in front of a non-empty list puts the separator between them. */
  lemma JoinCons(head: string, tail: seq<string>, sep: string)
    requires |tail| >= 1
    ensures Join([head] + tail, sep) == head + sep + Join(tail, sep)
  {
  }

  /** Re-joining the pieces with the separator gives back the split string. */
  lemma {:induction false} JoinSplit(s: string, sep: string)
    requires |sep| > 0
    decreases |s|
    ensures Join(Split(s, sep), sep) == s
  {
    match Find(s, sep, 0)
    case None =>
    case Some(i) =>
      var rest := s[i + |sep|..];
      var tail := Split(rest, sep);
      JoinSplit(rest, sep);
      assert Split(s, sep) == [s[..i]] + tail;
      JoinCons(s[..i], tail, sep);
      assert s == s[..i] + s[i..i + |sep|] + rest;
  }

  /** Every piece `Split` returns is free of the separator. */
  lemma {:induction false} SplitSeparatorFree(s: string, sep: string)
    requires |sep| > 0
    decreases |s|
    ensures SeparatorFree(Split(s, sep), sep)
  {
    match Find(s, sep, 0)
    case None =>
    case Some(i) =>
      var rest := s[i + |sep|..];
      SplitSeparatorFree(rest, sep);
      PrefixBeforeFirstIsFree(s, sep, i);
      var r := Split(s, sep);
      assert r == [s[..i]] + Split(rest, sep);
      forall k | 0 <= k < |r| ensures !Contains(r[k], sep) {
        if k > 0 { assert r[k] == Split(rest, sep)[k - 1]; }
      }
  }

  /** The text before the first occurrence does not contain the separator. */
  lemma PrefixBeforeFirstIsFree(s: string, sep: string, i: nat)
    requires |sep| > 0 && i <= |s|
    requires forall j: nat :: j < i ==> !OccursAt(s, sep, j)
    ensures !Contains(s[..i], sep)
  {
    forall j: nat | j <= i ensures !OccursAt(s[..i], sep, j) {
      if j + |sep| <= i {
        assert s[..i][j..j + |sep|] == s[j..j + |sep|];
        assert !OccursAt(s, sep, j);
      }
    }
  }

  /** A string splits into a single piece, itself, exactly when it does not contain the separator. */
  lemma SplitSingleton(s: string, sep: string)
    requires |sep| > 0
    ensures Split(s, sep) == [s] <==> !Contains(s, sep)
  {
  }

  /** Where a separator-free piece is followed by the separator, the first occurrence is right after the piece. */
  lemma FindAfterPiece(p: string, sep: string, rest: string)
    requires |sep| > 0 && Unbordered(sep)
    requires !Contains(p, sep)
    ensures Find(p + sep + rest, sep, 0) == Some(|p|)
  {
    var s := p + sep + rest;
    assert s[|p|..|p| + |sep|] == sep;
    assert OccursAt(s, sep, |p|);
    forall j: nat | j < |p| ensures !OccursAt(s, sep, j) {
      NoOccurrenceInsidePiece(p, sep, rest, j);
    }
  }

  /** An occurrence cannot start inside a separator-free piece that the separator follows. */
  lemma NoOccurrenceInsidePiece(p: string, sep: string, rest: string, j: nat)
    requires |sep| > 0 && Unbordered(sep)
    requires !Contains(p, sep)
    requires j < |p|
    ensures !OccursAt(p + sep + rest, sep, j)
  {
    var s := p + sep + rest;
    if j + |sep| <= |p| {
      assert s[j..j + |sep|] == p[j..j + |sep|];
      assert !OccursAt(p, sep, j);
    } else {
      var k := |p| - j;
      assert sep[k..] != sep[..|sep| - k];
      var t :| 0 <= t < |sep| - k && sep[k + t] != sep[t];
      assert s[j + k + t] == sep[t];
      assert s[j..j + |sep|][k + t] != sep[k + t];
    }
  }

  /** A separator-free piece followed by the separator is split off as the first piece. */
  lemma SplitAfterPiece(p: string, sep: string, rest: string)
    requires |sep| > 0 && Unbordered(sep)
    requires !Contains(p, sep)
    ensures Split(p + sep + rest, sep) == [p] + Split(rest, sep)
  {
    FindAfterPiece(p, sep, rest);
    var s := p + sep + rest;
    assert s[..|p|] == p;
    assert s[|p| + |sep|..] == rest;
  }

  /** Dropping the first piece keeps the rest separator-free. */
  lemma SeparatorFreeTail(pieces: seq<string>, sep: string)
    requires |pieces| >= 1 && SeparatorFree(pieces, sep)
    ensures SeparatorFree(pieces[1..], sep)
  {
  }

  /**
   * Splitting a join of separator-free pieces gives back the pieces, when
   * the separator is unbordered: the two functions are mutual inverses.
   */
  lemma {:induction false} SplitJoin(pieces: seq<string>, sep: string)
    requires |sep| > 0 && Unbordered(sep)
    requires |pieces| >= 1 && SeparatorFree(pieces, sep)
    decreases |pieces|
    ensures Split(Join(pieces, sep), sep) == pieces
  {
    assert !Contains(pieces[0], sep);
    if |pieces| == 1 {
      SplitSingleton(pieces[0], sep);
    } else {
      var tail := pieces[1..];
      var rest := Join(tail, sep);
      assert Join(pieces, sep) == pieces[0] + sep + rest;
      SeparatorFreeTail(pieces, sep);
      SplitJoin(tail, sep);
      SplitAfterPiece(pieces[0], sep, rest);
      assert pieces == [pieces[0]] + tail;
    }
  }
}
