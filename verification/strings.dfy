/** Splitting text on a separator, as Rust's `str::split` with a non-empty
    pattern, and joining the pieces back. */
module Strings {
  import opened Results

  /** `sep` occurs in `s` starting at index `i`. */
  predicate OccursAt(s: string, sep: string, i: int) {
    0 <= i && i + |sep| <= |s| && s[i..i + |sep|] == sep
  }

  /** `sep` occurs somewhere in `s`. */
  predicate Contains(s: string, sep: string) {
    exists i :: 0 <= i <= |s| && OccursAt(s, sep, i)
  }

  /** The first index at or after `k` where `sep` occurs in `s`. */
  function FindFrom(s: string, sep: string, k: nat): (r: Option<nat>)
    requires k <= |s|
    ensures r.Some? ==> k <= r.value && OccursAt(s, sep, r.value)
    ensures r.Some? ==> forall j :: k <= j < r.value ==> !OccursAt(s, sep, j)
    ensures r.None? ==> forall j :: k <= j ==> !OccursAt(s, sep, j)
    decreases |s| - k
  {
    if k + |sep| > |s| then None
    else if s[k..k + |sep|] == sep then Some(k)
    else FindFrom(s, sep, k + 1)
  }

  /** The first index where `sep` occurs in `s`. */
  function Find(s: string, sep: string): Option<nat> {
    FindFrom(s, sep, 0)
  }

  /** The pieces of `s` between successive left-to-right occurrences of `sep`;
      there is always at least one piece, possibly empty. */
  function Split(s: string, sep: string): (r: seq<string>)
    requires |sep| > 0
    ensures |r| >= 1
    ensures forall k :: 0 <= k < |r| ==> !Contains(r[k], sep)
    decreases |s|
  {
    match Find(s, sep)
    case None => [s]
    case Some(i) =>
      NoOccurrenceBeforeFirst(s, sep, i);
      [s[..i]] + Split(s[i + |sep|..], sep)
  }

  /** The pieces of `ps` with `sep` between consecutive ones. */
  function Join(ps: seq<string>, sep: string): string
    decreases |ps|
  {
    if |ps| == 0 then ""
    else if |ps| == 1 then ps[0]
    else ps[0] + sep + Join(ps[1..], sep)
  }

  /** The text before the first occurrence of `sep` has no occurrence of it. */
  lemma NoOccurrenceBeforeFirst(s: string, sep: string, i: nat)
    requires |sep| > 0 && i <= |s|
    requires forall j :: 0 <= j < i ==> !OccursAt(s, sep, j)
    ensures !Contains(s[..i], sep)
  {
    forall j | 0 <= j <= i
      ensures !OccursAt(s[..i], sep, j)
    {
      if j + |sep| <= i {
        assert s[..i][j..j + |sep|] == s[j..j + |sep|];
        assert !OccursAt(s, sep, j);
      }
    }
  }

  /** Joining the pieces with the separator gives back the original text. */
  lemma {:induction false} JoinSplit(s: string, sep: string)
    requires |sep| > 0
    ensures Join(Split(s, sep), sep) == s
    decreases |s|
  {
    var f := Find(s, sep);
    if f.Some? {
      var i := f.value;
      var rest := s[i + |sep|..];
      var tail := Split(rest, sep);
      JoinSplit(rest, sep);
      var ps := [s[..i]] + tail;
      assert Split(s, sep) == ps;
      assert ps[1..] == tail;
      assert Join(ps, sep) == s[..i] + sep + Join(tail, sep);
      assert s[i..i + |sep|] == sep;
      assert s == s[..i] + s[i..i + |sep|] + rest;
    }
  }

  /** For a one-character separator, splitting a join of pieces that do not
      contain the separator gives back those pieces. */
  lemma {:induction false} SplitJoin(ps: seq<string>, sep: string)
    requires |sep| == 1 && |ps| >= 1
    requires forall k :: 0 <= k < |ps| ==> !Contains(ps[k], sep)
    ensures Split(Join(ps, sep), sep) == ps
    decreases |ps|
  {
    if |ps| > 1 {
      var p := ps[0];
      var tail := Join(ps[1..], sep);
      var s := Join(ps, sep);
      assert s == p + sep + tail;
      assert OccursAt(s, sep, |p|) by {
        assert s[|p|..|p| + 1] == sep;
      }
      forall j | 0 <= j < |p|
        ensures !OccursAt(s, sep, j)
      {
        assert s[j..j + 1] == p[j..j + 1];
        assert !OccursAt(p, sep, j);
      }
      FirstOccurrence(s, sep, |p|);
      assert s[..|p|] == p;
      assert s[|p| + 1..] == tail;
      SplitJoin(ps[1..], sep);
      assert Split(s, sep) == [p] + Split(tail, sep);
      assert ps == [p] + ps[1..];
    }
  }

  /** An occurrence with none before it is what `Find` returns. */
  lemma FirstOccurrence(s: string, sep: string, i: nat)
    requires OccursAt(s, sep, i)
    requires forall j :: 0 <= j < i ==> !OccursAt(s, sep, j)
    ensures Find(s, sep) == Some(i)
  {
  }

  /** The first piece is the longest prefix that holds no occurrence of the
      separator: either all of `s`, or the text just before the first one. */
  lemma FirstPiece(s: string, sep: string)
    requires |sep| > 0
    ensures Split(s, sep)[0] <= s
    ensures !Contains(Split(s, sep)[0], sep)
    ensures Split(s, sep)[0] == s || OccursAt(s, sep, |Split(s, sep)[0]|)
    ensures Contains(s, sep) ==> Split(s, sep)[0] != s
  {
    match Find(s, sep)
    case None =>
    case Some(i) =>
      assert Split(s, sep)[0] == s[..i];
  }

  /** Only the text before the first `": "` decides the first piece: whatever
      follows the first `": "` is never looked at. */
  lemma FirstPieceBeforeColonSpace(a: string, b: string)
    requires !Contains(a, ": ")
    ensures Split(a + ": " + b, ": ")[0] == a
  {
    var s := a + ": " + b;
    assert OccursAt(s, ": ", |a|) by {
      assert s[|a|..|a| + 2] == ": ";
    }
    forall j | 0 <= j < |a|
      ensures !OccursAt(s, ": ", j)
    {
      if j + 2 <= |a| {
        assert s[j..j + 2] == a[j..j + 2];
        assert !OccursAt(a, ": ", j);
      } else {
        assert s[j + 1] == ':';
      }
    }
    FirstOccurrence(s, ": ", |a|);
  }

  /** Text without the separator's first character holds no occurrence. */
  lemma NoLeadingCharNoOccurrence(s: string, sep: string)
    requires |sep| > 0
    requires forall i :: 0 <= i < |s| ==> s[i] != sep[0]
    ensures !Contains(s, sep)
  {
    forall j | 0 <= j <= |s|
      ensures !OccursAt(s, sep, j)
    {
      if j + |sep| <= |s| {
        assert s[j..j + |sep|][0] == s[j];
      }
    }
  }
}
