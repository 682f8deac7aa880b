/** The string expressions the rank split applies to a lineage: substring
    search (`str.contains`), capture of a marker and the run of non-`|`
    characters after it (`str.extract`), and replacement of the leftmost
    match (`str.replace`, which replaces one match only). The patterns used
    are literal text, so a regular-expression match is a substring match. */
module Text {
  import opened Frames

  /** `m` occurs in `s` starting at index `i`. */
  predicate OccursAt(s: string, m: string, i: nat) {
    i + |m| <= |s| && s[i..i + |m|] == m
  }

  /** `i` is the leftmost occurrence of `m` in `s`. */
  ghost predicate FirstOccurrence(s: string, m: string, i: nat) {
    OccursAt(s, m, i) && forall j :: 0 <= j < i ==> !OccursAt(s, m, j)
  }

  /** The leftmost occurrence of `m` in `s` at or after `from`. */
  function FindFrom(s: string, m: string, from: nat): (r: Option<nat>)
    requires from <= |s|
    ensures r.Some? ==> from <= r.value && OccursAt(s, m, r.value)
    ensures r.Some? ==> forall j :: from <= j < r.value ==> !OccursAt(s, m, j)
    ensures r.None? ==> forall j: nat :: from <= j ==> !OccursAt(s, m, j)
    decreases |s| - from
  {
    if OccursAt(s, m, from) then Some(from)
    else if from == |s| then None
    else FindFrom(s, m, from + 1)
  }

  /** The substring test. */
  function Contains(s: string, m: string): (b: bool)
    ensures b <==> exists i :: OccursAt(s, m, i)
  {
    FindFrom(s, m, 0).Some?
  }

  /** Replaces the leftmost occurrence of `pat` by `rep`; without one, `s` is
      returned unchanged. */
  function ReplaceFirst(s: string, pat: string, rep: string): (r: string)
    ensures (forall i: nat :: !OccursAt(s, pat, i)) ==> r == s
    ensures forall i: nat :: FirstOccurrence(s, pat, i) ==> r == s[..i] + rep + s[i + |pat|..]
  {
    match FindFrom(s, pat, 0)
    case None => s
    case Some(i) =>
      assert forall k: nat :: FirstOccurrence(s, pat, k) ==> k == i;
      s[..i] + rep + s[i + |pat|..]
  }

  /** The capture `m[^|]+` can start at `i`: `m` occurs there and is followed
      by at least one character other than `|`. */
  predicate MarkedAt(s: string, m: string, i: nat) {
    OccursAt(s, m, i) && i + |m| < |s| && s[i + |m|] != '|'
  }

  ghost predicate FirstMarked(s: string, m: string, i: nat) {
    MarkedAt(s, m, i) && forall j :: 0 <= j < i ==> !MarkedAt(s, m, j)
  }

  /** `e` ends the run of non-`|` characters that starts at `k`. */
  ghost predicate RunEnds(s: string, k: nat, e: nat) {
    k <= e <= |s| && (forall j :: k <= j < e ==> s[j] != '|') && (e == |s| || s[e] == '|')
  }

  function FindMarkedFrom(s: string, m: string, from: nat): (r: Option<nat>)
    requires from <= |s|
    ensures r.Some? ==> from <= r.value && MarkedAt(s, m, r.value)
    ensures r.Some? ==> forall j :: from <= j < r.value ==> !MarkedAt(s, m, j)
    ensures r.None? ==> forall j: nat :: from <= j ==> !MarkedAt(s, m, j)
    decreases |s| - from
  {
    if MarkedAt(s, m, from) then Some(from)
    else if from == |s| then None
    else FindMarkedFrom(s, m, from + 1)
  }

  function RunEnd(s: string, k: nat): (e: nat)
    requires k <= |s|
    ensures RunEnds(s, k, e)
    decreases |s| - k
  {
    if k == |s| || s[k] == '|' then k else RunEnd(s, k + 1)
  }

  /** The run that starts at `k` has one end. */
  lemma RunEndsUnique(s: string, k: nat, e1: nat, e2: nat)
    requires RunEnds(s, k, e1) && RunEnds(s, k, e2)
    ensures e1 == e2
  {
  }

  /** Group 1 of the pattern `(m[^|]+)`: the leftmost occurrence of `m` that
      is followed by a non-`|` character, together with the whole run of
      non-`|` characters after it; `None` (null) when there is no such place. */
  function ExtractMarked(s: string, m: string): (r: Option<string>)
    ensures r.None? <==> forall i: nat :: !MarkedAt(s, m, i)
    ensures forall i: nat :: FirstMarked(s, m, i) ==> r == Some(s[i..RunEnd(s, i + |m|)])
  {
    match FindMarkedFrom(s, m, 0)
    case None => None
    case Some(i) =>
      assert forall k: nat :: FirstMarked(s, m, k) ==> k == i;
      Some(s[i..RunEnd(s, i + |m|)])
  }

  /** Removing `m` from a string that starts with `m` drops that prefix. */
  lemma StripLeadingMarker(c: string, m: string)
    requires OccursAt(c, m, 0)
    ensures ReplaceFirst(c, m, "") == c[|m|..]
  {
    assert FirstOccurrence(c, m, 0);
  }

  /** The captured run of a marker occurrence, with the marker removed, is
      the text after the marker up to the next `|`. */
  lemma StripCapturedMarker(s: string, m: string, i: nat)
    requires MarkedAt(s, m, i)
    ensures ReplaceFirst(s[i..RunEnd(s, i + |m|)], m, "") == s[i + |m|..RunEnd(s, i + |m|)]
  {
    var e := RunEnd(s, i + |m|);
    var c := s[i..e];
    assert c[0..|m|] == s[i..i + |m|];
    StripLeadingMarker(c, m);
    assert c[|m|..] == s[i + |m|..e];
  }

  /** Replacing `"_"` by `" "` changes one character only, the first `_`;
      every later `_` stays. */
  lemma FirstUnderscoreOnly(x: string, k: nat)
    requires k < |x| && x[k] == '_'
    requires forall j :: 0 <= j < k ==> x[j] != '_'
    ensures ReplaceFirst(x, "_", " ") == x[..k] + " " + x[k + 1..]
  {
    forall j: nat | j < k ensures !OccursAt(x, "_", j) {
      OneCharOccurrence(x, '_', j);
    }
    OneCharOccurrence(x, '_', k);
    assert FirstOccurrence(x, "_", k);
  }

  /** A name without `_` is left as it is. */
  lemma NoUnderscoreUnchanged(x: string)
    requires forall j :: 0 <= j < |x| ==> x[j] != '_'
    ensures ReplaceFirst(x, "_", " ") == x
  {
    forall i: nat ensures !OccursAt(x, "_", i) {
      OneCharOccurrence(x, '_', i);
    }
  }

  /** A one-character pattern occurs exactly where that character stands. */
  lemma OneCharOccurrence(s: string, c: char, i: nat)
    ensures OccursAt(s, [c], i) <==> i < |s| && s[i] == c
  {
    if i < |s| {
      assert s[i..i + 1][0] == s[i];
    }
  }

  /** The characters of an occurrence are those of the pattern. */
  lemma OccursAtChar(s: string, m: string, i: nat, j: nat)
    requires OccursAt(s, m, i) && j < |m|
    ensures s[i + j] == m[j]
  {
    assert s[i..i + |m|][j] == s[i + j];
  }

  /** An occurrence inside the window `lo..hi` of `s` is an occurrence in
      that slice, shifted by `lo`, and back. */
  lemma OccursInSlice(s: string, m: string, i: nat, lo: nat, hi: nat)
    requires lo <= i && i + |m| <= hi <= |s|
    ensures OccursAt(s, m, i) <==> OccursAt(s[lo..hi], m, i - lo)
  {
    var w := s[lo..hi];
    var x, y := w[i - lo..i - lo + |m|], s[i..i + |m|];
    forall t | 0 <= t < |m| ensures x[t] == y[t] {
      assert w[i - lo + t] == s[lo + (i - lo + t)];
    }
    assert x == y;
  }

  /** In `a + "|" + b`, an occurrence of a pattern without `|` lies wholly in
      `a` or wholly in `b`. */
  lemma OccursAroundPipe(a: string, b: string, m: string, i: nat)
    requires '|' !in m
    ensures OccursAt(a + "|" + b, m, i) <==>
      (i + |m| <= |a| && OccursAt(a, m, i)) || (i > |a| && OccursAt(b, m, i - |a| - 1))
  {
    var s := a + "|" + b;
    assert s[..|a|] == a && s[|a| + 1..] == b;
    if i + |m| <= |a| {
      OccursInSlice(s, m, i, 0, |a|);
    } else if i > |a| {
      if i + |m| <= |s| {
        OccursInSlice(s, m, i, |a| + 1, |s|);
      }
    } else if OccursAt(s, m, i) {
      assert s[|a|] == '|';
      OccursAtChar(s, m, i, |a| - i);
    }
  }

  /** A pattern without `|` occurs in two `|`-separated parts exactly when it
      occurs in one of them. */
  lemma ContainsAroundPipe(a: string, b: string, m: string)
    requires '|' !in m
    ensures Contains(a + "|" + b, m) <==> Contains(a, m) || Contains(b, m)
  {
    var s := a + "|" + b;
    if Contains(a, m) {
      var i: nat :| OccursAt(a, m, i);
      OccursAroundPipe(a, b, m, i);
    }
    if Contains(b, m) {
      var i: nat :| OccursAt(b, m, i);
      OccursAroundPipe(a, b, m, i + |a| + 1);
    }
    if Contains(s, m) {
      var i: nat :| OccursAt(s, m, i);
      OccursAroundPipe(a, b, m, i);
    }
  }

  /** No two adjacent characters of `s` are the first two of `m`, so `m`
      does not occur in `s`. */
  lemma NoOccurrenceWithoutPair(s: string, m: string)
    requires |m| >= 2
    requires forall j :: 0 <= j < |s| - 1 ==> !(s[j] == m[0] && s[j + 1] == m[1])
    ensures !Contains(s, m)
  {
    forall i: nat | OccursAt(s, m, i) ensures false {
      OccursAtChar(s, m, i, 0);
      OccursAtChar(s, m, i, 1);
    }
  }

  /** In `a + "|" + b`, a capture can start only inside `b`, at the places it
      can start in `b` alone, when `a` does not hold the marker. */
  lemma MarkedAroundPipe(a: string, b: string, m: string, i: nat)
    requires '|' !in m && !Contains(a, m)
    ensures MarkedAt(a + "|" + b, m, i) <==> i > |a| && MarkedAt(b, m, i - |a| - 1)
  {
    OccursAroundPipe(a, b, m, i);
    if i > |a| && i + |m| < |a + "|" + b| {
      assert (a + "|" + b)[i + |m|] == b[i - |a| - 1 + |m|];
    }
  }

  /** The run of non-`|` characters starting inside `b` ends at the same
      place, shifted, in `a + "|" + b`. */
  lemma RunEndAfterPipe(a: string, b: string, k: nat)
    requires k <= |b|
    ensures RunEnd(a + "|" + b, k + |a| + 1) == RunEnd(b, k) + |a| + 1
  {
    var s := a + "|" + b;
    var off := |a| + 1;
    var e := RunEnd(b, k);
    assert forall j :: k + off <= j < e + off ==> s[j] == b[j - off];
    assert e < |b| ==> s[e + off] == b[e];
    assert RunEnds(s, k + off, e + off);
    RunEndsUnique(s, k + off, e + off, RunEnd(s, k + off));
  }

  /** A slice of `b` is the same slice, shifted, of `a + "|" + b`. */
  lemma SliceAfterPipe(a: string, b: string, lo: nat, hi: nat)
    requires lo <= hi <= |b|
    ensures (a + "|" + b)[lo + |a| + 1..hi + |a| + 1] == b[lo..hi]
  {
  }

  /** The leftmost capture start of `b` is the leftmost one of `a + "|" + b`,
      shifted, when `a` does not hold the marker. */
  lemma FirstMarkedAfterPipe(a: string, b: string, m: string, i: nat)
    requires '|' !in m && !Contains(a, m)
    requires FirstMarked(b, m, i)
    ensures FirstMarked(a + "|" + b, m, i + |a| + 1)
  {
    forall j: nat | j < i + |a| + 1 ensures !MarkedAt(a + "|" + b, m, j) {
      MarkedAroundPipe(a, b, m, j);
    }
    MarkedAroundPipe(a, b, m, i + |a| + 1);
  }

  /** Without a capture in `b`, there is none in `a + "|" + b`. */
  lemma NoCaptureAfterPipe(a: string, b: string, m: string)
    requires '|' !in m && !Contains(a, m)
    requires forall i: nat :: !MarkedAt(b, m, i)
    ensures ExtractMarked(a + "|" + b, m) == None
  {
    forall i: nat ensures !MarkedAt(a + "|" + b, m, i) {
      MarkedAroundPipe(a, b, m, i);
    }
  }

  /** The capture starting at `i` in `b` is the capture of `a + "|" + b`. */
  lemma CaptureAfterPipe(a: string, b: string, m: string, i: nat)
    requires '|' !in m && !Contains(a, m)
    requires FirstMarked(b, m, i)
    ensures ExtractMarked(a + "|" + b, m) == Some(b[i..RunEnd(b, i + |m|)])
  {
    FirstMarkedAfterPipe(a, b, m, i);
    RunEndAfterPipe(a, b, i + |m|);
    SliceAfterPipe(a, b, i, RunEnd(b, i + |m|));
  }

  /** When the part before the first `|` holds no occurrence of `m` (which has
      no `|`), the capture comes from the part after it. */
  lemma ExtractAfterPipe(a: string, b: string, m: string)
    requires '|' !in m && !Contains(a, m)
    ensures ExtractMarked(a + "|" + b, m) == ExtractMarked(b, m)
  {
    match FindMarkedFrom(b, m, 0)
    case None =>
      NoCaptureAfterPipe(a, b, m);
    case Some(i) =>
      CaptureAfterPipe(a, b, m, i);
  }
}
