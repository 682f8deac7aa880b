/** Lineage strings in the form this module assumes for what the lineage
    lookup returns: segments from coarse to fine, each a rank marker followed
    by a taxon name, each marker at most once, joined by `|`. A lineage may
    carry every rank from Domain down or only some ranks. The lemmas here say
    which rank subsets such a lineage falls into and which name the split
    gives it. The segment lemmas are proved for any table of distinct markers
    and then applied to the rank table. */
module Lineages {
  import opened Frames
  import opened Text
  import opened SplitTaxa

  /** A rank marker: one character other than `_` and `|`, then `__`. */
  predicate IsMarker(m: string) {
    |m| == 3 && m[0] != '_' && m[0] != '|' && m[1] == '_' && m[2] == '_'
  }

  /** A taxon name as it appears after a marker: non-empty, no `|`, and no
      two underscores in a row, so it cannot hold a marker. */
  predicate IsTaxonName(n: string) {
    |n| > 0 && '|' !in n && !Contains(n, "__")
  }

  /** Markers, one per rank, all distinct. */
  ghost predicate MarkerTable(markers: seq<string>) {
    && (forall q :: 0 <= q < |markers| ==> IsMarker(markers[q]))
    && (forall p, q :: 0 <= p < q < |markers| ==> markers[p] != markers[q])
  }

  /** The segments for ranks `j` to `|names| - 1`, joined by `|`. */
  function LineageFrom(markers: seq<string>, names: seq<string>, j: nat): string
    requires j < |names| <= |markers|
    decreases |names| - j
  {
    var seg := markers[j] + names[j];
    if j == |names| - 1 then seg else seg + "|" + LineageFrom(markers, names, j + 1)
  }

  /** A lineage of more than one segment is its first segment, a `|`, and
      the lineage of the remaining segments. */
  lemma LineageStep(markers: seq<string>, names: seq<string>, j: nat)
    requires j + 1 < |names| <= |markers|
    ensures LineageFrom(markers, names, j) == markers[j] + names[j] + "|" + LineageFrom(markers, names, j + 1)
  {
  }

  /** The include markers of a rank table, in order. */
  function IncludeMarkers(ranks: seq<Rank>): seq<string> {
    seq(|ranks|, q requires 0 <= q < |ranks| => ranks[q].includePrefix)
  }

  /** The full lineage of a taxon at rank `|names| - 1`. */
  function RankedLineage(names: seq<string>): string
    requires 0 < |names| <= |RANKS|
  {
    LineageFrom(IncludeMarkers(RANKS), names, 0)
  }

  /** The include markers of the table are seven distinct markers, and the
      last exclude marker `t__` is a marker that is none of them. */
  lemma RankMarkers()
    ensures MarkerTable(IncludeMarkers(RANKS))
    ensures IsMarker(RANKS[|RANKS| - 1].excludePrefix)
    ensures forall j :: 0 <= j < |RANKS| ==> RANKS[j].includePrefix != RANKS[|RANKS| - 1].excludePrefix
  {
    var markers := IncludeMarkers(RANKS);
    forall q | 0 <= q < |markers| ensures IsMarker(markers[q]) {
      assert markers[q][1..] == "__";
    }
    forall p, q | 0 <= p < q < |markers| ensures markers[p] != markers[q] {
      assert markers[p][0] != markers[q][0];
    }
    forall j | 0 <= j < |RANKS| ensures RANKS[j].includePrefix != RANKS[|RANKS| - 1].excludePrefix {
      assert RANKS[j].includePrefix[0] != 't';
    }
  }

  lemma MarkerHasNoPipe(m: string)
    requires IsMarker(m)
    ensures '|' !in m
  {
    assert m == [m[0], '_', '_'];
  }

  /** Two underscores in a row make an occurrence of `__`. */
  lemma DoubleUnderscore(s: string, j: nat)
    requires j + 1 < |s| && s[j] == '_' && s[j + 1] == '_'
    ensures Contains(s, "__")
  {
    assert s[j..j + 2] == "__";
    assert OccursAt(s, "__", j);
  }

  /** In a segment, a marker can occur only at the start. */
  lemma SegmentOccurrence(mk: string, n: string, m: string, i: nat)
    requires IsMarker(mk) && IsMarker(m) && IsTaxonName(n)
    requires OccursAt(mk + n, m, i)
    ensures i == 0 && m == mk
  {
    var s := mk + n;
    OccursAtChar(s, m, i, 0);
    if i == 0 {
      assert s[0..3] == mk;
    } else if i >= 3 {
      assert s[3..] == n;
      OccursInSlice(s, m, i, 3, |s|);
      OccursAtChar(n, m, i - 3, 1);
      OccursAtChar(n, m, i - 3, 2);
      DoubleUnderscore(n, i - 2);
    }
  }

  /** A segment holds a marker exactly when it is the segment's own marker. */
  lemma SegmentMarkers(mk: string, n: string, m: string)
    requires IsMarker(mk) && IsMarker(m) && IsTaxonName(n)
    ensures Contains(mk + n, m) <==> m == mk
  {
    var s := mk + n;
    if m == mk {
      assert s[0..3] == mk;
      assert OccursAt(s, m, 0);
    }
    if Contains(s, m) {
      var i: nat :| OccursAt(s, m, i);
      SegmentOccurrence(mk, n, m, i);
    }
  }

  /** A marker occurs in the segments from `j` on exactly when one of them
      carries it. */
  lemma {:induction false} ContainsInLineage(markers: seq<string>, names: seq<string>, j: nat, m: string)
    requires j < |names| <= |markers| && MarkerTable(markers)
    requires forall q :: 0 <= q < |names| ==> IsTaxonName(names[q])
    requires IsMarker(m)
    ensures Contains(LineageFrom(markers, names, j), m) <==> exists q :: j <= q < |names| && m == markers[q]
    decreases |names| - j
  {
    var seg := markers[j] + names[j];
    SegmentMarkers(markers[j], names[j], m);
    if j < |names| - 1 {
      var rest := LineageFrom(markers, names, j + 1);
      ContainsInLineage(markers, names, j + 1, m);
      MarkerHasNoPipe(m);
      ContainsAroundPipe(seg, rest, m);
    }
  }

  /** A string that starts with marker `mk` and name `n`, followed by nothing
      or by `|`, has that marker and name as its capture. */
  lemma CaptureAtStart(s: string, mk: string, n: string)
    requires IsMarker(mk) && IsTaxonName(n)
    requires |mk + n| <= |s| && s[..|mk + n|] == mk + n
    requires |s| == |mk + n| || s[|mk + n|] == '|'
    ensures ExtractMarked(s, mk) == Some(mk + n)
  {
    var seg := mk + n;
    assert s[0..3] == seg[0..3] == mk;
    assert s[3] == n[0] && n[0] in n;
    assert FirstMarked(s, mk, 0);
    forall j | 3 <= j < |seg| ensures s[j] != '|' {
      assert s[j] == n[j - 3] && n[j - 3] in n;
    }
    assert RunEnds(s, 3, |seg|);
    RunEndsUnique(s, 3, |seg|, RunEnd(s, 3));
    assert s[0..|seg|] == seg;
  }

  /** The capture for the first segment's own marker is that segment. */
  lemma CaptureAtHead(markers: seq<string>, names: seq<string>, j: nat)
    requires j < |names| <= |markers| && IsMarker(markers[j]) && IsTaxonName(names[j])
    ensures ExtractMarked(LineageFrom(markers, names, j), markers[j]) == Some(markers[j] + names[j])
  {
    var seg := markers[j] + names[j];
    if j == |names| - 1 {
      CaptureAtStart(seg, markers[j], names[j]);
    } else {
      var s := seg + "|" + LineageFrom(markers, names, j + 1);
      assert s[..|seg|] == seg;
      CaptureAtStart(s, markers[j], names[j]);
    }
  }

  /** The segments for ranks `j` to `q - 1`, joined by `|`. */
  function LineageRange(markers: seq<string>, names: seq<string>, j: nat, q: nat): string
    requires j < q <= |names| <= |markers|
    decreases q - j
  {
    var seg := markers[j] + names[j];
    if j == q - 1 then seg else seg + "|" + LineageRange(markers, names, j + 1, q)
  }

  /** A lineage is the segments before rank `q`, a `|`, and the rest. */
  lemma {:induction false} SplitLineage(markers: seq<string>, names: seq<string>, j: nat, q: nat)
    requires j < q < |names| <= |markers|
    ensures LineageFrom(markers, names, j) == LineageRange(markers, names, j, q) + "|" + LineageFrom(markers, names, q)
    decreases q - j
  {
    if j < q - 1 {
      SplitLineage(markers, names, j + 1, q);
      var seg := markers[j] + names[j];
      assert seg + "|" + (LineageRange(markers, names, j + 1, q) + "|" + LineageFrom(markers, names, q))
        == (seg + "|" + LineageRange(markers, names, j + 1, q)) + "|" + LineageFrom(markers, names, q);
    }
  }

  /** The segments before rank `q` do not hold rank `q`'s marker. */
  lemma {:induction false} RangeLacksMarker(markers: seq<string>, names: seq<string>, j: nat, q: nat)
    requires j < q < |names| <= |markers| && MarkerTable(markers)
    requires forall p :: 0 <= p < |names| ==> IsTaxonName(names[p])
    ensures !Contains(LineageRange(markers, names, j, q), markers[q])
    decreases q - j
  {
    SegmentMarkers(markers[j], names[j], markers[q]);
    if j < q - 1 {
      RangeLacksMarker(markers, names, j + 1, q);
      MarkerHasNoPipe(markers[q]);
      ContainsAroundPipe(markers[j] + names[j], LineageRange(markers, names, j + 1, q), markers[q]);
    }
  }

  /** The capture for rank `q`'s marker is rank `q`'s segment, wherever it
      stands in the lineage. */
  lemma CaptureInLineage(markers: seq<string>, names: seq<string>, q: nat)
    requires q < |names| <= |markers| && MarkerTable(markers)
    requires forall p :: 0 <= p < |names| ==> IsTaxonName(names[p])
    ensures ExtractMarked(LineageFrom(markers, names, 0), markers[q]) == Some(markers[q] + names[q])
  {
    CaptureAtHead(markers, names, q);
    if q > 0 {
      SplitLineage(markers, names, 0, q);
      RangeLacksMarker(markers, names, 0, q);
      MarkerHasNoPipe(markers[q]);
      ExtractAfterPipe(LineageRange(markers, names, 0, q), LineageFrom(markers, names, q), markers[q]);
    }
  }

  /** The name the split gives rank `q` of a well-formed lineage: the taxon
      name of that rank's segment with its first `_` turned into a space. */
  lemma RankNameInLineage(names: seq<string>, q: nat)
    requires q < |names| <= |RANKS|
    requires forall p :: 0 <= p < |names| ==> IsTaxonName(names[p])
    ensures RankName(RankedLineage(names), RANKS[q].includePrefix) == Some(ReplaceFirst(names[q], "_", " "))
  {
    var markers := IncludeMarkers(RANKS);
    var mk := markers[q];
    var c := mk + names[q];
    RankMarkers();
    CaptureInLineage(markers, names, q);
    assert c[0..3] == mk;
    StripLeadingMarker(c, mk);
    assert c[3..] == names[q];
  }

  /** Rank `j`'s include marker is in a well-formed lineage exactly when the
      lineage reaches rank `j`. */
  lemma IncludeInLineage(names: seq<string>, j: nat)
    requires 0 < |names| <= |RANKS| && j < |RANKS|
    requires forall p :: 0 <= p < |names| ==> IsTaxonName(names[p])
    ensures Contains(RankedLineage(names), RANKS[j].includePrefix) <==> j < |names|
  {
    var markers := IncludeMarkers(RANKS);
    RankMarkers();
    ContainsInLineage(markers, names, 0, markers[j]);
    if Contains(RankedLineage(names), markers[j]) {
      var q :| 0 <= q < |names| && markers[j] == markers[q];
      assert q == j;
    }
  }

  /** The exclude marker of the lineage's own rank is not in it. */
  lemma ExcludeNotInLineage(names: seq<string>)
    requires 0 < |names| <= |RANKS|
    requires forall p :: 0 <= p < |names| ==> IsTaxonName(names[p])
    ensures !Contains(RankedLineage(names), RANKS[|names| - 1].excludePrefix)
  {
    var k := |names| - 1;
    RankTableChain();
    if k < |RANKS| - 1 {
      IncludeInLineage(names, k + 1);
    } else {
      var markers := IncludeMarkers(RANKS);
      RankMarkers();
      ContainsInLineage(markers, names, 0, RANKS[k].excludePrefix);
    }
  }

  /** A well-formed lineage of depth `k + 1` falls into rank `k`'s subset
      and into no other. */
  lemma RankedLineageInOneRank(names: seq<string>)
    requires 0 < |names| <= |RANKS|
    requires forall p :: 0 <= p < |names| ==> IsTaxonName(names[p])
    ensures forall j :: 0 <= j < |RANKS| ==> (InRankLineage(RankedLineage(names), RANKS[j]) <==> j == |names| - 1)
  {
    IncludesUpToRank(names);
    ExcludeNotInLineage(names);
    ChainLineageInOneRank(RankedLineage(names), |names| - 1);
  }

  /** A full lineage holds the include markers of its own rank and of every
      coarser one, and of no finer one. */
  lemma IncludesUpToRank(names: seq<string>)
    requires 0 < |names| <= |RANKS|
    requires forall p :: 0 <= p < |names| ==> IsTaxonName(names[p])
    ensures forall j :: 0 <= j < |RANKS| ==>
      (Contains(RankedLineage(names), RANKS[j].includePrefix) <==> j <= |names| - 1)
  {
    forall j | 0 <= j < |RANKS|
      ensures Contains(RankedLineage(names), RANKS[j].includePrefix) <==> j <= |names| - 1
    {
      IncludeInLineage(names, j);
    }
  }

  /** A lineage without `_` holds no marker and falls into no rank. */
  lemma NoUnderscoreNoRank(l: string)
    requires '_' !in l
    ensures forall j :: 0 <= j < |RANKS| ==> !InRankLineage(l, RANKS[j])
  {
    forall j | 0 <= j < |RANKS| ensures !Contains(l, RANKS[j].includePrefix) {
      var m := RANKS[j].includePrefix;
      assert m[1] == '_';
      forall p | 0 <= p < |l| - 1 ensures !(l[p] == m[0] && l[p + 1] == m[1]) {
        assert l[p + 1] in l;
      }
      NoOccurrenceWithoutPair(l, m);
    }
  }

  /** The markers at positions `ks` of a marker table, in the order of `ks`. */
  function SelectMarkers(markers: seq<string>, ks: seq<nat>): (sel: seq<string>)
    requires forall i :: 0 <= i < |ks| ==> ks[i] < |markers|
    ensures |sel| == |ks|
    ensures forall i :: 0 <= i < |ks| ==> sel[i] == markers[ks[i]]
  {
    if |ks| == 0 then [] else [markers[ks[0]]] + SelectMarkers(markers, ks[1..])
  }

  /** `ks` names distinct ranks of the table. */
  ghost predicate RankIndices(ks: seq<nat>) {
    && (forall i :: 0 <= i < |ks| ==> ks[i] < |RANKS|)
    && (forall i, i' :: 0 <= i < i' < |ks| ==> ks[i] != ks[i'])
  }

  /** A lineage whose segments carry the markers of the ranks `ks` only,
      in any selection: some ranks may be missing. */
  function SparseLineage(ks: seq<nat>, names: seq<string>): string
    requires RankIndices(ks) && 0 < |names| == |ks|
  {
    LineageFrom(SelectMarkers(IncludeMarkers(RANKS), ks), names, 0)
  }

  /** Rank j's include marker is in such a lineage exactly when rank j is
      one of its segments. */
  lemma SparseInclude(ks: seq<nat>, names: seq<string>, j: nat)
    requires RankIndices(ks) && 0 < |names| == |ks| && j < |RANKS|
    requires forall p :: 0 <= p < |names| ==> IsTaxonName(names[p])
    ensures Contains(SparseLineage(ks, names), RANKS[j].includePrefix) <==> j in ks
  {
    var mk := IncludeMarkers(RANKS);
    var sel := SelectMarkers(mk, ks);
    RankMarkers();
    forall p, q | 0 <= p < q < |sel| ensures sel[p] != sel[q] {
      assert ks[p] != ks[q];
    }
    ContainsInLineage(sel, names, 0, mk[j]);
    if j in ks {
      var q :| 0 <= q < |ks| && ks[q] == j;
      assert mk[j] == sel[q];
    }
    if Contains(SparseLineage(ks, names), mk[j]) {
      var q :| 0 <= q < |names| && mk[j] == sel[q];
      assert ks[q] == j;
    }
  }

  /** The Species exclude marker `t__` is in no such lineage. */
  lemma SparseLacksLastExclude(ks: seq<nat>, names: seq<string>)
    requires RankIndices(ks) && 0 < |names| == |ks|
    requires forall p :: 0 <= p < |names| ==> IsTaxonName(names[p])
    ensures !Contains(SparseLineage(ks, names), RANKS[|RANKS| - 1].excludePrefix)
  {
    var mk := IncludeMarkers(RANKS);
    var sel := SelectMarkers(mk, ks);
    RankMarkers();
    forall p, q | 0 <= p < q < |sel| ensures sel[p] != sel[q] {
      assert ks[p] != ks[q];
    }
    ContainsInLineage(sel, names, 0, RANKS[|RANKS| - 1].excludePrefix);
  }

  /** A lineage with ranks missing falls into the subset of every present
      rank whose next rank is absent: with a gap, that is more than one. */
  lemma SparseLineageRanks(ks: seq<nat>, names: seq<string>)
    requires RankIndices(ks) && 0 < |names| == |ks|
    requires forall p :: 0 <= p < |names| ==> IsTaxonName(names[p])
    ensures forall j :: 0 <= j < |RANKS| ==>
      (InRankLineage(SparseLineage(ks, names), RANKS[j]) <==> j in ks && j + 1 !in ks)
  {
    RankTableChain();
    forall j | 0 <= j < |RANKS|
      ensures InRankLineage(SparseLineage(ks, names), RANKS[j]) <==> j in ks && j + 1 !in ks
    {
      SparseInclude(ks, names, j);
      if j < |RANKS| - 1 {
        SparseInclude(ks, names, j + 1);
      } else {
        SparseLacksLastExclude(ks, names);
        assert j + 1 !in ks;
      }
    }
  }
}
