/** The rank table and the per-rank split of an enriched frame: for each rank,
    the rows whose lineage holds the rank's marker and not the next finer
    one, with the rank's taxon name cut out of the lineage. */
module SplitTaxa {
  import opened Frames
  import opened Text
  import opened Records

  /** One entry of the table: label, include marker, exclude marker. */
  datatype Rank = Rank(rankName: string, includePrefix: string, excludePrefix: string)

  const RANKS: seq<Rank> := [
    Rank("Domain", "d__", "p__"),
    Rank("Phylum", "p__", "c__"),
    Rank("Class", "c__", "o__"),
    Rank("Order", "o__", "f__"),
    Rank("Family", "f__", "g__"),
    Rank("Genus", "g__", "s__"),
    Rank("Species", "s__", "t__")
  ]

  const RANK_LABELS: set<string> := {"Domain", "Phylum", "Class", "Order", "Family", "Genus", "Species"}

  /** Each rank excludes the marker the next rank includes; no exclude
      marker is empty, so the exclude filter always runs. */
  lemma RankTableChain()
    ensures |RANKS| == 7
    ensures forall i :: 0 <= i < |RANKS| - 1 ==> RANKS[i].excludePrefix == RANKS[i + 1].includePrefix
    ensures forall i :: 0 <= i < |RANKS| ==> RANKS[i].excludePrefix != ""
  {
  }

  ghost predicate DistinctLabels(ranks: seq<Rank>) {
    forall i, j :: 0 <= i < j < |ranks| ==> ranks[i].rankName != ranks[j].rankName
  }

  /** The seven labels are distinct (their first letters already differ),
      so no rank overwrites another in the result. */
  lemma RankLabelsDistinct()
    ensures DistinctLabels(RANKS)
  {
    forall i, j | 0 <= i < j < |RANKS| ensures RANKS[i].rankName != RANKS[j].rankName {
      assert RANKS[i].rankName[0] != RANKS[j].rankName[0];
    }
  }

  /** The label set is the set of the table's labels. */
  lemma RankLabelsAreTheTable()
    ensures RANK_LABELS == set i | 0 <= i < |RANKS| :: RANKS[i].rankName
  {
    var labels := set i | 0 <= i < |RANKS| :: RANKS[i].rankName;
    assert labels <= RANK_LABELS;
    assert RANKS[0].rankName in labels && RANKS[1].rankName in labels;
    assert RANKS[2].rankName in labels && RANKS[3].rankName in labels;
    assert RANKS[4].rankName in labels && RANKS[5].rankName in labels;
    assert RANKS[6].rankName in labels;
  }

  /** There are seven labels. */
  lemma RankLabelCount()
    ensures |RANK_LABELS| == 7
  {
  }

  /** Where the Phylum and Species labels stand in the table. */
  lemma LabelPositions()
    ensures forall j :: 0 <= j < |RANKS| ==> (RANKS[j].rankName == "Phylum" <==> j == 1)
    ensures forall j :: 0 <= j < |RANKS| ==> (RANKS[j].rankName == "Species" <==> j == 6)
  {
    forall j | 0 <= j < |RANKS| && j != 1 ensures RANKS[j].rankName != "Phylum" {
      assert RANKS[j].rankName[0] != 'P';
    }
    forall j | 0 <= j < |RANKS| && j != 6 ensures RANKS[j].rankName != "Species" {
      assert RANKS[j].rankName[0] != 'S';
    }
  }

  /** `str.contains` of the marker as a filter condition: a null lineage gives null,
      which the filter drops. */
  predicate LineageContains(e: Enriched, m: string) {
    e.lineage.Some? && Contains(e.lineage.value, m)
  }

  /** The negated `str.contains` of the marker as a filter condition: the negation of null is
      null, so a null lineage is dropped here as well. */
  predicate LineageLacks(e: Enriched, m: string) {
    e.lineage.Some? && !Contains(e.lineage.value, m)
  }

  /** The two filter conditions as functions of a row. */
  function Includes(m: string): Enriched -> bool {
    (e: Enriched) => LineageContains(e, m)
  }

  function Excludes(m: string): Enriched -> bool {
    (e: Enriched) => LineageLacks(e, m)
  }

  function ToRankRows(r: Rank): Enriched -> RankRow {
    (e: Enriched) => ToRankRow(e, r)
  }

  /** The membership the two filters of one rank implement together. */
  predicate InRankLineage(l: string, r: Rank) {
    Contains(l, r.includePrefix) && (r.excludePrefix == "" || !Contains(l, r.excludePrefix))
  }

  predicate InRank(e: Enriched, r: Rank) {
    e.lineage.Some? && InRankLineage(e.lineage.value, r)
  }

  /** The include filter followed, for a non-empty exclude marker, by the
      exclude filter. */
  function KeepRank(df: seq<Enriched>, r: Rank): seq<Enriched> {
    var lf := Filter(df, Includes(r.includePrefix));
    if r.excludePrefix != "" then Filter(lf, Excludes(r.excludePrefix)) else lf
  }

  /** The filters of one rank keep exactly the rows in that rank, in order,
      each as often as in `df`; a null lineage never passes. */
  lemma KeepRankExact(df: seq<Enriched>, r: Rank)
    ensures IsSubsequence(KeepRank(df, r), df)
    ensures forall e :: multiset(KeepRank(df, r))[e] == if InRank(e, r) then multiset(df)[e] else 0
    ensures forall e :: e in KeepRank(df, r) <==> e in df && InRank(e, r)
  {
    var lf := Filter(df, Includes(r.includePrefix));
    FilterIsSubsequence(df, Includes(r.includePrefix));
    FilterMultiplicity(df, Includes(r.includePrefix));
    if r.excludePrefix != "" {
      FilterIsSubsequence(lf, Excludes(r.excludePrefix));
      FilterMultiplicity(lf, Excludes(r.excludePrefix));
      SubsequenceTransitive(Filter(lf, Excludes(r.excludePrefix)), lf, df);
    }
  }

  /** The name column: `str.extract` of the include marker and the run of
      non-`|` characters after it, then `str.replace` of the marker by the
      empty string, then `str.replace` of an underscore by a space. It is null
      exactly when no occurrence of the marker is followed by a non-`|`
      character; otherwise it is the run after the leftmost such occurrence,
      up to the next `|`, with its first `_` turned into a space. */
  function RankName(l: string, m: string): (name: Option<string>)
    ensures name.None? <==> forall i: nat :: !MarkedAt(l, m, i)
    ensures forall i: nat :: FirstMarked(l, m, i) ==>
      name == Some(ReplaceFirst(l[i + |m|..RunEnd(l, i + |m|)], "_", " "))
  {
    match ExtractMarked(l, m)
    case None => None
    case Some(c) =>
      assert forall i: nat :: FirstMarked(l, m, i) ==>
        ReplaceFirst(c, m, "") == l[i + |m|..RunEnd(l, i + |m|)] by {
        forall i: nat | FirstMarked(l, m, i)
          ensures ReplaceFirst(c, m, "") == l[i + |m|..RunEnd(l, i + |m|)]
        {
          StripCapturedMarker(l, m, i);
        }
      }
      Some(ReplaceFirst(ReplaceFirst(c, m, ""), "_", " "))
  }

  /** The `with_columns` and `select` of one rank: the name next to the
      carried columns. */
  function ToRankRow(e: Enriched, r: Rank): RankRow {
    var l := e.lineage.GetOr("");
    RankRow(RankName(l, r.includePrefix), l, e.taxId, e.percentage, e.readsDirect)
  }

  /** One rank's subset: the kept rows with the name column added. */
  function RankSubset(df: seq<Enriched>, r: Rank): seq<RankRow> {
    MapRows(ToRankRows(r), KeepRank(df, r))
  }

  /** One row per kept row, in the same order, whose lineage holds the
      include marker and not the exclude marker, whose name is the one
      extracted from that lineage, and whose tax id, percentage and direct
      reads are those of the kept row. */
  lemma RankSubsetRows(df: seq<Enriched>, r: Rank)
    ensures |RankSubset(df, r)| == |KeepRank(df, r)|
    ensures forall k :: 0 <= k < |RankSubset(df, r)| ==>
      var e, row := KeepRank(df, r)[k], RankSubset(df, r)[k];
      e.lineage == Some(row.lineage) && row.taxId == e.taxId &&
      row.percentage == e.percentage && row.readsDirect == e.readsDirect
    ensures forall row :: row in RankSubset(df, r) ==>
      InRankLineage(row.lineage, r) && row.name == RankName(row.lineage, r.includePrefix)
  {
    var kept := KeepRank(df, r);
    KeepRankExact(df, r);
    assert forall k :: 0 <= k < |kept| ==> kept[k] in kept;
  }

  /** A row whose lineage holds the include marker only where it is followed
      by `|` or ends the lineage is kept, with a null name. */
  lemma NullNameRowKept(df: seq<Enriched>, r: Rank, k: nat)
    requires k < |df| && InRank(df[k], r)
    requires forall i: nat :: !MarkedAt(df[k].lineage.value, r.includePrefix, i)
    ensures RankRow(None, df[k].lineage.value, df[k].taxId, df[k].percentage, df[k].readsDirect) in RankSubset(df, r)
  {
    var e := df[k];
    var kept := KeepRank(df, r);
    KeepRankExact(df, r);
    assert e in kept;
    var j :| 0 <= j < |kept| && kept[j] == e;
    assert RankSubset(df, r)[j] == ToRankRow(e, r);
  }

  /** Every row of every rank subset comes from a row of `df` in that rank. */
  lemma RankRowsComeFromInput(df: seq<Enriched>, r: Rank, row: RankRow)
    requires row in RankSubset(df, r)
    ensures exists e ::
      && e in df && InRank(e, r) && e.lineage == Some(row.lineage)
      && e.taxId == row.taxId && e.readsDirect == row.readsDirect && e.percentage == row.percentage
  {
    var sub := RankSubset(df, r);
    var k :| 0 <= k < |sub| && sub[k] == row;
    var e := KeepRank(df, r)[k];
    KeepRankExact(df, r);
    assert e in KeepRank(df, r);
  }

  /** A lineage that holds the include markers of the first `k + 1` ranks,
      none of the finer ones and not the exclude marker of rank `k` is in
      rank `k` and in no other: each coarser rank's exclude marker is the
      next rank's include marker, which the lineage holds. */
  lemma ChainLineageInOneRank(l: string, k: nat)
    requires k < |RANKS|
    requires forall j :: 0 <= j < |RANKS| ==> (Contains(l, RANKS[j].includePrefix) <==> j <= k)
    requires !Contains(l, RANKS[k].excludePrefix)
    ensures forall j :: 0 <= j < |RANKS| ==> (InRankLineage(l, RANKS[j]) <==> j == k)
  {
    RankTableChain();
    forall j | 0 <= j < |RANKS| ensures InRankLineage(l, RANKS[j]) <==> j == k {
      if j < k {
        assert Contains(l, RANKS[j + 1].includePrefix);
      }
    }
  }

  /** A lineage that holds every marker from `d__` to `s__` and no `t__`
      belongs to the Species subset only. */
  lemma FullLineageOnlySpecies(l: string)
    requires forall j :: 0 <= j < |RANKS| ==> Contains(l, RANKS[j].includePrefix)
    requires !Contains(l, "t__")
    ensures forall j :: 0 <= j < |RANKS| ==> (InRankLineage(l, RANKS[j]) <==> RANKS[j].rankName == "Species")
  {
    LabelPositions();
    ChainLineageInOneRank(l, 6);
  }

  /** The labels of the first `n` ranks of a table. */
  ghost function LabelsUpTo(ranks: seq<Rank>, n: nat): set<string>
    requires n <= |ranks|
  {
    set j | 0 <= j < n :: ranks[j].rankName
  }

  lemma LabelsStep(ranks: seq<Rank>, n: nat)
    requires n < |ranks|
    ensures LabelsUpTo(ranks, n + 1) == LabelsUpTo(ranks, n) + {ranks[n].rankName}
  {
    assert ranks[n].rankName in LabelsUpTo(ranks, n + 1);
  }

  /** The first `n` ranks of a table each have their subset of `df` under
      their label in `m`. */
  ghost predicate HoldsSubsets(m: map<string, seq<RankRow>>, df: seq<Enriched>, ranks: seq<Rank>, n: nat)
    requires n <= |ranks|
  {
    forall j :: 0 <= j < n ==> ranks[j].rankName in m && m[ranks[j].rankName] == RankSubset(df, ranks[j])
  }

  /** Storing the next rank's subset keeps the earlier entries, because the
      labels are distinct. */
  lemma SubsetsStep(m: map<string, seq<RankRow>>, df: seq<Enriched>, ranks: seq<Rank>, n: nat)
    requires n < |ranks| && DistinctLabels(ranks)
    requires HoldsSubsets(m, df, ranks, n)
    ensures HoldsSubsets(m[ranks[n].rankName := RankSubset(df, ranks[n])], df, ranks, n + 1)
  {
    var m' := m[ranks[n].rankName := RankSubset(df, ranks[n])];
    forall j | 0 <= j < n + 1
      ensures ranks[j].rankName in m' && m'[ranks[j].rankName] == RankSubset(df, ranks[j])
    {
      if j < n {
        assert ranks[j].rankName != ranks[n].rankName;
      }
    }
  }

  /** The loop of `split_taxa_by_rank` over a rank table: one entry per
      rank, keyed by its label, holding that rank's subset of `df`. */
  method SplitByRanks(df: seq<Enriched>, ranks: seq<Rank>) returns (rankLfs: map<string, seq<RankRow>>)
    requires DistinctLabels(ranks)
    ensures rankLfs.Keys == set i | 0 <= i < |ranks| :: ranks[i].rankName
    ensures forall i :: 0 <= i < |ranks| ==> rankLfs[ranks[i].rankName] == RankSubset(df, ranks[i])
  {
    rankLfs := map[];
    for i := 0 to |ranks|
      invariant rankLfs.Keys == LabelsUpTo(ranks, i)
      invariant HoldsSubsets(rankLfs, df, ranks, i)
    {
      var rank := ranks[i];
      LabelsStep(ranks, i);
      SubsetsStep(rankLfs, df, ranks, i);
      rankLfs := rankLfs[rank.rankName := RankSubset(df, rank)];
    }
  }

  /** `split_taxa_by_rank`: exactly the seven keys Domain to Species, each
      holding the subset of `df` for its entry of the table. */
  method SplitTaxaByRank(df: seq<Enriched>) returns (rankLfs: map<string, seq<RankRow>>)
    ensures rankLfs.Keys == RANK_LABELS && |rankLfs| == 7
    ensures forall i :: 0 <= i < |RANKS| ==> rankLfs[RANKS[i].rankName] == RankSubset(df, RANKS[i])
  {
    RankLabelsDistinct();
    RankLabelsAreTheTable();
    RankLabelCount();
    rankLfs := SplitByRanks(df, RANKS);
  }
}
