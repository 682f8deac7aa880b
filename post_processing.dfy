/** The enrichment half of the pipeline: split the typed report into the
    unclassified and classified rows, attach a lineage to the classified ones
    through a lookup on their distinct tax ids, merge the two and drop rows
    without a usable lineage; and the composition of the stages in `main`. */
module PostProcessing {
  import opened Frames
  import opened Records
  import SplitTaxa

  /** The `select` of `preprocess`: tax id, direct reads and percentage. */
  function ToTaxon(r: ReportRow): Taxon {
    Taxon(r.taxId, r.readsDirect, r.percentage)
  }

  predicate IsUnclassified(t: Taxon) {
    t.taxId == 0
  }

  predicate IsClassified(t: Taxon) {
    t.taxId != 0 && t.readsDirect != 0
  }

  /** `preprocess`: the unclassified rows and the classified rows, in that order. */
  function Preprocess(df: seq<ReportRow>): (seq<Taxon>, seq<Taxon>) {
    var taxa := MapRows(ToTaxon, df);
    (Filter(taxa, IsUnclassified), Filter(taxa, IsClassified))
  }

  /** The unclassified subset holds exactly the rows with tax id 0, whatever
      their direct reads; the classified subset exactly the rows with a
      non-zero tax id and non-zero direct reads. Both keep the input order
      and multiplicities, no row is in both, and a row with a non-zero id and
      zero direct reads is in neither. */
  lemma PreprocessSplit(df: seq<ReportRow>)
    ensures var (u, c) := Preprocess(df); var taxa := MapRows(ToTaxon, df);
      && IsSubsequence(u, taxa) && IsSubsequence(c, taxa)
      && (forall t :: multiset(u)[t] == if t.taxId == 0 then multiset(taxa)[t] else 0)
      && (forall t :: multiset(c)[t] == if t.taxId != 0 && t.readsDirect != 0 then multiset(taxa)[t] else 0)
      && (forall i :: 0 <= i < |df| ==> (ToTaxon(df[i]) in u <==> df[i].taxId == 0))
      && (forall i :: 0 <= i < |df| ==> (ToTaxon(df[i]) in c <==> df[i].taxId != 0 && df[i].readsDirect != 0))
      && (forall t :: !(t in u && t in c))
  {
    var taxa := MapRows(ToTaxon, df);
    FilterIsSubsequence(taxa, IsUnclassified);
    FilterIsSubsequence(taxa, IsClassified);
    FilterMultiplicity(taxa, IsUnclassified);
    FilterMultiplicity(taxa, IsClassified);
    forall i | 0 <= i < |df| ensures ToTaxon(df[i]) in taxa {
      assert taxa[i] == ToTaxon(df[i]);
    }
  }

  function TaxId(t: Taxon): int {
    t.taxId
  }

  /** The id list handed to the lineage lookup: the tax ids of `classified`,
      each exactly once. */
  function TaxIdList(classified: seq<Taxon>): (ids: seq<int>)
    ensures forall i, j :: 0 <= i < j < |ids| ==> ids[i] != ids[j]
    ensures forall id :: id in ids <==> exists t :: t in classified && t.taxId == id
  {
    var column := MapRows(TaxId, classified);
    assert forall t :: t in classified ==> t.taxId in column by {
      forall t | t in classified ensures t.taxId in column {
        var k :| 0 <= k < |classified| && classified[k] == t;
        assert column[k] == t.taxId;
      }
    }
    Unique(column)
  }

  /** The lineage cell of a left join on the tax id: the looked-up value, or
      null when the id is not a key. */
  function Lookup(lineageDict: map<int, string>, id: int): Option<string> {
    if id in lineageDict then Some(lineageDict[id]) else None
  }

  function JoinRow(lineageDict: map<int, string>): Taxon -> Enriched {
    (t: Taxon) => Enriched(t.taxId, t.readsDirect, t.percentage, Lookup(lineageDict, t.taxId))
  }

  /** The left `join` of the classified rows with the lookup frame on the tax
      id, whose keys are unique: one row per classified row, in order. */
  function LeftJoin(classified: seq<Taxon>, lineageDict: map<int, string>): (joined: seq<Enriched>)
    ensures |joined| == |classified|
    ensures forall i :: 0 <= i < |joined| ==>
      && joined[i].taxId == classified[i].taxId
      && joined[i].readsDirect == classified[i].readsDirect
      && joined[i].percentage == classified[i].percentage
      && (classified[i].taxId in lineageDict ==> joined[i].lineage == Some(lineageDict[classified[i].taxId]))
      && (classified[i].taxId !in lineageDict ==> joined[i].lineage == None)
  {
    MapRows(JoinRow(lineageDict), classified)
  }

  /** `attach_lineage`: the lookup `resolve` (the taxonomy database) is
      applied to the distinct ids, and its answer is left-joined. */
  function AttachLineage(classified: seq<Taxon>, resolve: seq<int> -> map<int, string>): seq<Enriched> {
    LeftJoin(classified, resolve(TaxIdList(classified)))
  }

  /** Keys the lookup returns beyond the ids it was asked for do not change
      the join: only the answers for the requested ids matter. */
  lemma JoinUsesRequestedIdsOnly(classified: seq<Taxon>, lineageDict: map<int, string>)
    ensures var requested := set id | id in TaxIdList(classified);
      LeftJoin(classified, lineageDict) == LeftJoin(classified, map id | id in lineageDict && id in requested :: lineageDict[id])
  {
    var requested := set id | id in TaxIdList(classified);
    var restricted := map id | id in lineageDict && id in requested :: lineageDict[id];
    var a, b := LeftJoin(classified, lineageDict), LeftJoin(classified, restricted);
    forall i | 0 <= i < |classified| ensures a[i] == b[i] {
      assert classified[i] in classified;
      assert classified[i].taxId in requested;
    }
  }

  /** The unclassified rows get the literal lineage "unclassified". */
  function WithUnclassifiedLineage(t: Taxon): Enriched {
    Enriched(t.taxId, t.readsDirect, t.percentage, Some("unclassified"))
  }

  /** The filter of `combine_and_filter`: lineage not null and not "". */
  predicate HasLineage(e: Enriched) {
    e.lineage.Some? && e.lineage.value != ""
  }

  /** The final `select`: lineage, tax id, direct reads, percentage. */
  function ToCombined(e: Enriched): CombinedRow {
    CombinedRow(e.lineage.GetOr(""), e.taxId, e.readsDirect, e.percentage)
  }

  /** `combine_and_filter`. */
  function CombineAndFilter(unclassified: seq<Taxon>, classifiedWithLineage: seq<Enriched>): seq<CombinedRow> {
    var combined := MapRows(WithUnclassifiedLineage, unclassified) + classifiedWithLineage;
    MapRows(ToCombined, Filter(combined, HasLineage))
  }

  /** `combine_and_filter` keeps every unclassified row and then the
      classified rows that have a lineage, in order. */
  lemma CombineAndFilterSplit(unclassified: seq<Taxon>, classifiedWithLineage: seq<Enriched>)
    ensures CombineAndFilter(unclassified, classifiedWithLineage)
      == MapRows(ToCombined, MapRows(WithUnclassifiedLineage, unclassified))
       + MapRows(ToCombined, Filter(classifiedWithLineage, HasLineage))
  {
    var labelled := MapRows(WithUnclassifiedLineage, unclassified);
    FilterConcat(labelled, classifiedWithLineage, HasLineage);
    FilterKeepsAll(labelled, HasLineage);
    MapRowsConcat(ToCombined, labelled, Filter(classifiedWithLineage, HasLineage));
  }

  /** The combined output is every unclassified row, with lineage
      "unclassified", followed by exactly the classified rows whose lineage
      is neither null nor "" (in order, none duplicated); no output row has
      an empty lineage. */
  lemma CombineAndFilterShape(unclassified: seq<Taxon>, classifiedWithLineage: seq<Enriched>)
    ensures var out := CombineAndFilter(unclassified, classifiedWithLineage);
      && |out| == |unclassified| + |Filter(classifiedWithLineage, HasLineage)|
      && (forall k :: 0 <= k < |unclassified| ==>
            out[k] == CombinedRow("unclassified", unclassified[k].taxId, unclassified[k].readsDirect, unclassified[k].percentage))
      && out[|unclassified|..] == MapRows(ToCombined, Filter(classifiedWithLineage, HasLineage))
      && (forall row :: row in out ==> row.lineage != "")
  {
    CombineAndFilterSplit(unclassified, classifiedWithLineage);
    var kept := Filter(classifiedWithLineage, HasLineage);
    var front := MapRows(ToCombined, MapRows(WithUnclassifiedLineage, unclassified));
    var back := MapRows(ToCombined, kept);
    var out := front + back;
    assert out[|unclassified|..] == back;
    forall row | row in out ensures row.lineage != "" {
      if row in front {
        var k :| 0 <= k < |front| && front[k] == row;
      } else {
        var k :| 0 <= k < |back| && back[k] == row;
        assert kept[k] in kept;
      }
    }
  }

  /** A classified row that kept its lineage carries, in the combined
      output, the lookup's answer for its id. */
  lemma JoinedRowCombined(c: seq<Taxon>, dict: map<int, string>, e: Enriched)
    requires forall t :: t in c ==> IsClassified(t)
    requires e in Filter(LeftJoin(c, dict), HasLineage)
    ensures var row := ToCombined(e);
      row.taxId != 0 && row.readsDirect != 0 && row.taxId in dict && row.lineage == dict[row.taxId] != ""
  {
    var cwl := LeftJoin(c, dict);
    var j :| 0 <= j < |cwl| && cwl[j] == e;
    assert c[j] in c;
  }

  /** Over the whole pipeline, every combined row is either an unclassified
      row (tax id 0) with lineage "unclassified", or a classified row whose id
      the lookup answered with a non-empty lineage, which it carries. */
  lemma PipelineCombinedRows(df: seq<ReportRow>, resolve: seq<int> -> map<int, string>)
    ensures var (u, c) := Preprocess(df);
      var dict := resolve(TaxIdList(c));
      forall row :: row in CombineAndFilter(u, AttachLineage(c, resolve)) ==>
        || (row.taxId == 0 && row.lineage == "unclassified")
        || (row.taxId != 0 && row.readsDirect != 0 && row.taxId in dict && row.lineage == dict[row.taxId] != "")
  {
    var (u, c) := Preprocess(df);
    var dict := resolve(TaxIdList(c));
    var cwl := AttachLineage(c, resolve);
    CombineAndFilterSplit(u, cwl);
    var kept := Filter(cwl, HasLineage);
    var front := MapRows(ToCombined, MapRows(WithUnclassifiedLineage, u));
    var back := MapRows(ToCombined, kept);
    forall row: CombinedRow | row in front + back
      ensures || (row.taxId == 0 && row.lineage == "unclassified")
              || (row.taxId != 0 && row.readsDirect != 0 && row.taxId in dict && row.lineage == dict[row.taxId] != "")
    {
      if row in front {
        var k :| 0 <= k < |front| && front[k] == row;
        assert u[k] in u;
      } else {
        assert row in back;
        var k :| 0 <= k < |back| && back[k] == row;
        assert kept[k] in kept;
        JoinedRowCombined(c, dict, kept[k]);
      }
    }
  }

  /** Over the whole pipeline, every tax-id-0 row reaches the combined
      output with lineage "unclassified". */
  lemma PipelineKeepsUnclassified(df: seq<ReportRow>, resolve: seq<int> -> map<int, string>)
    ensures var (u, c) := Preprocess(df);
      var out := CombineAndFilter(u, AttachLineage(c, resolve));
      forall i :: 0 <= i < |df| && df[i].taxId == 0 ==>
        CombinedRow("unclassified", 0, df[i].readsDirect, df[i].percentage) in out
  {
    var (u, c) := Preprocess(df);
    var cwl := AttachLineage(c, resolve);
    var out := CombineAndFilter(u, cwl);
    CombineAndFilterShape(u, cwl);
    forall i | 0 <= i < |df| && df[i].taxId == 0
      ensures CombinedRow("unclassified", 0, df[i].readsDirect, df[i].percentage) in out
    {
      assert MapRows(ToTaxon, df)[i] == ToTaxon(df[i]);
      assert ToTaxon(df[i]) in u;
      var k :| 0 <= k < |u| && u[k] == ToTaxon(df[i]);
      assert out[k] == CombinedRow("unclassified", 0, df[i].readsDirect, df[i].percentage);
    }
  }

  /** After the join, a classified row whose id resolves to a non-empty
      lineage is kept by the filter of `combine_and_filter`, with that
      lineage. */
  lemma ResolvedRowKept(unclassified: seq<Taxon>, c: seq<Taxon>, dict: map<int, string>, t: Taxon)
    requires t in c && t.taxId in dict && dict[t.taxId] != ""
    ensures CombinedRow(dict[t.taxId], t.taxId, t.readsDirect, t.percentage) in CombineAndFilter(unclassified, LeftJoin(c, dict))
  {
    var cwl := LeftJoin(c, dict);
    var out := CombineAndFilter(unclassified, cwl);
    CombineAndFilterShape(unclassified, cwl);
    var kept := Filter(cwl, HasLineage);
    var tail := out[|unclassified|..];
    var j :| 0 <= j < |c| && c[j] == t;
    var e := cwl[j];
    assert e.lineage == Some(dict[t.taxId]);
    assert e in cwl && HasLineage(e);
    var k :| 0 <= k < |kept| && kept[k] == e;
    assert tail[k] == ToCombined(e) == CombinedRow(dict[t.taxId], t.taxId, t.readsDirect, t.percentage);
    assert out[|unclassified| + k] == tail[k];
  }

  /** Over the whole pipeline, every classified row whose id resolves to a
      non-empty lineage reaches the combined output with that lineage. */
  lemma PipelineKeepsResolved(df: seq<ReportRow>, resolve: seq<int> -> map<int, string>)
    ensures var (u, c) := Preprocess(df);
      var dict := resolve(TaxIdList(c));
      var out := CombineAndFilter(u, AttachLineage(c, resolve));
      forall i :: 0 <= i < |df| && IsClassified(ToTaxon(df[i])) && df[i].taxId in dict && dict[df[i].taxId] != "" ==>
        CombinedRow(dict[df[i].taxId], df[i].taxId, df[i].readsDirect, df[i].percentage) in out
  {
    var (u, c) := Preprocess(df);
    var dict := resolve(TaxIdList(c));
    forall i | 0 <= i < |df| && IsClassified(ToTaxon(df[i])) && df[i].taxId in dict && dict[df[i].taxId] != ""
      ensures CombinedRow(dict[df[i].taxId], df[i].taxId, df[i].readsDirect, df[i].percentage) in CombineAndFilter(u, LeftJoin(c, dict))
    {
      assert MapRows(ToTaxon, df)[i] == ToTaxon(df[i]);
      assert ToTaxon(df[i]) in c;
      ResolvedRowKept(u, c, dict, ToTaxon(df[i]));
    }
  }

  /** A classified row whose id the lookup did not answer, or answered with
      "", leaves no row with its tax id in the combined output. */
  lemma PipelineDropsUnresolved(df: seq<ReportRow>, resolve: seq<int> -> map<int, string>, i: nat)
    requires i < |df| && df[i].taxId != 0
    requires var dict := resolve(TaxIdList(Preprocess(df).1));
      df[i].taxId !in dict || dict[df[i].taxId] == ""
    ensures forall row :: row in CombineAndFilter(Preprocess(df).0, AttachLineage(Preprocess(df).1, resolve)) ==>
      row.taxId != df[i].taxId
  {
    PipelineCombinedRows(df, resolve);
  }

  /** Over the whole pipeline: the rank subsets hold classified rows only,
      with the lineage the lookup gave their tax id; an unclassified row
      never reaches a rank subset. */
  lemma PipelineRanks(df: seq<ReportRow>, resolve: seq<int> -> map<int, string>, r: SplitTaxa.Rank)
    ensures var (u, c) := Preprocess(df);
      var dict := resolve(TaxIdList(c));
      forall row :: row in SplitTaxa.RankSubset(AttachLineage(c, resolve), r) ==>
        row.taxId != 0 && row.readsDirect != 0 && row.taxId in dict && row.lineage == dict[row.taxId]
  {
    var (u, c) := Preprocess(df);
    var cwl := AttachLineage(c, resolve);
    PreprocessSplit(df);
    forall row | row in SplitTaxa.RankSubset(cwl, r)
      ensures row.taxId != 0 && row.readsDirect != 0 && row.taxId in resolve(TaxIdList(c))
      ensures row.lineage == resolve(TaxIdList(c))[row.taxId]
    {
      SplitTaxa.RankRowsComeFromInput(cwl, r, row);
      var e :| && e in cwl && SplitTaxa.InRank(e, r) && e.lineage == Some(row.lineage)
               && e.taxId == row.taxId && e.readsDirect == row.readsDirect && e.percentage == row.percentage;
      var j :| 0 <= j < |cwl| && cwl[j] == e;
      assert c[j] in c;
    }
  }

  /** The stages of `main` without the report loading and the writers: the
      rank split runs on the classified rows with their lineage, the combined
      output on both subsets. */
  method RunPipeline(df: seq<ReportRow>, resolve: seq<int> -> map<int, string>)
    returns (allRankDfs: map<string, seq<RankRow>>, result: seq<CombinedRow>)
    ensures var (u, c) := Preprocess(df);
      var cwl := AttachLineage(c, resolve);
      && result == CombineAndFilter(u, cwl)
      && allRankDfs.Keys == SplitTaxa.RANK_LABELS
      && forall i :: 0 <= i < |SplitTaxa.RANKS| ==>
           allRankDfs[SplitTaxa.RANKS[i].rankName] == SplitTaxa.RankSubset(cwl, SplitTaxa.RANKS[i])
    ensures forall key, row :: key in allRankDfs && row in allRankDfs[key] ==> row.taxId != 0 && row.readsDirect != 0
    ensures forall row :: row in result ==> row.lineage != ""
  {
    var (unclassified, classified) := Preprocess(df);
    var classifiedWithLineage := AttachLineage(classified, resolve);
    allRankDfs := SplitTaxa.SplitTaxaByRank(classifiedWithLineage);
    result := CombineAndFilter(unclassified, classifiedWithLineage);
    CombineAndFilterShape(unclassified, classifiedWithLineage);
    SplitTaxa.RankLabelsAreTheTable();
    forall key, row | key in allRankDfs && row in allRankDfs[key]
      ensures row.taxId != 0 && row.readsDirect != 0
    {
      var i :| 0 <= i < |SplitTaxa.RANKS| && SplitTaxa.RANKS[i].rankName == key;
      PipelineRanks(df, resolve, SplitTaxa.RANKS[i]);
    }
  }
}
