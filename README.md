# Kraken report post-processing, modelled in Dafny

This project models the core of a Kraken2 report post-processor. The
post-processor reads a taxonomic classification report with one row per
taxon. It splits the rows into unclassified taxa (tax id 0) and classified
taxa. The classified rows get an NCBI lineage string, such as
`d__Bacteria|p__Proteobacteria|…|s__Escherichia_coli`, through a left join on
the tax id. Both subsets are merged into one output; unclassified rows are
labelled with the literal lineage `unclassified`, and rows without a usable
lineage are dropped. Finally the rows with a lineage are split into seven
rank subsets, Domain to Species. Each subset holds a rank name cut out of the
lineage.

Files:

- `frames.dfy` (module `Frames`): the data-frame operators as operations on
  row sequences. `Filter` is `filter`, `MapRows` is `select` and
  `with_columns`, `Unique` is `unique`, and `+` is `concat`. A null cell is
  `None`.
- `records.dfy` (module `Records`): one datatype per frame schema.
- `text.dfy` (module `Text`): the string expressions of the rank split.
  These are `str.contains`, `str.extract` of `(<marker>[^|]+)`, and
  `str.replace`, which replaces the leftmost match only.
- `split_taxa.dfy` (module `SplitTaxa`): the `RANKS` table, the filters, the
  name extraction of one rank, and the loop of `split_taxa_by_rank` as a
  method over a map.
- `post_processing.dfy` (module `PostProcessing`): `preprocess`,
  `attach_lineage`, `combine_and_filter`, and the stage composition of
  `main`.
- `lineages.dfy` (module `Lineages`): lineages made of marker-and-name
  segments joined by `|`, coarse to fine, each marker at most once, and
  each taxon name non-empty, free of `|` and free of `__`. The module
  assumes this form for what the lookup returns; a lineage outside it, such
  as one with an empty name (`d__Bacteria|p__|c__X`), is covered only by the
  general `SplitTaxa` lemmas (`KeepRankExact`, `RankName`, `NullNameRowKept`). It proves which rank
  subsets such a lineage falls into and which name it gets, both for a
  lineage with one segment per rank from Domain down and for one with some
  ranks missing.
- `lineage_examples.dfy` (module `LineageExamples`): the E. coli lineage,
  the lineage `d__Bacteria|p__Proteobacteria`, and the `unclassified`
  lineage, worked through the rank filters.

The taxonomy lookup `build_lineage_map` is not part of this model. It is a
parameter `resolve: seq<int> -> map<int, string>`. The model applies it to
the distinct tax ids of the classified rows, as `attach_lineage` does, so
the lemmas hold for every possible answer of the database.

Behaviours of the code a reader may not expect, which the model follows:

- The name extraction's `str.replace("_", " ")` replaces only the first
  underscore, so a name such as `Candidatus_Pelagibacter_ubique` becomes
  `Candidatus Pelagibacter_ubique`.
- A complete lineage from `d__` to `s__` is in the Species subset only.
  Each coarser rank's filter excludes lineages that
  hold the next rank's marker (`EColiOnlyInSpecies`, `FullLineageOnlySpecies`).
- The lineage `d__Bacteria|p__Proteobacteria` is not in the Domain subset,
  because it holds `p__`. Extraction with the Domain marker would give
  "Bacteria" (`PhylumLineageDomainName`), but the Domain filter drops the row
  first.
- A lineage that is missing an intermediate rank falls into more than one
  rank subset: the subset of every present rank whose next rank is absent
  (`SparseLineageRanks`). `d__Bacteria|o__Enterobacterales|f__Enterobacteriaceae`
  is in both Domain and Family (`GappedLineageInTwoRanks`).
- The rank split runs on the classified rows with their lineage, not on the
  merged output, so unclassified rows never reach a rank subset
  (`PipelineRanks`).

## Model

| member | source | states |
|---|---|---|
| Frames.Filter | src/kraken_post_processor/post_processing.py:40-43 | A row is in the result exactly when it is in the input and the predicate accepts it. The result is no longer than the input. |
| Frames.FilterIsSubsequence | src/kraken_post_processor/post_processing.py:40-43 | `filter` keeps the input order: its result is a subsequence of the input. |
| Frames.FilterMultiplicity | src/kraken_post_processor/post_processing.py:40-43 | Each accepted row is kept as often as it occurs in the input, and each rejected row never. |
| Frames.MapRows | src/kraken_post_processor/post_processing.py:32-38 | `select` gives one output row per input row, in order: row i of the result is the projection of input row i. |
| Frames.Unique | src/kraken_post_processor/post_processing.py:49-51 | `unique` gives a result without repeated values that holds exactly the values of the input. |
| Frames.FilterConcat | src/kraken_post_processor/post_processing.py:69-72 | Filtering a concatenation filters each part and concatenates the results. |
| Frames.MapRowsConcat | src/kraken_post_processor/post_processing.py:69-73 | A projection of a concatenation concatenates the projections of the parts. |
| Frames.FilterKeepsAll | src/kraken_post_processor/post_processing.py:68-72 | A filter that accepts every row returns its input unchanged. |
| Text.Contains | src/kraken_post_processor/spli_taxa.py:25 | `str.contains` with a literal pattern is true exactly when the pattern occurs at some index. |
| Text.ReplaceFirst | src/kraken_post_processor/spli_taxa.py:36-37 | `str.replace` changes the leftmost occurrence only, into the replacement. Without an occurrence the string is unchanged. |
| Text.ExtractMarked | src/kraken_post_processor/spli_taxa.py:35 | The capture of `(m[^\|]+)` is null exactly when no occurrence of `m` is followed by a non-`\|` character. Otherwise it runs from the leftmost such occurrence to the next `\|` or to the end. |
| Text.StripLeadingMarker | src/kraken_post_processor/spli_taxa.py:35-36 | Replacing the marker in a capture that starts with it drops exactly that prefix. |
| Text.FirstUnderscoreOnly | src/kraken_post_processor/spli_taxa.py:37 | Only the first `_` becomes a space, and every later `_` stays. |
| Text.NoUnderscoreUnchanged | src/kraken_post_processor/spli_taxa.py:37 | A name without `_` is left unchanged by the underscore replacement. |
| Text.ContainsAroundPipe | src/kraken_post_processor/spli_taxa.py:25 | A pattern without `\|` occurs in `a\|b` exactly when it occurs in `a` or in `b`. |
| Text.ExtractAfterPipe | src/kraken_post_processor/spli_taxa.py:35 | When the part before a `\|` does not hold the marker, the capture comes from the part after it. |
| SplitTaxa.RankTableChain | src/kraken_post_processor/spli_taxa.py:6-14 | There are seven ranks. Each rank's exclude marker is the next rank's include marker, and no exclude marker is empty, so the branch at line 28 runs for every rank. |
| SplitTaxa.RankLabelsDistinct | src/kraken_post_processor/spli_taxa.py:6-14 | The seven labels Domain to Species are distinct, so no rank overwrites another in the result. |
| SplitTaxa.RankLabelsAreTheTable | src/kraken_post_processor/spli_taxa.py:6-14 | The label set Domain to Species is exactly the set of the table's labels. |
| SplitTaxa.RankLabelCount | src/kraken_post_processor/spli_taxa.py:6-14 | There are seven labels. |
| SplitTaxa.LabelPositions | src/kraken_post_processor/spli_taxa.py:6-14 | "Phylum" is the label of entry 1 and of no other entry, and "Species" the label of entry 6 and of no other. |
| SplitTaxa.LineageContains | src/kraken_post_processor/spli_taxa.py:25 | The include condition; no contract of its own. A null lineage fails it, so the filter drops the row. Stated by `SplitTaxa.KeepRankExact`. |
| SplitTaxa.LineageLacks | src/kraken_post_processor/spli_taxa.py:29 | The negated exclude condition; no contract of its own. A null lineage fails it too. Stated by `SplitTaxa.KeepRankExact`. |
| SplitTaxa.KeepRank | src/kraken_post_processor/spli_taxa.py:25-29 | The include filter, then the exclude filter when the exclude marker is not empty; no contract of its own. Stated by `SplitTaxa.KeepRankExact`. |
| SplitTaxa.KeepRankExact | src/kraken_post_processor/spli_taxa.py:25-29 | The two filters of a rank keep exactly the rows whose lineage is not null, holds the include marker and lacks the exclude marker. They keep the order and the multiplicities. |
| SplitTaxa.RankName | src/kraken_post_processor/spli_taxa.py:32-40 | The name is null exactly when no marker occurrence is followed by a non-`\|` character. Otherwise it is the run after the leftmost such occurrence, up to the next `\|`, with its first `_` replaced by a space. |
| SplitTaxa.ToRankRow | src/kraken_post_processor/spli_taxa.py:32-51 | One output row: the extracted name next to lineage, tax id, percentage and direct reads; no contract of its own. Stated by `SplitTaxa.RankSubsetRows`. |
| SplitTaxa.RankSubset | src/kraken_post_processor/spli_taxa.py:25-51 | One rank's subset: the kept rows with the name column added; no contract of its own. Stated by `SplitTaxa.RankSubsetRows`, `SplitTaxa.NullNameRowKept` and `SplitTaxa.RankRowsComeFromInput`. |
| SplitTaxa.RankSubsetRows | src/kraken_post_processor/spli_taxa.py:23-51 | One output row per kept row, in order. Each row carries its lineage, tax id, percentage and direct reads. Its lineage is in the rank, and its name is the one extracted from that lineage. |
| SplitTaxa.NullNameRowKept | src/kraken_post_processor/spli_taxa.py:25-40 | A row whose include marker is followed only by `\|` or by the end of the lineage stays in the subset, with a null name. |
| SplitTaxa.RankRowsComeFromInput | src/kraken_post_processor/spli_taxa.py:23-51 | Every row of a rank subset comes from an input row in that rank, with the same values. |
| SplitTaxa.ChainLineageInOneRank | src/kraken_post_processor/spli_taxa.py:6-29 | A lineage that holds the markers of ranks 0..k, none finer, and not rank k's exclude marker passes the filters of rank k and of no other rank. |
| SplitTaxa.FullLineageOnlySpecies | src/kraken_post_processor/spli_taxa.py:6-29 | A lineage with every marker from `d__` to `s__` and no `t__` is in the Species subset only. |
| SplitTaxa.SplitByRanks | src/kraken_post_processor/spli_taxa.py:21-55 | For a table with distinct labels, the loop builds a map whose keys are the table's labels. Each label maps to its rank's subset. |
| SplitTaxa.SplitTaxaByRank | src/kraken_post_processor/spli_taxa.py:17-55 | `split_taxa_by_rank` returns exactly the seven keys Domain to Species, each holding the subset of its table entry. |
| Lineages.RankMarkers | src/kraken_post_processor/spli_taxa.py:6-14 | Every marker in the table is one character other than `_` and `|`, followed by `__`. The include markers are distinct, and `t__` is none of them. |
| Lineages.SegmentMarkers | src/kraken_post_processor/spli_taxa.py:25-29 | A segment made of a marker and a taxon name holds exactly one marker, its own. |
| Lineages.ContainsInLineage | src/kraken_post_processor/spli_taxa.py:25-29 | A marker occurs in a lineage exactly when one of its segments carries that marker. |
| Lineages.CaptureInLineage | src/kraken_post_processor/spli_taxa.py:35 | The capture for rank q's marker is rank q's whole segment, wherever that segment stands in the lineage. |
| Lineages.RankNameInLineage | src/kraken_post_processor/spli_taxa.py:32-40 | The name for rank q of a lineage is rank q's taxon name with its first `_` replaced by a space. |
| Lineages.IncludeInLineage | src/kraken_post_processor/spli_taxa.py:25 | Rank j's include filter accepts a lineage exactly when the lineage reaches rank j. |
| Lineages.ExcludeNotInLineage | src/kraken_post_processor/spli_taxa.py:28-29 | The exclude filter of the lineage's deepest rank always accepts the lineage. |
| Lineages.IncludesUpToRank | src/kraken_post_processor/spli_taxa.py:25 | A lineage from Domain down to rank k holds the include marker of every rank up to k and of no finer rank. |
| Lineages.RankedLineageInOneRank | src/kraken_post_processor/spli_taxa.py:23-29 | A lineage that goes from Domain down to rank k is in rank k's subset and in no other. |
| Lineages.SelectMarkers | src/kraken_post_processor/spli_taxa.py:6-14 | The markers of the chosen ranks, in the chosen order: as many as there are chosen ranks, the i-th being the marker of the i-th chosen rank. |
| Lineages.SparseInclude | src/kraken_post_processor/spli_taxa.py:25 | In a lineage whose segments carry only some ranks, rank j's include filter accepts it exactly when rank j is one of them. |
| Lineages.SparseLacksLastExclude | src/kraken_post_processor/spli_taxa.py:28-29 | Such a lineage never holds the Species exclude marker `t__`. |
| Lineages.SparseLineageRanks | src/kraken_post_processor/spli_taxa.py:23-29 | A lineage whose segments carry only some ranks is in the subset of exactly those present ranks whose next rank is absent. With a gap, that is more than one subset. |
| Lineages.NoUnderscoreNoRank | src/kraken_post_processor/spli_taxa.py:25 | A lineage without `_` holds no marker and is in no rank subset. |
| LineageExamples.IncludeMarkerTexts | src/kraken_post_processor/spli_taxa.py:6-14 | The include markers of the table are `d__`, `p__`, `c__`, `o__`, `f__`, `g__` and `s__`, in that order. |
| LineageExamples.EColiLineageText | src/kraken_post_processor/spli_taxa.py:23-40 | The E. coli lineage is the text `d__Bacteria\|p__Proteobacteria\|…\|s__Escherichia_coli`, segment by segment. |
| LineageExamples.EColiOnlyInSpecies | src/kraken_post_processor/spli_taxa.py:23-29 | The full E. coli lineage, whose text `EColiLineageText` gives, is in the Species subset only. |
| LineageExamples.EColiSpeciesName | src/kraken_post_processor/spli_taxa.py:32-40 | The Species name of the E. coli lineage is "Escherichia coli". |
| LineageExamples.PhylumLineageOnlyInPhylum | src/kraken_post_processor/spli_taxa.py:23-29 | `d__Bacteria\|p__Proteobacteria` is in the Phylum subset only, so the Domain and Class subsets do not hold it. |
| LineageExamples.PhylumLineageName | src/kraken_post_processor/spli_taxa.py:32-40 | Its Phylum name is "Proteobacteria". |
| LineageExamples.PhylumLineageDomainName | src/kraken_post_processor/spli_taxa.py:32-40 | Extraction with the Domain marker would give this lineage the name "Bacteria". |
| LineageExamples.GappedLineageText | src/kraken_post_processor/spli_taxa.py:23-29 | The gapped lineage is the text `d__Bacteria\|o__Enterobacterales\|f__Enterobacteriaceae`. |
| LineageExamples.DomainOrderFamilyRanks | src/kraken_post_processor/spli_taxa.py:23-29 | A lineage with segments for Domain, Order and Family only is in the Domain and Family subsets and in no other, whatever its taxon names. |
| LineageExamples.GappedLineageInTwoRanks | src/kraken_post_processor/spli_taxa.py:23-29 | The gapped lineage is in the Domain and Family subsets only. |
| LineageExamples.UnclassifiedInNoRank | src/kraken_post_processor/post_processing.py:68 | The literal lineage "unclassified" passes no rank's include filter. |
| PostProcessing.Preprocess | src/kraken_post_processor/post_processing.py:31-45 | `preprocess`: the projection to tax id, direct reads and percentage, then the two filters; no contract of its own. Stated by `PostProcessing.PreprocessSplit`. |
| PostProcessing.PreprocessSplit | src/kraken_post_processor/post_processing.py:31-45 | The unclassified subset holds exactly the rows with tax id 0. The classified subset holds exactly the rows with a non-zero id and non-zero direct reads. Both keep order and multiplicities, and no row is in both. |
| PostProcessing.TaxIdList | src/kraken_post_processor/post_processing.py:49-51 | The id list sent to the lookup holds each tax id of the classified rows exactly once, and no other id. |
| PostProcessing.Lookup | src/kraken_post_processor/post_processing.py:54-61 | The lineage cell of the join: the dictionary's value for the id, or null; no contract of its own. Stated by `PostProcessing.LeftJoin`. |
| PostProcessing.LeftJoin | src/kraken_post_processor/post_processing.py:54-61 | The left join gives one row per classified row, in order, with the same fields. The lineage is the dictionary's value for the id, or null when the id has no entry. |
| PostProcessing.AttachLineage | src/kraken_post_processor/post_processing.py:48-61 | `attach_lineage`: the lookup applied to the distinct ids, then the left join; no contract of its own. Stated by `PostProcessing.TaxIdList`, `PostProcessing.LeftJoin` and `PostProcessing.JoinUsesRequestedIdsOnly`. |
| PostProcessing.JoinUsesRequestedIdsOnly | src/kraken_post_processor/post_processing.py:48-61 | Entries the lookup returns for ids it was not asked for do not change the join. |
| PostProcessing.HasLineage | src/kraken_post_processor/post_processing.py:72 | The filter condition: lineage not null and not ""; no contract of its own. Stated by `PostProcessing.CombineAndFilterShape`. |
| PostProcessing.CombineAndFilter | src/kraken_post_processor/post_processing.py:64-75 | `combine_and_filter`: label, concatenate, filter, select; no contract of its own. Stated by `PostProcessing.CombineAndFilterSplit` and `PostProcessing.CombineAndFilterShape`. |
| PostProcessing.CombineAndFilterSplit | src/kraken_post_processor/post_processing.py:64-75 | The output is the projection of the labelled unclassified rows followed by the projection of the classified rows that have a lineage. |
| PostProcessing.CombineAndFilterShape | src/kraken_post_processor/post_processing.py:64-75 | The output starts with every unclassified row, labelled "unclassified". They are followed, in order, by exactly the classified rows whose lineage is neither null nor "". No output row has an empty lineage. |
| PostProcessing.JoinedRowCombined | src/kraken_post_processor/post_processing.py:54-75 | A classified row that keeps its lineage after the join has a non-zero id and non-zero direct reads, and in the output it carries the lookup's non-empty answer for its id. |
| PostProcessing.PipelineCombinedRows | src/kraken_post_processor/post_processing.py:164-168 | Every output row is either a tax-id-0 row labelled "unclassified", or a classified row whose id the lookup answered with a non-empty lineage, which the row carries. |
| PostProcessing.PipelineKeepsUnclassified | src/kraken_post_processor/post_processing.py:164-168 | Every tax-id-0 row reaches the output with lineage "unclassified", whatever its direct reads. |
| PostProcessing.PipelineKeepsResolved | src/kraken_post_processor/post_processing.py:164-168 | Every classified row whose id resolves to a non-empty lineage reaches the output with that lineage. |
| PostProcessing.PipelineDropsUnresolved | src/kraken_post_processor/post_processing.py:164-168 | A classified id that the lookup did not answer, or answered with "", has no row in the output. |
| PostProcessing.PipelineRanks | src/kraken_post_processor/post_processing.py:164-167 | Rank subsets hold only classified rows, each with the lineage the lookup gave its id. |
| PostProcessing.RunPipeline | src/kraken_post_processor/post_processing.py:163-168 | The composition in `main`: the result is the combined output, and the seven rank subsets are computed from the classified rows with their lineage. Every rank row is classified, and no result row has an empty lineage. |

## Left out

- `load_kraken_report` (reading the tab-separated file and renaming its columns) is I/O. The model starts from the typed rows `Records.ReportRow`.
- The casts in `preprocess` (`Int64`, `strip_chars`, then `Float64`) and their failure on malformed fields are not modelled. Ids and reads are unbounded integers, and the percentage is a `real` that is only carried along.
- `build_lineage_map` and the taxonomy database are not part of this model. The lookup is the parameter `resolve`, and the lineage format it produces is an assumption of module `Lineages`.
- The row order of the left `join` in `attach_lineage` (post_processing.py:61): it is called without `maintain_order`, and recent Polars versions do not promise an order for it. The model keeps the left frame's order, so the "in order" statements of `PostProcessing.LeftJoin`, `PostProcessing.CombineAndFilterShape` and `SplitTaxa.RankSubsetRows` hold for that choice; membership and multiplicity do not depend on it. Null cells in `ncbi_tax_id` and `reads_direct` cannot be represented either (both are unbounded integers); Polars would drop such rows from both subsets in the `== 0` and `!= 0` filters of `preprocess`.
- The order of `unique()`: the model takes first-occurrence order. Polars does not fix this order, and it matters only to a lookup whose answer depends on it.
- The column types of the lookup frame are not modelled. For an empty dictionary, the two columns built at post_processing.py:54-59 get no integer or string type, so the `join` on the `Int64` tax id (line 61) or the `concat` (line 69) may fail; the model instead gives every classified row a null lineage. The join is modelled on values only.
- Lazy evaluation and `collect()` are not modelled: each stage is computed directly.
- The name of the rank column, which is the rank label, is the field `name` of `Records.RankRow`; column labels and the dictionary's insertion order are not modelled.
- Regular expressions in general are not modelled: the markers contain no metacharacters, so `str.contains` and `str.replace` are substring operations, and `[^|]+` is the run of non-`|` characters.
- `write_outputs_to_dir`, `ensure_outdir`, `parse_args`, and the output-path defaults of `main` are I/O and are left out, including the `Unclassified` sheet filter.
