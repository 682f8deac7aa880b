/** The rows that flow through the pipeline, one datatype per frame schema. */
module Records {
  import opened Frames

  /** The report's percentage column after parsing. It is only carried from
      frame to frame, never computed with. */
  type Percentage = real

  /** One row of the six-column report as loaded: percentage, clade reads,
      direct reads, rank code, NCBI taxonomy id, name. */
  datatype ReportRow = ReportRow(
    percentage: Percentage,
    readsClade: int,
    readsDirect: int,
    rankCode: string,
    taxId: int,
    name: string)

  /** The three columns `preprocess` keeps: `ncbi_tax_id`, `reads_direct`,
      `percentage`. Tax id 0 stands for "unclassified". */
  datatype Taxon = Taxon(taxId: int, readsDirect: int, percentage: Percentage)

  /** A taxon row with a `lineage` column, which is null where the lookup
      had no entry. */
  datatype Enriched = Enriched(taxId: int, readsDirect: int, percentage: Percentage, lineage: Option<string>)

  /** A row of the combined output: `lineage`, `ncbi_tax_id`, `reads_direct`,
      `percentage`. */
  datatype CombinedRow = CombinedRow(lineage: string, taxId: int, readsDirect: int, percentage: Percentage)

  /** A row of one rank's subset: the extracted name (null when extraction
      found nothing), `lineage`, `ncbi_tax_id`, `percentage`, `reads_direct`. */
  datatype RankRow = RankRow(name: Option<string>, lineage: string, taxId: int, percentage: Percentage, readsDirect: int)
}
