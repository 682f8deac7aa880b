/** Worked lineages: what the rank split does with the lineage of
    Escherichia coli and with a lineage that stops at Phylum. */
module LineageExamples {
  import opened Frames
  import opened Text
  import opened SplitTaxa
  import opened Lineages

  const ECOLI_NAMES: seq<string> := [
    "Bacteria", "Proteobacteria", "Gammaproteobacteria", "Enterobacterales",
    "Enterobacteriaceae", "Escherichia", "Escherichia_coli"
  ]

  /** d__Bacteria|p__Proteobacteria|c__Gammaproteobacteria|o__Enterobacterales|f__Enterobacteriaceae|g__Escherichia|s__Escherichia_coli */
  const ECOLI_LINEAGE: string := RankedLineage(ECOLI_NAMES)

  /** The include markers of the rank table, as text. */
  lemma IncludeMarkerTexts()
    ensures var mk := IncludeMarkers(RANKS);
      && mk[0] == "d__" && mk[1] == "p__" && mk[2] == "c__" && mk[3] == "o__"
      && mk[4] == "f__" && mk[5] == "g__" && mk[6] == "s__"
  {
  }

  /** The E. coli lineage is the text of its seven segments, from
      `d__Bacteria` down to `s__Escherichia_coli`, each a marker and a name,
      joined by `|`. */
  lemma EColiLineageText()
    ensures ECOLI_LINEAGE ==
      "d__" + "Bacteria" + "|" + ("p__" + "Proteobacteria" + "|" + ("c__" + "Gammaproteobacteria" + "|"
      + ("o__" + "Enterobacterales" + "|" + ("f__" + "Enterobacteriaceae" + "|"
      + ("g__" + "Escherichia" + "|" + ("s__" + "Escherichia_coli"))))))
  {
    var mk, n := IncludeMarkers(RANKS), ECOLI_NAMES;
    IncludeMarkerTexts();
    LineageStep(mk, n, 5);
    LineageStep(mk, n, 4);
    LineageStep(mk, n, 3);
    LineageStep(mk, n, 2);
    LineageStep(mk, n, 1);
    LineageStep(mk, n, 0);
  }

  /** A non-empty name without `_` or `|` is a taxon name. */
  lemma PlainName(n: string)
    requires |n| > 0 && '_' !in n && '|' !in n
    ensures IsTaxonName(n)
  {
    forall j | 0 <= j < |n| - 1 ensures !(n[j] == '_' && n[j + 1] == '_') {
      assert n[j] in n;
    }
    NoOccurrenceWithoutPair(n, "__");
  }

  /** The species name keeps its one `_`, which is not followed by another. */
  lemma SpeciesName()
    ensures IsTaxonName("Escherichia_coli")
  {
    var n := "Escherichia_coli";
    forall j | 0 <= j < |n| - 1 ensures !(n[j] == '_' && n[j + 1] == '_') {
      if j != 11 && j != 10 {
        assert n[j] != '_';
      }
    }
    NoOccurrenceWithoutPair(n, "__");
  }

  /** The names of the E. coli lineage are taxon names. */
  lemma EColiNames()
    ensures forall p :: 0 <= p < |ECOLI_NAMES| ==> IsTaxonName(ECOLI_NAMES[p])
  {
    forall p | 0 <= p < |ECOLI_NAMES| ensures IsTaxonName(ECOLI_NAMES[p]) {
      if p == 6 { SpeciesName(); } else { PlainName(ECOLI_NAMES[p]); }
    }
  }

  /** The E. coli lineage, which holds every marker from `d__` to `s__`, is in
      the Species subset only. */
  lemma EColiOnlyInSpecies()
    ensures forall j :: 0 <= j < |RANKS| ==> (InRankLineage(ECOLI_LINEAGE, RANKS[j]) <==> RANKS[j].rankName == "Species")
  {
    EColiNames();
    RankedLineageInOneRank(ECOLI_NAMES);
    LabelPositions();
  }

  lemma EscherichiaColiSpaced()
    ensures ReplaceFirst("Escherichia_coli", "_", " ") == "Escherichia coli"
  {
    FirstUnderscoreOnly("Escherichia_coli", 11);
  }

  /** Its name under the Species marker `s__` is "Escherichia coli": the
      marker is cut off and the underscore becomes a space. */
  lemma EColiSpeciesName()
    ensures RankName(ECOLI_LINEAGE, RANKS[6].includePrefix) == Some("Escherichia coli")
  {
    EColiNames();
    RankNameInLineage(ECOLI_NAMES, 6);
    EscherichiaColiSpaced();
  }

  const PHYLUM_NAMES: seq<string> := ["Bacteria", "Proteobacteria"]

  /** d__Bacteria|p__Proteobacteria */
  const PHYLUM_LINEAGE: string := RankedLineage(PHYLUM_NAMES)

  lemma PhylumLineageText()
    ensures PHYLUM_LINEAGE == "d__Bacteria|p__Proteobacteria"
  {
    var mk, n := IncludeMarkers(RANKS), PHYLUM_NAMES;
    IncludeMarkerTexts();
    LineageStep(mk, n, 0);
    assert LineageFrom(mk, n, 1) == "p__" + "Proteobacteria";
  }

  lemma PhylumNames()
    ensures forall p :: 0 <= p < |PHYLUM_NAMES| ==> IsTaxonName(PHYLUM_NAMES[p])
  {
    PlainName("Bacteria");
    PlainName("Proteobacteria");
  }

  /** The lineage "d__Bacteria|p__Proteobacteria" is in the Phylum subset
      only; the Domain filter drops it because it holds `p__`. */
  lemma PhylumLineageOnlyInPhylum()
    ensures forall j :: 0 <= j < |RANKS| ==>
      (InRankLineage(PHYLUM_LINEAGE, RANKS[j]) <==> RANKS[j].rankName == "Phylum")
  {
    PhylumNames();
    RankedLineageInOneRank(PHYLUM_NAMES);
    LabelPositions();
  }

  lemma ProteobacteriaUnchanged()
    ensures ReplaceFirst("Proteobacteria", "_", " ") == "Proteobacteria"
  {
    NoUnderscoreUnchanged("Proteobacteria");
  }

  /** Its name under the Phylum marker `p__` is "Proteobacteria". */
  lemma PhylumLineageName()
    ensures RankName(PHYLUM_LINEAGE, RANKS[1].includePrefix) == Some("Proteobacteria")
  {
    PhylumNames();
    RankNameInLineage(PHYLUM_NAMES, 1);
    ProteobacteriaUnchanged();
  }

  lemma BacteriaUnchanged()
    ensures ReplaceFirst("Bacteria", "_", " ") == "Bacteria"
  {
    NoUnderscoreUnchanged("Bacteria");
  }

  /** The Domain marker `d__` would name the same lineage "Bacteria"; the
      Domain subset does not hold it only because its exclude filter drops
      the row. */
  lemma PhylumLineageDomainName()
    ensures RankName(PHYLUM_LINEAGE, RANKS[0].includePrefix) == Some("Bacteria")
  {
    PhylumNames();
    RankNameInLineage(PHYLUM_NAMES, 0);
    BacteriaUnchanged();
  }

  /** The literal lineage of unclassified reads is in no rank subset. */
  lemma UnclassifiedInNoRank()
    ensures forall j :: 0 <= j < |RANKS| ==> !InRankLineage("unclassified", RANKS[j])
  {
    NoUnderscoreNoRank("unclassified");
  }

  const GAPPED_NAMES: seq<string> := ["Bacteria", "Enterobacterales", "Enterobacteriaceae"]

  /** d__Bacteria|o__Enterobacterales|f__Enterobacteriaceae: Domain, then
      Order and Family, without Phylum and Class. */
  const GAPPED_LINEAGE: string := SparseLineage([0, 3, 4], GAPPED_NAMES)

  lemma GappedLineageText()
    ensures GAPPED_LINEAGE == "d__" + "Bacteria" + "|" + ("o__" + "Enterobacterales" + "|" + ("f__" + "Enterobacteriaceae"))
  {
    var mk := SelectMarkers(IncludeMarkers(RANKS), [0, 3, 4]);
    IncludeMarkerTexts();
    LineageStep(mk, GAPPED_NAMES, 1);
    LineageStep(mk, GAPPED_NAMES, 0);
  }

  lemma GappedNames()
    ensures forall p :: 0 <= p < |GAPPED_NAMES| ==> IsTaxonName(GAPPED_NAMES[p])
  {
    PlainName("Bacteria");
    PlainName("Enterobacterales");
    PlainName("Enterobacteriaceae");
  }

  /** A lineage with segments for Domain, Order and Family only is in the
      Domain and Family subsets, whatever its taxon names. */
  lemma DomainOrderFamilyRanks(ks: seq<nat>, names: seq<string>)
    requires ks == [0, 3, 4] && |names| == 3
    requires forall p :: 0 <= p < |names| ==> IsTaxonName(names[p])
    ensures forall j :: 0 <= j < |RANKS| ==>
      (InRankLineage(SparseLineage(ks, names), RANKS[j]) <==> j == 0 || j == 4)
  {
    RankTableChain();
    SparseLineageRanks(ks, names);
    forall j | 0 <= j < |RANKS|
      ensures InRankLineage(SparseLineage(ks, names), RANKS[j]) <==> j == 0 || j == 4
    {
      assert j in ks <==> j == 0 || j == 3 || j == 4;
      assert j + 1 in ks <==> j == 2 || j == 3;
    }
  }

  /** The gapped lineage is in two subsets: Domain, because it lacks `p__`,
      and Family, because it lacks `g__`. Order drops it for holding `f__`. */
  lemma GappedLineageInTwoRanks()
    ensures forall j :: 0 <= j < |RANKS| ==> (InRankLineage(GAPPED_LINEAGE, RANKS[j]) <==> j == 0 || j == 4)
  {
    GappedNames();
    DomainOrderFamilyRanks([0, 3, 4], GAPPED_NAMES);
  }
}
