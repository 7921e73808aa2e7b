/** Subset (slim) metadata: the rows of a subset query grouped into categories
    by their `source`, completed with each category's own class, and, for the
    `goslim_agr` subset, reordered by the static AGR slim table. */
module Subsets {
  import opened Wrappers
  import opened PyList

  /** One ontology document as the subset query returns it
      (`annotation_class`, `annotation_class_label`, `description`, `source`). */
  datatype SubsetRow = SubsetRow(annotationClass: string, classLabel: string, description: string, source: string)

  /** A row copied without its `source` key: a member term of a category. */
  datatype SubsetTerm = SubsetTerm(annotationClass: string, classLabel: string, description: string)

  /** One category of the subset metadata: its label is the source it was
      grouped on; its class and description are absent until the second
      query finds a document with that label. */
  datatype SubsetCategory = SubsetCategory(
    classLabel: string,
    terms: seq<SubsetTerm>,
    annotationClass: Option<string>,
    description: Option<string>)

  function StripSource(row: SubsetRow): SubsetTerm {
    SubsetTerm(row.annotationClass, row.classLabel, row.description)
  }

  function Sources(rows: seq<SubsetRow>): seq<string> {
    seq(|rows|, k requires 0 <= k < |rows| => rows[k].source)
  }

  function RowLabels(rows: seq<SubsetRow>): seq<string> {
    seq(|rows|, k requires 0 <= k < |rows| => rows[k].classLabel)
  }

  function Labels(cats: seq<SubsetCategory>): seq<string> {
    seq(|cats|, i requires 0 <= i < |cats| => cats[i].classLabel)
  }

  lemma SourcesSnoc(rows: seq<SubsetRow>)
    requires rows != []
    ensures Sources(rows) == Sources(rows[..|rows| - 1]) + [rows[|rows| - 1].source]
  {
  }

  /** The distinct sources of `rows`, in the order they first appear (the
      insertion order of the dictionary keyed by source). */
  function FirstSeen(rows: seq<SubsetRow>): (r: seq<string>)
    ensures Distinct(r)
    ensures forall x :: x in r <==> x in Sources(rows)
    decreases |rows|
  {
    if rows == [] then []
    else
      var prev := FirstSeen(rows[..|rows| - 1]);
      var src := rows[|rows| - 1].source;
      SourcesSnoc(rows);
      prev + (if src in prev then [] else [src])
  }

  /** The rows whose source is `src`, each without its source, in row order. */
  function TermsOf(rows: seq<SubsetRow>, src: string): seq<SubsetTerm>
    decreases |rows|
  {
    if rows == [] then []
    else
      var last := rows[|rows| - 1];
      TermsOf(rows[..|rows| - 1], src) + (if last.source == src then [StripSource(last)] else [])
  }

  /** The grouped categories: one per distinct source, in first-seen order. */
  function Grouped(rows: seq<SubsetRow>): seq<SubsetCategory> {
    var fs := FirstSeen(rows);
    seq(|fs|, i requires 0 <= i < |fs| => SubsetCategory(fs[i], TermsOf(rows, fs[i]), None, None))
  }

  lemma GroupedLabels(rows: seq<SubsetRow>)
    ensures Labels(Grouped(rows)) == FirstSeen(rows)
  {
  }

  lemma {:induction false} TermsOfAbsent(rows: seq<SubsetRow>, src: string)
    requires src !in Sources(rows)
    ensures TermsOf(rows, src) == []
    decreases |rows|
  {
    if rows != [] {
      SourcesSnoc(rows);
      TermsOfAbsent(rows[..|rows| - 1], src);
    }
  }

  /** One turn of the grouping loop on the categories built so far. */
  function AddRow(g: seq<SubsetCategory>, row: SubsetRow): seq<SubsetCategory> {
    var g1 := if row.source in Labels(g) then g else g + [SubsetCategory(row.source, [], None, None)];
    assert row.source in Labels(g1) by {
      if row.source !in Labels(g) { assert Labels(g1)[|g|] == row.source; }
    }
    var i := IndexOf(Labels(g1), row.source);
    g1[i := g1[i].(terms := g1[i].terms + [StripSource(row)])]
  }

  lemma FirstSeenSnoc(rows: seq<SubsetRow>, row: SubsetRow)
    ensures FirstSeen(rows + [row]) == FirstSeen(rows) + (if row.source in FirstSeen(rows) then [] else [row.source])
  {
    assert (rows + [row])[..|rows|] == rows;
  }

  lemma TermsOfSnoc(rows: seq<SubsetRow>, row: SubsetRow, l: string)
    ensures TermsOf(rows + [row], l) == TermsOf(rows, l) + (if row.source == l then [StripSource(row)] else [])
  {
    assert (rows + [row])[..|rows|] == rows;
  }

  /** The grouped categories of the rows so far, with an empty category for
      a new source appended: the categories of the longer first-seen list,
      each with the terms of the rows so far. */
  lemma GroupedWithNewSource(rows: seq<SubsetRow>, row: SubsetRow)
    ensures var g := Grouped(rows);
      var g1 := if row.source in Labels(g) then g else g + [SubsetCategory(row.source, [], None, None)];
      var fs' := FirstSeen(rows + [row]);
      |g1| == |fs'|
      && forall j :: 0 <= j < |fs'| ==> g1[j] == SubsetCategory(fs'[j], TermsOf(rows, fs'[j]), None, None)
  {
    var src := row.source;
    var g := Grouped(rows);
    GroupedLabels(rows);
    FirstSeenSnoc(rows, row);
    if src !in FirstSeen(rows) {
      SourcesSnoc(rows + [row]);
      TermsOfAbsent(rows, src);
    }
  }

  /** One more row extends the grouping the way one turn of the loop does. */
  lemma GroupedSnoc(rows: seq<SubsetRow>, row: SubsetRow)
    ensures Grouped(rows + [row]) == AddRow(Grouped(rows), row)
  {
    var src := row.source;
    var g := Grouped(rows);
    var fs' := FirstSeen(rows + [row]);
    var g1 := if src in Labels(g) then g else g + [SubsetCategory(src, [], None, None)];
    GroupedWithNewSource(rows, row);
    assert Labels(g1) == fs';
    var i := IndexOf(Labels(g1), src);
    var expected := AddRow(g, row);
    assert expected == g1[i := g1[i].(terms := g1[i].terms + [StripSource(row)])];
    var actual := Grouped(rows + [row]);
    forall j | 0 <= j < |actual|
      ensures actual[j] == expected[j]
    {
      TermsOfSnoc(rows, row, fs'[j]);
      if j != i {
        assert fs'[j] != src;
      }
    }
  }

  /** The grouping loop: each row is appended, without its source, to the
      category of its source, which is created on first sight. */
  method GroupBySource(rows: seq<SubsetRow>) returns (cats: seq<SubsetCategory>)
    ensures cats == Grouped(rows)
  {
    cats := [];
    var n := 0;
    while n < |rows|
      invariant 0 <= n <= |rows|
      invariant cats == Grouped(rows[..n])
    {
      var row := rows[n];
      ghost var prev := cats;
      if row.source !in Labels(cats) {
        cats := cats + [SubsetCategory(row.source, [], None, None)];
        assert Labels(cats)[|prev|] == row.source;
      }
      var i := IndexOf(Labels(cats), row.source);
      cats := cats[i := cats[i].(terms := cats[i].terms + [StripSource(row)])];
      assert cats == AddRow(prev, row);
      GroupedSnoc(rows[..n], row);
      assert rows[..n + 1] == rows[..n] + [row];
      n := n + 1;
    }
    assert rows[..n] == rows;
  }

  /** Every row lands in exactly one category, the one labelled with its source,
      as a copy without the source. */
  lemma RowLandsOnce(rows: seq<SubsetRow>, k: nat)
    requires k < |rows|
    ensures exists i :: 0 <= i < |Grouped(rows)| && Grouped(rows)[i].classLabel == rows[k].source
    ensures forall i :: 0 <= i < |Grouped(rows)| && Grouped(rows)[i].classLabel == rows[k].source ==>
              StripSource(rows[k]) in Grouped(rows)[i].terms
    ensures forall i, j ::
              (0 <= i < |Grouped(rows)| && 0 <= j < |Grouped(rows)| &&
               Grouped(rows)[i].classLabel == rows[k].source && Grouped(rows)[j].classLabel == rows[k].source) ==> i == j
  {
    var fs := FirstSeen(rows);
    assert Sources(rows)[k] == rows[k].source;
    var i := IndexOf(fs, rows[k].source);
    assert Grouped(rows)[i].classLabel == rows[k].source;
    TermsOfHas(rows, k);
  }

  lemma {:induction false} TermsOfHas(rows: seq<SubsetRow>, k: nat)
    requires k < |rows|
    ensures StripSource(rows[k]) in TermsOf(rows, rows[k].source)
    decreases |rows|
  {
    if k < |rows| - 1 {
      assert rows[..|rows| - 1][k] == rows[k];
      TermsOfHas(rows[..|rows| - 1], k);
    }
  }

  /** Categories come in the order their sources first occur among the rows. */
  lemma {:induction false} FirstSeenOrder(rows: seq<SubsetRow>, i: nat, j: nat)
    requires i < j < |FirstSeen(rows)|
    ensures IndexOf(Sources(rows), FirstSeen(rows)[i]) < IndexOf(Sources(rows), FirstSeen(rows)[j])
    decreases |rows|
  {
    var prefix := rows[..|rows| - 1];
    var prev := FirstSeen(prefix);
    var src := rows[|rows| - 1].source;
    SourcesSnoc(rows);
    var fs := FirstSeen(rows);
    assert fs[i] in prev;
    IndexOfPrefix(Sources(prefix), [src], fs[i]);
    if j < |prev| {
      IndexOfPrefix(Sources(prefix), [src], fs[j]);
      FirstSeenOrder(prefix, i, j);
    } else {
      assert fs[j] == src && src !in Sources(prefix);
      IndexOfUnique(Sources(rows), src, |rows| - 1);
    }
  }

  lemma IndexOfPrefix(s: seq<string>, t: seq<string>, x: string)
    requires x in s
    ensures IndexOf(s + t, x) == IndexOf(s, x)
  {
    var k := IndexOf(s, x);
    assert (s + t)[..k] == s[..k];
    IndexOfUnique(s + t, x, k);
  }

  /** The index of the first document of the second query whose label is `l`. */
  function FirstLabelMatch(rows: seq<SubsetRow>, l: string): (r: Option<nat>)
    ensures r.Some? ==> r.value < |rows| && rows[r.value].classLabel == l &&
                        forall k :: 0 <= k < r.value ==> rows[k].classLabel != l
    ensures r.None? ==> forall k :: 0 <= k < |rows| ==> rows[k].classLabel != l
  {
    var labels := RowLabels(rows);
    if l in labels then
      var k := IndexOf(labels, l);
      assert forall q :: 0 <= q < k ==> rows[q].classLabel != l by {
        forall q | 0 <= q < k ensures rows[q].classLabel != l {
          assert labels[..k][q] == labels[q] == rows[q].classLabel;
        }
      }
      Some(k)
    else
      assert forall q :: 0 <= q < |rows| ==> rows[q].classLabel != l by {
        forall q | 0 <= q < |rows| ensures rows[q].classLabel != l {
          assert labels[q] == rows[q].classLabel;
        }
      }
      None
  }

  /** A category completed from the first document carrying its label; left
      as it was when no document does. */
  function Classified(c: SubsetCategory, rows: seq<SubsetRow>): SubsetCategory {
    match FirstLabelMatch(rows, c.classLabel)
    case None => c
    case Some(k) => c.(annotationClass := Some(rows[k].annotationClass), description := Some(rows[k].description))
  }

  /** The completion loop: for each category, the first document whose label
      is the category's label gives it a class and a description. */
  method FillCategoryClasses(cats: seq<SubsetCategory>, rows: seq<SubsetRow>) returns (r: seq<SubsetCategory>)
    ensures |r| == |cats|
    ensures forall i :: 0 <= i < |cats| ==> r[i] == Classified(cats[i], rows)
  {
    r := [];
    var i := 0;
    while i < |cats|
      invariant 0 <= i <= |cats|
      invariant |r| == i
      invariant forall p :: 0 <= p < i ==> r[p] == Classified(cats[p], rows)
    {
      var cat := cats[i];
      var k := 0;
      while k < |rows|
        invariant 0 <= k <= |rows|
        invariant forall q :: 0 <= q < k ==> rows[q].classLabel != cat.classLabel
      {
        if rows[k].classLabel == cat.classLabel {
          cat := cat.(annotationClass := Some(rows[k].annotationClass), description := Some(rows[k].description));
          break;
        }
        k := k + 1;
      }
      r := r + [cat];
      i := i + 1;
    }
  }

  // ---------------------------------------------------------------------
  // The AGR slim order

  /** One section of the AGR slim table: a category class and, in display
      order, the classes of its terms. */
  datatype AgrSection = AgrSection(category: string, terms: seq<string>)

  const GoslimAgr := "goslim_agr"

  const AgrSlimOrder: seq<AgrSection> := [
    AgrSection("GO:0003674", [
      "GO:0003824", "GO:0030234", "GO:0038023", "GO:0005102", "GO:0005215", "GO:0005198",
      "GO:0008092", "GO:0003677", "GO:0003723", "GO:0003700", "GO:0008134", "GO:0036094",
      "GO:0046872", "GO:0030246", "GO:0097367", "GO:0008289"
    ]),
    AgrSection("GO:0008150", [
      "GO:0007049", "GO:0016043", "GO:0051234", "GO:0008283", "GO:0030154", "GO:0008219",
      "GO:0032502", "GO:0000003", "GO:0002376", "GO:0050877", "GO:0050896", "GO:0023052",
      "GO:0006259", "GO:0016070", "GO:0019538", "GO:0005975", "GO:1901135", "GO:0006629",
      "GO:0042592", "GO:0009056", "GO:0007610"
    ]),
    AgrSection("GO:0005575", [
      "GO:0005576", "GO:0005886", "GO:0045202", "GO:0030054", "GO:0042995", "GO:0031410",
      "GO:0005768", "GO:0005773", "GO:0005794", "GO:0005783", "GO:0005829", "GO:0005739",
      "GO:0005634", "GO:0005694", "GO:0005856", "GO:0032991"
    ])
  ]

  function TermClasses(terms: seq<SubsetTerm>): seq<string> {
    seq(|terms|, k requires 0 <= k < |terms| => terms[k].annotationClass)
  }

  /** The first term of class `cls`, as the inner search with `break` finds it. */
  function FirstWithClass(terms: seq<SubsetTerm>, cls: string): (r: Option<SubsetTerm>)
    ensures r.Some? <==> cls in TermClasses(terms)
    ensures r.Some? ==> r.value in terms && r.value.annotationClass == cls
    ensures r.Some? ==> exists k :: 0 <= k < |terms| && terms[k] == r.value
                                    && forall j :: 0 <= j < k ==> terms[j].annotationClass != cls
  {
    var cs := TermClasses(terms);
    if cls in cs then
      var k := IndexOf(cs, cls);
      assert forall j :: 0 <= j < k ==> terms[j].annotationClass == cs[..k][j];
      Some(terms[k])
    else None
  }

  /** For each class of `order` in turn, the first term of that class, if any. */
  function PickTerms(terms: seq<SubsetTerm>, order: seq<string>): (r: seq<SubsetTerm>)
    ensures forall t :: t in r ==> t in terms
    decreases |order|
  {
    if order == [] then []
    else
      PickTerms(terms, order[..|order| - 1]) +
      match FirstWithClass(terms, order[|order| - 1])
      case Some(t) => [t]
      case None => []
  }

  function InClasses(terms: seq<SubsetTerm>): string -> bool {
    cls => cls in TermClasses(terms)
  }

  /** A reordered category lists exactly the section's classes that it has,
      in the section's order: unlisted terms are dropped. */
  lemma {:induction false} PickTermsClasses(terms: seq<SubsetTerm>, order: seq<string>)
    ensures TermClasses(PickTerms(terms, order)) == Filter(order, InClasses(terms))
    decreases |order|
  {
    if order != [] {
      var prefix := order[..|order| - 1];
      var cls := order[|order| - 1];
      PickTermsClasses(terms, prefix);
      var prev := PickTerms(terms, prefix);
      match FirstWithClass(terms, cls)
      case Some(t) =>
        assert PickTerms(terms, order) == prev + [t];
        assert TermClasses(prev + [t]) == TermClasses(prev) + [cls];
      case None =>
        assert PickTerms(terms, order) == prev;
    }
  }

  /** The term reordering of one category: the loops over the section's
      classes and, with `break`, over the category's terms. */
  method ReorderTerms(terms: seq<SubsetTerm>, order: seq<string>) returns (r: seq<SubsetTerm>)
    ensures r == PickTerms(terms, order)
  {
    r := [];
    var n := 0;
    while n < |order|
      invariant 0 <= n <= |order|
      invariant r == PickTerms(terms, order[..n])
    {
      var ot := order[n];
      assert order[..n + 1][..n] == order[..n];
      var k := 0;
      while k < |terms|
        invariant 0 <= k <= |terms|
        invariant ot !in TermClasses(terms[..k])
      {
        if terms[k].annotationClass == ot {
          assert TermClasses(terms)[k] == ot;
          assert TermClasses(terms)[..k] == TermClasses(terms[..k]);
          IndexOfUnique(TermClasses(terms), ot, k);
          r := r + [terms[k]];
          break;
        }
        assert TermClasses(terms[..k + 1]) == TermClasses(terms[..k]) + [terms[k].annotationClass];
        k := k + 1;
      }
      if k == |terms| {
        assert terms[..k] == terms;
      }
      n := n + 1;
    }
    assert order[..n] == order;
  }

  /** The categories of one section, in their current order, each with its
      terms reordered by the section. */
  function InSection(cats: seq<SubsetCategory>, sec: AgrSection): (r: seq<SubsetCategory>)
    ensures forall c :: c in r ==> c.annotationClass == Some(sec.category)
    decreases |cats|
  {
    if cats == [] then []
    else
      var c := cats[|cats| - 1];
      InSection(cats[..|cats| - 1], sec) +
      (if c.annotationClass == Some(sec.category) then [c.(terms := PickTerms(c.terms, sec.terms))] else [])
  }

  /** The reordered list: section by section, the categories of that section. */
  function AgrOrdered(sections: seq<AgrSection>, cats: seq<SubsetCategory>): seq<SubsetCategory>
    decreases |sections|
  {
    if sections == [] then []
    else AgrOrdered(sections[..|sections| - 1], cats) + InSection(cats, sections[|sections| - 1])
  }

  function SectionCategories(sections: seq<AgrSection>): seq<string> {
    seq(|sections|, s requires 0 <= s < |sections| => sections[s].category)
  }

  /** Every category kept by the reordering belongs to a section of the table:
      categories the table does not list are dropped. */
  lemma {:induction false} AgrOrderedListed(sections: seq<AgrSection>, cats: seq<SubsetCategory>, c: SubsetCategory)
    requires c in AgrOrdered(sections, cats)
    ensures exists s :: 0 <= s < |sections| && c.annotationClass == Some(sections[s].category)
    decreases |sections|
  {
    var prefix := sections[..|sections| - 1];
    if c in AgrOrdered(prefix, cats) {
      AgrOrderedListed(prefix, cats, c);
      var s :| 0 <= s < |prefix| && c.annotationClass == Some(prefix[s].category);
      assert sections[s] == prefix[s];
    }
  }

  /** A category of the input whose class heads a section is kept, with its
      terms in that section's order. */
  lemma {:induction false} AgrOrderedComplete(sections: seq<AgrSection>, cats: seq<SubsetCategory>, c: SubsetCategory, s: nat)
    requires c in cats && s < |sections| && c.annotationClass == Some(sections[s].category)
    ensures c.(terms := PickTerms(c.terms, sections[s].terms)) in AgrOrdered(sections, cats)
    decreases |sections|
  {
    var prefix := sections[..|sections| - 1];
    if s < |sections| - 1 {
      assert prefix[s] == sections[s];
      AgrOrderedComplete(prefix, cats, c, s);
    } else {
      InSectionComplete(cats, sections[s], c);
    }
  }

  lemma {:induction false} InSectionComplete(cats: seq<SubsetCategory>, sec: AgrSection, c: SubsetCategory)
    requires c in cats && c.annotationClass == Some(sec.category)
    ensures c.(terms := PickTerms(c.terms, sec.terms)) in InSection(cats, sec)
    decreases |cats|
  {
    if c != cats[|cats| - 1] {
      assert c in cats[..|cats| - 1] by {
        var k :| 0 <= k < |cats| && cats[k] == c;
        assert cats[..|cats| - 1][k] == c;
      }
      InSectionComplete(cats[..|cats| - 1], sec, c);
    }
  }

  /** With distinct section classes, the reordered categories follow the
      table's section order. */
  lemma {:induction false} AgrOrderedSorted(sections: seq<AgrSection>, cats: seq<SubsetCategory>, i: nat, j: nat, si: nat, sj: nat)
    requires Distinct(SectionCategories(sections))
    requires i < j < |AgrOrdered(sections, cats)| && si < |sections| && sj < |sections|
    requires AgrOrdered(sections, cats)[i].annotationClass == Some(sections[si].category)
    requires AgrOrdered(sections, cats)[j].annotationClass == Some(sections[sj].category)
    ensures si <= sj
    decreases |sections|
  {
    var n := |sections| - 1;
    var prefix := sections[..n];
    var r := AgrOrdered(sections, cats);
    var r' := AgrOrdered(prefix, cats);
    var block := InSection(cats, sections[n]);
    assert r == r' + block;
    assert forall a, b :: 0 <= a < |sections| && 0 <= b < |sections| && sections[a].category == sections[b].category ==> a == b by {
      forall a, b | 0 <= a < |sections| && 0 <= b < |sections| && sections[a].category == sections[b].category
        ensures a == b
      {
        assert SectionCategories(sections)[a] == SectionCategories(sections)[b];
      }
    }
    if j < |r'| {
      assert r'[i] in r' && r'[j] in r';
      AgrOrderedListed(prefix, cats, r'[i]);
      AgrOrderedListed(prefix, cats, r'[j]);
      var pi :| 0 <= pi < |prefix| && r'[i].annotationClass == Some(prefix[pi].category);
      var pj :| 0 <= pj < |prefix| && r'[j].annotationClass == Some(prefix[pj].category);
      assert prefix[pi] == sections[pi] && prefix[pj] == sections[pj];
      assert pi == si && pj == sj;
      assert Distinct(SectionCategories(prefix)) by {
        assert forall a :: 0 <= a < n ==> SectionCategories(prefix)[a] == SectionCategories(sections)[a];
      }
      AgrOrderedSorted(prefix, cats, i, j, si, sj);
    } else {
      assert block[j - |r'|] in block;
      assert sj == n;
    }
  }

  lemma AgrSlimOrderDistinct()
    ensures Distinct(SectionCategories(AgrSlimOrder))
  {
    assert SectionCategories(AgrSlimOrder) == ["GO:0003674", "GO:0008150", "GO:0005575"];
  }

  /** The outcome of the reordering: a category without a class makes the
      lookup of its `annotation_class` fail, otherwise the ordered list. */
  function AgrResult(sections: seq<AgrSection>, cats: seq<SubsetCategory>): Result<seq<SubsetCategory>, Error> {
    if exists c :: c in cats && c.annotationClass.None? then Failure(KeyError("annotation_class"))
    else Success(AgrOrdered(sections, cats))
  }

  /** The scan of one section over the categories: the first category without
      a class fails it, otherwise the section's categories, terms reordered. */
  method ScanSection(section: AgrSection, cats: seq<SubsetCategory>) returns (ok: bool, block: seq<SubsetCategory>)
    ensures ok <==> forall c :: c in cats ==> c.annotationClass.Some?
    ensures ok ==> block == InSection(cats, section)
  {
    var k := 0;
    block := [];
    while k < |cats|
      invariant 0 <= k <= |cats|
      invariant forall c :: c in cats[..k] ==> c.annotationClass.Some?
      invariant block == InSection(cats[..k], section)
    {
      var category := cats[k];
      assert cats[..k + 1][..k] == cats[..k];
      if category.annotationClass.None? {
        assert category in cats;
        return false, block;
      }
      if category.annotationClass.value == section.category {
        var ordered := ReorderTerms(category.terms, section.terms);
        block := block + [category.(terms := ordered)];
      }
      k := k + 1;
    }
    assert cats[..k] == cats;
    ok := true;
  }

  /** The `goslim_agr` reordering loops: for each section of the table, every
      category whose class is the section's, with its terms reordered. A
      category without a class fails the first section's scan. */
  method ReorderBySections(sections: seq<AgrSection>, cats: seq<SubsetCategory>) returns (r: Result<seq<SubsetCategory>, Error>)
    requires sections != []
    ensures r == AgrResult(sections, cats)
  {
    var temp: seq<SubsetCategory> := [];
    var s := 0;
    while s < |sections|
      invariant 0 <= s <= |sections|
      invariant s > 0 ==> forall c :: c in cats ==> c.annotationClass.Some?
      invariant temp == AgrOrdered(sections[..s], cats)
    {
      assert sections[..s + 1][..s] == sections[..s];
      var ok, block := ScanSection(sections[s], cats);
      if !ok {
        return Failure(KeyError("annotation_class"));
      }
      temp := temp + block;
      s := s + 1;
    }
    assert sections[..s] == sections;
    r := Success(temp);
  }

  method ReorderAgr(cats: seq<SubsetCategory>) returns (r: Result<seq<SubsetCategory>, Error>)
    ensures r == AgrResult(AgrSlimOrder, cats)
  {
    assert |AgrSlimOrder| == 3;
    r := ReorderBySections(AgrSlimOrder, cats);
  }

  /** The subset-metadata handler after its queries: `rows` answers the subset
      query, `labelQuery` the query for the categories' own documents by label. */
  method SubsetMetadata(id: string, rows: seq<SubsetRow>, labelQuery: seq<string> -> seq<SubsetRow>)
    returns (r: Result<seq<SubsetCategory>, Error>)
    ensures var grouped := Grouped(rows);
            var completed := seq(|grouped|, i requires 0 <= i < |grouped| => Classified(grouped[i], labelQuery(FirstSeen(rows))));
            r == if id == GoslimAgr then AgrResult(AgrSlimOrder, completed) else Success(completed)
  {
    var tr := GroupBySource(rows);
    GroupedLabels(rows);
    var data := labelQuery(Labels(tr));
    var result := FillCategoryClasses(tr, data);
    ghost var completed := seq(|tr|, i requires 0 <= i < |tr| => Classified(tr[i], labelQuery(FirstSeen(rows))));
    assert result == completed;
    if id == GoslimAgr {
      r := ReorderAgr(result);
    } else {
      r := Success(result);
    }
  }
}
