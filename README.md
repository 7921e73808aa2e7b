# GO API ribbon core, modelled in Dafny

This project models the core of the Gene Ontology API (a FastAPI service):

- **The ribbon endpoint** (`/api/ontology/ribbon/`). Given a slim subset and a
  list of gene ids, it builds the ribbon's categories, rewrites and maps the
  gene ids, and queries each subject's annotations. It counts those
  annotations per category group and per evidence type, with an "-other"
  bucket for each category. It then attaches each subject's label and taxon,
  maps protein ids back to gene ids, and drops subjects without annotations.
- **The subset-metadata handler** (`go_fastapi/routers/ontology.py:127-198`). It
  groups a slim's terms by their source category and fills in each
  category's class. For the `goslim_agr` slim, it also reorders categories
  and terms after the built-in `agr_slim_order` table. The ribbon handler
  needs categories of this shape, but as written it cannot obtain them from
  this handler (see Left out). The model takes the subset's categories as an
  input to the ribbon handler.
- **The shared-ancestor endpoint** and the GO id rewrite `correct_goid`.
- **The labeler's** `MGI:MGI` rewriting loop.

Solr and mygene calls are function-valued parameters. Python lists are
sequences. Dictionaries are maps, and Python sets are `set`s.

Iterating over a Python list while removing from it is modelled with Python's
positional list iterator. The functions `Subjects.RemoveEachDuring` and
`Labeler.RewriteDuring` do this: after a removal, the element that moves
into the current slot is skipped. `list.remove` drops the first equal element
(`PyList.RemoveFirst`).

Modules:

- `Wrappers`: `Option` and `Result`, plus the `KeyError` and `IndexError` the
  Python code raises.
- `PyText` and `PyList`: the string and list operations the code uses.
- `Subsets`: subset metadata and the AGR reordering.
- `Categories`: ribbon categories and `get_category_terms`.
- `Tallies`: the `{terms, nb_annotations}` counters.
- `Aggregate`: per-subject counting.
- `Subjects`: id rewriting, mapping, details, back-mapping and removal.
- `Ribbon`: the whole handler.
- `OntologyTerms`: shared ancestors and `correct_goid`.
- `Labeler`: the `MGI:MGI` loop.

The ribbon handler `app/routers/ribbon.py:38-283` appears again as
`go_fastapi/routers/ontology.py:239-484`, and so do `aspect_map` and
`get_category_terms`. The body is the same line for line; only the route
differs (`POST /ontology/ribbon/` there). The table cites the `app/routers/ribbon.py` lines, and the
model covers both copies.

Each loop that updates a list, a dictionary or a counter is a `method` whose
`ensures` ties the result to a specification function, and the lemmas state
what those functions mean. Three loops are functions instead:

- the copy of the grouping dictionary's keys into `cats` and `result`
  (`go_fastapi/routers/ontology.py:162-164` and `176-179`), which is
  `Subsets.FirstSeen` and `Subsets.Grouped`;
- the `break` search over a category's terms
  (`go_fastapi/routers/ontology.py:190-193`), which is `Subsets.FirstWithClass`.
  It is also run as the inner loop of the method `Subsets.ReorderTerms`.

## Model

| member | source | states |
|---|---|---|
| Categories.Readable | app/routers/ribbon.py:83-88 | the caption of a category label has the label's length and contains no underscore. Each character is the lower-cased label's character at the same position, with `_` turned into a space |
| Categories.BuildCategory | app/routers/ribbon.py:64-91 | a renamed category keeps its class as `id` and its label and description. Its groups are one "All" group, one Term group per subset term (in order, id and label taken from the term), and one "Other" group, so there are as many groups as terms plus two |
| Categories.BuildCategories | app/routers/ribbon.py:61-91 | the renaming loop gives a `KeyError("annotation_class")` when some category has no class, and otherwise each category rebuilt in place by `BuildCategory` |
| Categories.TermGroupsLoop | app/routers/ribbon.py:73-80 | the inner group loop yields one Term-typed group per term, in order |
| Categories.CategoryTerms | app/routers/ribbon.py:30-35 | `get_category_terms` keeps exactly the Term-typed groups, in order |
| Categories.BuiltTermGroups | app/routers/ribbon.py:209-210 | on a built category, `get_category_terms` returns exactly the subset's terms and none of the "All" or "Other" groups, so the ids the "-other" test uses are the subset's term classes |
| Subsets.FirstSeen | go_fastapi/routers/ontology.py:162-164 | the category labels are duplicate-free and are exactly the sources that occur in the rows |
| Subsets.GroupBySource | go_fastapi/routers/ontology.py:153-160 | the grouping loop's result equals the specification grouping: one category per distinct source, each with its rows stripped of `source` |
| Subsets.GroupedLabels | go_fastapi/routers/ontology.py:153-164 | the grouped categories' labels are the list sent to the label query |
| Subsets.RowLandsOnce | go_fastapi/routers/ontology.py:153-160 | every row lands in exactly one category, the one labelled with its source, and appears among its terms |
| Subsets.FirstSeenOrder | go_fastapi/routers/ontology.py:153-164 | categories come in the order their source first occurs in the rows |
| Subsets.FirstLabelMatch | go_fastapi/routers/ontology.py:170-174 | it gives the first label-query row whose label equals the category's, or none when no row has that label |
| Subsets.FillCategoryClasses | go_fastapi/routers/ontology.py:169-174 | each category takes its class and description from the first row carrying its label, and is unchanged when no row carries it |
| Subsets.FirstWithClass | go_fastapi/routers/ontology.py:190-193 | a term is found exactly when some term has the requested class. The term found has that class, and no term before it does (the first one, where the search breaks) |
| Subsets.PickTermsClasses | go_fastapi/routers/ontology.py:188-194 | the reordered term list has, as its classes, the order table filtered to the classes the category has, in table order |
| Subsets.ReorderTerms | go_fastapi/routers/ontology.py:188-194 | the term reordering loop computes the specification reordering |
| Subsets.AgrOrderedListed | go_fastapi/routers/ontology.py:182-196 | every category in the reordered result belongs to some section of the table |
| Subsets.AgrOrderedComplete | go_fastapi/routers/ontology.py:182-196 | every category of a listed section appears in the result with its terms reordered |
| Subsets.AgrOrderedSorted | go_fastapi/routers/ontology.py:184-196 | when section categories are distinct, result categories follow the table's section order |
| Subsets.AgrSlimOrderDistinct | go_fastapi/routers/ontology.py:489-560 | the built-in AGR table names each category once |
| Subsets.ReorderBySections | go_fastapi/routers/ontology.py:182-196 | the reordering loop fails with `KeyError("annotation_class")` when it meets a category without a class, and otherwise gives the section-ordered categories. With a table that lists a category in two sections, the two copies differ from the source's (see Left out) |
| Subsets.ScanSection | go_fastapi/routers/ontology.py:186-195 | one section's scan fails exactly when some category has no class, and otherwise yields the section's categories in their order, each with its terms reordered |
| Subsets.ReorderAgr | go_fastapi/routers/ontology.py:182-196 | the reordering is run with the built-in AGR table |
| Subsets.SubsetMetadata | go_fastapi/routers/ontology.py:151-198 | the endpoint returns the grouped categories completed from the label query, reordered after the AGR table when the subset is `goslim_agr` |
| Tallies.Record | app/routers/ribbon.py:192-207 | counting one record adds the "ALL" subgroup and its evidence-type subgroup to the bucket's keys, and no other key |
| Tallies.RecordMeaning | app/routers/ribbon.py:192-207 | if a bucket holds the counts of some records, then after one more record it holds the counts of those records plus that one |
| Tallies.FillMeaning | app/routers/ribbon.py:212-232 | a bucket filled from fresh has the keys "ALL" plus the records' evidence types. Each subgroup holds the classes and the number of records of its evidence type, and "ALL" holds those of every record |
| Tallies.FillConcat | app/routers/ribbon.py:183-207 | filling with two runs of records equals filling with the first and then the second |
| Tallies.FillBounded | app/routers/ribbon.py:236-239 | in every subgroup the number of distinct classes never exceeds the number of annotations |
| Tallies.FillBalanced | app/routers/ribbon.py:192-207 | the "ALL" count equals the sum of the evidence-type counts |
| Aggregate.FirstBadAspect | app/routers/ribbon.py:153 | the first aspect missing from `aspect_map` is reported exactly when some record has such an aspect (the `KeyError` of the lookup) |
| Aggregate.FindHit | app/routers/ribbon.py:154-170 | the group search finds a group exactly when some non-"Other" group of an eligible category lies in the record's regulates closure |
| Aggregate.CountHits | app/routers/ribbon.py:152-173 | the first pass reports the first unknown aspect. Otherwise it counts exactly the hit records and collects their classes |
| Aggregate.HitRecordsMeaning | app/routers/ribbon.py:152-173 | the counted records are exactly the records that hit some group, with no more of them than records |
| Aggregate.AddRecordMatches | app/routers/ribbon.py:183-207 | the record loop for one group adds each matching record to that group's bucket |
| Aggregate.AddCategoryMatches | app/routers/ribbon.py:177-207 | the group loop of a category adds every matching record under each non-"Other" group |
| Aggregate.AnyInClosure | app/routers/ribbon.py:220-224 | the term search succeeds exactly when some Term id of the category is in the record's closure |
| Aggregate.OtherBucket | app/routers/ribbon.py:212-232 | the "-other" bucket is the fresh bucket filled with exactly the eligible records that match no Term group |
| Aggregate.OtherRecordsMeaning | app/routers/ribbon.py:214-226 | the "-other" records are exactly the eligible records whose closure holds none of the category's Term ids |
| Aggregate.GroupPasses | app/routers/ribbon.py:175-234 | the per-category passes leave the group map equal to the specification group map |
| Aggregate.Finalize | app/routers/ribbon.py:236-243 | each subgroup gets `nb_classes` as its number of distinct classes, and only "-other" groups keep their terms |
| Aggregate.Aggregated | app/routers/ribbon.py:125-248 | aggregating a subject fails exactly when some record has an aspect outside `aspect_map`. On success it keeps the subject id and has no details yet |
| Aggregate.AggregateSubject | app/routers/ribbon.py:125-248 | the per-subject code computes the specification aggregation |
| Aggregate.AllMatchesMeaning | app/routers/ribbon.py:175-207 | a record is counted under group id `g` exactly when it is a record whose closure holds `g` and `g` is a non-"Other" group of a category the record is eligible for |
| Aggregate.EntityCounts | app/routers/ribbon.py:171-173 | a subject's `nb_annotations` is the number of hit records and at most the number of records, and its `nb_classes` is at most its `nb_annotations` |
| Aggregate.SubgroupCounts | app/routers/ribbon.py:236-243 | every subgroup has `nb_classes <= nb_annotations`, and keeps its terms exactly when its group id contains "-other" |
| Aggregate.OtherEntries | app/routers/ribbon.py:212-234 | every category has its "-other" entry, with an "ALL" subgroup that keeps its terms |
| Aggregate.GroupCount | app/routers/ribbon.py:177-181 | the number of non-"Other" groups with a given id is at most the number of groups, and is zero exactly when every group with that id is "Other" |
| Aggregate.SelectRecordMatches | app/routers/ribbon.py:183-190 | one group's record loop counts, under id `g`, exactly the records that are eligible for the category and reach `g` when the group's id is `g`, and nothing otherwise |
| Aggregate.SelectOwnMatches | app/routers/ribbon.py:183-190 | the record loop of a group with id `g` counts under `g` exactly the records eligible for the category whose closure holds `g`, in record order |
| Aggregate.SelectGroupRun | app/routers/ribbon.py:177-207 | a category's group loop counts, under id `g`, one copy of the records that are eligible for the category and reach `g`, per non-"Other" group with id `g` |
| Aggregate.MatchedCount | app/routers/ribbon.py:175-207 | the number of records counted under `g` is, summed over categories, the number of non-"Other" groups with id `g` times the number of the category's eligible records whose closure holds `g` |
| Aggregate.SingleGroupMatches | app/routers/ribbon.py:175-207 | when exactly one non-"Other" group has id `g`, the records counted under `g` are the eligible records of its category whose closure holds `g`, each once and in order |
| Aggregate.SingleGroupEntry | app/routers/ribbon.py:192-207 | when exactly one non-"Other" group has id `g`, `g`'s entry is present exactly when some eligible record reaches it. Its subgroups are "ALL" plus those records' evidence types, with their classes and counts, each record once |
| Aggregate.GroupEntry | app/routers/ribbon.py:192-207 | a group id that is no "-other" key is present exactly when some record matched it. Its subgroups are "ALL" plus the matched evidence types, with the classes and counts of those records (each record as often as it is matched; see `Aggregate.MatchedCount`) |
| Aggregate.OtherEntry | app/routers/ribbon.py:212-234 | when no group id clashes with an "-other" key, each category's "-other" entry holds exactly the counts of its unmatched eligible records |
| Subjects.RewriteWormBase | app/routers/ribbon.py:97 | each id is rewritten in place, and none is added or dropped |
| Subjects.WormBaseRewrite | app/routers/ribbon.py:97 | `WormBase:<rest>` becomes `WB:<rest>`, and an id without `WormBase:` is unchanged |
| Subjects.MapGeneIds | app/routers/ribbon.py:101-111 | the mapping loop computes the slimmer subjects and both id maps |
| Subjects.SlimmerMembers | app/routers/ribbon.py:101-111 | a slimmer subject is a non-gene id of the input, or a protein the mapper gives for a gene id |
| Subjects.MappedMeaning | app/routers/ribbon.py:104-105 | a gene id is mapped exactly when the mapper gives it a protein, and it maps to the first one |
| Subjects.ReverseMeaning | app/routers/ribbon.py:106 | a protein is reverse-mapped exactly when it is the first protein of some gene id, and it maps back to such a gene id |
| Subjects.ReverseLastWins | app/routers/ribbon.py:101-106 | a protein maps back to the last listed gene id whose first protein it is: a later gene id overwrites an earlier one |
| Subjects.MapRoundTrip | app/routers/ribbon.py:104-106 | when no other gene id shares its first protein, a mapped gene id maps back to itself |
| Subjects.DropUndefined | app/routers/ribbon.py:117-119 | the removal loop computes the positional remove-while-iterating |
| Subjects.DropKeepsDefined | app/routers/ribbon.py:117-119 | the removal never drops or reorders a defined id, and never lengthens the list |
| Subjects.DropAllWhenApart | app/routers/ribbon.py:117-119 | when no two `undefined` ids are adjacent, none survives |
| Subjects.SkipDefined | app/routers/ribbon.py:117-119 | positions holding a defined id are passed over without changing the list |
| Subjects.UndefinedBehindSurvives | app/routers/ribbon.py:117-119 | once an `undefined` id lies behind the iterator, some `undefined` id is left in the result |
| Subjects.AdjacentUndefinedSurvives | app/routers/ribbon.py:117-119 | when the first two `undefined` ids of a list are adjacent, whatever surrounds them, some `undefined` id survives, because the iterator skips the element moved into the current slot |
| Subjects.CollapseQueryId | app/routers/ribbon.py:133-134 | collapsing `MGI:MGI:` in the query id gives back the subject id, so detail rows found under the doubled id match their subject |
| Subjects.LastMatch | app/routers/ribbon.py:258-264 | a subject's details come from a matching detail row when one exists, and stay unset otherwise |
| Subjects.AttachDetails | app/routers/ribbon.py:257-264 | every subject receives the details of the last matching row, and the subject list keeps its length |
| Subjects.BackMap | app/routers/ribbon.py:267-269 | every subject whose id is a mapped protein gets its gene id back, and the others keep theirs |
| Subjects.CollectUnannotated | app/routers/ribbon.py:272-275 | the removal list is the subjects without annotations, in order |
| Subjects.RemoveUnannotated | app/routers/ribbon.py:277-278 | removing one unannotated subject keeps all annotated ones and takes one copy off the removal list |
| Subjects.DropEmpty | app/routers/ribbon.py:272-278 | after the removal loop, the subjects are exactly the annotated ones, in order |
| Ribbon.FilterFor | app/routers/ribbon.py:141-146 | a record passes the filter exactly when its evidence code is listed (if codes are given), it is not IBA (if no codes are given and IBA is excluded), and its class is not protein binding (if PB is excluded) |
| Ribbon.AggregateSubjects | app/routers/ribbon.py:122-248 | the subject loop gives the first failing subject's error or every subject's aggregation. On success it also collects the query ids, with `MGI:` doubled |
| Ribbon.CollectMeaning | app/routers/ribbon.py:125-248 | a successful collection has one entity per result, each the value of its result |
| Ribbon.CollectFails | app/routers/ribbon.py:125-248 | the collection fails exactly when some subject's aggregation fails |
| Ribbon.AggregateAllMeaning | app/routers/ribbon.py:125-248 | on success there is one entity per subject id, each aggregated from that subject's own filtered records |
| Ribbon.AggregateAllFails | app/routers/ribbon.py:149-153 | the subjects fail exactly when some subject's filtered records carry an aspect outside `aspect_map` |
| Ribbon.DecoratedCounts | app/routers/ribbon.py:257-269 | attaching details and mapping ids back never changes a subject's counts |
| Ribbon.RibbonHandler | app/routers/ribbon.py:38-283 | the handler computes the specification response: built categories and decorated, filtered subjects, or the first error |
| Ribbon.RibbonSubjects | app/routers/ribbon.py:272-283 | a successful response has no more subjects than queried ids, and each has at least one annotation and no more classes than annotations |
| OntologyTerms.CorrectGoid | go_fastapi/routers/ontology.py:592-593 | the rewrite keeps the id's length, turns every `:` into `_` and keeps every other character |
| OntologyTerms.SharedIndices | go_fastapi/routers/ontology.py:220-225 | the shared positions are exactly the positions of subject closure terms that are in the object closure, in increasing order |
| OntologyTerms.SharedAncestors | go_fastapi/routers/ontology.py:218-228 | the loop gives the shared terms and the labels at the same positions, or an `IndexError` when a label is missing |
| OntologyTerms.SharedMeaning | go_fastapi/routers/ontology.py:218-228 | on success `goids` is the subject closure filtered by membership in the object closure, keeping order and duplicates, and `gonames: ` has the same length |
| OntologyTerms.SharedFails | go_fastapi/routers/ontology.py:220-227 | the endpoint fails exactly when a shared position lies beyond the label list |
| Labeler.ExpandCurieIds | app/routers/labeler.py:19-22 | the loop computes the positional rewrite-while-iterating |
| Labeler.RewriteKeeps | app/routers/labeler.py:19-22 | the id list keeps its length, and no id without `MGI:MGI` is lost |
| Labeler.DoubleColon | app/routers/labeler.py:20-22 | `MGI:MGI:<n>` comes out as `MGI::<n>` |
| Labeler.SkipsNext | app/routers/labeler.py:19-22 | of two adjacent doubled ids, the second is left unrewritten |
| Labeler.NormalizedCollapses | app/routers/labeler.py:19-22 | the corrected rewrite turns each `MGI:MGI:<n>` into `MGI:<n>` in place and leaves other ids alone |
| Labeler.NormalizedBoth | app/routers/labeler.py:19-22 | with the corrected rewrite, two adjacent doubled ids both become `MGI:<n>` |

## Left out

- The category fetch at app/routers/ribbon.py:61 (and go_fastapi/routers/ontology.py:262). As written, it calls the ribbon handler itself. `get_subset_metadata_by_id` is the handler's own name in app/routers/ribbon.py. In go_fastapi/routers/ontology.py the name is bound three times (lines 128, 202, 240), and the last binding is the ribbon handler. So the handler would recurse without end instead of answering. Separately, the subset-metadata route at go_fastapi/routers/ontology.py:127 repeats the path registered at line 44, so the earlier handler answers that route. `Ribbon.RibbonHandler` takes the subset's categories as an input. The subset-metadata handler is modelled on its own (`Subsets.SubsetMetadata`).

- The text of the Solr and SPARQL queries, the transport, and the `rows=100000` and `rows=1000` caps. Each query is a function parameter returning its rows: the annotation query, the subset query, the label query and the bioentity-detail query.
- The Solr `fq` filter semantics. The annotation query is a free parameter that receives the filter. `Ribbon.Admits` and `Ribbon.FilterFor` only state which records that filter describes. No contract requires the query to return only those records.
- The `goslim_agr` term-id filter (`go_fastapi/routers/ontology.py:140-149`). The subset rows are an input, whichever query produced them.
- `gene_to_uniprot_from_mygene` is a deterministic parameter `mapper`. Its network failures are not modelled.
- Solr documents missing a field. Every record carries all the fields the code reads.
- A missing `subject` query parameter (`None`), which makes the source raise on iteration. The model takes a list of ids.
- The order of keys in dictionaries and JSON output, and the order of `list(set)`. Term sets are Dafny `set`s.
- `str.lower` covers only ASCII letters.
- `async`, `print`, logging and `batch_fetch_labels` (the labeler's label fetch after the loop).
- The other routes of `go_fastapi/routers/ontology.py`: graph and subgraph, `get_subset_by_term`, `go_summary`, and the SPARQL helpers. Of these, only `correct_goid` is modelled.
- Tallies.FillBalanced: the "ALL" count equals the sum of the other subgroups' counts only when no record has evidence type "ALL". With such a record the source counts it twice under one key.
- Subsets.ReorderBySections: requires a non-empty section table. The source uses only the built-in table, for which `Subsets.ReorderAgr` discharges this.
- Aggregate.OtherEntry: stated only when the category ids are pairwise distinct and no group id equals a category id followed by "-other" (`Aggregate.NoCollision`). Otherwise two writes reach the same key, and the later one wins. The key is written by the group pass and the "-other" pass, or by the "-other" passes of two categories sharing an id.
- Subsets.ReorderBySections: with a table that lists a category in two sections, the source reorders the same dictionary in place twice and appends it twice, so both entries carry the second reordering of already-reordered terms. The model reorders the original terms once per section. The built-in table lists each category once (`Subsets.AgrSlimOrderDistinct`), so `Subsets.ReorderAgr` and the endpoint are unaffected.

## Findings

| source | as written | input that shows it | evidently intended | confidence | as-written member | corrected member |
|---|---|---|---|---|---|---|
| app/routers/labeler.py:22 | replaces `MGI:MGI` with `MGI:`, so the colon after `MGI:MGI` is kept | `["MGI:MGI:98214"]` becomes `["MGI::98214"]` | `MGI:98214`, matching the `MGI:MGI:` collapse in app/routers/ribbon.py:259 | high (proved about the model; not executed) | Labeler.DoubleColon | Labeler.NormalizedCollapses |
| app/routers/labeler.py:19-21 | removes from the list it is iterating over, so the next id moves into the current slot and is skipped | `["MGI:MGI:1", "MGI:MGI:2"]` becomes `["MGI:MGI:2", "MGI::1"]` | every doubled id rewritten | high (proved about the model; not executed) | Labeler.SkipsNext | Labeler.NormalizedBoth |
