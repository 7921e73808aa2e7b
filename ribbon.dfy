/** The ribbon handler as a whole: categories, subject ids, one aggregation
    per subject, details, back-mapping and the removal of empty subjects. The
    subset-metadata fetch, the gene mapper and the two annotation-index
    queries are inputs. */
module Ribbon {
  import opened Wrappers
  import opened PyText
  import opened PyList
  import opened Subsets
  import opened Categories
  import opened Tallies
  import opened Aggregate
  import opened Subjects

  const ProteinBinding := "GO:0005515"
  const IBA := "IBA"

  datatype EvidenceFilter = AllowEvidence(codes: seq<string>) | ExcludeIBA | AnyEvidence

  /** The restrictions the annotation query carries besides the subject. */
  datatype AnnotationFilter = AnnotationFilter(evidence: EvidenceFilter, excludeProteinBinding: bool)

  /** The records a filter lets through, as the annotation index applies it. */
  predicate Admits(f: AnnotationFilter, a: Annotation) {
    (match f.evidence
     case AllowEvidence(codes) => a.evidenceType in codes
     case ExcludeIBA => a.evidenceType != IBA
     case AnyEvidence => true)
    && !(f.excludeProteinBinding && a.annotationClass == ProteinBinding)
  }

  /** The query restrictions of the handler's flags: a non-empty `ecodes`
      allow-list wins over `exclude_IBA`, and `exclude_PB` adds the exclusion
      of protein binding independently. A missing `ecodes` is the empty list. */
  function FilterFor(ecodes: seq<string>, excludeIBA: bool, excludePB: bool): (f: AnnotationFilter)
    ensures f.excludeProteinBinding == excludePB
    ensures ecodes != [] ==> f.evidence == AllowEvidence(ecodes)
    ensures forall a :: Admits(f, a) <==>
      (ecodes != [] ==> a.evidenceType in ecodes)
      && (ecodes == [] && excludeIBA ==> a.evidenceType != IBA)
      && (excludePB ==> a.annotationClass != ProteinBinding)
  {
    AnnotationFilter(if ecodes != [] then AllowEvidence(ecodes) else if excludeIBA then ExcludeIBA else AnyEvidence, excludePB)
  }

  /** The ids the handler aggregates: WormBase ids rewritten, gene ids mapped
      to proteins, "undefined" removed as the iterating loop removes it. */
  function SubjectIds(subject: seq<string>, mapper: string -> seq<string>): seq<string> {
    RemoveEachDuring(Slimmer(RewriteWormBase(subject), mapper), 0)
  }

  function QueryIds(ids: seq<string>): (r: seq<string>)
    ensures |r| == |ids|
  {
    seq(|ids|, i requires 0 <= i < |ids| => QueryId(ids[i]))
  }

  /** The outcome of one subject: the aggregation of the records the
      annotation query returns for its query id. */
  function SubjectResult(id: string, cats: seq<Category>, f: AnnotationFilter, cross: bool,
                         annotations: (string, AnnotationFilter) -> seq<Annotation>): Result<Entity, Error>
  {
    Aggregated(id, cats, annotations(QueryId(id), f), cross)
  }

  function SubjectResults(ids: seq<string>, cats: seq<Category>, f: AnnotationFilter, cross: bool,
                          annotations: (string, AnnotationFilter) -> seq<Annotation>): (rs: seq<Result<Entity, Error>>)
    ensures |rs| == |ids|
  {
    seq(|ids|, i requires 0 <= i < |ids| => SubjectResult(ids[i], cats, f, cross, annotations))
  }

  /** Outcomes taken in order: the entities of all of them, or the error of
      the first that failed. */
  function Collect(rs: seq<Result<Entity, Error>>): Result<seq<Entity>, Error> {
    if rs == [] then Success([])
    else
      match Collect(rs[..|rs| - 1])
      case Failure(e) => Failure(e)
      case Success(es) =>
        match rs[|rs| - 1]
        case Failure(e) => Failure(e)
        case Success(e) => Success(es + [e])
  }

  /** The aggregations of the subjects in order; the first failing subject
      fails the request. */
  function AggregateAll(ids: seq<string>, cats: seq<Category>, f: AnnotationFilter, cross: bool,
                        annotations: (string, AnnotationFilter) -> seq<Annotation>): Result<seq<Entity>, Error>
  {
    Collect(SubjectResults(ids, cats, f, cross, annotations))
  }

  /** The subjects after the detail and back-mapping loops. */
  function Decorated(es: seq<Entity>, details: seq<Detail>, reverse: map<string, string>): (r: seq<Entity>)
    ensures |r| == |es|
  {
    seq(|es|, i requires 0 <= i < |es| => BackMapped(WithDetails(es[i], details), reverse))
  }

  /** The subjects after the removal of those without annotations. */
  function Published(es: seq<Entity>, details: seq<Detail>, reverse: map<string, string>): seq<Entity> {
    Filter(Decorated(es, details, reverse), HasAnnotations)
  }

  /** The handler's response: `categories` and `subjects`. */
  datatype Response = Response(categories: seq<Category>, subjects: seq<Entity>)

  function RibbonResult(subset: seq<SubsetCategory>, subject: seq<string>, ecodes: seq<string>,
                        excludeIBA: bool, excludePB: bool, cross: bool,
                        mapper: string -> seq<string>,
                        annotations: (string, AnnotationFilter) -> seq<Annotation>,
                        detailQuery: seq<string> -> seq<Detail>): Result<Response, Error>
  {
    match BuiltCategories(subset)
    case Failure(e) => Failure(e)
    case Success(cats) =>
      var ids := SubjectIds(subject, mapper);
      match AggregateAll(ids, cats, FilterFor(ecodes, excludeIBA, excludePB), cross, annotations)
      case Failure(e) => Failure(e)
      case Success(es) =>
        Success(Response(cats, Published(es, detailQuery(QueryIds(ids)), Reverse(RewriteWormBase(subject), mapper))))
  }

  /** The subject loop of the handler: one aggregation per subject id, on the
      records queried under its query id, which it also collects for the
      detail query. */
  method AggregateSubjects(subjectIds: seq<string>, categories: seq<Category>, filter: AnnotationFilter, cross: bool,
                           annotations: (string, AnnotationFilter) -> seq<Annotation>)
    returns (r: Result<seq<Entity>, Error>, modIds: seq<string>)
    ensures r == AggregateAll(subjectIds, categories, filter, cross, annotations)
    ensures r.Success? ==> modIds == QueryIds(subjectIds)
  {
    ghost var rs := SubjectResults(subjectIds, categories, filter, cross, annotations);
    modIds := [];
    var subjects: seq<Entity> := [];
    for i := 0 to |subjectIds|
      invariant Collect(rs[..i]) == Success(subjects)
      invariant modIds == QueryIds(subjectIds[..i])
    {
      var subjectId := subjectIds[i];
      var queryId := subjectId;
      if StartsWith(subjectId, "MGI:") {
        queryId := "MGI:" + subjectId;
      }
      QueryIdsSnoc(subjectIds, i);
      modIds := modIds + [queryId];
      var data := annotations(queryId, filter);
      var entity := AggregateSubject(subjectId, categories, data, cross);
      assert entity == rs[i];
      CollectStep(rs, i, subjects);
      if entity.Failure? {
        CollectFailurePropagates(rs, i + 1);
        return Failure(entity.error), modIds;
      }
      subjects := subjects + [entity.value];
    }
    assert rs[..|rs|] == rs;
    r := Success(subjects);
  }

  /** The ribbon handler. */
  method RibbonHandler(subset: seq<SubsetCategory>, subject: seq<string>, ecodes: seq<string>,
                       excludeIBA: bool, excludePB: bool, cross: bool,
                       mapper: string -> seq<string>,
                       annotations: (string, AnnotationFilter) -> seq<Annotation>,
                       detailQuery: seq<string> -> seq<Detail>)
    returns (r: Result<Response, Error>)
    ensures r == RibbonResult(subset, subject, ecodes, excludeIBA, excludePB, cross, mapper, annotations, detailQuery)
  {
    // Step 1: the categories
    var built := BuildCategories(subset);
    if built.Failure? {
      return Failure(built.error);
    }
    var categories := built.value;

    // Step 2: the subjects
    var subjectIds := RewriteWormBase(subject);
    var slimmer, mapped, reverse := MapGeneIds(subjectIds, mapper);
    subjectIds := DropUndefined(slimmer);

    var filter := FilterFor(ecodes, excludeIBA, excludePB);
    var aggregated, modIds := AggregateSubjects(subjectIds, categories, filter, cross, annotations);
    if aggregated.Failure? {
      return Failure(aggregated.error);
    }
    var subjects := aggregated.value;

    // the entity details, the original ids, the empty subjects
    var details := detailQuery(modIds);
    subjects := AttachDetails(subjects, details);
    subjects := BackMap(subjects, reverse);
    assert subjects == Decorated(aggregated.value, details, reverse);
    subjects := DropEmpty(subjects);
    r := Success(Response(categories, subjects));
  }

  /** One more outcome: the longer prefix extends the shorter one's
      entities, or fails with the new outcome's error. */
  lemma CollectStep(rs: seq<Result<Entity, Error>>, i: nat, es: seq<Entity>)
    requires i < |rs| && Collect(rs[..i]) == Success(es)
    ensures Collect(rs[..i + 1]) == if rs[i].Success? then Success(es + [rs[i].value]) else Failure(rs[i].error)
  {
    assert rs[..i + 1][..i] == rs[..i];
  }

  lemma QueryIdsSnoc(ids: seq<string>, i: nat)
    requires i < |ids|
    ensures QueryIds(ids[..i + 1]) == QueryIds(ids[..i]) + [QueryId(ids[i])]
  {
  }

  /** Once a prefix of the outcomes fails, the whole fails with the same
      error. */
  lemma {:induction false} CollectFailurePropagates(rs: seq<Result<Entity, Error>>, n: nat)
    requires n <= |rs| && Collect(rs[..n]).Failure?
    ensures Collect(rs) == Collect(rs[..n])
    decreases |rs| - n
  {
    if n == |rs| {
      assert rs[..n] == rs;
    } else {
      assert rs[..n + 1][..n] == rs[..n];
      CollectFailurePropagates(rs, n + 1);
    }
  }

  /** A successful collection holds every outcome's entity, in order. */
  lemma {:induction false} CollectMeaning(rs: seq<Result<Entity, Error>>, es: seq<Entity>)
    requires Collect(rs) == Success(es)
    ensures |es| == |rs|
    ensures forall i :: 0 <= i < |rs| ==> rs[i] == Success(es[i])
    decreases |rs|
  {
    if rs != [] {
      var n := |rs| - 1;
      var es0 := Collect(rs[..n]).value;
      CollectMeaning(rs[..n], es0);
      assert forall i :: 0 <= i < n ==> rs[..n][i] == rs[i];
    }
  }

  /** The collection fails exactly when some outcome does. */
  lemma {:induction false} CollectFails(rs: seq<Result<Entity, Error>>)
    ensures Collect(rs).Failure? <==> exists i :: 0 <= i < |rs| && rs[i].Failure?
    decreases |rs|
  {
    if rs != [] {
      var n := |rs| - 1;
      var init := rs[..n];
      CollectFails(init);
      if Collect(init).Failure? {
        var i :| 0 <= i < n && init[i].Failure?;
        assert rs[i] == init[i];
      } else if rs[n].Success? {
        forall i | 0 <= i < |rs|
          ensures rs[i].Success?
        {
          if i < n {
            assert rs[i] == init[i];
          }
        }
      }
    }
  }

  /** A successful aggregation has one entity per subject id, in order, each
      the aggregation of the records queried under the subject's query id
      (and so keeping the subject's own id). */
  lemma AggregateAllMeaning(ids: seq<string>, cats: seq<Category>, f: AnnotationFilter, cross: bool,
                            annotations: (string, AnnotationFilter) -> seq<Annotation>, es: seq<Entity>)
    requires AggregateAll(ids, cats, f, cross, annotations) == Success(es)
    ensures |es| == |ids|
    ensures forall i :: 0 <= i < |ids| ==> Aggregated(ids[i], cats, annotations(QueryId(ids[i]), f), cross) == Success(es[i])
  {
    CollectMeaning(SubjectResults(ids, cats, f, cross, annotations), es);
  }

  /** The request fails on aggregation exactly when some subject's records
      include an aspect outside `aspect_map`. */
  lemma AggregateAllFails(ids: seq<string>, cats: seq<Category>, f: AnnotationFilter, cross: bool,
                          annotations: (string, AnnotationFilter) -> seq<Annotation>)
    ensures AggregateAll(ids, cats, f, cross, annotations).Failure? <==>
      exists i, a :: 0 <= i < |ids| && a in annotations(QueryId(ids[i]), f) && a.aspect !in AspectMap
  {
    var rs := SubjectResults(ids, cats, f, cross, annotations);
    CollectFails(rs);
    if Collect(rs).Failure? {
      var i :| 0 <= i < |rs| && rs[i].Failure?;
      var a :| a in annotations(QueryId(ids[i]), f) && a.aspect !in AspectMap;
    } else {
      forall i, a | 0 <= i < |ids| && a in annotations(QueryId(ids[i]), f)
        ensures a.aspect in AspectMap
      {
        assert rs[i].Success?;
      }
    }
  }

  /** Decorating keeps every entity's counts. */
  lemma DecoratedCounts(es: seq<Entity>, details: seq<Detail>, reverse: map<string, string>)
    ensures forall i :: 0 <= i < |es| ==>
      Decorated(es, details, reverse)[i].nbAnnotations == es[i].nbAnnotations
      && Decorated(es, details, reverse)[i].nbClasses == es[i].nbClasses
  {
    forall i | 0 <= i < |es|
      ensures Decorated(es, details, reverse)[i].nbAnnotations == es[i].nbAnnotations
      ensures Decorated(es, details, reverse)[i].nbClasses == es[i].nbClasses
    {
      var w := WithDetails(es[i], details);
      assert w.nbAnnotations == es[i].nbAnnotations && w.nbClasses == es[i].nbClasses;
    }
  }

  /** Every published subject has annotations and no more classes than
      annotations, and there are no more of them than subject ids. */
  lemma RibbonSubjects(subset: seq<SubsetCategory>, subject: seq<string>, ecodes: seq<string>,
                       excludeIBA: bool, excludePB: bool, cross: bool,
                       mapper: string -> seq<string>,
                       annotations: (string, AnnotationFilter) -> seq<Annotation>,
                       detailQuery: seq<string> -> seq<Detail>, resp: Response)
    requires RibbonResult(subset, subject, ecodes, excludeIBA, excludePB, cross, mapper, annotations, detailQuery) == Success(resp)
    ensures |resp.subjects| <= |SubjectIds(subject, mapper)|
    ensures forall e :: e in resp.subjects ==> 0 < e.nbAnnotations && e.nbClasses <= e.nbAnnotations
  {
    var cats := BuiltCategories(subset).value;
    var ids := SubjectIds(subject, mapper);
    var f := FilterFor(ecodes, excludeIBA, excludePB);
    var es := AggregateAll(ids, cats, f, cross, annotations).value;
    AggregateAllMeaning(ids, cats, f, cross, annotations, es);
    var details := detailQuery(QueryIds(ids));
    var reverse := Reverse(RewriteWormBase(subject), mapper);
    var shown := Decorated(es, details, reverse);
    DecoratedCounts(es, details, reverse);
    forall e | e in shown
      ensures e.nbClasses <= e.nbAnnotations
    {
      var i :| 0 <= i < |es| && shown[i] == e;
      EntityCounts(ids[i], cats, annotations(QueryId(ids[i]), f), cross);
    }
  }
}
