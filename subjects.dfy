/** The subject pipeline of the ribbon handler around the aggregation: id
    rewrites and gene-to-protein mapping before it, entity details,
    back-mapping and the removal of empty subjects after it. */
module Subjects {
  import opened Wrappers
  import opened PyText
  import opened PyList
  import opened Aggregate

  // ---------------------------------------------------------------------
  // Before the aggregation

  /** One id of the WormBase rewrite: `WormBase:` becomes `WB:`. */
  function WormBaseToWB(x: string): string {
    if Contains(x, "WormBase:") then Replace(x, "WormBase:", "WB:") else x
  }

  /** The list comprehension rewriting WormBase ids, position by position. */
  function RewriteWormBase(ids: seq<string>): (r: seq<string>)
    ensures |r| == |ids|
    ensures forall i :: 0 <= i < |ids| ==> r[i] == WormBaseToWB(ids[i])
  {
    seq(|ids|, i requires 0 <= i < |ids| => WormBaseToWB(ids[i]))
  }

  /** A WormBase id keeps its local part under the `WB:` prefix; an id without
      `WormBase:` is left alone. */
  lemma WormBaseRewrite(rest: string, other: string)
    requires !Contains(rest, "WormBase:") && !Contains(other, "WormBase:")
    ensures WormBaseToWB("WormBase:" + rest) == "WB:" + rest
    ensures WormBaseToWB(other) == other
  {
    ContainsPrefixed([], "WormBase:" + rest, "WormBase:") by {
      assert StartsWith("WormBase:" + rest, "WormBase:");
    }
    assert [] + ("WormBase:" + rest) == "WormBase:" + rest;
    ReplaceLeading("WormBase:", "WB:", rest);
  }

  /** Ids the gene-to-protein mapper is asked about. */
  predicate IsGeneId(s: string) {
    Contains(s, "HGNC:") || Contains(s, "NCBIGene:") || Contains(s, "ENSEMBL:")
  }

  /** What one id contributes to the slimmer subjects: all proteins of a gene
      id with a non-empty mapping, nothing for one with an empty mapping, the
      id itself otherwise. */
  function Contribution(s: string, mapper: string -> seq<string>): seq<string> {
    if IsGeneId(s) then mapper(s) else [s]
  }

  function Slimmer(ids: seq<string>, mapper: string -> seq<string>): seq<string> {
    if ids == [] then []
    else Slimmer(ids[..|ids| - 1], mapper) + Contribution(ids[|ids| - 1], mapper)
  }

  /** `mapped_ids`: a gene id to its first protein. */
  function Mapped(ids: seq<string>, mapper: string -> seq<string>): map<string, string> {
    if ids == [] then map[]
    else
      var s := ids[|ids| - 1];
      var m := Mapped(ids[..|ids| - 1], mapper);
      if IsGeneId(s) && |mapper(s)| > 0 then m[s := mapper(s)[0]] else m
  }

  /** `reverse_mapped_ids`: a first protein to the last gene id mapped to it. */
  function Reverse(ids: seq<string>, mapper: string -> seq<string>): map<string, string> {
    if ids == [] then map[]
    else
      var s := ids[|ids| - 1];
      var m := Reverse(ids[..|ids| - 1], mapper);
      if IsGeneId(s) && |mapper(s)| > 0 then m[mapper(s)[0] := s] else m
  }

  /** The mapping loop; the source's fallback to the gene id itself sits in a
      branch that requires both a non-empty and an empty mapping, so it never
      runs. */
  method MapGeneIds(ids: seq<string>, mapper: string -> seq<string>)
    returns (slimmer: seq<string>, mapped: map<string, string>, reverse: map<string, string>)
    ensures slimmer == Slimmer(ids, mapper)
    ensures mapped == Mapped(ids, mapper)
    ensures reverse == Reverse(ids, mapper)
  {
    slimmer, mapped, reverse := [], map[], map[];
    for i := 0 to |ids|
      invariant slimmer == Slimmer(ids[..i], mapper)
      invariant mapped == Mapped(ids[..i], mapper)
      invariant reverse == Reverse(ids[..i], mapper)
    {
      var s := ids[i];
      assert ids[..i + 1][..i] == ids[..i];
      if Contains(s, "HGNC:") || Contains(s, "NCBIGene:") || Contains(s, "ENSEMBL:") {
        var prots := mapper(s);
        if |prots| > 0 {
          mapped := mapped[s := prots[0]];
          reverse := reverse[prots[0] := s];
          slimmer := slimmer + prots;
        }
      } else {
        slimmer := slimmer + [s];
      }
    }
    assert ids[..|ids|] == ids;
  }

  /** The slimmer subjects are the non-gene ids and the proteins of the gene
      ids; a gene id whose mapping is empty contributes nothing. */
  lemma {:induction false} SlimmerMembers(ids: seq<string>, mapper: string -> seq<string>)
    ensures forall x :: x in Slimmer(ids, mapper) <==>
      exists s :: s in ids && ((!IsGeneId(s) && x == s) || (IsGeneId(s) && x in mapper(s)))
    decreases |ids|
  {
    if ids != [] {
      var init := ids[..|ids| - 1];
      assert ids == init + [ids[|ids| - 1]];
      SlimmerMembers(init, mapper);
    }
  }

  /** `mapped_ids` holds exactly the gene ids with a non-empty mapping, each
      with its first protein. */
  lemma {:induction false} MappedMeaning(ids: seq<string>, mapper: string -> seq<string>)
    ensures forall s :: s in Mapped(ids, mapper) <==> s in ids && IsGeneId(s) && |mapper(s)| > 0
    ensures forall s :: s in Mapped(ids, mapper) ==> |mapper(s)| > 0 && Mapped(ids, mapper)[s] == mapper(s)[0]
    decreases |ids|
  {
    if ids != [] {
      var init := ids[..|ids| - 1];
      assert ids == init + [ids[|ids| - 1]];
      MappedMeaning(init, mapper);
    }
  }

  /** `reverse_mapped_ids` holds exactly the first proteins of the mapped gene
      ids, each pointing back at a gene id whose first protein it is. */
  lemma {:induction false} ReverseMeaning(ids: seq<string>, mapper: string -> seq<string>)
    ensures forall p :: p in Reverse(ids, mapper) <==> exists s :: s in ids && IsGeneId(s) && |mapper(s)| > 0 && mapper(s)[0] == p
    ensures forall p :: p in Reverse(ids, mapper) ==>
      var s := Reverse(ids, mapper)[p]; s in ids && IsGeneId(s) && |mapper(s)| > 0 && mapper(s)[0] == p
    decreases |ids|
  {
    if ids != [] {
      var init := ids[..|ids| - 1];
      assert ids == init + [ids[|ids| - 1]];
      ReverseMeaning(init, mapper);
    }
  }

  /** A later gene id with the same first protein overwrites an earlier one:
      the gene id a protein maps back to is the LAST listed gene id whose
      first protein it is. */
  lemma {:induction false} ReverseLastWins(ids: seq<string>, mapper: string -> seq<string>, p: string)
    requires p in Reverse(ids, mapper)
    ensures exists k :: 0 <= k < |ids| && ids[k] == Reverse(ids, mapper)[p]
              && IsGeneId(ids[k]) && |mapper(ids[k])| > 0 && mapper(ids[k])[0] == p
              && forall j :: k < j < |ids| && IsGeneId(ids[j]) && |mapper(ids[j])| > 0 ==> mapper(ids[j])[0] != p
    decreases |ids|
  {
    var n := |ids| - 1;
    var init, s := ids[..n], ids[n];
    if IsGeneId(s) && |mapper(s)| > 0 && mapper(s)[0] == p {
      assert Reverse(ids, mapper)[p] == s;
    } else {
      assert p in Reverse(init, mapper) && Reverse(ids, mapper)[p] == Reverse(init, mapper)[p];
      ReverseLastWins(init, mapper, p);
      var k :| 0 <= k < |init| && init[k] == Reverse(init, mapper)[p]
               && IsGeneId(init[k]) && |mapper(init[k])| > 0 && mapper(init[k])[0] == p
               && forall j :: k < j < |init| && IsGeneId(init[j]) && |mapper(init[j])| > 0 ==> mapper(init[j])[0] != p;
      assert ids[k] == init[k];
      forall j | k < j < |ids| && IsGeneId(ids[j]) && |mapper(ids[j])| > 0
        ensures mapper(ids[j])[0] != p
      {
        if j < n { assert ids[j] == init[j]; }
      }
    }
  }

  /** Back-mapping undoes the mapping of a gene id whose first protein no
      other listed gene id shares. */
  lemma MapRoundTrip(ids: seq<string>, mapper: string -> seq<string>, s: string)
    requires s in ids && IsGeneId(s) && |mapper(s)| > 0
    requires forall t :: t in ids && IsGeneId(t) && |mapper(t)| > 0 && mapper(t)[0] == mapper(s)[0] ==> t == s
    ensures s in Mapped(ids, mapper) && Mapped(ids, mapper)[s] in Reverse(ids, mapper)
    ensures Reverse(ids, mapper)[Mapped(ids, mapper)[s]] == s
  {
    MappedMeaning(ids, mapper);
    ReverseMeaning(ids, mapper);
  }

  // ---------------------------------------------------------------------
  // Removing "undefined" while iterating

  const Undefined := "undefined"

  predicate IsDefined(x: string) {
    x != Undefined
  }

  /** The `for subject_id in subject_ids: ... subject_ids.remove(subject_id)`
      loop from position `i` on: Python's list iterator walks positions, so
      after a removal the element moved into the current position is not
      examined, and `remove` drops the first "undefined" in the list. */
  function RemoveEachDuring(s: seq<string>, i: nat): seq<string>
    decreases |s| - i
  {
    if i >= |s| then s
    else if s[i] == Undefined then RemoveEachDuring(RemoveFirst(s, s[i]), i + 1)
    else RemoveEachDuring(s, i + 1)
  }

  method DropUndefined(ids: seq<string>) returns (r: seq<string>)
    ensures r == RemoveEachDuring(ids, 0)
  {
    r := ids;
    var i := 0;
    while i < |r|
      invariant RemoveEachDuring(r, i) == RemoveEachDuring(ids, 0)
      decreases |r| - i
    {
      var subject := r[i];
      if subject == Undefined {
        r := RemoveFirst(r, subject);
      }
      i := i + 1;
    }
  }

  /** The defined ids all survive, in their order. */
  lemma {:induction false} DropKeepsDefined(s: seq<string>, i: nat)
    ensures Filter(RemoveEachDuring(s, i), IsDefined) == Filter(s, IsDefined)
    ensures |RemoveEachDuring(s, i)| <= |s|
    decreases |s| - i
  {
    if i < |s| {
      if s[i] == Undefined {
        FilterRemoveFirst(s, s[i], IsDefined);
        DropKeepsDefined(RemoveFirst(s, s[i]), i + 1);
      } else {
        DropKeepsDefined(s, i + 1);
      }
    }
  }

  predicate NoAdjacentUndefined(s: seq<string>, from: nat) {
    forall k :: from <= k < |s| - 1 ==> !(s[k] == Undefined && s[k + 1] == Undefined)
  }

  /** With no two "undefined" ids next to each other, every one is removed. */
  lemma {:induction false} DropAllWhenApart(s: seq<string>, i: nat)
    requires forall k :: 0 <= k < i && k < |s| ==> s[k] != Undefined
    requires NoAdjacentUndefined(s, i)
    ensures Undefined !in RemoveEachDuring(s, i)
    decreases |s| - i
  {
    if i >= |s| {
      assert forall k :: 0 <= k < |s| ==> s[k] != Undefined;
    } else if s[i] == Undefined {
      assert Undefined !in s[..i];
      RemoveFirstAround(s[..i], Undefined, s[i + 1..]);
      assert s == s[..i] + [Undefined] + s[i + 1..];
      var t := RemoveFirst(s, s[i]);
      assert t == s[..i] + s[i + 1..];
      if i + 1 < |s| {
        assert s[i + 1] != Undefined;
      }
      DropAllWhenApart(t, i + 1);
    } else {
      DropAllWhenApart(s, i + 1);
    }
  }

    /** Positions holding a defined id are passed over unchanged. */
  lemma {:induction false} SkipDefined(s: seq<string>, i: nat, j: nat)
    requires i <= j <= |s|
    requires forall k :: i <= k < j ==> s[k] != Undefined
    ensures RemoveEachDuring(s, i) == RemoveEachDuring(s, j)
    decreases j - i
  {
    if i < j {
      SkipDefined(s, i + 1, j);
    }
  }

  /** Once an "undefined" id lies behind the iterator, one always survives:
      `remove` takes the first "undefined", which is behind the iterator, and
      the one at the iterator slides back behind it. */
  lemma {:induction false} UndefinedBehindSurvives(s: seq<string>, i: nat)
    requires i <= |s| && Undefined in s[..i]
    ensures Undefined in RemoveEachDuring(s, i)
    decreases |s| - i
  {
    if i == |s| {
      assert s[..i] == s;
    } else if s[i] == Undefined {
      var j := IndexOf(s, Undefined);
      assert j < i by {
        var k :| 0 <= k < i && s[..i][k] == Undefined;
        assert s[k] == Undefined;
      }
      var t := RemoveFirst(s, s[i]);
      assert t == s[..j] + s[j + 1..];
      assert t[i - 1] == Undefined;
      if i + 1 <= |t| {
        assert t[..i + 1][i - 1] == Undefined;
        UndefinedBehindSurvives(t, i + 1);
      }
    } else {
      assert s[..i + 1] == s[..i] + [s[i]];
      UndefinedBehindSurvives(s, i + 1);
    }
  }

  /** Two adjacent "undefined" ids, the first ones in the list, leave at least
      one "undefined" behind: the iterator skips the second after removing
      the first. */
  lemma AdjacentUndefinedSurvives(p: seq<string>, q: seq<string>)
    requires Undefined !in p
    ensures Undefined in RemoveEachDuring(p + [Undefined, Undefined] + q, 0)
  {
    var s := p + [Undefined, Undefined] + q;
    var n := |p|;
    assert forall k :: 0 <= k < n ==> s[k] == p[k];
    SkipDefined(s, 0, n);
    assert s == p + [Undefined] + ([Undefined] + q);
    RemoveFirstAround(p, Undefined, [Undefined] + q);
    var t := p + ([Undefined] + q);
    assert t[n] == Undefined && t[..n + 1][n] == Undefined;
    UndefinedBehindSurvives(t, n + 1);
  }

  // ---------------------------------------------------------------------
  // After the aggregation

  /** The id the annotation and detail queries use: `MGI:` ids get a second
      `MGI:` prefix. */
  function QueryId(s: string): string {
    if StartsWith(s, "MGI:") then "MGI:" + s else s
  }

  /** The detail query's ids with `MGI:MGI:` collapsed back to `MGI:`. */
  function CollapseMgi(x: string): string {
    Replace(x, "MGI:MGI:", "MGI:")
  }

  /** Collapsing undoes the doubling, so details are found under the entity's
      own id. */
  lemma CollapseQueryId(s: string)
    requires !Contains(s, "MGI:MGI:")
    ensures CollapseMgi(QueryId(s)) == s
  {
    if StartsWith(s, "MGI:") {
      var rest := s[4..];
      assert s == "MGI:" + rest;
      if Contains(rest, "MGI:MGI:") {
        ContainsPrefixed("MGI:", rest, "MGI:MGI:");
      }
      CollapseDoubled(rest);
    }
  }

  lemma CollapseDoubled(rest: string)
    requires !Contains(rest, "MGI:MGI:")
    ensures CollapseMgi("MGI:" + ("MGI:" + rest)) == "MGI:" + rest
  {
    assert "MGI:" + ("MGI:" + rest) == "MGI:MGI:" + rest;
    ReplaceLeading("MGI:MGI:", "MGI:", rest);
  }

  /** A row of the detail query. */
  datatype Detail = Detail(bioentity: string, bioentityLabel: string, taxon: string, taxonLabel: string)

  /** The details of the last row whose collapsed `bioentity` is `id`. */
  function LastMatch(details: seq<Detail>, id: string): (r: Option<Info>)
    ensures r.None? <==> forall d :: d in details ==> CollapseMgi(d.bioentity) != id
    ensures r.Some? ==> exists d :: d in details && CollapseMgi(d.bioentity) == id && r.value == Info(d.bioentityLabel, d.taxon, d.taxonLabel)
  {
    if details == [] then None
    else
      var d := details[|details| - 1];
      var init := details[..|details| - 1];
      assert details == init + [d];
      if CollapseMgi(d.bioentity) == id then Some(Info(d.bioentityLabel, d.taxon, d.taxonLabel))
      else LastMatch(init, id)
  }

  function WithDetails(e: Entity, details: seq<Detail>): Entity {
    match LastMatch(details, e.id)
    case Some(info) => e.(info := Some(info))
    case None => e
  }

  /** One more detail row: it overwrites the entity's info when it matches. */
  lemma WithDetailsSnoc(e: Entity, details: seq<Detail>, j: nat)
    requires j < |details|
    ensures WithDetails(e, details[..j + 1]) ==
      if CollapseMgi(details[j].bioentity) == e.id
      then e.(info := Some(Info(details[j].bioentityLabel, details[j].taxon, details[j].taxonLabel)))
      else WithDetails(e, details[..j])
  {
    assert details[..j + 1][..j] == details[..j];
  }

  /** The inner detail loop for one entity: every matching row overwrites
      its label and taxon, so the last one wins. */
  method DetailsFor(e: Entity, details: seq<Detail>) returns (entity: Entity)
    ensures entity == WithDetails(e, details)
  {
    entity := e;
    for j := 0 to |details|
      invariant entity.id == e.id
      invariant entity == WithDetails(e, details[..j])
    {
      var detail := details[j];
      WithDetailsSnoc(e, details, j);
      var subjectId := Replace(detail.bioentity, "MGI:MGI:", "MGI:");
      if entity.id == subjectId {
        entity := entity.(info := Some(Info(detail.bioentityLabel, detail.taxon, detail.taxonLabel)));
      }
    }
    assert details[..|details|] == details;
  }

  /** The detail loop: every entity takes the label and taxon of its last
      matching row, and is left as it was when no row matches. */
  method AttachDetails(subjects: seq<Entity>, details: seq<Detail>) returns (r: seq<Entity>)
    ensures |r| == |subjects|
    ensures forall i :: 0 <= i < |r| ==> r[i] == WithDetails(subjects[i], details)
  {
    r := subjects;
    for i := 0 to |r|
      invariant |r| == |subjects|
      invariant forall k :: 0 <= k < i ==> r[k] == WithDetails(subjects[k], details)
      invariant forall k :: i <= k < |r| ==> r[k] == subjects[k]
    {
      var entity := DetailsFor(r[i], details);
      r := r[i := entity];
    }
  }

  function BackMapped(e: Entity, reverse: map<string, string>): Entity {
    if e.id in reverse then e.(id := reverse[e.id]) else e
  }

  /** The back-mapping loop: ids found in `reverse_mapped_ids` are replaced,
      everything else is kept. */
  method BackMap(subjects: seq<Entity>, reverse: map<string, string>) returns (r: seq<Entity>)
    ensures |r| == |subjects|
    ensures forall i :: 0 <= i < |r| ==> r[i] == BackMapped(subjects[i], reverse)
  {
    r := subjects;
    for i := 0 to |r|
      invariant |r| == |subjects|
      invariant forall k :: 0 <= k < i ==> r[k] == BackMapped(subjects[k], reverse)
      invariant forall k :: i <= k < |r| ==> r[k] == subjects[k]
    {
      var entity := r[i];
      if entity.id in reverse {
        r := r[i := entity.(id := reverse[entity.id])];
      }
    }
  }

  predicate HasAnnotations(e: Entity) {
    e.nbAnnotations != 0
  }

  predicate Unannotated(e: Entity) {
    e.nbAnnotations == 0
  }

  /** The subjects to remove, collected in order. */
  method CollectUnannotated(subjects: seq<Entity>) returns (toRemove: seq<Entity>)
    ensures toRemove == Filter(subjects, Unannotated)
  {
    toRemove := [];
    for i := 0 to |subjects|
      invariant toRemove == Filter(subjects[..i], Unannotated)
    {
      var entity := subjects[i];
      FilterSnoc(subjects[..i], entity, Unannotated);
      assert subjects[..i + 1] == subjects[..i] + [entity];
      if entity.nbAnnotations == 0 {
        toRemove := toRemove + [entity];
      }
    }
    assert subjects[..|subjects|] == subjects;
  }

  /** Removing one unannotated subject leaves the annotated ones as they were. */
  lemma RemoveUnannotated(r: seq<Entity>, e: Entity)
    requires e in r && Unannotated(e)
    ensures Filter(RemoveFirst(r, e), HasAnnotations) == Filter(r, HasAnnotations)
    ensures multiset(Filter(RemoveFirst(r, e), Unannotated)) == multiset(Filter(r, Unannotated)) - multiset{e}
  {
    FilterRemoveFirst(r, e, Unannotated);
    FilterRemoveFirst(r, e, HasAnnotations);
  }

  /** A list without unannotated subjects is its own filter. */
  lemma AllAnnotated(r: seq<Entity>)
    requires Filter(r, Unannotated) == []
    ensures Filter(r, HasAnnotations) == r
  {
    assert forall i :: 0 <= i < |r| ==> HasAnnotations(r[i]) by {
      forall i | 0 <= i < |r| ensures HasAnnotations(r[i]) {
        assert r[i] in r;
      }
    }
    FilterKeepsAll(r, HasAnnotations);
  }

  /** One turn of the removal loop: the subject removed is still in the list,
      and one fewer of the collected subjects remains to be removed. */
  lemma DropStep(r: seq<Entity>, toRemove: seq<Entity>, k: nat)
    requires k < |toRemove|
    requires multiset(Filter(r, Unannotated)) == multiset(toRemove[k..])
    ensures toRemove[k] in r
    ensures Filter(RemoveFirst(r, toRemove[k]), HasAnnotations) == Filter(r, HasAnnotations)
    ensures multiset(Filter(RemoveFirst(r, toRemove[k]), Unannotated)) == multiset(toRemove[k + 1..])
  {
    var entity := toRemove[k];
    assert toRemove[k..] == [entity] + toRemove[k + 1..];
    assert entity in multiset(Filter(r, Unannotated));
    assert entity in Filter(r, Unannotated);
    RemoveUnannotated(r, entity);
  }

  /** The removal of subjects without annotations: collect them, then
      `remove` each from the list. The result keeps the annotated subjects in
      their order. */
  method DropEmpty(subjects: seq<Entity>) returns (r: seq<Entity>)
    ensures r == Filter(subjects, HasAnnotations)
  {
    var toRemove := CollectUnannotated(subjects);
    r := subjects;
    assert toRemove[0..] == toRemove;
    for k := 0 to |toRemove|
      invariant Filter(r, HasAnnotations) == Filter(subjects, HasAnnotations)
      invariant multiset(Filter(r, Unannotated)) == multiset(toRemove[k..])
    {
      var entity := toRemove[k];
      DropStep(r, toRemove, k);
      r := RemoveFirst(r, entity);
    }
    assert toRemove[|toRemove|..] == [];
    assert |Filter(r, Unannotated)| == |multiset(Filter(r, Unannotated))| == 0;
    AllAnnotated(r);
  }
}
