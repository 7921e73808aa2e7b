/** The annotation aggregation of the ribbon handler for one subject: the pass
    counting the subject's annotated records, the pass filling one bucket per
    group id, the "-other" pass per category and the finalisation of the
    counters. */
module Aggregate {
  import opened Wrappers
  import opened PyText
  import opened PyList
  import opened Categories
  import opened Tallies

  /** `aspect_map`: a GO aspect letter to the id of its root term. */
  const AspectMap: map<string, string> := map["P" := "GO:0008150", "F" := "GO:0003674", "C" := "GO:0005575"]

  predicate AspectsValid(data: seq<Annotation>) {
    forall a :: a in data ==> a.aspect in AspectMap
  }

  /** The aspect of the first record whose `aspect_map` lookup raises. */
  function FirstBadAspect(data: seq<Annotation>): (r: Option<string>)
    ensures r.None? <==> AspectsValid(data)
    ensures r.Some? ==> r.value !in AspectMap && exists a :: a in data && a.aspect == r.value
  {
    if data == [] then None
    else if data[0].aspect !in AspectMap then Some(data[0].aspect)
    else
      assert forall a :: a in data <==> a == data[0] || a in data[1..];
      FirstBadAspect(data[1..])
  }

  lemma {:induction false} FirstBadAt(data: seq<Annotation>, i: nat)
    requires i < |data| && AspectsValid(data[..i]) && data[i].aspect !in AspectMap
    ensures FirstBadAspect(data) == Some(data[i].aspect)
    decreases i
  {
    if i > 0 {
      assert data[0] in data[..i];
      assert data[1..][..i - 1] == data[1..i];
      assert forall a :: a in data[1..i] ==> a in data[..i];
      FirstBadAt(data[1..], i - 1);
    }
  }

  /** A record may count for category `c`: it is of the category's aspect, or
      `cross_aspect` is set. */
  predicate Eligible(c: Category, a: Annotation, cross: bool) {
    cross || (a.aspect in AspectMap && AspectMap[a.aspect] == c.id)
  }

  /** A record falls in group `g` of `c`: the group is not the "Other" one, the
      record is eligible for `c` and the group id is in its closure. */
  predicate GroupHit(c: Category, g: Group, a: Annotation, cross: bool) {
    g.kind != Other && Eligible(c, a, cross) && g.id in a.regulatesClosure
  }

  /** A record is annotated for the subject when it falls in some group. */
  predicate Hit(cats: seq<Category>, a: Annotation, cross: bool) {
    exists p, q :: 0 <= p < |cats| && 0 <= q < |cats[p].groups| && GroupHit(cats[p], cats[p].groups[q], a, cross)
  }

  /** The records the entity-level counters count, each once, in order. */
  function HitRecords(cats: seq<Category>, data: seq<Annotation>, cross: bool): seq<Annotation> {
    if data == [] then []
    else
      var a := data[|data| - 1];
      HitRecords(cats, data[..|data| - 1], cross) + (if Hit(cats, a, cross) then [a] else [])
  }

  /** The hit records are exactly the records that hit some group, none twice
      more often than it occurs in the data. */
  lemma {:induction false} HitRecordsMeaning(cats: seq<Category>, data: seq<Annotation>, cross: bool)
    ensures |HitRecords(cats, data, cross)| <= |data|
    ensures forall a :: a in HitRecords(cats, data, cross) <==> a in data && Hit(cats, a, cross)
    decreases |data|
  {
    if data != [] {
      var init := data[..|data| - 1];
      assert data == init + [data[|data| - 1]];
      HitRecordsMeaning(cats, init, cross);
    }
  }

  function Classes(recs: seq<Annotation>): set<string> {
    set a | a in recs :: a.annotationClass
  }

  lemma ClassesSnoc(recs: seq<Annotation>, a: Annotation)
    ensures Classes(recs + [a]) == Classes(recs) + {a.annotationClass}
  {
    assert forall x :: x in recs + [a] <==> x in recs || x == a;
  }

  /** There are never more distinct classes than records. */
  lemma {:induction false} ClassesBound(recs: seq<Annotation>)
    ensures |Classes(recs)| <= |recs|
    decreases |recs|
  {
    if recs != [] {
      var init := recs[..|recs| - 1];
      assert recs == init + [recs[|recs| - 1]];
      ClassesSnoc(init, recs[|recs| - 1]);
      ClassesBound(init);
    }
  }

  /** The search of the first pass: does any non-Other group of an eligible
      category hold the record? The inner `break` leaves only the group loop. */
  method FindHit(cats: seq<Category>, a: Annotation, cross: bool) returns (found: bool)
    requires a.aspect in AspectMap
    ensures found == Hit(cats, a, cross)
  {
    var aspect := AspectMap[a.aspect];
    found := false;
    for p := 0 to |cats|
      invariant found <==> exists p', q :: 0 <= p' < p && 0 <= q < |cats[p'].groups| && GroupHit(cats[p'], cats[p'].groups[q], a, cross)
    {
      var cat := cats[p];
      ghost var before := found;
      for q := 0 to |cat.groups|
        invariant found <==> before || exists q' :: 0 <= q' < q && GroupHit(cat, cat.groups[q'], a, cross)
      {
        var gp := cat.groups[q];
        if gp.kind == Other {
          continue;
        }
        if cross || cat.id == aspect {
          if gp.id in a.regulatesClosure {
            found := true;
            break;
          }
        }
      }
    }
  }

  // ---------------------------------------------------------------------
  // The group pass

  /** One increment of the group pass: record `annotation` under group id `group`. */
  datatype Match = Match(group: string, annotation: Annotation)

  type GroupMap = map<string, Bucket>

  /** The matches of group id `gid` of category `c`, in record order. */
  function RecordMatches(gid: string, c: Category, data: seq<Annotation>, cross: bool): (r: seq<Match>)
    ensures forall m :: m in r ==> m.group == gid
  {
    if data == [] then []
    else
      var a := data[|data| - 1];
      RecordMatches(gid, c, data[..|data| - 1], cross)
      + (if Eligible(c, a, cross) && gid in a.regulatesClosure then [Match(gid, a)] else [])
  }

  /** The matches of the groups `groups` of `c`, group by group; the "Other"
      group is skipped. */
  function GroupRunMatches(c: Category, groups: seq<Group>, data: seq<Annotation>, cross: bool): (r: seq<Match>)
    ensures forall m :: m in r ==> exists k :: 0 <= k < |groups| && m.group == groups[k].id
  {
    if groups == [] then []
    else
      var g := groups[|groups| - 1];
      var prefix := GroupRunMatches(c, groups[..|groups| - 1], data, cross);
      assert forall m :: m in prefix ==> exists k :: 0 <= k < |groups| && m.group == groups[k].id by {
        forall m | m in prefix ensures exists k :: 0 <= k < |groups| && m.group == groups[k].id {
          var k :| 0 <= k < |groups| - 1 && m.group == groups[..|groups| - 1][k].id;
          assert m.group == groups[k].id;
        }
      }
      prefix + (if g.kind == Other then [] else RecordMatches(g.id, c, data, cross))
  }

  function CatMatches(c: Category, data: seq<Annotation>, cross: bool): seq<Match> {
    GroupRunMatches(c, c.groups, data, cross)
  }

  function AllMatches(cats: seq<Category>, data: seq<Annotation>, cross: bool): seq<Match> {
    if cats == [] then []
    else AllMatches(cats[..|cats| - 1], data, cross) + CatMatches(cats[|cats| - 1], data, cross)
  }

  /** The bucket of a group id; a group not met yet is no bucket at all. */
  function GetOr(groups: GroupMap, g: string): Bucket {
    if g in groups then groups[g] else map[]
  }

  function AddMatch(groups: GroupMap, m: Match): GroupMap {
    groups[m.group := Record(GetOr(groups, m.group), m.annotation)]
  }

  function Feed(groups: GroupMap, ms: seq<Match>): GroupMap {
    if ms == [] then groups else AddMatch(Feed(groups, ms[..|ms| - 1]), ms[|ms| - 1])
  }

  /** The records matched under group id `g`, in order. */
  function Select(ms: seq<Match>, g: string): (r: seq<Annotation>)
    ensures forall a :: a in r ==> Match(g, a) in ms
  {
    if ms == [] then []
    else
      var m := ms[|ms| - 1];
      var prefix := Select(ms[..|ms| - 1], g);
      assert forall a :: a in prefix ==> Match(g, a) in ms by {
        forall a | a in prefix ensures Match(g, a) in ms {
          assert Match(g, a) in ms[..|ms| - 1];
        }
      }
      prefix + (if m.group == g then [m.annotation] else [])
  }

  lemma {:induction false} SelectConcat(a: seq<Match>, b: seq<Match>, g: string)
    ensures Select(a + b, g) == Select(a, g) + Select(b, g)
    decreases |b|
  {
    if b == [] {
      assert a + b == a;
    } else {
      SelectConcat(a, b[..|b| - 1], g);
      assert (a + b)[..|a + b| - 1] == a + b[..|b| - 1];
    }
  }

  lemma AddMatchAt(groups: GroupMap, m: Match, g: string)
    ensures GetOr(AddMatch(groups, m), g) == (if m.group == g then Record(GetOr(groups, g), m.annotation) else GetOr(groups, g))
    ensures g in AddMatch(groups, m) <==> g in groups || m.group == g
  {
  }

  lemma SelectSnoc(ms: seq<Match>, m: Match, g: string)
    ensures Select(ms + [m], g) == Select(ms, g) + (if m.group == g then [m.annotation] else [])
  {
    assert (ms + [m])[..|ms + [m]| - 1] == ms;
  }

  /** Feeding matches to the group map touches group `g` only through the
      matches selected for `g`, and creates it only if there is one. */
  lemma {:induction false} FeedAt(groups: GroupMap, ms: seq<Match>, g: string)
    ensures GetOr(Feed(groups, ms), g) == Fill(GetOr(groups, g), Select(ms, g))
    ensures g in Feed(groups, ms) <==> g in groups || Select(ms, g) != []
    decreases |ms|
  {
    if ms != [] {
      var init := ms[..|ms| - 1];
      var m := ms[|ms| - 1];
      assert ms == init + [m];
      FeedAt(groups, init, g);
      assert Feed(groups, ms) == AddMatch(Feed(groups, init), m);
      AddMatchAt(Feed(groups, init), m, g);
      SelectSnoc(init, m, g);
      if m.group == g {
        FillSnoc(GetOr(groups, g), Select(init, g), m.annotation);
      } else {
        assert Select(ms, g) == Select(init, g);
      }
    }
  }

  lemma FillSnoc(b: Bucket, recs: seq<Annotation>, a: Annotation)
    ensures Fill(b, recs + [a]) == Record(Fill(b, recs), a)
  {
    assert (recs + [a])[..|recs + [a]| - 1] == recs;
  }

  lemma {:induction false} SelectNone(ms: seq<Match>, g: string)
    requires forall m :: m in ms ==> m.group != g
    ensures Select(ms, g) == []
    decreases |ms|
  {
    if ms != [] {
      assert forall m :: m in ms[..|ms| - 1] ==> m in ms;
      assert ms[|ms| - 1] in ms;
      SelectNone(ms[..|ms| - 1], g);
    }
  }

  // ---------------------------------------------------------------------
  // The "-other" pass

  /** The record is eligible for `c` and none of `c`'s Term group ids is in its
      closure (the "All" group is not consulted). */
  predicate IsOtherRecord(c: Category, a: Annotation, cross: bool) {
    Eligible(c, a, cross) && !exists t :: t in TermIds(c) && t in a.regulatesClosure
  }

  function OtherRecords(c: Category, data: seq<Annotation>, cross: bool): seq<Annotation> {
    if data == [] then []
    else
      var a := data[|data| - 1];
      OtherRecords(c, data[..|data| - 1], cross) + (if IsOtherRecord(c, a, cross) then [a] else [])
  }

  lemma {:induction false} OtherRecordsMeaning(c: Category, data: seq<Annotation>, cross: bool)
    ensures forall a :: a in OtherRecords(c, data, cross) <==> a in data && IsOtherRecord(c, a, cross)
    decreases |data|
  {
    if data != [] {
      var init := data[..|data| - 1];
      assert data == init + [data[|data| - 1]];
      OtherRecordsMeaning(c, init, cross);
    }
  }

  function OtherKey(c: Category): string {
    c.id + "-other"
  }

  /** The group map after the group and "-other" passes over `cats`. */
  function GroupsAfter(cats: seq<Category>, data: seq<Annotation>, cross: bool): GroupMap {
    if cats == [] then map[]
    else
      var c := cats[|cats| - 1];
      Feed(GroupsAfter(cats[..|cats| - 1], data, cross), CatMatches(c, data, cross))[OtherKey(c) := Fill(Fresh, OtherRecords(c, data, cross))]
  }

  predicate OtherKeys(cats: seq<Category>, g: string) {
    exists c :: c in cats && OtherKey(c) == g
  }

  /** Category ids are distinct and no group id looks like a "-other" key. */
  predicate NoCollision(cats: seq<Category>) {
    (forall p, q :: 0 <= p < q < |cats| ==> cats[p].id != cats[q].id)
    && (forall p, q, k :: 0 <= p < |cats| && 0 <= q < |cats| && 0 <= k < |cats[q].groups| ==> cats[q].groups[k].id != OtherKey(cats[p]))
  }

  /** A group id that is no "-other" key holds exactly the records matched
      under it, over all categories; it exists only if there is one. */
  lemma {:induction false} GroupsAfterPlain(cats: seq<Category>, data: seq<Annotation>, cross: bool, g: string)
    requires !OtherKeys(cats, g)
    ensures GetOr(GroupsAfter(cats, data, cross), g) == Fill(map[], Select(AllMatches(cats, data, cross), g))
    ensures g in GroupsAfter(cats, data, cross) <==> Select(AllMatches(cats, data, cross), g) != []
    decreases |cats|
  {
    if cats != [] {
      var init := cats[..|cats| - 1];
      var c := cats[|cats| - 1];
      assert c in cats;
      assert forall x :: x in init ==> x in cats;
      GroupsAfterPlain(init, data, cross, g);
      var before := GroupsAfter(init, data, cross);
      FeedAt(before, CatMatches(c, data, cross), g);
      FillConcat(map[], Select(AllMatches(init, data, cross), g), Select(CatMatches(c, data, cross), g));
      SelectConcat(AllMatches(init, data, cross), CatMatches(c, data, cross), g);
    }
  }

  lemma SuffixInjective(x: string, y: string, s: string)
    requires x + s == y + s
    ensures x == y
  {
    assert x == (x + s)[..|x|];
    assert y == (y + s)[..|y|];
  }

  lemma FeedUntouched(groups: GroupMap, ms: seq<Match>, key: string)
    requires Select(ms, key) == []
    ensures key in Feed(groups, ms) <==> key in groups
    ensures key in groups ==> Feed(groups, ms)[key] == groups[key]
  {
    FeedAt(groups, ms, key);
  }

  /** Every category's "-other" key is present, with at least the "ALL"
      subgroup, even when no record lands in it. */
  lemma {:induction false} GroupsAfterOtherPresent(cats: seq<Category>, data: seq<Annotation>, cross: bool, p: nat)
    requires p < |cats|
    ensures OtherKey(cats[p]) in GroupsAfter(cats, data, cross)
    ensures AllKey in GroupsAfter(cats, data, cross)[OtherKey(cats[p])]
    decreases |cats|
  {
    var init := cats[..|cats| - 1];
    var c := cats[|cats| - 1];
    var key := OtherKey(cats[p]);
    if p == |cats| - 1 {
      FillMeaning(OtherRecords(c, data, cross));
    } else if key != OtherKey(c) {
      assert init[p] == cats[p];
      GroupsAfterOtherPresent(init, data, cross, p);
      var before := GroupsAfter(init, data, cross);
      FeedAt(before, CatMatches(c, data, cross), key);
      RecordKeys(before[key], Select(CatMatches(c, data, cross), key));
    } else {
      FillMeaning(OtherRecords(c, data, cross));
    }
  }

  lemma NoCollisionPrefix(cats: seq<Category>)
    requires cats != [] && NoCollision(cats)
    ensures NoCollision(cats[..|cats| - 1])
  {
    var init := cats[..|cats| - 1];
    forall p', q, k | 0 <= p' < |init| && 0 <= q < |init| && 0 <= k < |init[q].groups|
      ensures init[q].groups[k].id != OtherKey(init[p'])
    {
      assert init[q] == cats[q] && init[p'] == cats[p'];
    }
  }

  /** No match of the last category lands on an earlier category's "-other" key. */
  lemma OtherKeyUntouched(cats: seq<Category>, data: seq<Annotation>, cross: bool, p: nat)
    requires NoCollision(cats) && p < |cats| - 1
    ensures OtherKey(cats[p]) != OtherKey(cats[|cats| - 1])
    ensures Select(CatMatches(cats[|cats| - 1], data, cross), OtherKey(cats[p])) == []
  {
    var c := cats[|cats| - 1];
    var key := OtherKey(cats[p]);
    if key == OtherKey(c) {
      SuffixInjective(cats[p].id, c.id, "-other");
    }
    forall m | m in CatMatches(c, data, cross)
      ensures m.group != key
    {
      var k :| 0 <= k < |c.groups| && m.group == c.groups[k].id;
      assert c.groups[k].id != OtherKey(cats[p]);
    }
    SelectNone(CatMatches(c, data, cross), key);
  }

  /** Without collisions, a category's "-other" key holds exactly the
      category's "-other" records, recorded from the bucket with an empty "ALL". */
  lemma {:induction false} GroupsAfterOther(cats: seq<Category>, data: seq<Annotation>, cross: bool, p: nat)
    requires p < |cats| && NoCollision(cats)
    ensures OtherKey(cats[p]) in GroupsAfter(cats, data, cross)
    ensures GroupsAfter(cats, data, cross)[OtherKey(cats[p])] == Fill(Fresh, OtherRecords(cats[p], data, cross))
    decreases |cats|
  {
    var init := cats[..|cats| - 1];
    var c := cats[|cats| - 1];
    if p < |cats| - 1 {
      assert init[p] == cats[p];
      NoCollisionPrefix(cats);
      GroupsAfterOther(init, data, cross, p);
      OtherKeyUntouched(cats, data, cross, p);
      FeedUntouched(GroupsAfter(init, data, cross), CatMatches(c, data, cross), OtherKey(cats[p]));
    }
  }

  lemma {:induction false} RecordKeys(b: Bucket, recs: seq<Annotation>)
    ensures b.Keys <= Fill(b, recs).Keys
    decreases |recs|
  {
    if recs != [] {
      RecordKeys(b, recs[..|recs| - 1]);
    }
  }

  /** Every subgroup of every group has at most as many classes as annotations. */
  lemma {:induction false} GroupsAfterBounded(cats: seq<Category>, data: seq<Annotation>, cross: bool)
    ensures forall g :: g in GroupsAfter(cats, data, cross) ==> Bounded(GroupsAfter(cats, data, cross)[g])
    decreases |cats|
  {
    FreshInvariants();
    if cats != [] {
      var init := cats[..|cats| - 1];
      var c := cats[|cats| - 1];
      GroupsAfterBounded(init, data, cross);
      var before := GroupsAfter(init, data, cross);
      var ms := CatMatches(c, data, cross);
      FillBounded(Fresh, OtherRecords(c, data, cross));
      forall g | g in Feed(before, ms)
        ensures Bounded(Feed(before, ms)[g])
      {
        FeedAt(before, ms, g);
        FillBounded(GetOr(before, g), Select(ms, g));
      }
    }
  }

  lemma {:induction false} MatchesFromData(cats: seq<Category>, data: seq<Annotation>, cross: bool)
    ensures forall m :: m in AllMatches(cats, data, cross) ==> m.annotation in data
    decreases |cats|
  {
    if cats != [] {
      MatchesFromData(cats[..|cats| - 1], data, cross);
      var c := cats[|cats| - 1];
      CatMatchesFromData(c, c.groups, data, cross);
    }
  }

  lemma {:induction false} CatMatchesFromData(c: Category, groups: seq<Group>, data: seq<Annotation>, cross: bool)
    ensures forall m :: m in GroupRunMatches(c, groups, data, cross) ==> m.annotation in data
    decreases |groups|
  {
    if groups != [] {
      CatMatchesFromData(c, groups[..|groups| - 1], data, cross);
      RecordMatchesFromData(groups[|groups| - 1].id, c, data, cross);
    }
  }

  lemma {:induction false} RecordMatchesFromData(gid: string, c: Category, data: seq<Annotation>, cross: bool)
    ensures forall m :: m in RecordMatches(gid, c, data, cross) ==> m.annotation in data
    decreases |data|
  {
    if data != [] {
      RecordMatchesFromData(gid, c, data[..|data| - 1], cross);
      assert forall a :: a in data[..|data| - 1] ==> a in data;
    }
  }

  /** Without a record whose evidence type is literally "ALL", every group's
      "ALL" subgroup counts exactly the annotations of its evidence subgroups. */
  lemma {:induction false} GroupsAfterBalanced(cats: seq<Category>, data: seq<Annotation>, cross: bool)
    requires forall a :: a in data ==> a.evidenceType != AllKey
    ensures forall g :: g in GroupsAfter(cats, data, cross) ==> Balanced(GroupsAfter(cats, data, cross)[g])
    decreases |cats|
  {
    FreshInvariants();
    if cats != [] {
      var init := cats[..|cats| - 1];
      var c := cats[|cats| - 1];
      GroupsAfterBalanced(init, data, cross);
      var before := GroupsAfter(init, data, cross);
      var ms := CatMatches(c, data, cross);
      OtherRecordsMeaning(c, data, cross);
      FillBalanced(Fresh, OtherRecords(c, data, cross));
      CatMatchesFromData(c, c.groups, data, cross);
      forall g | g in Feed(before, ms)
        ensures Balanced(Feed(before, ms)[g])
      {
        FeedAt(before, ms, g);
        forall a | a in Select(ms, g) ensures a.evidenceType != AllKey {
          assert Match(g, a) in ms;
        }
        FillBalanced(GetOr(before, g), Select(ms, g));
      }
    }
  }

  // ---------------------------------------------------------------------
  // The passes as the handler runs them

  /** One count of the group pass: create the group and the record's
      evidence subgroup when missing, then count the record under its
      evidence type and under "ALL". */
  method CountInGroup(groups: GroupMap, gid: string, a: Annotation) returns (r: GroupMap)
    ensures r == AddMatch(groups, Match(gid, a))
  {
    var b := if gid in groups then groups[gid] else map[];
    if AllKey !in b {
      b := b[AllKey := Empty];
    }
    ghost var withAll := b;
    if a.evidenceType !in b {
      b := b[a.evidenceType := Empty];
    }
    var t := b[a.evidenceType];
    assert t == Get(withAll, a.evidenceType);
    b := b[a.evidenceType := Add(t, a.annotationClass)];
    assert b == withAll[a.evidenceType := Add(Get(withAll, a.evidenceType), a.annotationClass)];
    b := b[AllKey := Add(b[AllKey], a.annotationClass)];
    r := groups[gid := b];
  }

  lemma RecordMatchesSnoc(gid: string, c: Category, data: seq<Annotation>, j: nat, cross: bool)
    requires j < |data|
    ensures RecordMatches(gid, c, data[..j + 1], cross)
         == RecordMatches(gid, c, data[..j], cross)
            + (if Eligible(c, data[j], cross) && gid in data[j].regulatesClosure then [Match(gid, data[j])] else [])
  {
    assert data[..j + 1][..j] == data[..j];
  }

  lemma GroupRunSnoc(c: Category, data: seq<Annotation>, k: nat, cross: bool)
    requires k < |c.groups|
    ensures GroupRunMatches(c, c.groups[..k + 1], data, cross)
         == GroupRunMatches(c, c.groups[..k], data, cross)
            + (if c.groups[k].kind == Other then [] else RecordMatches(c.groups[k].id, c, data, cross))
  {
    assert c.groups[..k + 1][..k] == c.groups[..k];
  }

  lemma FeedSnoc(groups: GroupMap, ms: seq<Match>, m: Match)
    ensures Feed(groups, ms + [m]) == AddMatch(Feed(groups, ms), m)
  {
    assert (ms + [m])[..|ms + [m]| - 1] == ms;
  }

  lemma {:induction false} FeedConcat(groups: GroupMap, a: seq<Match>, b: seq<Match>)
    ensures Feed(groups, a + b) == Feed(Feed(groups, a), b)
    decreases |b|
  {
    if b == [] {
      assert a + b == a;
    } else {
      var init := b[..|b| - 1];
      FeedConcat(groups, a, init);
      assert a + b == (a + init) + [b[|b| - 1]];
      FeedSnoc(groups, a + init, b[|b| - 1]);
    }
  }

  /** The records of one group: count each eligible record whose closure
      holds the group id. */
  method AddRecordMatches(groups0: GroupMap, gid: string, c: Category, data: seq<Annotation>, cross: bool) returns (groups: GroupMap)
    requires AspectsValid(data)
    ensures groups == Feed(groups0, RecordMatches(gid, c, data, cross))
  {
    groups := groups0;
    for j := 0 to |data|
      invariant groups == Feed(groups0, RecordMatches(gid, c, data[..j], cross))
    {
      var a := data[j];
      assert a in data;
      RecordMatchesSnoc(gid, c, data, j, cross);
      var aspect := AspectMap[a.aspect];
      if cross || c.id == aspect {
        if gid in a.regulatesClosure {
          FeedSnoc(groups0, RecordMatches(gid, c, data[..j], cross), Match(gid, a));
          groups := CountInGroup(groups, gid, a);
        } else {
          assert RecordMatches(gid, c, data[..j + 1], cross) == RecordMatches(gid, c, data[..j], cross);
        }
      } else {
        assert RecordMatches(gid, c, data[..j + 1], cross) == RecordMatches(gid, c, data[..j], cross);
      }
    }
    assert data[..|data|] == data;
  }

  /** The group pass over one category, group by group; the "Other" group is
      skipped. */
  method AddCategoryMatches(groups0: GroupMap, c: Category, data: seq<Annotation>, cross: bool) returns (groups: GroupMap)
    requires AspectsValid(data)
    ensures groups == Feed(groups0, CatMatches(c, data, cross))
  {
    groups := groups0;
    for k := 0 to |c.groups|
      invariant groups == Feed(groups0, GroupRunMatches(c, c.groups[..k], data, cross))
    {
      var gp := c.groups[k];
      GroupRunSnoc(c, data, k, cross);
      ghost var done := GroupRunMatches(c, c.groups[..k], data, cross);
      if gp.kind == Other {
        assert done + [] == done;
        continue;
      }
      FeedConcat(groups0, done, RecordMatches(gp.id, c, data, cross));
      groups := AddRecordMatches(groups, gp.id, c, data, cross);
    }
    assert c.groups[..|c.groups|] == c.groups;
  }

  /** One count of the "-other" pass: "ALL" first, then the record's evidence
      subgroup, created when missing. */
  method CountInOther(other: Bucket, a: Annotation) returns (r: Bucket)
    requires AllKey in other
    ensures r == Record(other, a)
  {
    var all := other[AllKey];
    r := other[AllKey := Add(all, a.annotationClass)];
    if a.evidenceType !in r {
      r := r[a.evidenceType := Empty];
    }
    r := r[a.evidenceType := Add(r[a.evidenceType], a.annotationClass)];
  }

  /** Does any of `ids` occur in the record's closure? The loop stops at the
      first one. */
  method AnyInClosure(ids: seq<string>, a: Annotation) returns (found: bool)
    ensures found <==> exists t :: t in ids && t in a.regulatesClosure
  {
    found := false;
    for k := 0 to |ids|
      invariant found <==> exists t :: t in ids[..k] && t in a.regulatesClosure
    {
      assert ids[..k + 1] == ids[..k] + [ids[k]];
      if ids[k] in a.regulatesClosure {
        found := true;
        assert ids[k] in ids;
        return;
      }
    }
    assert ids[..|ids|] == ids;
  }

  /** The "-other" pass over one category: starting from an empty "ALL"
      subgroup, count every eligible record whose closure holds none of the
      category's Term group ids. */
  method OtherBucket(c: Category, data: seq<Annotation>, cross: bool) returns (other: Bucket)
    requires AspectsValid(data)
    ensures other == Fill(Fresh, OtherRecords(c, data, cross))
  {
    var terms := CategoryTerms(c);
    var ids := seq(|terms|, k requires 0 <= k < |terms| => terms[k].id);
    assert ids == TermIds(c);
    other := map[AllKey := Empty];
    for j := 0 to |data|
      invariant other == Fill(Fresh, OtherRecords(c, data[..j], cross))
    {
      var a := data[j];
      assert a in data;
      assert data[..j + 1] == data[..j] + [a];
      assert (data[..j] + [a])[..j] == data[..j];
      ghost var prev := OtherRecords(c, data[..j], cross);
      assert OtherRecords(c, data[..j + 1], cross) == prev + (if IsOtherRecord(c, a, cross) then [a] else []);
      RecordKeys(Fresh, prev);
      FillSnoc(Fresh, prev, a);
      var aspect := AspectMap[a.aspect];
      if cross || c.id == aspect {
        var found := AnyInClosure(ids, a);
        if !found {
          assert IsOtherRecord(c, a, cross);
          other := CountInOther(other, a);
        } else {
          assert !IsOtherRecord(c, a, cross);
          assert prev + [] == prev;
        }
      } else {
        assert !IsOtherRecord(c, a, cross);
        assert prev + [] == prev;
      }
    }
    assert data[..|data|] == data;
  }

  /** The final counters of one subgroup: `nb_classes` is the size of its term
      set, and only "-other" groups keep their terms. */
  datatype Counts = Counts(nbClasses: nat, nbAnnotations: nat, terms: Option<set<string>>)

  function Finish(g: string, t: Tally): Counts {
    Counts(|t.terms|, t.nbAnnotations, if Contains(g, "-other") then Some(t.terms) else None)
  }

  function FinishedGroup(g: string, b: Bucket): map<string, Counts> {
    map s | s in b :: Finish(g, b[s])
  }

  function Finished(groups: GroupMap): map<string, map<string, Counts>> {
    map g | g in groups :: FinishedGroup(g, groups[g])
  }

  /** The finalisation loop over every group and subgroup. */
  method Finalize(groups: GroupMap) returns (out: map<string, map<string, Counts>>)
    ensures out == Finished(groups)
  {
    out := map[];
    var pending := groups.Keys;
    while pending != {}
      invariant pending <= groups.Keys
      invariant out.Keys == groups.Keys - pending
      invariant forall g :: g in out ==> out[g] == FinishedGroup(g, groups[g])
      decreases pending
    {
      var g :| g in pending;
      var b := groups[g];
      var done: map<string, Counts> := map[];
      var rest := b.Keys;
      while rest != {}
        invariant rest <= b.Keys
        invariant done.Keys == b.Keys - rest
        invariant forall s :: s in done ==> done[s] == Finish(g, b[s])
        decreases rest
      {
        var sub :| sub in rest;
        var t := b[sub];
        var counts := Counts(|t.terms|, t.nbAnnotations, None);
        if Contains(g, "-other") {
          counts := Counts(|t.terms|, t.nbAnnotations, Some(t.terms));
        }
        done := done[sub := counts];
        rest := rest - {sub};
      }
      out := out[g := done];
      pending := pending - {g};
    }
  }

  /** The taxon and label details of an entity, when the detail query has them. */
  datatype Info = Info(labelText: string, taxonId: string, taxonLabel: string)

  /** A ribbon subject. */
  datatype Entity = Entity(id: string, groups: map<string, map<string, Counts>>, nbClasses: nat, nbAnnotations: nat, info: Option<Info>)

  /** The aggregation of one subject's records; the first record with an
      aspect outside `aspect_map` raises. */
  function Aggregated(id: string, cats: seq<Category>, data: seq<Annotation>, cross: bool): (r: Result<Entity, Error>)
    ensures r.Failure? <==> exists a :: a in data && a.aspect !in AspectMap
    ensures r.Success? ==> r.value.id == id && r.value.info.None?
  {
    match FirstBadAspect(data)
    case Some(key) => Failure(KeyError(key))
    case None =>
      var hits := HitRecords(cats, data, cross);
      Success(Entity(id, Finished(GroupsAfter(cats, data, cross)), |Classes(hits)|, |hits|, None))
  }

  /** The first pass: stop at the first record with an unknown aspect,
      otherwise collect the classes and the count of the records that hit
      some group. */
  method CountHits(cats: seq<Category>, data: seq<Annotation>, cross: bool) returns (bad: Option<string>, terms: set<string>, nb: nat)
    ensures bad == FirstBadAspect(data)
    ensures bad.None? ==> terms == Classes(HitRecords(cats, data, cross)) && nb == |HitRecords(cats, data, cross)|
  {
    terms := {};
    nb := 0;
    for i := 0 to |data|
      invariant AspectsValid(data[..i])
      invariant terms == Classes(HitRecords(cats, data[..i], cross))
      invariant nb == |HitRecords(cats, data[..i], cross)|
    {
      var a := data[i];
      assert data[..i + 1] == data[..i] + [a];
      if a.aspect !in AspectMap {
        FirstBadAt(data, i);
        return Some(a.aspect), terms, nb;
      }
      assert (data[..i] + [a])[..i] == data[..i];
      ClassesSnoc(HitRecords(cats, data[..i], cross), a);
      var found := FindHit(cats, a, cross);
      if found {
        terms := terms + {a.annotationClass};
        nb := nb + 1;
      }
    }
    assert data[..|data|] == data;
    bad := None;
  }

  /** The group and "-other" passes, category by category. */
  method GroupPasses(cats: seq<Category>, data: seq<Annotation>, cross: bool) returns (groups: GroupMap)
    requires AspectsValid(data)
    ensures groups == GroupsAfter(cats, data, cross)
  {
    groups := map[];
    for p := 0 to |cats|
      invariant groups == GroupsAfter(cats[..p], data, cross)
    {
      var c := cats[p];
      assert cats[..p + 1][..p] == cats[..p];
      groups := AddCategoryMatches(groups, c, data, cross);
      var other := OtherBucket(c, data, cross);
      groups := groups[OtherKey(c) := other];
    }
    assert cats[..|cats|] == cats;
  }

  /** The aggregation of one subject as the handler's loop body runs it. */
  method AggregateSubject(id: string, cats: seq<Category>, data: seq<Annotation>, cross: bool) returns (r: Result<Entity, Error>)
    ensures r == Aggregated(id, cats, data, cross)
  {
    var bad, terms, nb := CountHits(cats, data, cross);
    if bad.Some? {
      return Failure(KeyError(bad.value));
    }
    var groups := GroupPasses(cats, data, cross);
    var finished := Finalize(groups);
    r := Success(Entity(id, finished, |terms|, nb, None));
  }

  // ---------------------------------------------------------------------
  // What the aggregated entity states

  lemma {:induction false} RecordMatchesMeaning(gid: string, c: Category, data: seq<Annotation>, cross: bool)
    ensures forall g, a :: Match(g, a) in RecordMatches(gid, c, data, cross)
              <==> g == gid && a in data && Eligible(c, a, cross) && gid in a.regulatesClosure
    decreases |data|
  {
    if data != [] {
      var init := data[..|data| - 1];
      assert data == init + [data[|data| - 1]];
      RecordMatchesMeaning(gid, c, init, cross);
    }
  }

  lemma {:induction false} GroupRunMeaning(c: Category, groups: seq<Group>, data: seq<Annotation>, cross: bool)
    ensures forall g, a :: Match(g, a) in GroupRunMatches(c, groups, data, cross)
              <==> (exists q :: 0 <= q < |groups| && groups[q].kind != Other && groups[q].id == g)
                   && a in data && Eligible(c, a, cross) && g in a.regulatesClosure
    decreases |groups|
  {
    if groups != [] {
      var init := groups[..|groups| - 1];
      var last := groups[|groups| - 1];
      GroupRunMeaning(c, init, data, cross);
      RecordMatchesMeaning(last.id, c, data, cross);
      forall g, a
        ensures Match(g, a) in GroupRunMatches(c, groups, data, cross)
              <==> (exists q :: 0 <= q < |groups| && groups[q].kind != Other && groups[q].id == g)
                   && a in data && Eligible(c, a, cross) && g in a.regulatesClosure
      {
        if exists q :: 0 <= q < |groups| && groups[q].kind != Other && groups[q].id == g {
          var q :| 0 <= q < |groups| && groups[q].kind != Other && groups[q].id == g;
          if q < |groups| - 1 {
            assert init[q] == groups[q];
          }
        }
        if exists q :: 0 <= q < |init| && init[q].kind != Other && init[q].id == g {
          var q :| 0 <= q < |init| && init[q].kind != Other && init[q].id == g;
          assert groups[q] == init[q];
        }
      }
    }
  }

  /** A group-pass match pairs a group id with a record exactly when some
      eligible category has a non-Other group of that id in the record's
      closure. */
  lemma {:induction false} AllMatchesMeaning(cats: seq<Category>, data: seq<Annotation>, cross: bool)
    ensures forall g, a :: Match(g, a) in AllMatches(cats, data, cross)
              <==> a in data && g in a.regulatesClosure
                   && exists p, q :: 0 <= p < |cats| && 0 <= q < |cats[p].groups|
                        && cats[p].groups[q].kind != Other && cats[p].groups[q].id == g && Eligible(cats[p], a, cross)
    decreases |cats|
  {
    if cats != [] {
      var init := cats[..|cats| - 1];
      var c := cats[|cats| - 1];
      AllMatchesMeaning(init, data, cross);
      GroupRunMeaning(c, c.groups, data, cross);
      forall g, a
        ensures Match(g, a) in AllMatches(cats, data, cross)
              <==> a in data && g in a.regulatesClosure
                   && exists p, q :: 0 <= p < |cats| && 0 <= q < |cats[p].groups|
                        && cats[p].groups[q].kind != Other && cats[p].groups[q].id == g && Eligible(cats[p], a, cross)
      {
        if exists p, q :: 0 <= p < |cats| && 0 <= q < |cats[p].groups|
             && cats[p].groups[q].kind != Other && cats[p].groups[q].id == g && Eligible(cats[p], a, cross)
        {
          var p, q :| 0 <= p < |cats| && 0 <= q < |cats[p].groups|
            && cats[p].groups[q].kind != Other && cats[p].groups[q].id == g && Eligible(cats[p], a, cross);
          if p < |cats| - 1 {
            assert init[p] == cats[p];
          }
        }
        if exists p, q :: 0 <= p < |init| && 0 <= q < |init[p].groups|
             && init[p].groups[q].kind != Other && init[p].groups[q].id == g && Eligible(init[p], a, cross)
        {
          var p, q :| 0 <= p < |init| && 0 <= q < |init[p].groups|
            && init[p].groups[q].kind != Other && init[p].groups[q].id == g && Eligible(init[p], a, cross);
          assert cats[p] == init[p];
        }
      }
    }
  }

  lemma {:induction false} SelectMeaning(ms: seq<Match>, g: string)
    ensures forall a :: a in Select(ms, g) <==> Match(g, a) in ms
    decreases |ms|
  {
    if ms != [] {
      var init := ms[..|ms| - 1];
      assert ms == init + [ms[|ms| - 1]];
      SelectMeaning(init, g);
    }
  }

  /** The entity-level counters: `nb_annotations` counts the hit records once
      each, and `nb_classes` their distinct classes. */
  lemma EntityCounts(id: string, cats: seq<Category>, data: seq<Annotation>, cross: bool)
    requires Aggregated(id, cats, data, cross).Success?
    ensures var e := Aggregated(id, cats, data, cross).value;
      e.nbClasses <= e.nbAnnotations <= |data|
      && e.nbAnnotations == |HitRecords(cats, data, cross)|
      && forall a :: a in HitRecords(cats, data, cross) <==> a in data && Hit(cats, a, cross)
  {
    HitRecordsMeaning(cats, data, cross);
    ClassesBound(HitRecords(cats, data, cross));
  }

  /** Every subgroup of every group has no more classes than annotations, and
      only the groups whose key contains "-other" keep their term sets. */
  lemma SubgroupCounts(id: string, cats: seq<Category>, data: seq<Annotation>, cross: bool)
    requires Aggregated(id, cats, data, cross).Success?
    ensures var groups := Aggregated(id, cats, data, cross).value.groups;
      forall g, s :: g in groups && s in groups[g] ==>
        groups[g][s].nbClasses <= groups[g][s].nbAnnotations
        && (groups[g][s].terms.Some? <==> Contains(g, "-other"))
  {
    GroupsAfterBounded(cats, data, cross);
  }

  /** Every category gets its "-other" entry, with an "ALL" subgroup and its
      terms kept, even when nothing is counted there. */
  lemma OtherEntries(id: string, cats: seq<Category>, data: seq<Annotation>, cross: bool, p: nat)
    requires Aggregated(id, cats, data, cross).Success? && p < |cats|
    ensures var groups := Aggregated(id, cats, data, cross).value.groups;
      OtherKey(cats[p]) in groups && AllKey in groups[OtherKey(cats[p])]
      && groups[OtherKey(cats[p])][AllKey].terms.Some?
  {
    GroupsAfterOtherPresent(cats, data, cross, p);
    ContainsSuffix(cats[p].id, "-other");
  }

  /** The records matched under group id `g`: those whose closure holds `g`
      where `g` is a non-Other group of a category they are eligible for. */
  lemma MatchedRecords(cats: seq<Category>, data: seq<Annotation>, cross: bool, g: string)
    ensures forall a :: a in Select(AllMatches(cats, data, cross), g) <==>
            a in data && g in a.regulatesClosure
            && exists p, q :: 0 <= p < |cats| && 0 <= q < |cats[p].groups|
                 && cats[p].groups[q].kind != Other && cats[p].groups[q].id == g && Eligible(cats[p], a, cross)
  {
    SelectMeaning(AllMatches(cats, data, cross), g);
    AllMatchesMeaning(cats, data, cross);
  }

  /** The entry of a group id that is no "-other" key: present exactly when
      some record matched it, with the subgroups "ALL" and the matched evidence
      types, each counting its distinct classes and its records. */
  lemma GroupEntry(id: string, cats: seq<Category>, data: seq<Annotation>, cross: bool, g: string)
    requires Aggregated(id, cats, data, cross).Success? && !OtherKeys(cats, g)
    ensures var groups := Aggregated(id, cats, data, cross).value.groups;
      var matched := Select(AllMatches(cats, data, cross), g);
      (g in groups <==> matched != [])
      && (g in groups ==>
            groups[g].Keys == {AllKey} + Evidences(matched)
            && forall s :: s in groups[g] ==> groups[g][s] == Finish(g, Expected(matched, s)))
  {
    var matched := Select(AllMatches(cats, data, cross), g);
    var before := GroupsAfter(cats, data, cross);
    assert Aggregated(id, cats, data, cross).value.groups == Finished(before);
    GroupsAfterPlain(cats, data, cross, g);
    if matched != [] {
      FillFromNothing(matched);
      FillMeaning(matched);
      assert before[g] == Fill(Fresh, matched);
    }
  }

  /** Without key collisions, a category's "-other" entry counts exactly its
      "-other" records: eligible ones whose closure holds none of the
      category's Term group ids. */
  lemma OtherEntry(id: string, cats: seq<Category>, data: seq<Annotation>, cross: bool, p: nat)
    requires Aggregated(id, cats, data, cross).Success? && p < |cats| && NoCollision(cats)
    ensures var groups := Aggregated(id, cats, data, cross).value.groups;
      var key := OtherKey(cats[p]);
      var others := OtherRecords(cats[p], data, cross);
      key in groups
      && (forall a :: a in others <==> a in data && IsOtherRecord(cats[p], a, cross))
      && groups[key].Keys == {AllKey} + Evidences(others)
      && forall s :: s in groups[key] ==> groups[key][s] == Finish(key, Expected(others, s))
  {
    GroupsAfterOther(cats, data, cross, p);
    OtherRecordsMeaning(cats[p], data, cross);
    FillMeaning(OtherRecords(cats[p], data, cross));
  }

  // ---------------------------------------------------------------------
  // How many times a record is counted under a group id

  /** The records that group id `g` of category `c` takes in: eligible for
      `c`, with `g` in their closure. */
  function Reaches(c: Category, g: string, cross: bool): Annotation -> bool {
    a => Eligible(c, a, cross) && g in a.regulatesClosure
  }

  /** The number of non-"Other" groups of `groups` whose id is `g`. */
  function GroupCount(groups: seq<Group>, g: string): (n: nat)
    ensures n <= |groups|
    ensures n == 0 <==> forall q :: 0 <= q < |groups| ==> groups[q].kind == Other || groups[q].id != g
  {
    if groups == [] then 0
    else
      var last := groups[|groups| - 1];
      var n' := GroupCount(groups[..|groups| - 1], g);
      assert forall q :: 0 <= q < |groups| - 1 ==> groups[..|groups| - 1][q] == groups[q];
      n' + (if last.kind != Other && last.id == g then 1 else 0)
  }

  /** `n` copies of `s`, one after the other. */
  function Repeat(s: seq<Annotation>, n: nat): (r: seq<Annotation>)
    ensures |r| == n * |s|
  {
    if n == 0 then [] else Repeat(s, n - 1) + s
  }

  /** The number of times the group pass counts a record under `g`: for each
      category, the number of its non-"Other" groups with id `g` times the
      number of records those groups take in. */
  function MatchCount(cats: seq<Category>, data: seq<Annotation>, cross: bool, g: string): nat {
    if cats == [] then 0
    else
      var c := cats[|cats| - 1];
      MatchCount(cats[..|cats| - 1], data, cross, g) + GroupCount(c.groups, g) * |Filter(data, Reaches(c, g, cross))|
  }

  /** The record loop of one group contributes, under `g`, the records it
      takes in when its id is `g`, and nothing otherwise. */
  lemma SelectRecordMatches(gid: string, c: Category, data: seq<Annotation>, cross: bool, g: string)
    ensures Select(RecordMatches(gid, c, data, cross), g) == if gid == g then Filter(data, Reaches(c, g, cross)) else []
  {
    if gid == g {
      SelectOwnMatches(c, data, cross, g);
    } else {
      SelectNone(RecordMatches(gid, c, data, cross), g);
    }
  }

  lemma {:induction false} SelectOwnMatches(c: Category, data: seq<Annotation>, cross: bool, g: string)
    ensures Select(RecordMatches(g, c, data, cross), g) == Filter(data, Reaches(c, g, cross))
    decreases |data|
  {
    if data != [] {
      var init, a := data[..|data| - 1], data[|data| - 1];
      var f := Reaches(c, g, cross);
      var prefix := RecordMatches(g, c, init, cross);
      var tail := if f(a) then [Match(g, a)] else [];
      calc {
        Select(RecordMatches(g, c, data, cross), g);
        { RecordMatchesLast(g, c, data, cross); }
        Select(prefix + tail, g);
        { SelectConcat(prefix, tail, g); }
        Select(prefix, g) + Select(tail, g);
        { SelectOwnMatches(c, init, cross, g); SelectOwnTail(g, a, f(a)); }
        Filter(init, f) + (if f(a) then [a] else []);
        { FilterSnoc(init, a, f); }
        Filter(init + [a], f);
        { assert data == init + [a]; }
        Filter(data, f);
      }
    }
  }

  lemma RecordMatchesLast(g: string, c: Category, data: seq<Annotation>, cross: bool)
    requires data != []
    ensures var a := data[|data| - 1];
      RecordMatches(g, c, data, cross)
      == RecordMatches(g, c, data[..|data| - 1], cross) + if Reaches(c, g, cross)(a) then [Match(g, a)] else []
  {
  }

  lemma SelectOwnTail(g: string, a: Annotation, keep: bool)
    ensures Select(if keep then [Match(g, a)] else [], g) == if keep then [a] else []
  {
    if keep {
      SelectSnoc([], Match(g, a), g);
      assert [] + [Match(g, a)] == [Match(g, a)];
    }
  }

  /** The group loop of a category contributes, under `g`, one copy of the
      records `g` takes in per non-"Other" group with id `g`. */
  lemma {:induction false} SelectGroupRun(c: Category, groups: seq<Group>, data: seq<Annotation>, cross: bool, g: string)
    ensures Select(GroupRunMatches(c, groups, data, cross), g) == Repeat(Filter(data, Reaches(c, g, cross)), GroupCount(groups, g))
    decreases |groups|
  {
    if groups != [] {
      var init, last := groups[..|groups| - 1], groups[|groups| - 1];
      var f := Filter(data, Reaches(c, g, cross));
      var prefix := GroupRunMatches(c, init, data, cross);
      var tail := if last.kind == Other then [] else RecordMatches(last.id, c, data, cross);
      assert GroupRunMatches(c, groups, data, cross) == prefix + tail;
      SelectGroupRun(c, init, data, cross, g);
      SelectConcat(prefix, tail, g);
      var n := GroupCount(init, g);
      if last.kind != Other {
        SelectRecordMatches(last.id, c, data, cross, g);
      }
      if last.kind != Other && last.id == g {
        assert GroupCount(groups, g) == n + 1;
        assert Repeat(f, n + 1) == Repeat(f, n) + f;
      } else {
        assert GroupCount(groups, g) == n;
        assert Select(tail, g) == [];
        assert Repeat(f, n) + [] == Repeat(f, n);
      }
    }
  }

  /** The number of records matched under `g` over all categories is
      `MatchCount`: a record is counted once per non-"Other" group with id `g`
      of each category it is eligible for. */
  lemma {:induction false} MatchedCount(cats: seq<Category>, data: seq<Annotation>, cross: bool, g: string)
    ensures |Select(AllMatches(cats, data, cross), g)| == MatchCount(cats, data, cross, g)
    decreases |cats|
  {
    if cats != [] {
      var init, c := cats[..|cats| - 1], cats[|cats| - 1];
      MatchedCount(init, data, cross, g);
      SelectConcat(AllMatches(init, data, cross), CatMatches(c, data, cross), g);
      SelectGroupRun(c, c.groups, data, cross, g);
    }
  }

  /** When `g` is the id of exactly one non-"Other" group, in category `p`
      (or of none when `p` is past the end), the records matched under `g`
      are exactly the records that category takes in, each once, in order. */
  lemma {:induction false} SingleGroupMatches(cats: seq<Category>, data: seq<Annotation>, cross: bool, g: string, p: nat)
    requires p < |cats| ==> GroupCount(cats[p].groups, g) == 1
    requires forall p' :: 0 <= p' < |cats| && p' != p ==> GroupCount(cats[p'].groups, g) == 0
    ensures Select(AllMatches(cats, data, cross), g) == if p < |cats| then Filter(data, Reaches(cats[p], g, cross)) else []
    decreases |cats|
  {
    if cats != [] {
      var n := |cats| - 1;
      var init, c := cats[..n], cats[n];
      assert forall p' :: 0 <= p' < n ==> init[p'] == cats[p'];
      var f := Filter(data, Reaches(c, g, cross));
      var k := GroupCount(c.groups, g);
      var before := if p < n then Filter(data, Reaches(cats[p], g, cross)) else [];
      assert k == if p == n then 1 else 0;
      calc {
        Select(AllMatches(cats, data, cross), g);
        { assert AllMatches(cats, data, cross) == AllMatches(init, data, cross) + CatMatches(c, data, cross); }
        Select(AllMatches(init, data, cross) + CatMatches(c, data, cross), g);
        { SelectConcat(AllMatches(init, data, cross), CatMatches(c, data, cross), g); }
        Select(AllMatches(init, data, cross), g) + Select(CatMatches(c, data, cross), g);
        { SingleGroupMatches(init, data, cross, g, p); SelectGroupRun(c, c.groups, data, cross, g); }
        before + Repeat(f, k);
      }
      if p == n {
        assert Repeat(f, 1) == [] + f;
        assert before + Repeat(f, k) == f;
      } else {
        assert before + Repeat(f, k) == before;
      }
    }
  }

  /** The entry of a group id that only one non-"Other" group carries, in
      category `p`: present exactly when some record reaches it, and its
      subgroups count exactly those records, each once. */
  lemma SingleGroupEntry(id: string, cats: seq<Category>, data: seq<Annotation>, cross: bool, g: string, p: nat)
    requires Aggregated(id, cats, data, cross).Success? && !OtherKeys(cats, g)
    requires p < |cats| && GroupCount(cats[p].groups, g) == 1
    requires forall p' :: 0 <= p' < |cats| && p' != p ==> GroupCount(cats[p'].groups, g) == 0
    ensures var groups := Aggregated(id, cats, data, cross).value.groups;
      var recs := Filter(data, Reaches(cats[p], g, cross));
      (g in groups <==> recs != [])
      && (g in groups ==>
            groups[g].Keys == {AllKey} + Evidences(recs)
            && forall s :: s in groups[g] ==> groups[g][s] == Finish(g, Expected(recs, s)))
  {
    SingleGroupMatches(cats, data, cross, g, p);
    GroupEntry(id, cats, data, cross, g);
  }
}
