/** The counters of one ribbon group: a map from an evidence type, or the
    reserved key "ALL", to the set of annotated classes and the number of
    annotations seen for it. */
module Tallies {

  const AllKey := "ALL"

  /** One subgroup before finalisation: `{"terms": set(), "nb_annotations": n}`
      (its `nb_classes` is only filled in at the end). */
  datatype Tally = Tally(terms: set<string>, nbAnnotations: nat)

  type Bucket = map<string, Tally>

  /** An annotation record as the annotation query returns it. */
  datatype Annotation = Annotation(annotationClass: string, evidenceType: string, regulatesClosure: seq<string>, aspect: string)

  const Empty := Tally({}, 0)

  /** The bucket every "-other" group starts from: only the "ALL" subgroup. */
  const Fresh: Bucket := map[AllKey := Empty]

  function Get(b: Bucket, key: string): Tally {
    if key in b then b[key] else Empty
  }

  function Add(t: Tally, cls: string): Tally {
    Tally(t.terms + {cls}, t.nbAnnotations + 1)
  }

  /** Recording one annotation in a bucket: the "ALL" subgroup is created when
      missing, then the annotation's class and one count go to its evidence
      subgroup and to "ALL". The group pass updates the evidence subgroup
      first and the "-other" pass updates "ALL" first; both orders leave the
      same bucket, including when the evidence type is itself "ALL", which then
      gets two counts. */
  function Record(b: Bucket, a: Annotation): (r: Bucket)
    ensures r.Keys == b.Keys + {AllKey, a.evidenceType}
  {
    var withAll := if AllKey in b then b else b[AllKey := Empty];
    var withEvidence := withAll[a.evidenceType := Add(Get(withAll, a.evidenceType), a.annotationClass)];
    withEvidence[AllKey := Add(withEvidence[AllKey], a.annotationClass)]
  }

  /** A bucket after recording `recs` in order, starting from `b`. */
  function Fill(b: Bucket, recs: seq<Annotation>): Bucket {
    if recs == [] then b else Record(Fill(b, recs[..|recs| - 1]), recs[|recs| - 1])
  }

  lemma {:induction false} FillConcat(b: Bucket, r1: seq<Annotation>, r2: seq<Annotation>)
    ensures Fill(b, r1 + r2) == Fill(Fill(b, r1), r2)
    decreases |r2|
  {
    if r2 == [] {
      assert r1 + r2 == r1;
    } else {
      var init := r2[..|r2| - 1];
      FillConcat(b, r1, init);
      assert (r1 + r2)[..|r1 + r2| - 1] == r1 + init;
    }
  }

  /** A group created on its first match ends up as the same bucket as one
      that started with an empty "ALL" subgroup. */
  lemma {:induction false} FillFromNothing(recs: seq<Annotation>)
    requires recs != []
    ensures Fill(map[], recs) == Fill(Fresh, recs)
    decreases |recs|
  {
    var init := recs[..|recs| - 1];
    if init == [] {
      assert Record(map[], recs[0]) == Record(Fresh, recs[0]);
    } else {
      FillFromNothing(init);
    }
  }

  // ---------------------------------------------------------------------
  // What the counters mean

  function Evidences(recs: seq<Annotation>): set<string> {
    set a | a in recs :: a.evidenceType
  }

  /** The classes a subgroup collects: every record's class for "ALL", the
      records of that evidence type otherwise. */
  function ClassesWith(recs: seq<Annotation>, e: string): set<string> {
    set a | a in recs && (e == AllKey || a.evidenceType == e) :: a.annotationClass
  }

  /** The number of records whose evidence type is `e`. */
  function CountWith(recs: seq<Annotation>, e: string): nat {
    if recs == [] then 0
    else CountWith(recs[..|recs| - 1], e) + (if recs[|recs| - 1].evidenceType == e then 1 else 0)
  }

  /** The subgroup `e` of a bucket fed `recs`: "ALL" counts every record, and a
      record whose evidence type is literally "ALL" a second time. */
  function Expected(recs: seq<Annotation>, e: string): Tally {
    Tally(ClassesWith(recs, e), CountWith(recs, e) + (if e == AllKey then |recs| else 0))
  }

  lemma SnocSets(recs: seq<Annotation>, a: Annotation, e: string)
    ensures Evidences(recs + [a]) == Evidences(recs) + {a.evidenceType}
    ensures ClassesWith(recs + [a], e) == ClassesWith(recs, e) + (if e == AllKey || a.evidenceType == e then {a.annotationClass} else {})
  {
    assert forall x :: x in recs + [a] <==> x in recs || x == a;
  }

  predicate Means(b: Bucket, recs: seq<Annotation>) {
    b.Keys == {AllKey} + Evidences(recs) && forall e :: e in b ==> b[e] == Expected(recs, e)
  }

  lemma ExpectedSnoc(recs: seq<Annotation>, a: Annotation, e: string)
    ensures Expected(recs + [a], e).terms == Expected(recs, e).terms + (if e == AllKey || a.evidenceType == e then {a.annotationClass} else {})
    ensures Expected(recs + [a], e).nbAnnotations == Expected(recs, e).nbAnnotations + (if a.evidenceType == e then 1 else 0) + (if e == AllKey then 1 else 0)
  {
    SnocSets(recs, a, e);
    assert (recs + [a])[..|recs + [a]| - 1] == recs;
  }

  lemma RecordMeaning(b: Bucket, recs: seq<Annotation>, a: Annotation)
    requires Means(b, recs)
    ensures Means(Record(b, a), recs + [a])
  {
    var r := Record(b, a);
    SnocSets(recs, a, AllKey);
    forall e | e in r
      ensures r[e] == Expected(recs + [a], e)
    {
      ExpectedSnoc(recs, a, e);
      if e != AllKey && e != a.evidenceType {
        assert r[e] == b[e];
      } else if e != AllKey {
        assert r[e] == Add(Get(b, e), a.annotationClass);
        if e !in b {
          assert e !in Evidences(recs);
          assert ClassesWith(recs, e) == {};
          assert CountWith(recs, e) == 0 by { CountAbsent(recs, e); }
        }
      }
    }
  }

  lemma {:induction false} CountAbsent(recs: seq<Annotation>, e: string)
    requires e !in Evidences(recs)
    ensures CountWith(recs, e) == 0
    decreases |recs|
  {
    if recs != [] {
      var init := recs[..|recs| - 1];
      assert forall x :: x in init ==> x in recs;
      assert recs[|recs| - 1] in recs;
      CountAbsent(init, e);
    }
  }

  /** A group's bucket holds exactly the subgroups "ALL" and the evidence
      types met, each with the distinct classes and the count of its records. */
  lemma {:induction false} FillMeaning(recs: seq<Annotation>)
    ensures Fill(Fresh, recs).Keys == {AllKey} + Evidences(recs)
    ensures forall e :: e in Fill(Fresh, recs) ==> Fill(Fresh, recs)[e] == Expected(recs, e)
    decreases |recs|
  {
    if recs == [] {
      assert Means(Fresh, recs);
    } else {
      var init := recs[..|recs| - 1];
      assert recs == init + [recs[|recs| - 1]];
      FillMeaning(init);
      RecordMeaning(Fill(Fresh, init), init, recs[|recs| - 1]);
    }
  }

  // ---------------------------------------------------------------------
  // Invariants of a bucket

  /** Every subgroup has at most as many classes as annotations. */
  predicate Bounded(b: Bucket) {
    forall e :: e in b ==> |b[e].terms| <= b[e].nbAnnotations
  }

  lemma AddBounded(t: Tally, cls: string)
    requires |t.terms| <= t.nbAnnotations
    ensures |Add(t, cls).terms| <= Add(t, cls).nbAnnotations
  {
    if cls in t.terms {
      assert t.terms + {cls} == t.terms;
    }
  }

  lemma RecordBounded(b: Bucket, a: Annotation)
    requires Bounded(b)
    ensures Bounded(Record(b, a))
  {
    var withAll := if AllKey in b then b else b[AllKey := Empty];
    AddBounded(Get(withAll, a.evidenceType), a.annotationClass);
    var withEvidence := withAll[a.evidenceType := Add(Get(withAll, a.evidenceType), a.annotationClass)];
    AddBounded(withEvidence[AllKey], a.annotationClass);
  }

  lemma {:induction false} FillBounded(b: Bucket, recs: seq<Annotation>)
    requires Bounded(b)
    ensures Bounded(Fill(b, recs))
    decreases |recs|
  {
    if recs != [] {
      FillBounded(b, recs[..|recs| - 1]);
      RecordBounded(Fill(b, recs[..|recs| - 1]), recs[|recs| - 1]);
    }
  }

  /** The sum of the annotation counts of the subgroups `keys`. */
  ghost function SumOver(b: Bucket, keys: set<string>): nat
    requires keys <= b.Keys
    decreases keys
  {
    if keys == {} then 0
    else
      var k :| k in keys;
      b[k].nbAnnotations + SumOver(b, keys - {k})
  }

  lemma {:induction false} SumOverRemove(b: Bucket, keys: set<string>, k: string)
    requires keys <= b.Keys && k in keys
    ensures SumOver(b, keys) == b[k].nbAnnotations + SumOver(b, keys - {k})
    decreases keys
  {
    var j :| j in keys && SumOver(b, keys) == b[j].nbAnnotations + SumOver(b, keys - {j});
    if j != k {
      SumOverRemove(b, keys - {j}, k);
      SumOverRemove(b, keys - {k}, j);
      assert keys - {j} - {k} == keys - {k} - {j};
    }
  }

  lemma {:induction false} SumOverFrame(b1: Bucket, b2: Bucket, keys: set<string>)
    requires keys <= b1.Keys && keys <= b2.Keys
    requires forall k :: k in keys ==> b1[k].nbAnnotations == b2[k].nbAnnotations
    ensures SumOver(b1, keys) == SumOver(b2, keys)
    decreases keys
  {
    if keys != {} {
      var j :| j in keys && SumOver(b1, keys) == b1[j].nbAnnotations + SumOver(b1, keys - {j});
      SumOverRemove(b2, keys, j);
      SumOverFrame(b1, b2, keys - {j});
    }
  }

  /** "ALL" counts as many annotations as all the evidence subgroups together
      (an untouched group has no subgroups at all). */
  ghost predicate Balanced(b: Bucket) {
    b == map[] || (AllKey in b && b[AllKey].nbAnnotations == SumOver(b, b.Keys - {AllKey}))
  }

  lemma RecordBalanced(b: Bucket, a: Annotation)
    requires Balanced(b) && a.evidenceType != AllKey
    ensures Balanced(Record(b, a))
  {
    var e := a.evidenceType;
    var withAll := if AllKey in b then b else b[AllKey := Empty];
    assert withAll.Keys - {AllKey} == b.Keys - {AllKey};
    SumOverFrame(withAll, b, b.Keys - {AllKey});
    var r := Record(b, a);
    var rest := withAll.Keys - {AllKey};
    if e in withAll {
      SumOverRemove(withAll, rest, e);
      SumOverRemove(r, rest, e);
      SumOverFrame(r, withAll, rest - {e});
      assert r.Keys - {AllKey} == rest;
    } else {
      assert r.Keys - {AllKey} == rest + {e};
      SumOverRemove(r, rest + {e}, e);
      assert rest + {e} - {e} == rest;
      SumOverFrame(r, withAll, rest);
    }
  }

  lemma {:induction false} FillBalanced(b: Bucket, recs: seq<Annotation>)
    requires Balanced(b)
    requires forall a :: a in recs ==> a.evidenceType != AllKey
    ensures Balanced(Fill(b, recs))
    decreases |recs|
  {
    if recs != [] {
      var init := recs[..|recs| - 1];
      assert forall a :: a in init ==> a in recs;
      FillBalanced(b, init);
      RecordBalanced(Fill(b, init), recs[|recs| - 1]);
    }
  }

  lemma FreshInvariants()
    ensures Bounded(Fresh) && Balanced(Fresh) && Bounded(map[]) && Balanced(map[])
  {
    assert Fresh.Keys - {AllKey} == {};
  }
}
