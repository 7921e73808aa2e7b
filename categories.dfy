/** Ribbon categories: a subset-metadata category with its keys renamed and
    its groups laid out as the synthetic "All" group, the subset's terms and
    the synthetic "Other" group. */
module Categories {
  import opened Wrappers
  import opened PyText
  import opened PyList
  import opened Subsets

  datatype GroupKind = All | Term | Other

  /** A group of a ribbon category (keys `id`, `label`, `description`, `type`). */
  datatype Group = Group(id: string, labelText: string, description: string, kind: GroupKind)

  /** A ribbon category (keys `id`, `label`, `description`, `groups`). */
  datatype Category = Category(id: string, labelText: string, description: Option<string>, groups: seq<Group>)

  /** A category label as the group captions show it: lower-cased, with
      underscores turned into spaces. */
  function Readable(text: string): (r: string)
    ensures |r| == |text|
    ensures '_' !in r
    ensures forall k :: 0 <= k < |r| ==> r[k] == (if Lower(text)[k] == '_' then ' ' else Lower(text)[k])
  {
    ReplaceCharAt(Lower(text), '_', ' ');
    var r := Replace(Lower(text), "_", " ");
    assert forall k :: 0 <= k < |r| ==> r[k] != '_';
    r
  }

  function TermGroup(t: SubsetTerm): Group {
    Group(t.annotationClass, t.classLabel, t.description, Term)
  }

  function AllGroup(id: string, caption: string): Group {
    Group(id, "all " + Readable(caption), "Show all " + Readable(caption) + " annotations", All)
  }

  function OtherGroup(id: string, caption: string): Group {
    Group(id, "other " + Readable(caption), "Represent all annotations not mapped to a specific term", Other)
  }

  function TermGroupsOf(terms: seq<SubsetTerm>): seq<Group> {
    seq(|terms|, k requires 0 <= k < |terms| => TermGroup(terms[k]))
  }

  /** The renamed category: `annotation_class` becomes `id`, the label becomes
      `label`, and the terms become typed groups between "All" and "Other". */
  function BuildCategory(c: SubsetCategory): (r: Category)
    requires c.annotationClass.Some?
    ensures r.id == c.annotationClass.value && r.labelText == c.classLabel && r.description == c.description
    ensures |r.groups| == |c.terms| + 2
    ensures r.groups[0] == AllGroup(r.id, c.classLabel)
    ensures r.groups[|r.groups| - 1] == OtherGroup(r.id, c.classLabel)
    ensures forall k :: 0 <= k < |c.terms| ==> r.groups[k + 1] == TermGroup(c.terms[k])
  {
    var id := c.annotationClass.value;
    Category(id, c.classLabel, c.description,
             [AllGroup(id, c.classLabel)] + TermGroupsOf(c.terms) + [OtherGroup(id, c.classLabel)])
  }

  predicate IsTerm(g: Group) {
    g.kind == Term
  }

  /** The Term-typed groups of a category, in order. */
  function TermGroups(groups: seq<Group>): seq<Group> {
    Filter(groups, IsTerm)
  }

  function Ids(groups: seq<Group>): seq<string> {
    seq(|groups|, k requires 0 <= k < |groups| => groups[k].id)
  }

  /** The ids of a category's Term groups: the group ids the "-other" bucket
      is tested against. */
  function TermIds(c: Category): seq<string> {
    Ids(TermGroups(c.groups))
  }

  /** `get_category_terms`: the loop keeping the groups typed "Term". */
  method CategoryTerms(c: Category) returns (terms: seq<Group>)
    ensures terms == TermGroups(c.groups)
  {
    terms := [];
    var k := 0;
    while k < |c.groups|
      invariant 0 <= k <= |c.groups|
      invariant terms == TermGroups(c.groups[..k])
    {
      var group := c.groups[k];
      FilterSnoc(c.groups[..k], group, IsTerm);
      assert c.groups[..k + 1] == c.groups[..k] + [group];
      if group.kind == Term {
        terms := terms + [group];
      }
      k := k + 1;
    }
    assert c.groups[..k] == c.groups;
  }

  lemma {:induction false} TermGroupsOfAllTerms(terms: seq<SubsetTerm>)
    ensures TermGroups(TermGroupsOf(terms)) == TermGroupsOf(terms)
    decreases |terms|
  {
    if terms != [] {
      var prefix := terms[..|terms| - 1];
      TermGroupsOfAllTerms(prefix);
      assert TermGroupsOf(terms) == TermGroupsOf(prefix) + [TermGroup(terms[|terms| - 1])];
      FilterSnoc(TermGroupsOf(prefix), TermGroup(terms[|terms| - 1]), IsTerm);
    }
  }

  lemma FramedTermGroups(first: Group, mids: seq<Group>, last: Group)
    requires !IsTerm(first) && !IsTerm(last)
    ensures TermGroups([first] + mids + [last]) == TermGroups(mids)
  {
    assert Filter([first], IsTerm) == [] by {
      FilterSnoc([], first, IsTerm);
      assert [] + [first] == [first];
    }
    FilterSnoc([first] + mids, last, IsTerm);
    FilterConcat([first], mids, IsTerm);
  }

  /** `get_category_terms` on a built category gives back exactly the subset's
      terms, as Term groups in their original order: the "All" and "Other"
      groups are not among them. */
  lemma BuiltTermGroups(c: SubsetCategory)
    requires c.annotationClass.Some?
    ensures TermGroups(BuildCategory(c).groups) == TermGroupsOf(c.terms)
    ensures TermIds(BuildCategory(c)) == TermClasses(c.terms)
  {
    var id := c.annotationClass.value;
    var mids := TermGroupsOf(c.terms);
    FramedTermGroups(AllGroup(id, c.classLabel), mids, OtherGroup(id, c.classLabel));
    TermGroupsOfAllTerms(c.terms);
    assert Ids(mids) == TermClasses(c.terms);
  }

  /** The outcome of the renaming loop: a category without `annotation_class`
      fails it, otherwise every category is rebuilt in place. */
  function BuiltCategories(subset: seq<SubsetCategory>): Result<seq<Category>, Error> {
    if exists c :: c in subset && c.annotationClass.None? then Failure(KeyError("annotation_class"))
    else Success(seq(|subset|, i requires 0 <= i < |subset| && subset[i].annotationClass.Some? => BuildCategory(subset[i])))
  }

  /** The inner loop of the renaming: one Term group per term, in order. */
  method TermGroupsLoop(terms: seq<SubsetTerm>) returns (groups: seq<Group>)
    ensures groups == TermGroupsOf(terms)
  {
    groups := [];
    var k := 0;
    while k < |terms|
      invariant 0 <= k <= |terms|
      invariant groups == TermGroupsOf(terms[..k])
    {
      var term := terms[k];
      groups := groups + [Group(term.annotationClass, term.classLabel, term.description, Term)];
      k := k + 1;
    }
    assert terms[..k] == terms;
  }

  /** Step 1 of the ribbon handler: the category renaming loop. */
  method BuildCategories(subset: seq<SubsetCategory>) returns (r: Result<seq<Category>, Error>)
    ensures r == BuiltCategories(subset)
  {
    var cats: seq<Category> := [];
    var i := 0;
    while i < |subset|
      invariant 0 <= i <= |subset|
      invariant |cats| == i
      invariant forall p :: 0 <= p < i ==> subset[p].annotationClass.Some? && cats[p] == BuildCategory(subset[p])
    {
      var category := subset[i];
      if category.annotationClass.None? {
        assert category in subset;
        return Failure(KeyError("annotation_class"));
      }
      var id := category.annotationClass.value;
      var groups := TermGroupsLoop(category.terms);
      groups := [AllGroup(id, category.classLabel)] + groups + [OtherGroup(id, category.classLabel)];
      var built := Category(id, category.classLabel, category.description, groups);
      assert built == BuildCategory(category);
      cats := cats + [built];
      i := i + 1;
    }
    assert forall c | c in subset :: c.annotationClass.Some?;
    assert !exists c :: c in subset && c.annotationClass.None?;
    assert cats == seq(|subset|, p requires 0 <= p < |subset| && subset[p].annotationClass.Some? => BuildCategory(subset[p]));
    r := Success(cats);
  }
}
