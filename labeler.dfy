/** The `MGI:MGI` preprocessing of the labeler endpoint, which rewrites the
    id list while iterating over it. */
module Labeler {
  import opened PyText
  import opened PyList

  const MgiMgi := "MGI:MGI"

  /** The rewrite of one id as written: every `MGI:MGI` becomes `MGI:`. */
  function Rewritten(x: string): string {
    Replace(x, MgiMgi, "MGI:")
  }

  /** The loop from position `i` on. Python's list iterator walks positions:
      an id containing `MGI:MGI` is removed (the first equal one in the list)
      and its rewrite appended, so the id that moves into the current
      position is not examined, while appended ids are reached later. */
  function RewriteDuring(s: seq<string>, i: nat): seq<string>
    decreases |s| - i
  {
    if i >= |s| then s
    else if Contains(s[i], MgiMgi) then RewriteDuring(RemoveFirst(s, s[i]) + [Rewritten(s[i])], i + 1)
    else RewriteDuring(s, i + 1)
  }

  /** `expand_curie`'s loop over its `id` list. */
  method ExpandCurieIds(ids: seq<string>) returns (r: seq<string>)
    ensures r == RewriteDuring(ids, 0)
  {
    r := ids;
    var i := 0;
    while i < |r|
      invariant RewriteDuring(r, i) == RewriteDuring(ids, 0)
      decreases |r| - i
    {
      var x := r[i];
      if Contains(x, MgiMgi) {
        r := RemoveFirst(r, x);
        r := r + [Rewritten(x)];
      }
      i := i + 1;
    }
  }

  /** Each removal is paired with an append, so the list keeps its length, and
      an id without `MGI:MGI` is never removed. */
  lemma {:induction false} RewriteKeeps(s: seq<string>, i: nat)
    ensures |RewriteDuring(s, i)| == |s|
    ensures forall x :: !Contains(x, MgiMgi) ==> multiset(RewriteDuring(s, i))[x] >= multiset(s)[x]
    decreases |s| - i
  {
    if i < |s| {
      if Contains(s[i], MgiMgi) {
        var t := RemoveFirst(s, s[i]) + [Rewritten(s[i])];
        RewriteKeeps(t, i + 1);
        forall x | !Contains(x, MgiMgi)
          ensures multiset(t)[x] >= multiset(s)[x]
        {
          assert x != s[i];
        }
      } else {
        RewriteKeeps(s, i + 1);
      }
    }
  }

  /** An id that starts with `MGI:MGI` and has no further occurrence is
      rewritten by replacing that prefix alone. */
  lemma RewrittenPrefix(rest: string)
    requires !Contains(rest, MgiMgi)
    ensures Contains(MgiMgi + rest, MgiMgi)
    ensures Rewritten(MgiMgi + rest) == "MGI:" + rest
  {
    assert (MgiMgi + rest)[..|MgiMgi|] == MgiMgi;
    ReplaceLeading(MgiMgi, "MGI:", rest);
  }

  /** `MGI::` followed by an id free of `MGI:MGI` is free of it too. */
  lemma DoubleColonFree(n: string)
    requires !Contains(n, MgiMgi)
    ensures !Contains("MGI::" + n, MgiMgi)
  {
    var s4 := [':'] + n;
    ContainsCons(':', n, MgiMgi);
    var s3 := [':'] + s4;
    ContainsCons(':', s4, MgiMgi);
    var s2 := ['I'] + s3;
    ContainsCons('I', s3, MgiMgi);
    var s1 := ['G'] + s2;
    ContainsCons('G', s2, MgiMgi);
    var s0 := ['M'] + s1;
    assert s0[1..] == s1;
    assert s0 == "MGI::" + n;
    assert !StartsWith(s0, MgiMgi) by {
      if |MgiMgi| <= |s0| {
        assert s0[..|MgiMgi|][4] == ':';
      }
    }
  }

  /** The rewrite of a doubled id `MGI:MGI:<n>` is `MGI::<n>`, with a
      doubled colon, not `MGI:<n>`. */
  lemma RewrittenDoubled(n: string)
    requires !Contains(n, MgiMgi)
    ensures Contains("MGI:MGI:" + n, MgiMgi)
    ensures Rewritten("MGI:MGI:" + n) == "MGI::" + n
  {
    ContainsCons(':', n, MgiMgi);
    assert "MGI:MGI:" + n == MgiMgi + ([':'] + n);
    RewrittenPrefix([':'] + n);
    assert "MGI:" + ([':'] + n) == "MGI::" + n;
  }

  /** A lone doubled id `MGI:MGI:<n>` (for instance `MGI:MGI:98214`) comes
      out as `MGI::<n>`. */
  lemma DoubleColon(n: string)
    requires !Contains(n, MgiMgi)
    ensures RewriteDuring(["MGI:MGI:" + n], 0) == ["MGI::" + n]
  {
    var x := "MGI:MGI:" + n;
    RewrittenDoubled(n);
    RemoveFirstAround([], x, []);
    assert [] + [x] + [] == [x];
    var t := RemoveFirst([x], x) + [Rewritten(x)];
    assert t == ["MGI::" + n];
    assert RewriteDuring([x], 0) == RewriteDuring(t, 1);
  }

  /** The id moved into the current position is skipped: of two doubled ids
      in a row only the first is rewritten, and it moves to the end. */
  lemma SkipsNext(n1: string, n2: string)
    requires !Contains(n1, MgiMgi)
    ensures RewriteDuring(["MGI:MGI:" + n1, "MGI:MGI:" + n2], 0) == ["MGI:MGI:" + n2, "MGI::" + n1]
  {
    var a, b := "MGI:MGI:" + n1, "MGI:MGI:" + n2;
    RewrittenDoubled(n1);
    RemoveFirstAround([], a, [b]);
    assert [] + [a] + [b] == [a, b];
    var t := RemoveFirst([a, b], a) + [Rewritten(a)];
    assert t == [b, "MGI::" + n1];
    assert RewriteDuring([a, b], 0) == RewriteDuring(t, 1);
    DoubleColonFree(n1);
    assert RewriteDuring(t, 1) == RewriteDuring(t, 2);
  }

  // ---------------------------------------------------------------------
  // The evidently intended preprocessing

  /** Every id, in place, with `MGI:MGI:` collapsed to `MGI:` as the ribbon
      handler does for its detail rows. */
  function NormalizedIds(ids: seq<string>): (r: seq<string>)
    ensures |r| == |ids|
    ensures forall i :: 0 <= i < |ids| ==> r[i] == Replace(ids[i], "MGI:MGI:", "MGI:")
  {
    seq(|ids|, i requires 0 <= i < |ids| => Replace(ids[i], "MGI:MGI:", "MGI:"))
  }

  /** Every doubled id, wherever it sits, loses exactly the extra prefix, and
      the other ids are left alone. */
  lemma NormalizedCollapses(ids: seq<string>, i: nat, local: string)
    requires i < |ids| && !Contains(local, "MGI:MGI:")
    ensures ids[i] == "MGI:MGI:" + local ==> NormalizedIds(ids)[i] == "MGI:" + local
    ensures !Contains(ids[i], "MGI:MGI:") ==> NormalizedIds(ids)[i] == ids[i]
  {
    ReplaceLeading("MGI:MGI:", "MGI:", local);
  }

  /** The two adjacent ids of `SkipsNext` are both collapsed, in place. */
  lemma NormalizedBoth(n1: string, n2: string)
    requires !Contains(n1, "MGI:MGI:") && !Contains(n2, "MGI:MGI:")
    ensures NormalizedIds(["MGI:MGI:" + n1, "MGI:MGI:" + n2]) == ["MGI:" + n1, "MGI:" + n2]
  {
    var ids := ["MGI:MGI:" + n1, "MGI:MGI:" + n2];
    NormalizedCollapses(ids, 0, n1);
    NormalizedCollapses(ids, 1, n2);
  }
}
