/** The shared-ancestor endpoint and the GO id rewrite for SPARQL IRIs. */
module OntologyTerms {
  import opened Wrappers
  import opened PyText
  import opened PyList

  /** `correct_goid`: every `:` of a GO id becomes `_`. */
  function CorrectGoid(goid: string): (r: string)
    ensures |r| == |goid|
    ensures forall k :: 0 <= k < |goid| ==> r[k] == (if goid[k] == ':' then '_' else goid[k])
  {
    ReplaceCharAt(goid, ':', '_');
    Replace(goid, ":", "_")
  }

  /** The two lists the endpoint returns, under `goids` and `gonames: `. */
  datatype Shared = Shared(goids: seq<string>, gonames: seq<string>)

  /** The positions of the subject's closure whose term is also in the
      object's closure, in increasing order. */
  function SharedIndices(sub: seq<string>, obj: seq<string>): (r: seq<nat>)
    ensures forall k :: 0 <= k < |r| ==> r[k] < |sub| && sub[r[k]] in obj
    ensures forall i :: 0 <= i < |sub| && sub[i] in obj ==> i in r
    ensures forall k, l :: 0 <= k < l < |r| ==> r[k] < r[l]
  {
    if sub == [] then []
    else
      var prefix := SharedIndices(sub[..|sub| - 1], obj);
      prefix + (if sub[|sub| - 1] in obj then [|sub| - 1] else [])
  }

  predicate AllBelow(idx: seq<nat>, n: nat) {
    forall k :: 0 <= k < |idx| ==> idx[k] < n
  }

  /** The elements of `xs` at the positions `idx`. */
  function Pick(xs: seq<string>, idx: seq<nat>): seq<string>
    requires AllBelow(idx, |xs|)
  {
    seq(|idx|, k requires 0 <= k < |idx| => xs[idx[k]])
  }

  /** The endpoint's result: the shared terms with the subject's labels at the
      same positions, or the `IndexError` of a label list shorter than the
      closure at a shared position. */
  function SharedResult(sub: seq<string>, labels: seq<string>, obj: seq<string>): Result<Shared, Error> {
    var idx := SharedIndices(sub, obj);
    if AllBelow(idx, |labels|) then Success(Shared(Pick(sub, idx), Pick(labels, idx)))
    else Failure(IndexError)
  }

  /** The loop over the subject's closure. */
  method SharedAncestors(sub: seq<string>, labels: seq<string>, obj: seq<string>) returns (r: Result<Shared, Error>)
    ensures r == SharedResult(sub, labels, obj)
  {
    var shared: seq<string> := [];
    var sharedLabels: seq<string> := [];
    for i := 0 to |sub|
      invariant AllBelow(SharedIndices(sub[..i], obj), |labels|)
      invariant AllBelow(SharedIndices(sub[..i], obj), |sub|)
      invariant shared == Pick(sub, SharedIndices(sub[..i], obj))
      invariant sharedLabels == Pick(labels, SharedIndices(sub[..i], obj))
    {
      var term := sub[i];
      SharedIndicesPrefix(sub, obj, i);
      ghost var idx := SharedIndices(sub[..i], obj);
      var found := false;
      if term in obj {
        found := true;
      }
      if found {
        if i >= |labels| {
          SharedFailsAt(sub, labels, obj, i);
          return Failure(IndexError);
        }
        PickSnoc(sub, idx, i);
        PickSnoc(labels, idx, i);
        shared := shared + [term];
        sharedLabels := sharedLabels + [labels[i]];
      } else {
        assert idx + [] == idx;
      }
    }
    assert sub[..|sub|] == sub;
    r := Success(Shared(shared, sharedLabels));
  }

  /** Picking one more position appends its element. */
  lemma PickSnoc(xs: seq<string>, idx: seq<nat>, i: nat)
    requires AllBelow(idx, |xs|) && i < |xs|
    ensures AllBelow(idx + [i], |xs|)
    ensures Pick(xs, idx + [i]) == Pick(xs, idx) + [xs[i]]
  {
  }

  /** A shared position past the end of the labels fails the endpoint. */
  lemma SharedFailsAt(sub: seq<string>, labels: seq<string>, obj: seq<string>, i: nat)
    requires i < |sub| && sub[i] in obj && i >= |labels|
    ensures SharedResult(sub, labels, obj) == Failure(IndexError)
  {
    assert i in SharedIndices(sub, obj);
  }

  /** The indices of a prefix start the indices of the whole closure. */
  lemma {:induction false} SharedIndicesPrefix(sub: seq<string>, obj: seq<string>, i: nat)
    requires i <= |sub|
    ensures SharedIndices(sub[..i], obj) <= SharedIndices(sub, obj)
    ensures i < |sub| ==> SharedIndices(sub[..i + 1], obj) == SharedIndices(sub[..i], obj) + (if sub[i] in obj then [i] else [])
    decreases |sub| - i
  {
    if i < |sub| {
      assert sub[..i + 1][..i] == sub[..i];
      SharedIndicesPrefix(sub, obj, i + 1);
    } else {
      assert sub[..i] == sub;
    }
  }

  function InClosure(obj: seq<string>): string -> bool {
    x => x in obj
  }

  /** `goids` is the subject's closure filtered by membership in the object's
      closure (order and duplicates kept), and `gonames: ` is exactly as long. */
  lemma {:induction false} SharedMeaning(sub: seq<string>, labels: seq<string>, obj: seq<string>)
    requires SharedResult(sub, labels, obj).Success?
    ensures SharedResult(sub, labels, obj).value.goids == Filter(sub, InClosure(obj))
    ensures |SharedResult(sub, labels, obj).value.gonames| == |SharedResult(sub, labels, obj).value.goids|
    decreases |sub|
  {
    if sub != [] {
      var init := sub[..|sub| - 1];
      var last := sub[|sub| - 1];
      SharedSnoc(sub, labels, obj);
      SharedMeaning(init, labels, obj);
      FilterSnoc(init, last, InClosure(obj));
      assert sub == init + [last];
    }
  }

  /** A successful endpoint call succeeds on the closure without its last
      term, and the last term is appended exactly when it is shared. */
  lemma SharedSnoc(sub: seq<string>, labels: seq<string>, obj: seq<string>)
    requires sub != [] && SharedResult(sub, labels, obj).Success?
    ensures SharedResult(sub[..|sub| - 1], labels, obj).Success?
    ensures SharedResult(sub, labels, obj).value.goids ==
      SharedResult(sub[..|sub| - 1], labels, obj).value.goids + (if sub[|sub| - 1] in obj then [sub[|sub| - 1]] else [])
  {
    var init := sub[..|sub| - 1];
    var last := sub[|sub| - 1];
    var idx := SharedIndices(sub, obj);
    var idx0 := SharedIndices(init, obj);
    assert idx == idx0 + (if last in obj then [|sub| - 1] else []);
    forall k | 0 <= k < |idx0| ensures idx0[k] < |labels| && sub[idx0[k]] == init[idx0[k]] {
      assert idx[k] == idx0[k];
    }
  }

  /** The endpoint fails exactly when a shared position has no label. */
  lemma SharedFails(sub: seq<string>, labels: seq<string>, obj: seq<string>)
    ensures SharedResult(sub, labels, obj).Failure? <==> exists i :: 0 <= i < |sub| && sub[i] in obj && i >= |labels|
  {
    var idx := SharedIndices(sub, obj);
    if exists i :: 0 <= i < |sub| && sub[i] in obj && i >= |labels| {
      var i :| 0 <= i < |sub| && sub[i] in obj && i >= |labels|;
      assert i in idx;
    }
  }
}
