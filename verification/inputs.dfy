/**
 * `Parameters\Inputs`: a collector of collectors. Each registered collector
 * maps the request to an array of parameters; `collect` merges their
 * outputs recursively, in registration order, skipping any that throws.
 */
module Inputs {
  import opened Wrappers
  import opened PhpValues
  import opened PhpArrays

  /** What one collector does for a request: return an array, or throw. */
  datatype Collected = Returned(params: seq<Entry>) | Threw

  /** The registered collectors, each a function of the request of type `R`. */
  datatype Inputs<!R> = Inputs(collectors: seq<R -> Collected>)

  /** `addCollector($c)`: append to the end. */
  function AddCollector<R>(i: Inputs<R>, c: R -> Collected): (r: Inputs<R>)
    ensures |r.collectors| == |i.collectors| + 1
    ensures forall j :: 0 <= j < |i.collectors| ==> r.collectors[j] == i.collectors[j]
    ensures r.collectors[|i.collectors|] == c
  {
    Inputs(i.collectors + [c])
  }

  /** The collectors' outputs for one request, in registration order. */
  function Outputs<R>(i: Inputs<R>, req: R): (outs: seq<Collected>)
    ensures |outs| == |i.collectors|
    ensures forall j :: 0 <= j < |outs| ==> outs[j] == i.collectors[j](req)
  {
    seq(|i.collectors|, j requires 0 <= j < |i.collectors| => i.collectors[j](req))
  }

  /**
   * The loop of `collect`: each returned array is merged recursively into the
   * accumulator; a throw is skipped. So the fold only ever sees the outputs
   * that returned, merged in order.
   */
  function Fold(acc: seq<Entry>, outs: seq<Collected>): (r: seq<Entry>)
    ensures r == FoldReturned(acc, Successful(outs))
    decreases |outs|
  {
    if outs == [] then acc
    else
      match outs[0]
      case Threw =>
        assert Successful(outs) == [] + Successful(outs[1..]) == Successful(outs[1..]);
        Fold(acc, outs[1..])
      case Returned(p) =>
        assert Successful(outs) == [p] + Successful(outs[1..]);
        assert Successful(outs)[0] == p && Successful(outs)[1..] == Successful(outs[1..]);
        Fold(ArrayMergeRecursive(acc, p), outs[1..])
  }

  /**
   * `collect($request)`: under the single key `params`, the recursive merge,
   * in order, of exactly the arrays the collectors returned; its string keys
   * are those of all these arrays together.
   */
  function Collect<R>(i: Inputs<R>, req: R): (r: seq<Entry>)
    ensures |r| == 1 && r[0].key == StrKey("params") && r[0].val.Arr?
    ensures r[0].val.entries == FoldReturned([], Successful(Outputs(i, req)))
    ensures StringKeys(r[0].val.entries) == KeysOfAll(Successful(Outputs(i, req)))
  {
    FoldKeys([], Successful(Outputs(i, req)));
    [Entry(StrKey("params"), Arr(Fold([], Outputs(i, req))))]
  }

  /** The outputs of the collectors that returned, in order. */
  function Successful(outs: seq<Collected>): (r: seq<seq<Entry>>)
    decreases |outs|
  {
    if outs == [] then []
    else (if outs[0].Returned? then [outs[0].params] else []) + Successful(outs[1..])
  }

  /** The union of the string keys of a sequence of arrays. */
  function KeysOfAll(ps: seq<seq<Entry>>): set<string>
    decreases |ps|
  {
    if ps == [] then {} else StringKeys(ps[0]) + KeysOfAll(ps[1..])
  }

  /** Merging a sequence of arrays, in order. */
  function FoldReturned(acc: seq<Entry>, ps: seq<seq<Entry>>): seq<Entry>
    decreases |ps|
  {
    if ps == [] then acc else FoldReturned(ArrayMergeRecursive(acc, ps[0]), ps[1..])
  }

  /** A collector that throws anywhere in the order changes nothing: the others still run. */
  lemma ThrowerSkipped(before: seq<Collected>, after: seq<Collected>)
    ensures Fold([], before + [Threw] + after) == Fold([], before + after)
  {
    SuccessfulConcat(before, [Threw] + after);
    SuccessfulConcat(before, after);
    assert ([Threw] + after)[1..] == after;
    assert Successful([Threw] + after) == [] + Successful(after) == Successful(after);
    assert before + [Threw] + after == before + ([Threw] + after);
  }

  lemma {:induction false} SuccessfulConcat(a: seq<Collected>, b: seq<Collected>)
    ensures Successful(a + b) == Successful(a) + Successful(b)
    decreases |a|
  {
    if a != [] {
      SuccessfulConcat(a[1..], b);
      assert (a + b)[1..] == a[1..] + b;
    } else {
      assert a + b == b;
    }
  }

  /** Without collectors the parameters are empty. */
  lemma NoCollectors<R>(req: R)
    ensures Collect(Inputs([]), req) == [Entry(StrKey("params"), Arr([]))]
  {
  }

  /** Folding a single returned array merges it into the empty array. */
  lemma FoldOne(p: seq<Entry>)
    ensures Fold([], [Returned(p)]) == MergeRecursiveInto([], p)
  {
    assert [Returned(p)][1..] == [];
    assert MergeInto([], []) == [];
  }

  /** Merging a uniquely keyed array into the empty array keeps each string-keyed value. */
  lemma MergeRecursiveIntoEmptyStr(p: seq<Entry>, s: string)
    requires UniqueKeys(p)
    ensures Find(MergeRecursiveInto([], p), StrKey(s)) == Find(p, StrKey(s))
  {
    if HasKey(p, StrKey(s)) {
      var j :| 0 <= j < |p| && p[j].key == StrKey(s);
      MergeRecursiveIntoSrcKey([], p, j);
      FindEntry(p, j);
    } else {
      MergeRecursiveIntoKeepsDest([], p, s);
    }
  }

  /**
   * With one collector that returns an array with unique keys, the
   * parameters hold its string-keyed values unchanged and its integer-keyed
   * values in order, renumbered from 0.
   */
  lemma SingleCollector(p: seq<Entry>)
    requires UniqueKeys(p)
    ensures forall s :: Find(Fold([], [Returned(p)]), StrKey(s)) == Find(p, StrKey(s))
    ensures forall n :: Find(Fold([], [Returned(p)]), IntKey(n)) ==
              if 0 <= n < |IntKeyedValues(p)| then Some(IntKeyedValues(p)[n]) else None
  {
    var r := Fold([], [Returned(p)]);
    FoldOne(p);
    forall s ensures Find(r, StrKey(s)) == Find(p, StrKey(s)) {
      MergeRecursiveIntoEmptyStr(p, s);
    }
    assert IntPart([], []);
    MergeRecursiveIntoIntPart([], [], p);
    assert [] + IntKeyedValues(p) == IntKeyedValues(p);
  }

  /** The string keys of the parameters are the union of those of every collector that returned. */
  lemma {:induction false} FoldKeys(acc: seq<Entry>, ps: seq<seq<Entry>>)
    ensures StringKeys(FoldReturned(acc, ps)) == StringKeys(acc) + KeysOfAll(ps)
    decreases |ps|
  {
    if ps != [] {
      FoldKeys(ArrayMergeRecursive(acc, ps[0]), ps[1..]);
      MergeRecursiveIntoStrKeys(MergeInto([], acc), ps[0]);
      MergeIntoStrKeys([], acc);
    }
  }

  /** The effect of one more output at the end of the fold. */
  function Then(params: seq<Entry>, o: Collected): seq<Entry> {
    match o
    case Threw => params
    case Returned(p) => ArrayMergeRecursive(params, p)
  }

  lemma {:induction false} FoldAppend(acc: seq<Entry>, outs: seq<Collected>, o: Collected)
    ensures Fold(acc, outs + [o]) == Then(Fold(acc, outs), o)
    decreases |outs|
  {
    if outs == [] {
      assert [] + [o] == [o];
      assert [o][1..] == [];
    } else {
      assert (outs + [o])[0] == outs[0];
      assert (outs + [o])[1..] == outs[1..] + [o];
      match outs[0]
      case Threw => FoldAppend(acc, outs[1..], o);
      case Returned(p) => FoldAppend(ArrayMergeRecursive(acc, p), outs[1..], o);
    }
  }

  /**
   * A collector added last runs last: its output is merged into what the
   * earlier collectors produced, or changes nothing if it throws.
   */
  lemma AddedCollectorRunsLast<R>(i: Inputs<R>, c: R -> Collected, req: R)
    ensures Collect(AddCollector(i, c), req)[0].val.entries == Then(Collect(i, req)[0].val.entries, c(req))
  {
    assert Outputs(AddCollector(i, c), req) == Outputs(i, req) + [c(req)];
    FoldAppend([], Outputs(i, req), c(req));
  }
}
