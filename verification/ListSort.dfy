/** The CoreMark in-place, bottom-up merge sort of a singly linked list
    (sim/sw/coremark/eembc/core_list_join.c). The sort rewrites `next` only, so `info` is
    constant here. */
module ListSort {

  class ListHead<T> {
    var next: ListHead?<T>
    const info: T

    constructor (info: T)
      ensures this.info == info && next == null
    {
      this.info := info;
      next := null;
    }
  }

  /** s is the chain of nodes from head to the null that ends it. */
  ghost predicate Chain<T>(head: ListHead?<T>, s: seq<ListHead<T>>)
    reads s
  {
    && head == (if s == [] then null else s[0])
    && forall i :: 0 <= i < |s| ==> s[i].next == Follower(s, i)
  }

  ghost function Follower<T>(s: seq<ListHead<T>>, i: nat): ListHead?<T> {
    if i + 1 < |s| then s[i + 1] else null
  }

  ghost predicate Distinct<T>(s: seq<T>) {
    forall i, j :: 0 <= i < j < |s| ==> s[i] != s[j]
  }

  /** A chain that reaches null visits no node twice. */
  lemma ChainDistinct<T>(head: ListHead?<T>, s: seq<ListHead<T>>)
    requires Chain(head, s)
    ensures Distinct(s)
  {
    forall i, j | 0 <= i < j < |s|
      ensures s[i] != s[j]
    {
      NoRevisit(head, s, i, j);
    }
  }

  lemma {:induction false} NoRevisit<T>(head: ListHead?<T>, s: seq<ListHead<T>>, i: nat, j: nat)
    requires Chain(head, s) && i < j < |s|
    ensures s[i] != s[j]
    decreases |s| - j
  {
    assert s[i].next == Follower(s, i) && s[j].next == Follower(s, j);
    if j + 1 < |s| {
      NoRevisit(head, s, i + 1, j + 1);
    }
  }

  // ------------------------------------------------------------ what a pass computes

  type Cmp<!T> = (T, T) -> int

  /** The merge of two runs; the first run wins ties. */
  ghost function Merge<T>(cmp: Cmp<T>, xs: seq<ListHead<T>>, ys: seq<ListHead<T>>): (zs: seq<ListHead<T>>)
    ensures |zs| == |xs| + |ys|
  {
    if xs == [] then ys
    else if ys == [] then xs
    else if cmp(xs[0].info, ys[0].info) <= 0 then [xs[0]] + Merge(cmp, xs[1..], ys)
    else [ys[0]] + Merge(cmp, xs, ys[1..])
  }

  lemma {:induction false} MergeKeepsNodes<T>(cmp: Cmp<T>, xs: seq<ListHead<T>>, ys: seq<ListHead<T>>)
    ensures multiset(Merge(cmp, xs, ys)) == multiset(xs) + multiset(ys)
    decreases |xs| + |ys|
  {
    if xs != [] && ys != [] {
      HeadAndTail(xs);
      HeadAndTail(ys);
      if cmp(xs[0].info, ys[0].info) <= 0 {
        MergeKeepsNodes(cmp, xs[1..], ys);
        assert multiset(Merge(cmp, xs, ys)) == multiset{xs[0]} + multiset(Merge(cmp, xs[1..], ys));
      } else {
        MergeKeepsNodes(cmp, xs, ys[1..]);
        assert multiset(Merge(cmp, xs, ys)) == multiset{ys[0]} + multiset(Merge(cmp, xs, ys[1..]));
      }
    }
  }

  lemma HeadAndTail<T>(s: seq<T>)
    requires s != []
    ensures multiset(s) == multiset{s[0]} + multiset(s[1..])
  {
    assert s == [s[0]] + s[1..];
  }

  ghost function Min(a: nat, b: nat): nat { if a <= b then a else b }

  /** One pass: adjacent runs of length k are merged pairwise. */
  ghost function Pass<T>(cmp: Cmp<T>, s: seq<ListHead<T>>, k: nat): (r: seq<ListHead<T>>)
    requires k > 0
    ensures |r| == |s|
    decreases |s|
  {
    if s == [] then []
    else
      var a, b := Min(k, |s|), Min(2 * k, |s|);
      Merge(cmp, s[..a], s[a..b]) + Pass(cmp, s[b..], k)
  }

  lemma {:induction false} PassKeepsNodes<T>(cmp: Cmp<T>, s: seq<ListHead<T>>, k: nat)
    requires k > 0
    ensures multiset(Pass(cmp, s, k)) == multiset(s)
    decreases |s|
  {
    if s != [] {
      var a, b := Min(k, |s|), Min(2 * k, |s|);
      MergeKeepsNodes(cmp, s[..a], s[a..b]);
      PassKeepsNodes(cmp, s[b..], k);
      ThreeParts(s, a, b);
    }
  }

  lemma ThreeParts<T>(s: seq<T>, a: nat, b: nat)
    requires a <= b <= |s|
    ensures multiset(s) == multiset(s[..a]) + multiset(s[a..b]) + multiset(s[b..])
  {
    assert s == s[..a] + s[a..b] + s[b..];
  }

  // ------------------------------------------------------------ what a sort promises

  ghost predicate TotalPreorder<T(!new)>(cmp: Cmp<T>) {
    && (forall a, b :: cmp(a, b) <= 0 || cmp(b, a) <= 0)
    && (forall a, b, c :: cmp(a, b) <= 0 && cmp(b, c) <= 0 ==> cmp(a, c) <= 0)
  }

  /** x came before y in the original list. */
  ghost predicate Before<T>(original: seq<T>, x: T, y: T) {
    exists i, j :: 0 <= i < j < |original| && original[i] == x && original[j] == y
  }

  /** The order of a stable sort: by comparison, ties by original position. */
  ghost predicate Precedes<T>(cmp: Cmp<T>, original: seq<ListHead<T>>, x: ListHead<T>, y: ListHead<T>) {
    cmp(x.info, y.info) <= 0 && (cmp(y.info, x.info) <= 0 ==> Before(original, x, y))
  }

  ghost predicate Ordered<T>(cmp: Cmp<T>, original: seq<ListHead<T>>, s: seq<ListHead<T>>) {
    forall i, j :: 0 <= i < j < |s| ==> Precedes(cmp, original, s[i], s[j])
  }

  ghost predicate AllBefore<T>(original: seq<T>, xs: seq<T>, ys: seq<T>) {
    forall x, y :: x in xs && y in ys ==> Before(original, x, y)
  }

  lemma PrecedesAll<T>(cmp: Cmp<T>, original: seq<ListHead<T>>, x: ListHead<T>, s: seq<ListHead<T>>)
    requires Ordered(cmp, original, s)
    requires forall y :: y in s ==> Precedes(cmp, original, x, y)
    ensures Ordered(cmp, original, [x] + s)
  {
  }

  /** Merging two ordered runs, the first of which came first, gives an ordered run. */
  lemma {:induction false} MergeOrdered<T(!new)>(cmp: Cmp<T>, original: seq<ListHead<T>>,
                                                  xs: seq<ListHead<T>>, ys: seq<ListHead<T>>)
    requires TotalPreorder(cmp)
    requires Ordered(cmp, original, xs) && Ordered(cmp, original, ys) && AllBefore(original, xs, ys)
    ensures Ordered(cmp, original, Merge(cmp, xs, ys))
    decreases |xs| + |ys|
  {
    if xs != [] && ys != [] {
      if cmp(xs[0].info, ys[0].info) <= 0 {
        MergeOrdered(cmp, original, xs[1..], ys);
        var rest := Merge(cmp, xs[1..], ys);
        forall y | y in rest
          ensures Precedes(cmp, original, xs[0], y)
        {
          MergeMember(cmp, xs[1..], ys, y);
          if y in ys {
            assert y == ys[0] || Precedes(cmp, original, ys[0], y);
          }
        }
        PrecedesAll(cmp, original, xs[0], rest);
      } else {
        MergeOrdered(cmp, original, xs, ys[1..]);
        var rest := Merge(cmp, xs, ys[1..]);
        forall y | y in rest
          ensures Precedes(cmp, original, ys[0], y)
        {
          MergeMember(cmp, xs, ys[1..], y);
          if y in xs {
            assert y == xs[0] || Precedes(cmp, original, xs[0], y);
          }
        }
        PrecedesAll(cmp, original, ys[0], rest);
      }
    }
  }

  lemma MergeMember<T>(cmp: Cmp<T>, xs: seq<ListHead<T>>, ys: seq<ListHead<T>>, z: ListHead<T>)
    ensures z in Merge(cmp, xs, ys) <==> z in xs || z in ys
  {
    MergeKeepsNodes(cmp, xs, ys);
    assert z in Merge(cmp, xs, ys) <==> z in multiset(Merge(cmp, xs, ys));
    assert z in xs <==> z in multiset(xs);
    assert z in ys <==> z in multiset(ys);
  }

  /** s falls into runs of length k, each ordered and each before the next in the original. */
  ghost predicate Runs<T>(cmp: Cmp<T>, original: seq<ListHead<T>>, s: seq<ListHead<T>>, k: nat)
    requires k > 0
    decreases |s|
  {
    s == [] ||
    (var a := Min(k, |s|);
     && Ordered(cmp, original, s[..a])
     && AllBefore(original, s[..a], s[a..])
     && Runs(cmp, original, s[a..], k))
  }

  lemma {:induction false} SingletonRuns<T>(cmp: Cmp<T>, original: seq<ListHead<T>>, i: nat)
    requires i <= |original|
    ensures Runs(cmp, original, original[i..], 1)
    decreases |original| - i
  {
    if i < |original| {
      SingletonRuns(cmp, original, i + 1);
      assert original[i..][1..] == original[i + 1..];
    }
  }

  /** The first two runs, and what comes after them. */
  lemma FirstTwoRuns<T>(cmp: Cmp<T>, original: seq<ListHead<T>>, s: seq<ListHead<T>>, k: nat)
    requires k > 0 && s != [] && Runs(cmp, original, s, k)
    ensures var a, b := Min(k, |s|), Min(2 * k, |s|);
      && Ordered(cmp, original, s[..a]) && Ordered(cmp, original, s[a..b])
      && AllBefore(original, s[..a], s[a..b])
      && AllBefore(original, s[..a], s[b..]) && AllBefore(original, s[a..b], s[b..])
      && Runs(cmp, original, s[b..], k)
  {
    hide Ordered, Before;
    var a, b := Min(k, |s|), Min(2 * k, |s|);
    var r := s[a..];
    assert s[a..b] == r[..b - a] && s[b..] == r[b - a..];
    assert r == s[a..b] + s[b..];
    if r == [] {
      assert s[a..b] == [] && s[b..] == [];
      NothingOrdered(cmp, original);
    }
  }

  lemma NothingOrdered<T>(cmp: Cmp<T>, original: seq<ListHead<T>>)
    ensures Ordered(cmp, original, [])
  {
  }

  /** A pass doubles the run length. */
  lemma {:induction false} PassDoubles<T(!new)>(cmp: Cmp<T>, original: seq<ListHead<T>>, s: seq<ListHead<T>>, k: nat)
    requires TotalPreorder(cmp) && k > 0 && Runs(cmp, original, s, k)
    ensures Runs(cmp, original, Pass(cmp, s, k), 2 * k)
    decreases |s|
  {
    hide Ordered, Before, Merge, TotalPreorder, AllBefore;
    if s != [] {
      var a, b := Min(k, |s|), Min(2 * k, |s|);
      FirstTwoRuns(cmp, original, s, k);
      PassDoubles(cmp, original, s[b..], k);
      MergeOrdered(cmp, original, s[..a], s[a..b]);
      MergedBefore(cmp, original, s[..a], s[a..b], s[b..], k);
      JoinRuns(cmp, original, Merge(cmp, s[..a], s[a..b]), Pass(cmp, s[b..], k), 2 * k);
    }
  }

  /** Everything in a merged pair came before everything in the rest of the pass. */
  lemma MergedBefore<T>(cmp: Cmp<T>, original: seq<ListHead<T>>,
                        xs: seq<ListHead<T>>, ys: seq<ListHead<T>>, rest: seq<ListHead<T>>, k: nat)
    requires k > 0 && AllBefore(original, xs, rest) && AllBefore(original, ys, rest)
    ensures AllBefore(original, Merge(cmp, xs, ys), Pass(cmp, rest, k))
  {
    hide Before;
    PassKeepsNodes(cmp, rest, k);
    forall x, y | x in Merge(cmp, xs, ys) && y in Pass(cmp, rest, k)
      ensures Before(original, x, y)
    {
      MergeMember(cmp, xs, ys, x);
      assert y in multiset(Pass(cmp, rest, k));
      assert y in rest;
    }
  }

  lemma JoinRuns<T>(cmp: Cmp<T>, original: seq<ListHead<T>>, first: seq<ListHead<T>>, rest: seq<ListHead<T>>, k: nat)
    requires k > 0 && Ordered(cmp, original, first) && Runs(cmp, original, rest, k) && AllBefore(original, first, rest)
    requires first != [] && (|first| == k || (|first| < k && rest == []))
    ensures Runs(cmp, original, first + rest, k)
  {
    var a := Min(k, |first + rest|);
    assert (first + rest)[..a] == first && (first + rest)[a..] == rest;
  }

  // ------------------------------------------------------------ the program

  ghost function At<T>(s: seq<ListHead<T>>, i: nat): ListHead?<T> {
    if i < |s| then s[i] else null
  }

  /** The merged part of the list: its nodes, head and tail; the tail's own link is stale. */
  ghost predicate Built<T>(list: ListHead?<T>, tail: ListHead?<T>, out: seq<ListHead<T>>)
    reads out
  {
    && list == At(out, 0)
    && tail == (if out == [] then null else out[|out| - 1])
    && Distinct(out)
    && forall i :: 0 <= i < |out| - 1 ==> out[i].next == out[i + 1]
  }

  /** Nodes lo to hi of the list as it was have not been relinked yet. */
  ghost predicate Intact<T>(s: seq<ListHead<T>>, lo: nat, hi: nat)
    requires hi <= |s|
    reads s
  {
    forall i :: lo <= i < hi ==> s[i].next == Follower(s, i)
  }

  /** The nodes of the merged part come from the two consumed stretches of s. */
  ghost predicate From<T>(out: seq<ListHead<T>>, s: seq<ListHead<T>>, pi: nat, mid: nat, qi: nat)
    requires pi <= mid <= qi <= |s|
  {
    forall n :: n in out ==> n in s[..pi] || n in s[mid..qi]
  }

  /** Nodes not consumed yet are not in the merged part. */
  lemma NotTaken<T>(out: seq<ListHead<T>>, s: seq<ListHead<T>>, pi: nat, mid: nat, qi: nat)
    requires pi <= mid <= qi <= |s| && Distinct(s) && From(out, s, pi, mid, qi)
    ensures forall x :: pi <= x < mid || qi <= x < |s| ==> s[x] !in out
    ensures forall n :: n in out ==> n in s
  {
  }

  lemma FromGrows<T>(out: seq<ListHead<T>>, s: seq<ListHead<T>>, pi: nat, mid: nat, qi: nat)
    requires pi <= mid <= qi <= |s| && From(out, s, pi, mid, qi)
    ensures pi < mid ==> From(out + [s[pi]], s, pi + 1, mid, qi)
    ensures qi < |s| ==> From(out + [s[qi]], s, pi, mid, qi + 1)
  {
    forall n | n in out
      ensures pi < mid ==> n in s[..pi + 1] || n in s[mid..qi]
      ensures qi < |s| ==> n in s[..pi] || n in s[mid..qi + 1]
    {
      if n in s[..pi] {
        assert pi < mid ==> s[..pi + 1] == s[..pi] + [s[pi]];
      } else {
        assert qi < |s| ==> s[mid..qi + 1] == s[mid..qi] + [s[qi]];
      }
    }
    assert pi < mid ==> s[pi] in s[..pi + 1];
    assert qi < |s| ==> s[qi] in s[mid..qi + 1] by {
      if qi < |s| { assert s[mid..qi + 1][qi - mid] == s[qi]; }
    }
  }

  /** State of the inner loop: nodes pi to mid and qi to end are still to be merged. */
  ghost predicate Merging<T>(s: seq<ListHead<T>>, pi: nat, mid: nat, qi: nat,
                             list: ListHead?<T>, tail: ListHead?<T>, out: seq<ListHead<T>>)
    reads s, out
  {
    && pi <= mid <= qi <= |s| && Distinct(s)
    && Built(list, tail, out) && From(out, s, pi, mid, qi)
    && Intact(s, pi, mid) && Intact(s, qi, |s|)
  }

  /** Add e, the next node of one of the runs, to the merged list. */
  method Append<T>(list: ListHead?<T>, tail: ListHead?<T>, e: ListHead<T>, ghost first: bool,
                   ghost s: seq<ListHead<T>>, ghost pi: nat, ghost mid: nat, ghost qi: nat, ghost out: seq<ListHead<T>>)
    returns (list': ListHead?<T>, tail': ListHead?<T>)
    requires Merging(s, pi, mid, qi, list, tail, out)
    requires if first then pi < mid && e == s[pi] else qi < |s| && e == s[qi]
    modifies s
    ensures Merging(s, if first then pi + 1 else pi, mid, if first then qi else qi + 1, list', tail', out + [e])
  {
    NotTaken(out, s, pi, mid, qi);
    FromGrows(out, s, pi, mid, qi);
    hide From;
    list' := list;
    if tail != null {
      assert tail in out && tail in s;
      tail.next := e;
    } else {
      list' := e;
    }
    tail' := e;
  }

  /** Merge the runs s[i..mid] and s[mid..end] onto the merged part. */
  method MergeRuns<T>(cmp: Cmp<T>, list0: ListHead?<T>, tail0: ListHead?<T>, p0: ListHead?<T>, q0: ListHead?<T>,
                      psize0: nat, insize: nat, ghost s: seq<ListHead<T>>, ghost i: nat, ghost mid: nat, ghost end: nat,
                      ghost out0: seq<ListHead<T>>)
    returns (list: ListHead?<T>, tail: ListHead?<T>, q: ListHead?<T>, ghost out: seq<ListHead<T>>)
    requires i + psize0 == mid <= |s| && end == Min(mid + insize, |s|)
    requires Merging(s, i, mid, mid, list0, tail0, out0)
    requires p0 == At(s, i) && q0 == At(s, mid)
    modifies s
    ensures out == out0 + Merge(cmp, s[i..mid], s[mid..end])
    ensures Merging(s, mid, mid, end, list, tail, out)
    ensures q == At(s, end)
  {
    hide Pending, Merging;
    list, tail, q, out := list0, tail0, q0, out0;
    var p, psize, qsize := p0, psize0, insize;
    ghost var pi, qi := i, mid;
    while psize > 0 || (qsize > 0 && q != null)
      invariant i <= pi <= mid <= qi <= end && psize == mid - pi && qsize == insize - (qi - mid)
      invariant psize > 0 ==> p == s[pi]
      invariant q == At(s, qi)
      invariant out + Pending(cmp, s, pi, mid, qi, end) == out0 + Pending(cmp, s, i, mid, mid, end)
      invariant Merging(s, pi, mid, qi, list, tail, out)
      decreases psize + qsize
    {
      NextNodes(s, pi, mid, qi, list, tail, out);
      var e;
      ghost var first := psize > 0 && (qsize == 0 || q == null || cmp(p.info, q.info) <= 0);
      if psize == 0 {
        e, q, qsize := q, q.next, qsize - 1;
      } else if qsize == 0 || q == null {
        e, p, psize := p, p.next, psize - 1;
      } else if cmp(p.info, q.info) <= 0 {
        e, p, psize := p, p.next, psize - 1;
      } else {
        e, q, qsize := q, q.next, qsize - 1;
      }
      list, tail := Append(list, tail, e, first, s, pi, mid, qi, out);
      PendingTakes(cmp, s, pi, mid, qi, end, first, out);
      out, pi, qi := out + [e], if first then pi + 1 else pi, if first then qi else qi + 1;
    }
    PendingEnds(cmp, s, i, mid, end, out, out0);
  }

  lemma NextNodes<T>(s: seq<ListHead<T>>, pi: nat, mid: nat, qi: nat,
                     list: ListHead?<T>, tail: ListHead?<T>, out: seq<ListHead<T>>)
    requires Merging(s, pi, mid, qi, list, tail, out)
    ensures pi + 1 < mid ==> s[pi].next == s[pi + 1]
    ensures qi < |s| ==> s[qi].next == At(s, qi + 1)
  {
  }

  /** The merge of what is left of the two runs. */
  ghost function Pending<T>(cmp: Cmp<T>, s: seq<ListHead<T>>, pi: nat, mid: nat, qi: nat, end: nat): seq<ListHead<T>>
    requires pi <= mid <= qi <= end <= |s|
  {
    Merge(cmp, s[pi..mid], s[qi..end])
  }

  /** The node that the loop takes is the head of the merge of what is left. */
  lemma PendingTakes<T>(cmp: Cmp<T>, s: seq<ListHead<T>>, pi: nat, mid: nat, qi: nat, end: nat, first: bool,
                        out: seq<ListHead<T>>)
    requires pi <= mid <= qi <= end <= |s|
    requires first ==> pi < mid && (qi < end ==> cmp(s[pi].info, s[qi].info) <= 0)
    requires !first ==> qi < end && (pi < mid ==> cmp(s[pi].info, s[qi].info) > 0)
    ensures out + Pending(cmp, s, pi, mid, qi, end)
         == if first then out + [s[pi]] + Pending(cmp, s, pi + 1, mid, qi, end)
            else out + [s[qi]] + Pending(cmp, s, pi, mid, qi + 1, end)
  {
    var xs, ys := s[pi..mid], s[qi..end];
    if first {
      assert xs[1..] == s[pi + 1..mid];
      MergeTakesFirst(cmp, xs, ys);
    } else {
      assert ys[1..] == s[qi + 1..end];
      MergeTakesSecond(cmp, xs, ys);
    }
  }

  lemma MergeTakesFirst<T>(cmp: Cmp<T>, xs: seq<ListHead<T>>, ys: seq<ListHead<T>>)
    requires xs != [] && (ys != [] ==> cmp(xs[0].info, ys[0].info) <= 0)
    ensures Merge(cmp, xs, ys) == [xs[0]] + Merge(cmp, xs[1..], ys)
  {
    if ys == [] {
      assert xs == [xs[0]] + xs[1..];
      MergeWithNothing(cmp, xs[1..]);
    }
  }

  lemma MergeTakesSecond<T>(cmp: Cmp<T>, xs: seq<ListHead<T>>, ys: seq<ListHead<T>>)
    requires ys != [] && (xs != [] ==> cmp(xs[0].info, ys[0].info) > 0)
    ensures Merge(cmp, xs, ys) == [ys[0]] + Merge(cmp, xs, ys[1..])
  {
    if xs == [] {
      assert Merge(cmp, xs, ys) == ys && Merge(cmp, xs, ys[1..]) == ys[1..];
      assert ys == [ys[0]] + ys[1..];
    }
  }

  lemma MergeWithNothing<T>(cmp: Cmp<T>, xs: seq<ListHead<T>>)
    ensures Merge(cmp, xs, []) == xs
  {
  }

  lemma PendingEnds<T>(cmp: Cmp<T>, s: seq<ListHead<T>>, i: nat, mid: nat, end: nat,
                       out: seq<ListHead<T>>, out0: seq<ListHead<T>>)
    requires i <= mid <= end <= |s|
    requires out + Pending(cmp, s, mid, mid, end, end) == out0 + Pending(cmp, s, i, mid, mid, end)
    ensures out == out0 + Merge(cmp, s[i..mid], s[mid..end])
  {
    assert s[mid..mid] == [] && s[end..end] == [];
  }

  /** How many pairs of runs a pass over n nodes merges: n / 2k, rounded up. */
  ghost function PairCount(n: nat, k: nat): (c: nat)
    requires k > 0
    ensures c <= 1 <==> n <= 2 * k
    decreases n
  {
    if n == 0 then 0 else 1 + PairCount(n - Min(2 * k, n), k)
  }

  lemma MergingStarts<T>(list: ListHead<T>, s: seq<ListHead<T>>)
    requires Chain(list, s)
    ensures Merging(s, 0, 0, 0, null, null, [])
  {
    ChainDistinct(list, s);
  }

  /** Between two merges nothing is pending: the second run starts where the first does. */
  lemma MergingSplits<T>(s: seq<ListHead<T>>, i: nat, mid: nat,
                         list: ListHead?<T>, tail: ListHead?<T>, out: seq<ListHead<T>>)
    requires i <= mid <= |s| && Merging(s, i, i, i, list, tail, out)
    ensures Merging(s, i, mid, mid, list, tail, out)
  {
    assert s[i..i] == [];
  }

  lemma MergingJoins<T>(s: seq<ListHead<T>>, mid: nat, end: nat,
                        list: ListHead?<T>, tail: ListHead?<T>, out: seq<ListHead<T>>)
    requires mid <= end <= |s| && Merging(s, mid, mid, end, list, tail, out)
    ensures Merging(s, end, end, end, list, tail, out)
  {
    assert s[..end] == s[..mid] + s[mid..end];
  }

  /** Step `insize` places along from p, or to the end of the list. */
  method StepAlong<T>(p: ListHead<T>, insize: nat, ghost s: seq<ListHead<T>>, ghost i: nat)
    returns (q: ListHead?<T>, psize: nat)
    requires insize > 0 && i < |s| && p == s[i] && Intact(s, i, |s|)
    ensures i + psize == Min(i + insize, |s|) && q == At(s, i + psize)
  {
    q, psize := p, 0;
    for step := 0 to insize
      invariant psize == step && i + psize < |s| && q == s[i + psize]
    {
      psize := psize + 1;
      q := q.next;
      if q == null {
        break;
      }
    }
  }

  /** What is left of a pass from node i on. */
  ghost function PassFrom<T>(cmp: Cmp<T>, s: seq<ListHead<T>>, i: nat, k: nat): seq<ListHead<T>>
    requires i <= |s| && k > 0
  {
    Pass(cmp, s[i..], k)
  }

  lemma PassUnfolds<T>(cmp: Cmp<T>, s: seq<ListHead<T>>, i: nat, k: nat)
    requires i < |s| && k > 0
    ensures var mid, end := Min(i + k, |s|), Min(i + 2 * k, |s|);
      PassFrom(cmp, s, i, k) == Merge(cmp, s[i..mid], s[mid..end]) + PassFrom(cmp, s, end, k)
  {
    hide Merge;
    var r := s[i..];
    var a, b := Min(k, |r|), Min(2 * k, |r|);
    assert r[..a] == s[i..i + a] && r[a..b] == s[i + a..i + b] && r[b..] == s[i + b..];
  }

  /** After merging the next pair, the merged part and what is left still make up the pass. */
  lemma PassContinues<T>(cmp: Cmp<T>, s: seq<ListHead<T>>, i: nat, k: nat,
                         before: seq<ListHead<T>>, after: seq<ListHead<T>>)
    requires i < |s| && k > 0
    requires after == before + Merge(cmp, s[i..Min(i + k, |s|)], s[Min(i + k, |s|)..Min(i + 2 * k, |s|)])
    ensures after + PassFrom(cmp, s, Min(i + 2 * k, |s|), k) == before + PassFrom(cmp, s, i, k)
    ensures 1 + PairCount(|s| - Min(i + 2 * k, |s|), k) == PairCount(|s| - i, k)
  {
    hide Merge, PassFrom;
    PassUnfolds(cmp, s, i, k);
  }

  /** One pass over the list. */
  method RunPass<T>(cmp: Cmp<T>, list0: ListHead<T>, insize: nat, ghost s: seq<ListHead<T>>)
    returns (list: ListHead<T>, nmerges: nat)
    requires Chain(list0, s) && insize > 0
    modifies s
    ensures Chain(list, Pass(cmp, s, insize))
    ensures nmerges == PairCount(|s|, insize)
  {
    var p: ListHead?<T>, head: ListHead?<T>, tail: ListHead?<T> := list0, null, null;
    nmerges := 0;
    ghost var i, out: seq<ListHead<T>> := 0, [];
    MergingStarts(list0, s);
    assert s[0..] == s;
    ghost var all := PassFrom(cmp, s, 0, insize);
    assert all == Pass(cmp, s, insize);
    PassOfNothing(cmp, s, insize);
    hide Merging, Pass, Merge, PassFrom, PairCount;
    while p != null
      invariant i <= |s| && p == At(s, i)
      invariant Merging(s, i, i, i, head, tail, out)
      invariant out + PassFrom(cmp, s, i, insize) == all
      invariant nmerges + PairCount(|s| - i, insize) == PairCount(|s|, insize)
      decreases |s| - i
    {
      ghost var before := out;
      nmerges := nmerges + 1;
      ghost var mid, end := Min(i + insize, |s|), Min(i + 2 * insize, |s|);
      p, head, tail, out := MergeNextPair(cmp, head, tail, p, insize, s, i, mid, end, out);
      PassContinues(cmp, s, i, insize, before, out);
      i := end;
    }
    list := CloseList(head, tail, s, out);
  }

  lemma PassOfNothing<T>(cmp: Cmp<T>, s: seq<ListHead<T>>, k: nat)
    requires k > 0
    ensures PassFrom(cmp, s, |s|, k) == [] && PairCount(0, k) == 0
  {
  }

  /** End the merged list with null. */
  method CloseList<T>(head: ListHead?<T>, tail: ListHead?<T>, ghost s: seq<ListHead<T>>, ghost out: seq<ListHead<T>>)
    returns (list: ListHead<T>)
    requires Merging(s, |s|, |s|, |s|, head, tail, out) && out != []
    modifies s
    ensures Chain(list, out)
  {
    NotTaken(out, s, |s|, |s|, |s|);
    hide From;
    assert tail in out && tail in s;
    tail.next := null;
    list := head;
  }

  /** Find the two runs that start at p and merge them. */
  method MergeNextPair<T>(cmp: Cmp<T>, list0: ListHead?<T>, tail0: ListHead?<T>, p: ListHead<T>, insize: nat,
                          ghost s: seq<ListHead<T>>, ghost i: nat, ghost mid: nat, ghost end: nat,
                          ghost out0: seq<ListHead<T>>)
    returns (q: ListHead?<T>, list: ListHead?<T>, tail: ListHead?<T>, ghost out: seq<ListHead<T>>)
    requires insize > 0 && i < |s| && p == s[i] && Merging(s, i, i, i, list0, tail0, out0)
    requires mid == Min(i + insize, |s|) && end == Min(i + 2 * insize, |s|)
    modifies s
    ensures out == out0 + Merge(cmp, s[i..mid], s[mid..end])
    ensures Merging(s, end, end, end, list, tail, out)
    ensures q == At(s, end)
  {
    var q0, psize := StepAlong(p, insize, s, i);
    hide Merging, Merge;
    MergingSplits(s, i, mid, list0, tail0, out0);
    list, tail, q, out := MergeRuns(cmp, list0, tail0, p, q0, psize, insize, s, i, mid, end, out0);
    MergingJoins(s, mid, end, list, tail, out);
  }

  /** The sort: passes of doubling run length until one merge covers the list. It ends with
      the same nodes, null-terminated, ordered by cmp with ties in their original order. */
  method MergeSort<T(!new)>(cmp: Cmp<T>, list0: ListHead<T>, ghost s: seq<ListHead<T>>)
    returns (list: ListHead<T>, ghost out: seq<ListHead<T>>)
    requires Chain(list0, s) && TotalPreorder(cmp)
    modifies s
    ensures Chain(list, out)
    ensures multiset(out) == multiset(s)
    ensures Ordered(cmp, s, out)
  {
    list, out := list0, s;
    var insize: nat := 1;
    SingletonRuns(cmp, s, 0);
    assert s[0..] == s;
    hide Runs, Pass, TotalPreorder, Ordered, Chain;
    while true
      invariant Chain(list, out) && multiset(out) == multiset(s) && |out| == |s|
      invariant insize == 1 || 1 < insize < |s|
      invariant Runs(cmp, s, out, insize)
      decreases |s| - insize
    {
      SameNodes(out, s);
      var nmerges;
      list, nmerges := RunPass(cmp, list, insize, out);
      PassDoubles(cmp, s, out, insize);
      PassKeepsNodes(cmp, out, insize);
      out := Pass(cmp, out, insize);
      if nmerges <= 1 {
        OneRun(cmp, s, out, 2 * insize);
        return;
      }
      insize := insize * 2;
    }
  }

  lemma SameNodes<T>(x: seq<T>, y: seq<T>)
    requires multiset(x) == multiset(y)
    ensures |x| == |y|
    ensures forall i :: 0 <= i < |x| ==> x[i] in y
    ensures forall i :: 0 <= i < |y| ==> y[i] in x
  {
    assert |multiset(x)| == |multiset(y)|;
    forall i | 0 <= i < |x|
      ensures x[i] in y
    {
      assert x[i] in multiset(x);
    }
    forall i | 0 <= i < |y|
      ensures y[i] in x
    {
      assert y[i] in multiset(y);
    }
  }

  lemma OneRun<T>(cmp: Cmp<T>, original: seq<ListHead<T>>, s: seq<ListHead<T>>, k: nat)
    requires |s| <= k && k > 0 && Runs(cmp, original, s, k)
    ensures Ordered(cmp, original, s)
  {
    assert s[..|s|] == s;
  }

  // ------------------------------------------------------------ sorting back

  /** The benchmark sorts by data, then by index, to get the original list back: whatever
      happened to the order in between, a sort by the index restores a list whose indices
      were ascending. */
  lemma {:induction false} SortByIndexRestores<T>(cmp: Cmp<T>, start: seq<ListHead<T>>,
                                                  shuffled: seq<ListHead<T>>, out: seq<ListHead<T>>)
    requires forall i, j :: 0 <= i < j < |start| ==>
      cmp(start[i].info, start[j].info) < 0 < cmp(start[j].info, start[i].info)
    requires multiset(out) == multiset(start) && Ordered(cmp, shuffled, out)
    ensures out == start
    decreases |start|
  {
    SameNodes(out, start);
    if start != [] {
      HeadRestored(cmp, start, shuffled, out);
      TailsMatch(out, start);
      OrderedTail(cmp, shuffled, out);
      SortByIndexRestores(cmp, start[1..], shuffled, out[1..]);
      assert start == [start[0]] + start[1..] && out == [out[0]] + out[1..];
    }
  }

  lemma TailsMatch<T>(x: seq<T>, y: seq<T>)
    requires x != [] && y != [] && x[0] == y[0] && multiset(x) == multiset(y)
    ensures multiset(x[1..]) == multiset(y[1..])
  {
    HeadAndTail(x);
    HeadAndTail(y);
    assert multiset(x[1..]) == multiset(x) - multiset{x[0]};
    assert multiset(y[1..]) == multiset(y) - multiset{y[0]};
  }

  lemma OrderedTail<T>(cmp: Cmp<T>, original: seq<ListHead<T>>, s: seq<ListHead<T>>)
    requires s != [] && Ordered(cmp, original, s)
    ensures Ordered(cmp, original, s[1..])
  {
    assert forall i :: 0 <= i < |s| - 1 ==> s[1..][i] == s[i + 1];
  }

  lemma HeadRestored<T>(cmp: Cmp<T>, start: seq<ListHead<T>>, shuffled: seq<ListHead<T>>, out: seq<ListHead<T>>)
    requires start != [] && out != [] && start[0] in out && out[0] in start
    requires forall i, j :: 0 <= i < j < |start| ==>
      cmp(start[i].info, start[j].info) < 0 < cmp(start[j].info, start[i].info)
    requires Ordered(cmp, shuffled, out)
    ensures out[0] == start[0]
  {
    var i :| 0 <= i < |start| && start[i] == out[0];
    var j :| 0 <= j < |out| && out[j] == start[0];
    assert j > 0 ==> Precedes(cmp, shuffled, out[0], out[j]);
    assert i > 0 ==> cmp(start[i].info, start[0].info) > 0;
  }
}
