/**
 * What stays in place when two child lists are compared: the children at the front that match one by one,
 * and, if they do not exhaust a list, those at the back that match one by one.
 */
module Alignment {
  import opened VNodes

  /** The first `k` children match. */
  ghost predicate SameFront(olds: seq<Mounted>, news: seq<VNode>, k: nat) {
    k <= |olds| && k <= |news| && forall i :: 0 <= i < k ==> SameKind(olds[i].vnode, news[i])
  }

  /** The front matches up to `k` and no further, and the last `n` children behind it match. */
  ghost predicate SameBack(olds: seq<Mounted>, news: seq<VNode>, k: nat, n: nat) {
    && SameFront(olds, news, k) && k < |olds| && k < |news| && !SameKind(olds[k].vnode, news[k])
    && k + n <= |olds| && k + n <= |news|
    && forall i :: |olds| - n <= i < |olds| ==> SameKind(olds[i].vnode, news[i + |news| - |olds|])
  }

  ghost predicate FrontTaken(olds: seq<Mounted>, k: nat, taker: seq<int>)
    requires k <= |olds| == |taker|
  {
    forall i :: 0 <= i < k ==> taker[i] == i
  }

  ghost predicate BackTaken(olds: seq<Mounted>, news: seq<VNode>, n: nat, taker: seq<int>)
    requires n <= |olds| == |taker|
  {
    forall i :: |olds| - n <= i < |olds| ==> taker[i] == i + |news| - |olds|
  }

  /** Children that match in front, or then in the back, take over each other's elements. */
  ghost predicate InPlace(olds: seq<Mounted>, news: seq<VNode>, taker: seq<int>)
    requires |taker| == |olds|
  {
    && (forall k: nat :: SameFront(olds, news, k) ==> FrontTaken(olds, k, taker))
    && (forall k: nat, n: nat :: SameBack(olds, news, k, n) ==> BackTaken(olds, news, n, taker))
  }

  /** How far the comparison has come: `d` new children are finished in front and `b` in the back. */
  datatype Progress = Progress(f: int, e: int, d: nat, b: nat, taker: seq<int>, intact: bool)

  /** The front is either being finished one by one, or done. */
  ghost predicate FrontAt(olds: seq<Mounted>, news: seq<VNode>, p: Progress, k: nat)
    requires |p.taker| == |olds|
  {
    SameFront(olds, news, k) ==>
      if p.d < k then p.intact && p.f == p.d && p.b == 0 && p.e == |olds| - 1 && FrontTaken(olds, p.d, p.taker)
      else k <= p.f && FrontTaken(olds, k, p.taker)
  }

  /** So is the back, once the front is. */
  ghost predicate BackAt(olds: seq<Mounted>, news: seq<VNode>, p: Progress, k: nat, n: nat)
    requires |p.taker| == |olds|
  {
    SameBack(olds, news, k, n) ==>
      if p.b < n then p.intact && p.f == p.d <= k && p.e == |olds| - 1 - p.b && BackTaken(olds, news, p.b, p.taker)
      else p.e <= |olds| - 1 - n && BackTaken(olds, news, n, p.taker)
  }

  ghost predicate Aligned(olds: seq<Mounted>, news: seq<VNode>, p: Progress) {
    && |p.taker| == |olds|
    && (forall k: nat :: FrontAt(olds, news, p, k))
    && (forall k: nat, n: nat :: BackAt(olds, news, p, k, n))
  }

  lemma AlignedStart(olds: seq<Mounted>, news: seq<VNode>, taker: seq<int>)
    requires |taker| == |olds|
    ensures Aligned(olds, news, Progress(0, |olds| - 1, 0, 0, taker, true))
  {}

  /** Both ends are still to be compared. */
  ghost predicate Underway(olds: seq<Mounted>, news: seq<VNode>, p: Progress) {
    0 <= p.f <= p.e < |olds| == |p.taker| && p.d + p.b < |news|
  }

  /** A match in front. */
  lemma AlignedFront(olds: seq<Mounted>, news: seq<VNode>, p: Progress)
    requires Aligned(olds, news, p) && Underway(olds, news, p) && SameKind(olds[p.f].vnode, news[p.d])
    ensures Aligned(olds, news, Progress(p.f + 1, p.e, p.d + 1, p.b, p.taker[p.f := p.d], p.intact))
  {
    var q := p.(f := p.f + 1, d := p.d + 1, taker := p.taker[p.f := p.d]);
    forall k: nat ensures FrontAt(olds, news, q, k) {
      assert FrontAt(olds, news, p, k);
    }
    forall k: nat, n: nat ensures BackAt(olds, news, q, k, n) {
      assert BackAt(olds, news, p, k, n);
    }
  }

  /** No match in front, but one in the back. */
  lemma AlignedBack(olds: seq<Mounted>, news: seq<VNode>, p: Progress)
    requires Aligned(olds, news, p) && Underway(olds, news, p) && (p.intact ==> !SameKind(olds[p.f].vnode, news[p.d]))
    ensures Aligned(olds, news, Progress(p.f, p.e - 1, p.d, p.b + 1, p.taker[p.e := |news| - 1 - p.b], p.intact))
  {
    var q := p.(e := p.e - 1, b := p.b + 1, taker := p.taker[p.e := |news| - 1 - p.b]);
    forall k: nat ensures FrontAt(olds, news, q, k) {
      assert FrontAt(olds, news, p, k);
    }
    forall k: nat, n: nat ensures BackAt(olds, news, q, k, n) {
      assert BackAt(olds, news, p, k, n) && FrontAt(olds, news, p, k);
    }
  }

  /** Matches at neither end: whatever else is done between the ends. */
  lemma AlignedOther(olds: seq<Mounted>, news: seq<VNode>, p: Progress, q: Progress)
    requires Aligned(olds, news, p) && Underway(olds, news, p)
    requires p.intact ==> !SameKind(olds[p.f].vnode, news[p.d]) && !SameKind(olds[p.e].vnode, news[|news| - 1 - p.b])
    requires p.f <= q.f && q.e <= p.e && p.d <= q.d && p.b <= q.b
    requires |q.taker| == |p.taker| && forall i :: 0 <= i < |p.taker| && !(p.f <= i <= p.e) ==> q.taker[i] == p.taker[i]
    ensures Aligned(olds, news, q)
  {
    forall k: nat ensures FrontAt(olds, news, q, k) {
      assert FrontAt(olds, news, p, k);
    }
    forall k: nat, n: nat ensures BackAt(olds, news, q, k, n) {
      assert BackAt(olds, news, p, k, n) && FrontAt(olds, news, p, k);
    }
  }

  lemma AlignedDone(olds: seq<Mounted>, news: seq<VNode>, p: Progress)
    requires Aligned(olds, news, p) && 0 <= p.f && p.d + p.b <= |news| && (p.f > p.e || p.d + p.b == |news|)
    ensures |p.taker| == |olds| && InPlace(olds, news, p.taker)
  {
    forall k: nat | SameFront(olds, news, k) ensures FrontTaken(olds, k, p.taker) {
      assert FrontAt(olds, news, p, k);
    }
    forall k: nat, n: nat | SameBack(olds, news, k, n) ensures BackTaken(olds, news, n, p.taker) {
      assert BackAt(olds, news, p, k, n);
    }
  }
}
