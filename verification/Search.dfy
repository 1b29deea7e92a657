/** The first and last member of a bounded range with a property, found one by one. */
module Search {
  import opened Wrappers

  ghost predicate IsFirst(p: nat -> bool, lo: nat, hi: int, r: Option<nat>) {
    match r
    case Some(t) => lo <= t <= hi && p(t) && forall u: nat | lo <= u < t :: !p(u)
    case None => forall u: nat | lo <= u <= hi :: !p(u)
  }

  ghost predicate IsLast(p: nat -> bool, lo: int, hi: nat, r: Option<nat>) {
    match r
    case Some(t) => lo <= t <= hi && p(t) && forall u: nat | t < u <= hi :: !p(u)
    case None => forall u: nat | lo <= u <= hi :: !p(u)
  }

  ghost predicate NoneIn(p: nat -> bool, lo: nat, hi: nat) {
    forall u: nat | lo <= u < hi :: !p(u)
  }

  function First(p: nat -> bool, lo: nat, hi: nat): Option<nat>
    decreases hi + 1 - lo
  {
    if hi < lo then None
    else if p(lo) then Some(lo)
    else First(p, lo + 1, hi)
  }

  function Last(p: nat -> bool, lo: int, hi: nat): Option<nat>
    decreases hi
  {
    if hi < lo then None
    else if p(hi) then Some(hi)
    else if hi == 0 then None
    else Last(p, lo, hi - 1)
  }

  lemma {:induction false} FirstIsFirst(p: nat -> bool, lo: nat, hi: nat)
    ensures IsFirst(p, lo, hi, First(p, lo, hi))
    decreases hi + 1 - lo
  {
    if lo <= hi && !p(lo) {
      FirstIsFirst(p, lo + 1, hi);
    }
  }

  lemma {:induction false} LastIsLast(p: nat -> bool, lo: int, hi: nat)
    ensures IsLast(p, lo, hi, Last(p, lo, hi))
    decreases hi
  {
    if lo <= hi && !p(hi) && hi != 0 {
      LastIsLast(p, lo, hi - 1);
    }
  }

  lemma FirstUnique(p: nat -> bool, lo: nat, hi: nat, r: Option<nat>)
    requires IsFirst(p, lo, hi, r)
    ensures r == First(p, lo, hi)
  {
    FirstIsFirst(p, lo, hi);
    var f := First(p, lo, hi);
    if r.Some? && f.Some? {
      assert r.value <= f.value && f.value <= r.value;
    }
  }

  lemma LastUnique(p: nat -> bool, lo: int, hi: nat, r: Option<nat>)
    requires IsLast(p, lo, hi, r)
    ensures r == Last(p, lo, hi)
  {
    LastIsLast(p, lo, hi);
    var f := Last(p, lo, hi);
    if r.Some? && f.Some? {
      assert r.value <= f.value && f.value <= r.value;
    }
  }

  lemma FirstSkips(p: nat -> bool, lo: nat, mid: nat, hi: nat)
    requires lo <= mid && NoneIn(p, lo, mid)
    ensures First(p, lo, hi) == First(p, mid, hi)
  {
    FirstIsFirst(p, mid, hi);
    FirstUnique(p, lo, hi, First(p, mid, hi));
  }

  lemma LastAt(p: nat -> bool, lo: int, mid: nat, hi: nat)
    requires lo <= mid <= hi && p(mid) && NoneIn(p, mid + 1, hi + 1)
    ensures Last(p, lo, hi) == Some(mid)
  {
    LastUnique(p, lo, hi, Some(mid));
  }
}
