/** Row arithmetic of the flattening proxy, on the child counts `c` of the
    source's top-level rows: child `k` of top-level row `root` is shown at flat
    row `k + c[0] + ... + c[root - 1]`. */
module FlatRows {

  function Sum(c: seq<nat>): nat
  {
    if c == [] then 0 else c[0] + Sum(c[1..])
  }

  /** A sum is zero exactly when every count in it is. */
  lemma {:induction false} SumZero(c: seq<nat>)
    ensures Sum(c) == 0 <==> forall i :: 0 <= i < |c| ==> c[i] == 0
    decreases |c|
  {
    if c != [] {
      SumZero(c[1..]);
      assert forall i :: 1 <= i < |c| ==> c[i] == c[1..][i - 1];
    }
  }

  lemma {:induction false} SumConcat(a: seq<nat>, b: seq<nat>)
    ensures Sum(a + b) == Sum(a) + Sum(b)
    decreases |a|
  {
    if a == [] {
      assert a + b == b;
    } else {
      assert (a + b)[1..] == a[1..] + b;
      SumConcat(a[1..], b);
    }
  }

  /** Sums of longer prefixes are no smaller. */
  lemma PrefixSumMonotone(c: seq<nat>, i: nat, j: nat)
    requires i <= j <= |c|
    ensures Sum(c[..i]) <= Sum(c[..j])
    ensures Sum(c[..j]) == Sum(c[..i]) + Sum(c[i..j])
  {
    assert c[..j] == c[..i] + c[i..j];
    SumConcat(c[..i], c[i..j]);
  }

  /** The flat row of child `k` of top-level row `root`. */
  function FlatRow(c: seq<nat>, root: nat, k: int): int
    requires root <= |c|
  {
    k + Sum(c[..root])
  }

  /** Flat rows grow with the child row and do not shrink with the top-level row. */
  lemma FlatRowMonotone(c: seq<nat>, r1: nat, k1: int, r2: nat, k2: int)
    requires r1 <= r2 <= |c| && k1 <= k2
    ensures FlatRow(c, r1, k1) <= FlatRow(c, r2, k2)
    ensures k1 < k2 ==> FlatRow(c, r1, k1) < FlatRow(c, r2, k2)
  {
    PrefixSumMonotone(c, r1, r2);
  }

  /** The children of a later top-level row come after all children of an
      earlier one. */
  lemma FlatRowOrdered(c: seq<nat>, r1: nat, k1: int, r2: nat, k2: int)
    requires r1 < r2 < |c| && k1 < c[r1] && 0 <= k2
    ensures FlatRow(c, r1, k1) < FlatRow(c, r2, k2)
  {
    PrefixSumMonotone(c, r1, r2);
    PrefixSumMonotone(c, r1 + 1, r2);
    assert c[r1..r1 + 1] == [c[r1]];
    PrefixSumMonotone(c, r1, r1 + 1);
  }

  /** Walk the top-level rows from `i`, subtracting each count from `f` while `f`
      is not below it; stop at the first row whose count exceeds what remains,
      or at the last row. */
  function LocateFrom(c: seq<nat>, i: nat, f: int): (r: (nat, int))
    requires i < |c|
    ensures i <= r.0 < |c|
    decreases |c| - i
  {
    if f < c[i] then (i, f)
    else if i == |c| - 1 then (i, f - c[i])
    else LocateFrom(c, i + 1, f - c[i])
  }

  /** One step of the walk. */
  lemma LocateFromStep(c: seq<nat>, i: nat, f: int)
    requires i < |c|
    ensures f < c[i] ==> LocateFrom(c, i, f) == (i, f)
    ensures f >= c[i] && i == |c| - 1 ==> LocateFrom(c, i, f) == (i, f - c[i])
    ensures f >= c[i] && i < |c| - 1 ==> LocateFrom(c, i, f) == LocateFrom(c, i + 1, f - c[i])
  {
  }

  /** The top-level row and child row that flat row `f` stands for. With no
      top-level rows it is (0, f). */
  function Locate(c: seq<nat>, f: int): (r: (nat, int))
    ensures c != [] ==> r.0 < |c|
  {
    if c == [] then (0, f) else LocateFrom(c, 0, f)
  }

  lemma SumFrom(c: seq<nat>, i: nat)
    requires i < |c|
    ensures Sum(c[i..]) == c[i] + Sum(c[i + 1..])
  {
    assert c[i..][1..] == c[i + 1..];
  }

  lemma {:induction false} LocateFromHit(c: seq<nat>, i: nat, g: int)
    requires i < |c| && 0 <= g < Sum(c[i..])
    ensures var (root, k) := LocateFrom(c, i, g);
            i <= root < |c| && 0 <= k < c[root] && Sum(c[i..root]) + k == g
    decreases |c| - i
  {
    SumFrom(c, i);
    assert i == |c| - 1 ==> c[i + 1..] == [];
    if g < c[i] {
    } else if i < |c| - 1 {
      LocateFromHit(c, i + 1, g - c[i]);
      var (root, k) := LocateFrom(c, i + 1, g - c[i]);
      assert c[i..root] == [c[i]] + c[i + 1..root];
      SumConcat([c[i]], c[i + 1..root]);
    }
  }

  /** Every flat row below the total is the flat row of exactly the child
      `Locate` names: that child exists (so top-level rows without children are
      skipped), and mapping it back gives the flat row again. */
  lemma LocateRoundTrip(c: seq<nat>, f: int)
    requires 0 <= f < Sum(c)
    ensures var (root, k) := Locate(c, f);
            root < |c| && 0 <= k < c[root] && c[root] > 0 && FlatRow(c, root, k) == f
  {
    assert c[0..] == c;
    LocateFromHit(c, 0, f);
  }

  lemma {:induction false} LocateFromChild(c: seq<nat>, i: nat, root: nat, k: int)
    requires i <= root < |c| && 0 <= k < c[root]
    ensures LocateFrom(c, i, Sum(c[i..root]) + k) == (root, k)
    decreases root - i
  {
    if i < root {
      assert c[i..root] == [c[i]] + c[i + 1..root];
      SumConcat([c[i]], c[i + 1..root]);
      LocateFromChild(c, i + 1, root, k);
    }
  }

  /** Conversely, `Locate` recovers any existing child from its flat row, so no
      two children share a flat row. */
  lemma LocateFlatRow(c: seq<nat>, root: nat, k: int)
    requires root < |c| && 0 <= k < c[root]
    ensures Locate(c, FlatRow(c, root, k)) == (root, k)
  {
    assert c[0..root] == c[..root];
    LocateFromChild(c, 0, root, k);
  }

  lemma FlatRowInjective(c: seq<nat>, r1: nat, k1: int, r2: nat, k2: int)
    requires r1 < |c| && 0 <= k1 < c[r1] && r2 < |c| && 0 <= k2 < c[r2]
    requires FlatRow(c, r1, k1) == FlatRow(c, r2, k2)
    ensures r1 == r2 && k1 == k2
  {
    LocateFlatRow(c, r1, k1);
    LocateFlatRow(c, r2, k2);
  }

  lemma {:induction false} LocateFromPastEnd(c: seq<nat>, i: nat, g: int)
    requires i < |c| && g >= Sum(c[i..])
    ensures LocateFrom(c, i, g) == (|c| - 1, g - Sum(c[i..]))
    decreases |c| - i
  {
    SumFrom(c, i);
    if i == |c| - 1 {
      assert c[i + 1..] == [];
    } else {
      LocateFromPastEnd(c, i + 1, g - c[i]);
    }
  }

  /** Flat rows at or past the total are not clamped: they land on the last
      top-level row, at the child row left over after all counts are subtracted;
      negative ones stay on the first top-level row. */
  lemma LocateOutside(c: seq<nat>, f: int)
    ensures c == [] ==> Locate(c, f) == (0, f)
    ensures c != [] && f >= Sum(c) ==> Locate(c, f) == (|c| - 1, f - Sum(c))
    ensures c != [] && f < 0 ==> Locate(c, f) == (0, f)
  {
    if c != [] && f >= Sum(c) {
      assert c[0..] == c;
      LocateFromPastEnd(c, 0, f);
    }
  }

  /** The children of top-level rows `from..to` fill the flat rows from the
      first child of `from` up to, not including, the row after the last child
      of `to`: nothing else falls in that range, and it holds as many rows as
      those top-level rows have children. */
  lemma RootsRange(c: seq<nat>, from: nat, to: nat)
    requires from <= to < |c|
    ensures FlatRow(c, to, 0) + c[to] - FlatRow(c, from, 0) == Sum(c[from..to + 1])
    ensures forall r: nat, k: int :: r < |c| && 0 <= k < c[r] ==>
              (FlatRow(c, from, 0) <= FlatRow(c, r, k) < FlatRow(c, to, 0) + c[to]
               <==> from <= r <= to)
  {
    PrefixSumMonotone(c, from, to + 1);
    PrefixSumMonotone(c, to, to + 1);
    assert c[to..to + 1] == [c[to]];
    forall r: nat, k: int | r < |c| && 0 <= k < c[r]
      ensures FlatRow(c, from, 0) <= FlatRow(c, r, k) < FlatRow(c, to, 0) + c[to]
              <==> from <= r <= to
    {
      if r < from {
        FlatRowOrdered(c, r, k, from, 0);
      } else if r > to {
        FlatRowMonotone(c, to + 1, 0, r, k);
      } else {
        FlatRowMonotone(c, from, 0, r, k);
        if r < to {
          FlatRowOrdered(c, r, k, to, 0);
        }
      }
    }
  }
}
