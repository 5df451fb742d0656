/**
 * The two orders in which the bulk sender walks the Cartesian product of the
 * per-field choices: `itertools.product(*choices)` (the last field varies
 * fastest) and the test page's `combo_iter`, which takes the product of the
 * reversed choices and reverses each combination back (the first field varies
 * fastest).
 */
module Enumeration {

  /** The number of combinations: the product of the choice counts. */
  function Size<T>(cs: seq<seq<T>>): nat {
    if cs == [] then 1 else |cs[0]| * Size(cs[1..])
  }

  /** `x` put in front of every combination of `rest`. */
  function Cons<T>(x: T, rest: seq<seq<T>>): (r: seq<seq<T>>)
    ensures |r| == |rest| && forall k :: 0 <= k < |rest| ==> r[k] == [x] + rest[k]
  {
    seq(|rest|, k requires 0 <= k < |rest| => [x] + rest[k])
  }

  /** Each choice of `xs` in turn, in front of every combination of `rest`. */
  function Prepend<T>(xs: seq<T>, rest: seq<seq<T>>): seq<seq<T>> {
    if xs == [] then [] else Cons(xs[0], rest) + Prepend(xs[1..], rest)
  }

  /** `itertools.product(*cs)`. */
  function Product<T>(cs: seq<seq<T>>): seq<seq<T>> {
    if cs == [] then [[]] else Prepend(cs[0], Product(cs[1..]))
  }

  function Reverse<T>(s: seq<T>): (r: seq<T>)
    ensures |r| == |s|
  {
    if s == [] then [] else Reverse(s[1..]) + [s[0]]
  }

  /** `combo_iter`: `list(reversed(c))` for each `c` of `itertools.product(*reversed(cs))`. */
  function FirstFastest<T>(cs: seq<seq<T>>): seq<seq<T>> {
    var rev := Product(Reverse(cs));
    seq(|rev|, k requires 0 <= k < |rev| => Reverse(rev[k]))
  }

  /** A choice index for every field. */
  predicate ValidIdx<T>(cs: seq<seq<T>>, idx: seq<nat>) {
    |idx| == |cs| && forall i :: 0 <= i < |cs| ==> idx[i] < |cs[i]|
  }

  /** The combination that picks `cs[i][idx[i]]` in every field. */
  function Pick<T>(cs: seq<seq<T>>, idx: seq<nat>): (c: seq<T>)
    requires ValidIdx(cs, idx)
    ensures |c| == |cs| && forall i :: 0 <= i < |cs| ==> c[i] == cs[i][idx[i]]
  {
    seq(|cs|, i requires 0 <= i < |cs| => cs[i][idx[i]])
  }

  /** The position of `idx` when the last field varies fastest (a mixed-radix number, first digit most significant). */
  function Rank<T>(cs: seq<seq<T>>, idx: seq<nat>): nat
    requires |idx| == |cs|
  {
    if cs == [] then 0 else idx[0] * Size(cs[1..]) + Rank(cs[1..], idx[1..])
  }

  /** The position of `idx` when the first field varies fastest (first digit least significant). */
  function RankLow<T>(cs: seq<seq<T>>, idx: seq<nat>): nat
    requires |idx| == |cs|
  {
    if cs == [] then 0 else idx[0] + |cs[0]| * RankLow(cs[1..], idx[1..])
  }

  ghost predicate NoDup<T>(s: seq<T>) {
    forall j, k :: 0 <= j < k < |s| ==> s[j] != s[k]
  }

  // ----- itertools.product -----

  lemma {:induction false} PrependLength<T>(xs: seq<T>, rest: seq<seq<T>>)
    ensures |Prepend(xs, rest)| == |xs| * |rest|
  {
    if xs != [] {
      PrependLength(xs[1..], rest);
    }
  }

  /** The product has one combination per choice vector. */
  lemma {:induction false} ProductLength<T>(cs: seq<seq<T>>)
    ensures |Product(cs)| == Size(cs)
  {
    if cs != [] {
      ProductLength(cs[1..]);
      PrependLength(cs[0], Product(cs[1..]));
    }
  }

  lemma {:induction false} PrependAt<T>(xs: seq<T>, rest: seq<seq<T>>, m: nat, r: nat)
    requires m < |xs| && r < |rest|
    ensures m * |rest| + r < |Prepend(xs, rest)|
    ensures Prepend(xs, rest)[m * |rest| + r] == [xs[m]] + rest[r]
  {
    PrependLength(xs, rest);
    assert m * |rest| + r < |xs| * |rest| by {
      MulStep(m, |xs|, |rest|, r);
    }
    if m > 0 {
      PrependAt(xs[1..], rest, m - 1, r);
      assert m * |rest| + r == |rest| + ((m - 1) * |rest| + r);
    }
  }

  /** `m * n + r < k * n` for `m < k` and `r < n`. */
  lemma MulStep(m: nat, k: nat, n: nat, r: nat)
    requires m < k && r < n
    ensures m * n + r < k * n
  {
    assert (m + 1) * n <= k * n;
  }

  lemma {:induction false} RankBound<T>(cs: seq<seq<T>>, idx: seq<nat>)
    requires ValidIdx(cs, idx)
    ensures Rank(cs, idx) < Size(cs)
  {
    if cs != [] {
      RankBound(cs[1..], idx[1..]);
      MulStep(idx[0], |cs[0]|, Size(cs[1..]), Rank(cs[1..], idx[1..]));
    }
  }

  /**
   * `itertools.product` puts the combination with choice vector `idx` at
   * position `Rank(cs, idx)`: the last field varies fastest.
   */
  lemma {:induction false} ProductAt<T>(cs: seq<seq<T>>, idx: seq<nat>)
    requires ValidIdx(cs, idx)
    ensures Rank(cs, idx) < |Product(cs)|
    ensures Product(cs)[Rank(cs, idx)] == Pick(cs, idx)
  {
    ProductLength(cs);
    RankBound(cs, idx);
    if cs != [] {
      var rest := Product(cs[1..]);
      ProductAt(cs[1..], idx[1..]);
      ProductLength(cs[1..]);
      PrependAt(cs[0], rest, idx[0], Rank(cs[1..], idx[1..]));
      assert [cs[0][idx[0]]] + Pick(cs[1..], idx[1..]) == Pick(cs, idx);
    }
  }

  lemma {:induction false} PrependMembers<T>(xs: seq<T>, rest: seq<seq<T>>, c: seq<T>)
    ensures c in Prepend(xs, rest) <==> |c| > 0 && c[0] in xs && c[1..] in rest
  {
    if xs != [] {
      PrependMembers(xs[1..], rest, c);
      if |c| > 0 && c[0] == xs[0] && c[1..] in rest {
        var k :| 0 <= k < |rest| && rest[k] == c[1..];
        assert Cons(xs[0], rest)[k] == c;
      }
    }
  }

  /** The product holds exactly the combinations that pick, in every field, one of its choices. */
  lemma {:induction false} ProductMembers<T>(cs: seq<seq<T>>, c: seq<T>)
    ensures c in Product(cs) <==> |c| == |cs| && forall i :: 0 <= i < |cs| ==> c[i] in cs[i]
  {
    if cs != [] {
      PrependMembers(cs[0], Product(cs[1..]), c);
      if |c| > 0 {
        ProductMembers(cs[1..], c[1..]);
        if |c| == |cs| && c[0] in cs[0] && c[1..] in Product(cs[1..]) {
          forall i | 0 <= i < |cs| ensures c[i] in cs[i] {
            if i > 0 {
              assert c[i] == c[1..][i - 1];
            }
          }
        }
        if |c| == |cs| && forall i :: 0 <= i < |cs| ==> c[i] in cs[i] {
          forall i | 0 <= i < |cs| - 1 ensures c[1..][i] in cs[1..][i] {
            assert c[1..][i] == c[i + 1];
          }
        }
      }
    }
  }

  lemma {:induction false} PrependNoDup<T>(xs: seq<T>, rest: seq<seq<T>>)
    requires NoDup(xs) && NoDup(rest)
    ensures NoDup(Prepend(xs, rest))
  {
    if xs != [] {
      PrependNoDup(xs[1..], rest);
      var a, b := Cons(xs[0], rest), Prepend(xs[1..], rest);
      forall j, k | 0 <= j < k < |a + b| ensures (a + b)[j] != (a + b)[k] {
        if k < |a| {
          assert a[j][1..] == rest[j] && a[k][1..] == rest[k];
        } else if j < |a| {
          PrependMembers(xs[1..], rest, b[k - |a|]);
          assert b[k - |a|] in b;
          assert a[j][0] == xs[0];
          assert b[k - |a|][0] in xs[1..];
        } else {
          assert (a + b)[j] == b[j - |a|] && (a + b)[k] == b[k - |a|];
        }
      }
    }
  }

  /** With no repeated choice in any field, no combination repeats: every combination is produced exactly once. */
  lemma {:induction false} ProductNoDup<T>(cs: seq<seq<T>>)
    requires forall i :: 0 <= i < |cs| ==> NoDup(cs[i])
    ensures NoDup(Product(cs))
  {
    if cs != [] {
      ProductNoDup(cs[1..]);
      PrependNoDup(cs[0], Product(cs[1..]));
    }
  }

  // ----- combo_iter -----

  lemma {:induction false} ReverseAt<T>(s: seq<T>, k: nat)
    requires k < |s|
    ensures Reverse(s)[k] == s[|s| - 1 - k]
  {
    if k < |s| - 1 {
      ReverseAt(s[1..], k);
    }
  }

  lemma ReverseInjective<T>(a: seq<T>, b: seq<T>)
    requires Reverse(a) == Reverse(b)
    ensures a == b
  {
    assert |a| == |b|;
    forall k | 0 <= k < |a| ensures a[k] == b[k] {
      ReverseAt(a, |a| - 1 - k);
      ReverseAt(b, |b| - 1 - k);
    }
  }

  lemma {:induction false} SizeAppend<T>(cs: seq<seq<T>>, x: seq<T>)
    ensures Size(cs + [x]) == Size(cs) * |x|
  {
    if cs != [] {
      assert (cs + [x])[1..] == cs[1..] + [x];
      SizeAppend(cs[1..], x);
    }
  }

  lemma {:induction false} SizeReverse<T>(cs: seq<seq<T>>)
    ensures Size(Reverse(cs)) == Size(cs)
  {
    if cs != [] {
      SizeReverse(cs[1..]);
      SizeAppend(Reverse(cs[1..]), cs[0]);
    }
  }

  /** Appending a field multiplies the rank by its size and adds the new digit. */
  lemma {:induction false} RankAppend<T>(cs: seq<seq<T>>, idx: seq<nat>, x: seq<T>, d: nat)
    requires |idx| == |cs|
    ensures Rank(cs + [x], idx + [d]) == Rank(cs, idx) * |x| + d
  {
    if cs != [] {
      assert (cs + [x])[1..] == cs[1..] + [x];
      assert (idx + [d])[1..] == idx[1..] + [d];
      RankAppend(cs[1..], idx[1..], x, d);
      SizeAppend(cs[1..], x);
      assert idx[0] * (Size(cs[1..]) * |x|) == (idx[0] * Size(cs[1..])) * |x|;
    }
  }

  lemma {:induction false} RankReverse<T>(cs: seq<seq<T>>, idx: seq<nat>)
    requires |idx| == |cs|
    ensures Rank(Reverse(cs), Reverse(idx)) == RankLow(cs, idx)
  {
    if cs != [] {
      RankReverse(cs[1..], idx[1..]);
      RankAppend(Reverse(cs[1..]), Reverse(idx[1..]), cs[0], idx[0]);
    }
  }

  lemma ReverseValid<T>(cs: seq<seq<T>>, idx: seq<nat>)
    requires ValidIdx(cs, idx)
    ensures ValidIdx(Reverse(cs), Reverse(idx))
    ensures Pick(Reverse(cs), Reverse(idx)) == Reverse(Pick(cs, idx))
  {
    var n := |cs|;
    var rc, ri, rp := Reverse(cs), Reverse(idx), Reverse(Pick(cs, idx));
    forall i | 0 <= i < n ensures ri[i] < |rc[i]| {
      ReverseAt(cs, i);
      ReverseAt(idx, i);
      assert idx[n - 1 - i] < |cs[n - 1 - i]|;
    }
    assert ValidIdx(rc, ri);
    forall i | 0 <= i < n ensures rc[i][ri[i]] == rp[i] {
      ReverseAt(cs, i);
      ReverseAt(idx, i);
      ReverseAt(Pick(cs, idx), i);
    }
  }

  /**
   * `combo_iter` puts the combination with choice vector `idx` at position
   * `RankLow(cs, idx)`: the first field varies fastest.
   */
  lemma FirstFastestAt<T>(cs: seq<seq<T>>, idx: seq<nat>)
    requires ValidIdx(cs, idx)
    ensures RankLow(cs, idx) < |FirstFastest(cs)|
    ensures FirstFastest(cs)[RankLow(cs, idx)] == Pick(cs, idx)
  {
    ReverseValid(cs, idx);
    ProductAt(Reverse(cs), Reverse(idx));
    RankReverse(cs, idx);
    ReverseTwice(Pick(cs, idx));
  }

  /** `combo_iter` yields as many combinations as the product. */
  lemma FirstFastestLength<T>(cs: seq<seq<T>>)
    ensures |FirstFastest(cs)| == Size(cs)
  {
    ProductLength(Reverse(cs));
    SizeReverse(cs);
  }

  /** `combo_iter` yields exactly the product's combinations, each once when no field repeats a choice. */
  lemma FirstFastestMembers<T>(cs: seq<seq<T>>, c: seq<T>)
    ensures c in FirstFastest(cs) <==> |c| == |cs| && forall i :: 0 <= i < |cs| ==> c[i] in cs[i]
    ensures (forall i :: 0 <= i < |cs| ==> NoDup(cs[i])) ==> NoDup(FirstFastest(cs))
  {
    var rc := Reverse(cs);
    var ff := FirstFastest(cs);
    ProductMembers(rc, Reverse(c));
    forall i | 0 <= i < |c| && |c| == |cs| ensures (Reverse(c)[|c| - 1 - i] in rc[|c| - 1 - i]) == (c[i] in cs[i]) {
      ReverseAt(c, |c| - 1 - i);
      ReverseAt(cs, |c| - 1 - i);
    }
    if c in ff {
      var k :| 0 <= k < |ff| && ff[k] == c;
      var p := Product(rc)[k];
      ProductMembers(rc, p);
      assert c == Reverse(p);
      forall i | 0 <= i < |c| ensures c[i] in cs[i] {
        ReverseAt(p, i);
        ReverseAt(cs, |cs| - 1 - i);
        assert p[|p| - 1 - i] in rc[|p| - 1 - i];
      }
    }
    if |c| == |cs| && forall i :: 0 <= i < |cs| ==> c[i] in cs[i] {
      forall j | 0 <= j < |rc| ensures Reverse(c)[j] in rc[j] {
        ReverseAt(c, j);
        ReverseAt(cs, j);
      }
      var k :| 0 <= k < |Product(rc)| && Product(rc)[k] == Reverse(c);
      ReverseTwice(c);
      assert ff[k] == Reverse(Reverse(c)) == c;
    }
    if forall i :: 0 <= i < |cs| ==> NoDup(cs[i]) {
      forall i | 0 <= i < |rc| ensures NoDup(rc[i]) {
        ReverseAt(cs, i);
      }
      ProductNoDup(rc);
      forall j, k | 0 <= j < k < |ff| ensures ff[j] != ff[k] {
        if ff[j] == ff[k] {
          ReverseInjective(Product(rc)[j], Product(rc)[k]);
        }
      }
    }
  }

  lemma ReverseTwice<T>(c: seq<T>)
    ensures Reverse(Reverse(c)) == c
  {
    forall k | 0 <= k < |c| ensures Reverse(Reverse(c))[k] == c[k] {
      ReverseAt(Reverse(c), k);
      ReverseAt(c, |c| - 1 - k);
    }
  }
}
