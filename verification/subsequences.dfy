/** Order-preserving deletion on sequences, used to state that the upload
    queue never reorders its entries. */
module Subsequences {

  /** `a` is obtained from `b` by deleting elements and keeping the order of
      the rest. Defined from the back, where queues grow. */
  ghost predicate Subseq<T>(a: seq<T>, b: seq<T>)
    decreases |b|
  {
    || |a| == 0
    || (&& |b| > 0
        && (|| (a[|a| - 1] == b[|b| - 1] && Subseq(a[..|a| - 1], b[..|b| - 1]))
            || Subseq(a, b[..|b| - 1])))
  }

  /** No element occurs twice. */
  predicate Distinct<T(==)>(q: seq<T>)
  {
    forall i, j :: 0 <= i < j < |q| ==> q[i] != q[j]
  }

  lemma {:induction false} SubseqRefl<T>(a: seq<T>)
    ensures Subseq(a, a)
    decreases |a|
  {
    if |a| > 0 {
      SubseqRefl(a[..|a| - 1]);
    }
  }

  lemma SubseqSnoc<T>(a: seq<T>, b: seq<T>, x: T)
    requires Subseq(a, b)
    ensures Subseq(a + [x], b + [x])
  {
    assert (a + [x])[..|a|] == a;
    assert (b + [x])[..|b|] == b;
  }

  lemma SubseqExtend<T>(a: seq<T>, b: seq<T>, x: T)
    requires Subseq(a, b)
    ensures Subseq(a, b + [x])
  {
    assert (b + [x])[..|b|] == b;
  }

  lemma {:induction false} SubseqTrans<T>(a: seq<T>, b: seq<T>, c: seq<T>)
    requires Subseq(a, b) && Subseq(b, c)
    ensures Subseq(a, c)
    decreases |c|
  {
    if |a| > 0 {
      var b', c' := b[..|b| - 1], c[..|c| - 1];
      if Subseq(b, c') {
        SubseqTrans(a, b, c');
      } else if a[|a| - 1] == b[|b| - 1] && Subseq(a[..|a| - 1], b') {
        SubseqTrans(a[..|a| - 1], b', c');
      } else {
        SubseqTrans(a, b', c');
      }
    }
  }

  lemma {:induction false} SubseqAppend<T>(a: seq<T>, b: seq<T>, c: seq<T>)
    requires Subseq(a, b)
    ensures Subseq(a + c, b + c)
    decreases |c|
  {
    if |c| == 0 {
      assert a + c == a && b + c == b;
    } else {
      var c', x := c[..|c| - 1], c[|c| - 1];
      SubseqAppend(a, b, c');
      SubseqSnoc(a + c', b + c', x);
      assert a + c == (a + c') + [x];
      assert b + c == (b + c') + [x];
    }
  }

  lemma {:induction false} SubseqTail<T>(q: seq<T>)
    requires |q| > 0
    ensures Subseq(q[1..], q)
    decreases |q|
  {
    if |q| > 1 {
      var init := q[..|q| - 1];
      SubseqTail(init);
      assert init[1..] == q[1..][..|q| - 2];
    }
  }

  /** Putting the same element in front of both sides, or in front of the
      longer side only, keeps the order. */
  lemma {:induction false} SubseqPrepend<T>(a: seq<T>, b: seq<T>, x: T)
    requires Subseq(a, b)
    ensures Subseq(a, [x] + b) && Subseq([x] + a, [x] + b)
    decreases |b|
  {
    if |b| == 0 {
      assert [x] + a == [x] && [x] + b == [x] && [x][..0] == [];
    } else {
      var b' := b[..|b| - 1];
      assert ([x] + b)[..|b|] == [x] + b';
      assert ([x] + b)[|b|] == b[|b| - 1];
      if |a| == 0 {
        SubseqPrepend(a, b', x);
        assert [x] + a == [x];
      } else if a[|a| - 1] == b[|b| - 1] && Subseq(a[..|a| - 1], b') {
        SubseqPrepend(a[..|a| - 1], b', x);
        assert ([x] + a)[..|a|] == [x] + a[..|a| - 1];
      } else {
        SubseqPrepend(a, b', x);
      }
    }
  }

  /** `q` with every occurrence of `x` removed (`Array.prototype.filter`). */
  function RemoveAll<T(==,!new)>(q: seq<T>, x: T): (r: seq<T>)
    ensures forall y :: y in r <==> y in q && y != x
    ensures x !in q ==> r == q
    ensures Distinct(q) ==> Distinct(r)
    ensures Subseq(r, q)
    decreases |q|
  {
    if |q| == 0 then []
    else
      var init := RemoveAll(q[..|q| - 1], x);
      assert q == q[..|q| - 1] + [q[|q| - 1]];
      if q[|q| - 1] == x then init
      else
        assert (init + [q[|q| - 1]])[..|init|] == init;
        var last := q[|q| - 1];
        assert Distinct(q) ==> Distinct(init + [last]) by {
          if Distinct(q) {
            assert last !in q[..|q| - 1];
            forall i, j | 0 <= i < j < |init| + 1
              ensures (init + [last])[i] != (init + [last])[j]
            {
              if j == |init| {
                assert init[i] in init;
              }
            }
          }
        }
        init + [last]
  }
}
