/**
 * The orderings `sorted` uses on the dependency pairs: Python's comparison of
 * `str` values (code point by code point, a proper prefix first) and its
 * lexicographic comparison of 2-tuples built on it.
 */
module Order {

  /** A swapped edge `(right, left)`: the target first, then its source. */
  type Pair = (string, string)

  /** Python's `a <= b` on `str`. A prefix (Dafny's `a <= b` on sequences) ranks first. */
  predicate StrLe(a: string, b: string)
    ensures a <= b ==> StrLe(a, b)
    decreases |a|
  {
    a == [] || (b != [] && (a[0] < b[0] || (a[0] == b[0] && StrLe(a[1..], b[1..]))))
  }

  /** Python's `a < b` on `str`. */
  predicate StrLt(a: string, b: string)
  {
    StrLe(a, b) && a != b
  }

  /** Python's `p <= q` on 2-tuples of `str`: the first components decide unless they are equal. */
  predicate PairLe(p: Pair, q: Pair)
  {
    StrLt(p.0, q.0) || (p.0 == q.0 && StrLe(p.1, q.1))
  }

  lemma {:induction false} StrLeRefl(a: string)
    ensures StrLe(a, a)
    decreases |a|
  {
    if a != [] {
      StrLeRefl(a[1..]);
    }
  }

  lemma {:induction false} StrLeAntisym(a: string, b: string)
    requires StrLe(a, b) && StrLe(b, a)
    ensures a == b
    decreases |a|
  {
    if a != [] {
      assert b != [] && a[0] == b[0];
      StrLeAntisym(a[1..], b[1..]);
      assert a == [a[0]] + a[1..] && b == [b[0]] + b[1..];
    }
  }

  lemma {:induction false} StrLeTrans(a: string, b: string, c: string)
    requires StrLe(a, b) && StrLe(b, c)
    ensures StrLe(a, c)
    decreases |a|
  {
    if a != [] && a[0] == b[0] && b[0] == c[0] {
      StrLeTrans(a[1..], b[1..], c[1..]);
    }
  }

  lemma {:induction false} StrLeTotal(a: string, b: string)
    ensures StrLe(a, b) || StrLe(b, a)
    decreases |a|
  {
    if a != [] && b != [] && a[0] == b[0] {
      StrLeTotal(a[1..], b[1..]);
    }
  }

  lemma PairLeRefl(p: Pair)
    ensures PairLe(p, p)
  {
    StrLeRefl(p.1);
  }

  lemma PairLeAntisym(p: Pair, q: Pair)
    requires PairLe(p, q) && PairLe(q, p)
    ensures p == q
  {
    if p.0 != q.0 {
      StrLeAntisym(p.0, q.0);
    } else {
      StrLeAntisym(p.1, q.1);
    }
  }

  lemma PairLeTrans(p: Pair, q: Pair, r: Pair)
    requires PairLe(p, q) && PairLe(q, r)
    ensures PairLe(p, r)
  {
    if p.0 == q.0 && q.0 == r.0 {
      StrLeTrans(p.1, q.1, r.1);
    } else {
      if StrLe(p.0, q.0) && StrLe(q.0, r.0) {
        StrLeTrans(p.0, q.0, r.0);
        if p.0 == r.0 {
          StrLeAntisym(p.0, q.0);
        }
      }
    }
  }

  lemma PairLeTotal(p: Pair, q: Pair)
    ensures PairLe(p, q) || PairLe(q, p)
  {
    StrLeTotal(p.0, q.0);
    StrLeTotal(p.1, q.1);
  }

  /** A pair below a pair ranks its target no higher. */
  lemma PairLeTargets(p: Pair, q: Pair)
    requires PairLe(p, q)
    ensures StrLe(p.0, q.0)
  {
    StrLeRefl(p.0);
  }
}
