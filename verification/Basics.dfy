/** Shared vocabulary: optional values and results, sums over sequences and maps, joined
    parts, rearrangements, and first-occurrence numbering with the theorem that two
    sequences get the same numbers exactly when one is an injective renaming of the
    other. */
module Basics {

  datatype Option<+T> = None | Some(value: T)

  datatype Result<T, E> = Ok(value: T) | Err(error: E)

  type Byte = b: int | 0 <= b < 256

  const U64_MAX: nat := 0xFFFF_FFFF_FFFF_FFFF

  function Min(a: int, b: int): int {
    if a <= b then a else b
  }

  function Max(a: int, b: int): int {
    if a <= b then b else a
  }

  // ---------------------------------------------------------------- sums

  /** The sum of `f` over a sequence, taken from the left like a scanning loop. */
  function SumOf<T>(s: seq<T>, f: T -> nat): nat {
    if s == [] then 0 else SumOf(s[..|s| - 1], f) + f(s[|s| - 1])
  }

  lemma SumOfSnoc<T>(s: seq<T>, k: nat, f: T -> nat)
    requires k < |s|
    ensures SumOf(s[..k + 1], f) == SumOf(s[..k], f) + f(s[k])
  {
    assert s[..k + 1][..k] == s[..k];
  }

  lemma {:induction false} SumOfRemove<T>(s: seq<T>, k: nat, f: T -> nat)
    requires k < |s|
    ensures SumOf(s, f) == SumOf(s[..k] + s[k + 1..], f) + f(s[k])
    decreases |s|
  {
    var n := |s| - 1;
    if k == n {
      assert s[..k] + s[k + 1..] == s[..n];
    } else {
      var rest := s[..k] + s[k + 1..];
      assert rest[..|rest| - 1] == s[..n][..k] + s[..n][k + 1..];
      assert rest[|rest| - 1] == s[n];
      SumOfRemove(s[..n], k, f);
    }
  }

  // ---------------------------------------------------------- joined parts

  /** All parts, one after the other. */
  function Flatten<T>(parts: seq<seq<T>>): seq<T> {
    if parts == [] then [] else parts[0] + Flatten(parts[1..])
  }

  lemma {:induction false} FlattenSnoc<T>(parts: seq<seq<T>>, part: seq<T>)
    ensures Flatten(parts + [part]) == Flatten(parts) + part
  {
    if parts == [] {
      assert parts + [part] == [part];
      assert [part][1..] == [];
    } else {
      FlattenSnoc(parts[1..], part);
      assert (parts + [part])[1..] == parts[1..] + [part];
    }
  }

  // ------------------------------------------------------ rearrangements

  /** `t` lists the entries of `s` in the order `p`, each entry once. */
  ghost predicate Rearranges<T(!new)>(s: seq<T>, t: seq<T>, p: seq<nat>) {
    && |s| == |t| == |p|
    && (forall i :: 0 <= i < |p| ==> p[i] < |s| && t[i] == s[p[i]])
    && (forall i, j :: 0 <= i < j < |p| ==> p[i] != p[j])
  }

  lemma {:induction false} SumOfRearranged<T(!new)>(s: seq<T>, t: seq<T>, p: seq<nat>, f: T -> nat)
    requires Rearranges(s, t, p)
    ensures SumOf(s, f) == SumOf(t, f)
    decreases |s|
  {
    if |s| > 0 {
      var n := |s| - 1;
      var k := p[n];
      var s' := s[..k] + s[k + 1..];
      var t' := t[..n];
      var p' := seq(n, i requires 0 <= i < n => if p[i] > k then (p[i] - 1) as nat else p[i]);
      forall i | 0 <= i < n
        ensures p'[i] < |s'| && t'[i] == s'[p'[i]]
      {
        assert p[i] != k;
      }
      forall i, j | 0 <= i < j < n
        ensures p'[i] != p'[j]
      {
        assert p[i] != k && p[j] != k && p[i] != p[j];
      }
      SumOfRearranged(s', t', p', f);
      SumOfRemove(s, k, f);
    }
  }

  // ------------------------------------------- first-occurrence numbering

  /** Numbers the first `n` entries by the order in which their values first occur. */
  function Numbering<T(==)>(s: seq<T>, n: nat): map<T, nat>
    requires n <= |s|
  {
    if n == 0 then map[]
    else
      var m := Numbering(s, n - 1);
      if s[n - 1] in m then m else m[s[n - 1] := |m|]
  }

  /** The number a scanning loop looks up at position `i`. */
  function CodeAt<T(==)>(s: seq<T>, i: nat): nat
    requires i < |s|
  {
    Numbering(s, i + 1)[s[i]]
  }

  lemma {:induction false} NumberingDomain<T>(s: seq<T>, n: nat, x: T)
    requires n <= |s|
    ensures x in Numbering(s, n) <==> exists i :: 0 <= i < n && s[i] == x
  {
    if n > 0 {
      NumberingDomain(s, n - 1, x);
    }
  }

  lemma {:induction false} NumberingShape<T>(s: seq<T>, n: nat, x: T, y: T)
    requires n <= |s| && x in Numbering(s, n) && y in Numbering(s, n)
    ensures Numbering(s, n)[x] < |Numbering(s, n)|
    ensures x != y ==> Numbering(s, n)[x] != Numbering(s, n)[y]
  {
    if n > 0 {
      var m := Numbering(s, n - 1);
      if x in m && y in m {
        NumberingShape(s, n - 1, x, y);
      } else if x in m {
        NumberingShape(s, n - 1, x, x);
      } else if y in m {
        NumberingShape(s, n - 1, y, y);
      }
    }
  }

  /** A number, once given, is never changed by later values. */
  lemma {:induction false} NumberingGrows<T>(s: seq<T>, i: nat, j: nat, x: T)
    requires i <= j <= |s| && x in Numbering(s, i)
    ensures x in Numbering(s, j) && Numbering(s, j)[x] == Numbering(s, i)[x]
    decreases j - i
  {
    if i < j {
      NumberingGrows(s, i, j - 1, x);
    }
  }

  /** Equal entries sit at the same positions of both sequences. */
  ghost predicate SamePattern<T(!new), U(!new)>(a: seq<T>, b: seq<U>)
    requires |a| == |b|
  {
    forall i, j :: 0 <= i < |a| && 0 <= j < |a| ==> (a[i] == a[j] <==> b[i] == b[j])
  }

  /** Both sequences receive the same first-occurrence numbers. */
  ghost predicate SameCodes<T(!new), U(!new)>(a: seq<T>, b: seq<U>, n: nat)
    requires |a| == |b| && n <= |a|
  {
    forall i :: 0 <= i < n ==> CodeAt(a, i) == CodeAt(b, i)
  }

  lemma CodesGivePattern<T(!new), U(!new)>(a: seq<T>, b: seq<U>)
    requires |a| == |b| && SameCodes(a, b, |a|)
    ensures SamePattern(a, b)
  {
    forall i, j | 0 <= i < |a| && 0 <= j < |a|
      ensures a[i] == a[j] <==> b[i] == b[j]
    {
      NumberingGrows(a, i + 1, |a|, a[i]);
      NumberingGrows(a, j + 1, |a|, a[j]);
      NumberingGrows(b, i + 1, |b|, b[i]);
      NumberingGrows(b, j + 1, |b|, b[j]);
      NumberingShape(a, |a|, a[i], a[j]);
      NumberingShape(b, |b|, b[i], b[j]);
      assert CodeAt(a, i) == CodeAt(b, i) && CodeAt(a, j) == CodeAt(b, j);
    }
  }

  lemma {:induction false} PatternGivesCodes<T(!new), U(!new)>(a: seq<T>, b: seq<U>, n: nat)
    requires |a| == |b| && SamePattern(a, b) && n <= |a|
    ensures |Numbering(a, n)| == |Numbering(b, n)|
    ensures SameCodes(a, b, n)
    decreases n
  {
    if n > 0 {
      var k := n - 1;
      PatternGivesCodes(a, b, k);
      NumberingDomain(a, k, a[k]);
      NumberingDomain(b, k, b[k]);
      if a[k] in Numbering(a, k) {
        var i :| 0 <= i < k && a[i] == a[k];
        assert b[i] == b[k];
        NumberingGrows(a, i + 1, k, a[i]);
        NumberingGrows(b, i + 1, k, b[i]);
        assert CodeAt(a, i) == CodeAt(b, i);
      }
    }
  }

  /** First-occurrence numbers agree exactly when equal entries sit at the same
      positions, so the comparison does not depend on the scan order. */
  lemma CodesIffPattern<T(!new), U(!new)>(a: seq<T>, b: seq<U>)
    requires |a| == |b|
    ensures SameCodes(a, b, |a|) <==> SamePattern(a, b)
  {
    if SameCodes(a, b, |a|) {
      CodesGivePattern(a, b);
    }
    if SamePattern(a, b) {
      PatternGivesCodes(a, b, |a|);
    }
  }

  // ---------------------------------------------------------- sums over maps

  /** The sum of the weights of all values. */
  ghost function Total<K(!new), V(!new)>(m: map<K, V>, weight: V -> nat): nat
    decreases m.Keys
  {
    if m == map[] then 0
    else
      var p :| p in m;
      weight(m[p]) + Total(m - {p}, weight)
  }

  lemma {:induction false} TotalWithout<K(!new), V(!new)>(m: map<K, V>, weight: V -> nat, p: K)
    requires p in m
    ensures Total(m, weight) == weight(m[p]) + Total(m - {p}, weight)
    decreases m.Keys
  {
    var q :| q in m && Total(m, weight) == weight(m[q]) + Total(m - {q}, weight);
    if p != q {
      TotalWithout(m - {q}, weight, p);
      TotalWithout(m - {p}, weight, q);
      assert m - {q} - {p} == m - {p} - {q};
    }
  }

  lemma TotalWith<K(!new), V(!new)>(m: map<K, V>, weight: V -> nat, p: K, v: V)
    ensures Total(m[p := v], weight) ==
            Total(m, weight) + weight(v) - (if p in m then weight(m[p]) else 0)
  {
    TotalWithout(m[p := v], weight, p);
    if p in m {
      TotalWithout(m, weight, p);
      assert m[p := v] - {p} == m - {p};
    } else {
      assert m[p := v] - {p} == m;
    }
  }
}
