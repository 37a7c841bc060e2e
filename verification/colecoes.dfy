/**
  Models of the two Go runtime facilities the game server leans on:
  `sort.Slice` (an in-place, not necessarily stable sort of a slice by a
  "less" function) and `for k, v := range m` over a Go map (which visits the
  entries in an unspecified order).
 */
module Colecoes {

  /** `s` is in non-decreasing order of `chave`; with the less function
      `chave(x) < chave(y)` this is what `sort.Slice` guarantees. */
  ghost predicate Ordenado<T>(s: seq<T>, chave: T -> int) {
    forall i, j :: 0 <= i < j < |s| ==> chave(s[i]) <= chave(s[j])
  }

  /** No element occurs twice in `s`. */
  ghost predicate SemRepeticao<T>(s: seq<T>) {
    forall i, j :: 0 <= i < j < |s| ==> s[i] != s[j]
  }

  /** `sort.Slice(a, func(i, j int) bool { return chave(a[i]) < chave(a[j]) })`.
      Go promises a sorted permutation and nothing about the order of
      elements with equal keys; this insertion sort is one such sort, and
      callers rely only on the two postconditions. */
  method OrdenarFatia<T(==)>(a: array<T>, chave: T -> int)
    modifies a
    ensures Ordenado(a[..], chave)
    ensures multiset(a[..]) == multiset(old(a[..]))
  {
    var i := 0;
    while i < a.Length
      invariant 0 <= i <= a.Length
      invariant forall p, q :: 0 <= p < q < i ==> chave(a[p]) <= chave(a[q])
      invariant multiset(a[..]) == multiset(old(a[..]))
    {
      Inserir(a, i, chave);
      i := i + 1;
    }
  }

  /** One insertion step: moves `a[i]` left past every larger key, so that a
      sorted `a[..i]` becomes a sorted `a[..i+1]`. */
  method Inserir<T(==)>(a: array<T>, i: int, chave: T -> int)
    requires 0 <= i < a.Length
    requires forall p, q :: 0 <= p < q < i ==> chave(a[p]) <= chave(a[q])
    modifies a
    ensures forall p, q :: 0 <= p < q <= i ==> chave(a[p]) <= chave(a[q])
    ensures multiset(a[..]) == multiset(old(a[..]))
  {
    var j := i;
    while j > 0 && chave(a[j - 1]) > chave(a[j])
      invariant 0 <= j <= i
      invariant forall p, q :: 0 <= p < q <= i && p != j && q != j ==> chave(a[p]) <= chave(a[q])
      invariant forall q :: j < q <= i ==> chave(a[j]) < chave(a[q])
      invariant multiset(a[..]) == multiset(old(a[..]))
    {
      Trocar(a, j - 1, j);
      j := j - 1;
    }
  }

  /** Exchanges two elements of `a`; nothing else changes. */
  method Trocar<T(==)>(a: array<T>, i: int, j: int)
    requires 0 <= i < j < a.Length
    modifies a
    ensures a[i] == old(a[j]) && a[j] == old(a[i])
    ensures forall k :: 0 <= k < a.Length && k != i && k != j ==> a[k] == old(a[k])
    ensures multiset(a[..]) == multiset(old(a[..]))
  {
    a[i], a[j] := a[j], a[i];
  }

  /** `for k, v := range m { l = append(l, f(k, v)) }`: each entry of `m` is
      visited exactly once, in an order Go leaves unspecified (here: the
      choice made by `:|`). The ghost `chaves` records the visiting order. */
  method PercorrerMapa<K, V, E>(m: map<K, V>, f: (K, V) -> E) returns (l: seq<E>, ghost chaves: seq<K>)
    ensures |l| == |chaves| == |m|
    ensures SemRepeticao(chaves)
    ensures forall i :: 0 <= i < |chaves| ==> chaves[i] in m && l[i] == f(chaves[i], m[chaves[i]])
    ensures forall k :: k in m ==> k in chaves
  {
    l, chaves := [], [];
    var resto := m;
    while resto != map[]
      invariant resto.Keys <= m.Keys
      invariant forall k :: k in resto ==> resto[k] == m[k]
      invariant |l| == |chaves| && |chaves| + |resto| == |m|
      invariant SemRepeticao(chaves)
      invariant forall i :: 0 <= i < |chaves| ==> chaves[i] in m && chaves[i] !in resto && l[i] == f(chaves[i], m[chaves[i]])
      invariant forall k :: k in m ==> k in resto || k in chaves
      decreases |resto|
    {
      var k :| k in resto;
      l, chaves := l + [f(k, resto[k])], chaves + [k];
      assert resto.Keys == (resto - {k}).Keys + {k};
      resto := resto - {k};
    }
  }

  /** An element repeated in a sequence is counted at least twice by its
      multiset. */
  lemma {:induction false} RepetidoContaDuas<T>(s: seq<T>, i: int, j: int)
    requires 0 <= i < j < |s| && s[i] == s[j]
    ensures multiset(s)[s[i]] >= 2
  {
    assert s == s[..j] + s[j..];
    assert s[i] in s[..j];
    assert s[j] in s[j..];
    assert multiset(s) == multiset(s[..j]) + multiset(s[j..]);
  }

  /** In a sequence without repetition, every element is counted at most once. */
  lemma {:induction false} SemRepeticaoContaUma<T>(s: seq<T>, x: T)
    requires SemRepeticao(s)
    ensures multiset(s)[x] <= 1
  {
    if s != [] {
      var p := s[..|s| - 1];
      assert SemRepeticao(p);
      SemRepeticaoContaUma(p, x);
      assert s == p + [s[|s| - 1]];
    }
  }

  /** A permutation of a sequence without repetition has none either. */
  lemma PermutacaoSemRepeticao<T>(s: seq<T>, t: seq<T>)
    requires SemRepeticao(s) && multiset(t) == multiset(s)
    ensures SemRepeticao(t)
  {
    forall i, j | 0 <= i < j < |t| ensures t[i] != t[j] {
      if t[i] == t[j] {
        RepetidoContaDuas(t, i, j);
        SemRepeticaoContaUma(s, t[i]);
      }
    }
  }
}
