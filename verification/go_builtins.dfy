/** The few Go built-ins and standard-library slice operations whose exact
    behaviour the gateway depends on: `copy`, slices.DeleteFunc with an
    equality test, and the conversions between int and uint64. */
module GoBuiltins {

  /** m[k] on a map of slices: a missing key reads as the nil slice. */
  function Lookup<K, E>(m: map<K, seq<E>>, k: K): (r: seq<E>)
    ensures k in m ==> r == m[k]
    ensures k !in m ==> r == []
  {
    if k in m then m[k] else []
  }

  /** copy(dst, src): dst keeps its length; its first min(len(dst), len(src))
      elements are taken from src. */
  function Copy<T>(dst: seq<T>, src: seq<T>): (r: seq<T>)
    ensures |r| == |dst|
    ensures forall i :: 0 <= i < |r| ==> r[i] == (if i < |src| then src[i] else dst[i])
  {
    seq(|dst|, i requires 0 <= i < |dst| => if i < |src| then src[i] else dst[i])
  }

  /** make([]T, 0, n) followed by copy: nothing is copied, whatever `src` holds. */
  lemma CopyIntoEmpty<T>(src: seq<T>)
    ensures Copy([], src) == []
  {
  }

  /** make([]T, len(src)) followed by copy: the copy is `src`. */
  lemma CopyIntoSameLength<T>(dst: seq<T>, src: seq<T>)
    requires |dst| == |src|
    ensures Copy(dst, src) == src
  {
  }

  /** slices.DeleteFunc(s, func(e) bool { return e == x }): every element
      equal to `x` removed, the others kept in order. */
  function Without<T(==,!new)>(s: seq<T>, x: T): (r: seq<T>)
    ensures x !in r
    ensures forall y :: y in r <==> y in s && y != x
    ensures |r| <= |s|
    decreases |s|
  {
    if s == [] then [] else (if s[0] == x then [] else [s[0]]) + Without(s[1..], x)
  }

  /** Removal works piece by piece, so the survivors keep their order. */
  lemma {:induction false} WithoutAppend<T(!new)>(a: seq<T>, b: seq<T>, x: T)
    ensures Without(a + b, x) == Without(a, x) + Without(b, x)
    decreases |a|
  {
    if a != [] {
      assert (a + b)[1..] == a[1..] + b;
      WithoutAppend(a[1..], b, x);
    } else {
      assert a + b == b;
    }
  }

  /** Every other element keeps its number of occurrences. */
  lemma {:induction false} WithoutCounts<T(!new)>(s: seq<T>, x: T)
    ensures multiset(Without(s, x))[x] == 0
    ensures forall y :: y != x ==> multiset(Without(s, x))[y] == multiset(s)[y]
    decreases |s|
  {
    if s != [] {
      WithoutCounts(s[1..], x);
      assert s == [s[0]] + s[1..];
    }
  }

  /** Removing what is not there changes nothing. */
  lemma {:induction false} WithoutAbsent<T(!new)>(s: seq<T>, x: T)
    requires x !in s
    ensures Without(s, x) == s
    decreases |s|
  {
    if s != [] {
      WithoutAbsent(s[1..], x);
    }
  }

  const TwoTo63: int := 0x8000_0000_0000_0000
  const TwoTo64: int := 0x1_0000_0000_0000_0000

  /** uint64(i) for a Go int (64 bits): the value modulo 2^64. */
  function Uint64(i: int): (u: nat)
    ensures u < TwoTo64
    ensures 0 <= i < TwoTo64 ==> u == i
    ensures -TwoTo63 <= i < 0 ==> u == i + TwoTo64
  {
    i % TwoTo64
  }

  /** int(u) for a uint64: values from 2^63 on wrap to negative. */
  function Int64(u: nat): (i: int)
    requires u < TwoTo64
    ensures -TwoTo63 <= i < TwoTo63
    ensures i % TwoTo64 == u
  {
    if u < TwoTo63 then u else u - TwoTo64
  }

  /** The two conversions undo each other on their ranges. */
  lemma ConversionsRoundTrip(i: int, u: nat)
    requires -TwoTo63 <= i < TwoTo63 && u < TwoTo64
    ensures Int64(Uint64(i)) == i
    ensures Uint64(Int64(u)) == u
  {
  }

  /** The elements of a sequence of keys. */
  function Elements<K>(keys: seq<K>): set<K> {
    if keys == [] then {} else Elements(keys[..|keys| - 1]) + {keys[|keys| - 1]}
  }

  lemma {:induction false} ElementsHas<K>(keys: seq<K>, i: nat)
    requires i < |keys|
    ensures keys[i] in Elements(keys)
    decreases |keys|
  {
    if i < |keys| - 1 {
      ElementsHas(keys[..|keys| - 1], i);
    }
  }

  lemma {:induction false} ElementsBound<K>(keys: seq<K>)
    ensures |Elements(keys)| <= |keys|
    decreases |keys|
  {
    if keys != [] {
      ElementsBound(keys[..|keys| - 1]);
    }
  }

  lemma {:induction false} ElementsIn<K>(keys: seq<K>)
    ensures forall k :: k in Elements(keys) <==> k in keys
    decreases |keys|
  {
    if keys != [] {
      var front := keys[..|keys| - 1];
      ElementsIn(front);
      assert keys == front + [keys[|keys| - 1]];
    }
  }

  /** A key occurring twice leaves fewer elements than entries. */
  lemma {:induction false} DuplicateShrinks<K>(keys: seq<K>, i: nat, j: nat)
    requires i < j < |keys| && keys[i] == keys[j]
    ensures |Elements(keys)| < |keys|
    decreases |keys|
  {
    var front := keys[..|keys| - 1];
    if j == |keys| - 1 {
      ElementsHas(front, i);
      ElementsBound(front);
      assert Elements(keys) == Elements(front);
    } else {
      DuplicateShrinks(front, i, j);
    }
  }

  /** As many elements as entries: no key occurs twice. */
  lemma NoDuplicates<K>(keys: seq<K>)
    requires |Elements(keys)| == |keys|
    ensures forall i, j :: 0 <= i < j < |keys| ==> keys[i] != keys[j]
  {
    forall i, j | 0 <= i < j < |keys|
      ensures keys[i] != keys[j]
    {
      if keys[i] == keys[j] {
        DuplicateShrinks(keys, i, j);
      }
    }
  }

  /** `for _, v := range m { list = append(list, v) }`: the values in an
      unspecified key order, each key visited once. */
  method RangeValues<K, V>(m: map<K, V>) returns (list: seq<V>, ghost order: seq<K>)
    ensures |list| == |order| == |m|
    ensures forall k :: k in m <==> k in order
    ensures forall i, j :: 0 <= i < j < |order| ==> order[i] != order[j]
    ensures forall i :: 0 <= i < |order| ==> order[i] in m && list[i] == m[order[i]]
  {
    list, order := [], [];
    var rest := m.Keys;
    while rest != {}
      invariant Elements(order) == m.Keys - rest
      invariant rest <= m.Keys && |order| == |m.Keys| - |rest|
      invariant |list| == |order|
      invariant forall i :: 0 <= i < |order| ==> order[i] in m && list[i] == m[order[i]]
      decreases rest
    {
      var k :| k in rest;
      assert (order + [k])[..|order|] == order;
      list, order := list + [m[k]], order + [k];
      rest := rest - {k};
    }
    NoDuplicates(order);
    ElementsIn(order);
  }
}
