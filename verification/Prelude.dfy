/** What several of the models share: optional values and the sequences JavaScript
    keeps inside a `Set` or a `Map` (insertion order, no repetition). */
module Prelude {

  datatype Option<+T> = None | Some(value: T)

  datatype Result<+T, +E> = Ok(value: T) | Err(error: E)

  function Min(a: int, b: int): int { if a <= b then a else b }

  function Max(a: int, b: int): int { if a >= b then a else b }

  /** `\s` of a JavaScript pattern. */
  predicate IsWhiteSpace(c: char) {
    c in {'\t', '\n', '\U{000B}', '\U{000C}', '\r', ' ', '\U{00A0}', '\U{1680}', '\U{2028}', '\U{2029}', '\U{202F}', '\U{205F}', '\U{3000}', '\U{FEFF}'}
    || '\U{2000}' <= c <= '\U{200A}'
  }

  /** No element occurs twice: the insertion order of a JavaScript `Set`. */
  ghost predicate Distinct<T(!new)>(s: seq<T>) {
    forall i, j :: 0 <= i < j < |s| ==> s[i] != s[j]
  }

  function Elements<T>(s: seq<T>): set<T> { set x | x in s }

  /** `Set.prototype.add`: a new element goes last, a known one keeps its place. */
  function Add<T(==)>(s: seq<T>, x: T): seq<T> {
    if x in s then s else s + [x]
  }

  function AddAll<T(==)>(s: seq<T>, xs: seq<T>): seq<T>
    decreases |xs|
  {
    if xs == [] then s else AddAll(Add(s, xs[0]), xs[1..])
  }

  /** `Set.prototype.delete`. */
  function Without<T(==)>(s: seq<T>, x: T): seq<T> {
    if s == [] then []
    else if s[0] == x then Without(s[1..], x)
    else [s[0]] + Without(s[1..], x)
  }

  lemma WithoutElements<T>(s: seq<T>, x: T)
    ensures |Without(s, x)| <= |s|
    ensures forall y :: y in Without(s, x) <==> y in s && y != x
    ensures x !in s ==> Without(s, x) == s
  {
  }

  lemma WithoutDistinct<T(!new)>(s: seq<T>, x: T)
    requires Distinct(s)
    ensures Distinct(Without(s, x))
  {
    if s != [] {
      WithoutDistinct(s[1..], x);
      WithoutElements(s[1..], x);
      var w := Without(s[1..], x);
      if s[0] != x {
        forall j | 0 <= j < |w| ensures w[j] != s[0] {
          assert w[j] in w;
        }
      }
    }
  }

  /** Adding keeps what was there, in place, and puts the new elements behind it. */
  lemma AddAllExtends<T(!new)>(s: seq<T>, xs: seq<T>)
    ensures s <= AddAll(s, xs)
    ensures Elements(AddAll(s, xs)) == Elements(s) + Elements(xs)
    ensures Distinct(s) ==> Distinct(AddAll(s, xs))
    decreases |xs|
  {
    if xs != [] {
      AddAllExtends(Add(s, xs[0]), xs[1..]);
      assert Elements(xs) == {xs[0]} + Elements(xs[1..]);
      assert Elements(Add(s, xs[0])) == Elements(s) + {xs[0]};
    }
  }

  lemma DistinctSize<T(!new)>(s: seq<T>)
    requires Distinct(s)
    ensures |Elements(s)| == |s|
  {
    if s == [] {
      assert Elements(s) == {};
    } else {
      var last := s[|s| - 1];
      DistinctSize(s[..|s| - 1]);
      assert last !in s[..|s| - 1];
      assert Elements(s) == Elements(s[..|s| - 1]) + {last};
    }
  }

  lemma SubsetSize<T>(a: set<T>, b: set<T>)
    requires a <= b
    ensures |a| <= |b|
  {
    assert b == a + (b - a);
    assert |b| == |a| + |b - a|;
  }
}
