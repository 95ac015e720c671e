/** Small datatypes and finite sums shared by the other modules. */
module Common {

  datatype Option<+T> = None | Some(value: T)

  datatype Result<+T, +E> = Ok(value: T) | Err(error: E)

  function Max(a: int, b: int): int {
    if a >= b then a else b
  }

  function Min(a: int, b: int): int {
    if a <= b then a else b
  }
}

/** Sums of an integer weight over a finite set of keys. */
module Sums {

  ghost function Total<K>(keys: set<K>, weight: K -> int): int
    decreases keys
  {
    if keys == {} then 0
    else
      var k :| k in keys;
      weight(k) + Total(keys - {k}, weight)
  }

  // Any key may be taken out first, so the choice in Total does not matter.
  lemma {:induction false} TotalPick<K>(keys: set<K>, weight: K -> int, k: K)
    requires k in keys
    ensures Total(keys, weight) == weight(k) + Total(keys - {k}, weight)
    decreases keys
  {
    var first :| first in keys && Total(keys, weight) == weight(first) + Total(keys - {first}, weight);
    if first != k {
      TotalPick(keys - {first}, weight, k);
      TotalPick(keys - {k}, weight, first);
      assert keys - {first} - {k} == keys - {k} - {first};
    }
  }

  lemma {:induction false} TotalSame<K>(keys: set<K>, f: K -> int, g: K -> int)
    requires forall k :: k in keys ==> f(k) == g(k)
    ensures Total(keys, f) == Total(keys, g)
    decreases keys
  {
    if keys != {} {
      var k :| k in keys;
      TotalPick(keys, f, k);
      TotalPick(keys, g, k);
      TotalSame(keys - {k}, f, g);
    }
  }

  lemma {:induction false} TotalExtend<K>(keys: set<K>, more: set<K>, f: K -> int)
    requires keys <= more
    requires forall k :: k in more - keys ==> f(k) == 0
    ensures Total(more, f) == Total(keys, f)
    decreases more
  {
    if more - keys == {} {
      assert forall k :: k in more ==> k !in more - keys;
      assert more == keys;
    } else {
      var k :| k in more - keys;
      TotalPick(more, f, k);
      TotalExtend(keys, more - {k}, f);
    }
  }
}
