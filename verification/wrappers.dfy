/** Result types, bytes and the few sequence and number functions shared by the components. */
module Wrappers {
  type byte = x: int | 0 <= x < 256

  datatype Option<+T> = None | Some(value: T)

  datatype Result<+T, +E> = Ok(value: T) | Err(error: E)

  function Min(a: int, b: int): (m: int)
  {
    if a <= b then a else b
  }

  function Max(a: int, b: int): (m: int)
  {
    if a <= b then b else a
  }

  /** The least element of a finite non-empty set: the first key of an ordered map. */
  function Least(keys: set<int>): (k: int)
    requires keys != {}
    ensures k in keys && forall j :: j in keys ==> k <= j
  {
    LeastExists(keys);
    var k :| k in keys && forall j :: j in keys ==> k <= j;
    k
  }

  lemma LeastExists(keys: set<int>)
    requires keys != {}
    ensures exists k :: k in keys && forall j :: j in keys ==> k <= j
  {
    var k := LeastMember(keys);
  }

  lemma {:induction false} LeastMember(keys: set<int>) returns (k: int)
    requires keys != {}
    ensures k in keys && forall j :: j in keys ==> k <= j
  {
    var x := AnyMember(keys);
    var others := keys - {x};
    if others == {} {
      assert keys == {x};
      k := x;
    } else {
      var y := LeastMember(others);
      k := Min(x, y);
      forall j | j in keys ensures k <= j {
        assert j == x || j in others;
      }
    }
  }

  lemma AnyMember<T>(s: set<T>) returns (x: T)
    requires s != {}
    ensures x in s
  {
    x :| x in s;
  }

  lemma {:induction false} SubsetCount<T>(a: set<T>, b: set<T>)
    requires a <= b
    ensures |a| <= |b|
  {
    if a != {} {
      var x := AnyMember(a);
      SubsetCount(a - {x}, b - {x});
    }
  }

  function Flatten<T>(parts: seq<seq<T>>): seq<T>
  {
    if parts == [] then [] else parts[0] + Flatten(parts[1..])
  }

  /** Two bytes in network order. */
  function Be16(high: int, low: int): int
  {
    high * 256 + low
  }

  function Pow2(n: nat): (p: nat)
    ensures p > 0
  {
    if n == 0 then 1 else 2 * Pow2(n - 1)
  }

  lemma {:induction false} Pow2Monotone(m: nat, n: nat)
    requires m <= n
    ensures Pow2(m) <= Pow2(n)
    decreases n
  {
    if m < n {
      Pow2Monotone(m, n - 1);
    }
  }

  lemma {:induction false} Pow2Add(a: nat, b: nat)
    ensures Pow2(b) * Pow2(a) == Pow2(a + b)
    decreases b
  {
    if b > 0 {
      Pow2Add(a, b - 1);
      assert Pow2(b - 1) * Pow2(a) * 2 == Pow2(b) * Pow2(a) by {
        assert Pow2(b) == 2 * Pow2(b - 1);
        hide Pow2;
      }
    }
  }
}
