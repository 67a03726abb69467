/** Summing the counters of all ports of a switch: each counter stops at the largest value of its field. */
module Counters {
  import opened Bits

  const CAP32 := 0xffff_ffff

  function Min(a: nat, b: nat): nat { if a <= b then a else b }

  /** Addition in a word whose largest value is `max`. */
  function WrapAdd(a: nat, b: nat, max: nat): nat { (a + b) % (max + 1) }

  class Counter {
    var value: nat

    /** The 4-, 8- and 16-bit versions, in 32-bit arithmetic. */
    method AddCapped(val: nat, cap: nat)
      requires cap < CAP32 && value <= cap && val <= CAP32
      modifies this
      ensures value == Min(old(value) + val, cap)
    {
      WrapAddIs(value, val, CAP32);
      if WrapAdd(value, val, CAP32) < value || WrapAdd(value, val, CAP32) > cap {
        value := cap;
      } else {
        value := WrapAdd(value, val, CAP32);
      }
    }

    /** The 32- and 64-bit versions, where the field is the whole word. */
    method AddWord(val: nat, max: nat)
      requires value <= max && val <= max
      modifies this
      ensures value == Min(old(value) + val, max)
    {
      WrapAddIs(value, val, max);
      if WrapAdd(value, val, max) < value {
        value := max;
      } else {
        value := WrapAdd(value, val, max);
      }
    }
  }

  lemma WrapAddIs(a: nat, b: nat, max: nat)
    requires a <= max && b <= max
    ensures WrapAdd(a, b, max) == if a + b <= max then a + b else a + b - max - 1
  {
    if a + b <= max {
      DivisionUnique(a + b, max + 1, 0, a + b);
    } else {
      DivisionUnique(a + b, max + 1, 1, a + b - max - 1);
    }
  }

  // ---- many ports ----

  function Sum(vals: seq<nat>): nat { if vals == [] then 0 else Sum(vals[..|vals| - 1]) + vals[|vals| - 1] }

  /** One counter over all ports: the sum, or the cap if the sum is larger. */
  method AddPortsCapped(counter: Counter, vals: seq<nat>, cap: nat)
    requires cap < CAP32 && counter.value == 0 && forall i | 0 <= i < |vals| :: vals[i] <= CAP32
    modifies counter
    ensures counter.value == Min(Sum(vals), cap)
  {
    for i := 0 to |vals|
      invariant counter.value == Min(Sum(vals[..i]), cap)
    {
      assert vals[..i + 1][..i] == vals[..i];
      counter.AddCapped(vals[i], cap);
    }
    assert vals[..|vals|] == vals;
  }

  method AddPortsWord(counter: Counter, vals: seq<nat>, max: nat)
    requires counter.value == 0 && forall i | 0 <= i < |vals| :: vals[i] <= max
    modifies counter
    ensures counter.value == Min(Sum(vals), max)
  {
    for i := 0 to |vals|
      invariant counter.value == Min(Sum(vals[..i]), max)
    {
      assert vals[..i + 1][..i] == vals[..i];
      counter.AddWord(vals[i], max);
    }
    assert vals[..|vals|] == vals;
  }

  lemma {:induction false} SumWithout(vals: seq<nat>, k: nat)
    requires k < |vals|
    ensures Sum(vals) == Sum(vals[..k] + vals[k + 1..]) + vals[k]
  {
    var init, last := vals[..|vals| - 1], vals[|vals| - 1];
    if k == |vals| - 1 {
      assert vals[..k] + vals[k + 1..] == init;
    } else {
      SumWithout(init, k);
      var without := vals[..k] + vals[k + 1..];
      assert without[..|without| - 1] == init[..k] + init[k + 1..];
    }
  }

  lemma MultisetWithout(vals: seq<nat>, k: nat)
    requires k < |vals|
    ensures multiset(vals[..k] + vals[k + 1..]) == multiset(vals) - multiset{vals[k]}
  {
    assert vals == vals[..k] + [vals[k]] + vals[k + 1..];
  }

  /** The order in which the ports are read does not matter. */
  lemma {:induction false} SumIgnoresOrder(a: seq<nat>, b: seq<nat>)
    requires multiset(a) == multiset(b)
    ensures Sum(a) == Sum(b)
    decreases |a|
  {
    assert |a| == |multiset(a)| == |multiset(b)| == |b|;
    if a == [] {
    } else {
      var x, rest := a[|a| - 1], a[..|a| - 1];
      assert a == rest + [x];
      assert x in multiset(b);
      var k :| 0 <= k < |b| && b[k] == x;
      MultisetWithout(b, k);
      MultisetWithout(a, |a| - 1);
      assert a[..|a| - 1] + a[|a|..] == rest;
      SumIgnoresOrder(rest, b[..k] + b[k + 1..]);
      SumWithout(b, k);
    }
  }
}
