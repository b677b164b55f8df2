/** Shared value types: optional values, fallible results and the machine integer ranges. */
module Basics {
  datatype Option<+T> = None | Some(value: T)

  datatype Result<+T, +E> = Ok(value: T) | Err(error: E)

  const I64_MAX: int := 0x7FFF_FFFF_FFFF_FFFF
  const I64_MIN: int := -0x8000_0000_0000_0000
  const U64_MAX: int := 0xFFFF_FFFF_FFFF_FFFF

  type i64 = x: int | I64_MIN <= x <= I64_MAX
  type u64 = x: int | 0 <= x <= U64_MAX
  type byte = x: int | 0 <= x < 256

  function Lookup<K, V>(m: map<K, V>, k: K): Option<V> {
    if k in m then Some(m[k]) else None
  }

  /** Signed 64-bit addition that reports overflow instead of wrapping. */
  function CheckedAdd(a: i64, b: i64): (r: Option<i64>)
    ensures r.Some? <==> I64_MIN <= a + b <= I64_MAX
    ensures r.Some? ==> r.value == a + b
  {
    if I64_MIN <= a + b <= I64_MAX then Some(a + b) else None
  }

  /** The first failure in a list of per-position checks, if there is one. */
  function FirstSome<E>(checks: seq<Option<E>>): (r: Option<E>)
    ensures r.None? <==> forall i :: 0 <= i < |checks| ==> checks[i].None?
    ensures r.Some? ==> r in checks
  {
    if checks == [] then None
    else if checks[0].Some? then checks[0]
    else FirstSome(checks[1..])
  }

  lemma {:induction false} FirstSomeAt<E>(checks: seq<Option<E>>, i: nat)
    requires i < |checks| && checks[i].Some?
    requires forall j :: 0 <= j < i ==> checks[j].None?
    ensures FirstSome(checks) == checks[i]
  {
    if i > 0 {
      assert checks[0].None?;
      FirstSomeAt(checks[1..], i - 1);
    }
  }

  lemma {:induction false} FirstSomeAppend<E>(checks: seq<Option<E>>, last: Option<E>)
    ensures FirstSome(checks + [last]) == if FirstSome(checks).Some? then FirstSome(checks) else last
  {
    var all := checks + [last];
    if checks == [] {
      assert all == [last] && FirstSome([last][1..]).None?;
    } else {
      assert all[1..] == checks[1..] + [last];
      FirstSomeAppend(checks[1..], last);
    }
  }
}
