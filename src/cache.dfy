/**
 * The event cache: up to six cached values, each bound to one member of the
 * event enumeration. Triggering a value stores it, dispatches the bound event
 * to the event target while the value is visible, and resets it to the
 * default afterwards.
 *
 * The enumeration is the fixed sequence `events` of its members in value
 * order, as `Enum.GetValues` returns them. The six generic arities are one class here whose `n` values share one
 * type `T`; the event target's handling of an event is recorded, with all cached
 * values at that moment, in a ghost log.
 */
module Caching {
  import opened Wrappers

  /** The exceptions the cache raises. */
  datatype CacheError = ArgumentException | IndexOutOfRange

  /** One event dispatched to the target, and the cached values it could read. */
  datatype Dispatch<E, T> = Dispatch(fsmEvent: E, values: seq<T>)

  /** `EnumLengthCheck(index)`: fails iff the enumeration has fewer than `index` members. */
  function EnumLengthCheck(count: nat, index: int): (r: Outcome<CacheError>)
    ensures r.Fail? <==> count < index
    ensures r.Fail? ==> r.error == ArgumentException
  {
    if count < index then Fail(ArgumentException) else Pass
  }

  /** A C# `int`. */
  type Int32 = x: int | -0x8000_0000 <= x <= 0x7fff_ffff

  /** Unchecked 32-bit two's-complement wrap-around, as C# `int` arithmetic does by default. */
  function Wrap32(x: int): (r: Int32)
    ensures -0x8000_0000 <= x <= 0x7fff_ffff ==> r == x
    ensures (r - x) % 0x1_0000_0000 == 0
  {
    (x + 0x8000_0000) % 0x1_0000_0000 - 0x8000_0000
  }

  /** Wrapping a difference after wrapping the minuend gives the same value as wrapping once. */
  lemma WrapShift(x: int, j: int)
    ensures Wrap32(Wrap32(x) - j) == Wrap32(x - j)
  {
    var m := 0x1_0000_0000;
    var q := (Wrap32(x) - x) / m;
    assert Wrap32(x) - j + 0x8000_0000 == (x - j + 0x8000_0000) + q * m;
    ModShift(x - j + 0x8000_0000, q);
  }

  lemma ModShift(y: int, q: int)
    ensures (y + q * 0x1_0000_0000) % 0x1_0000_0000 == y % 0x1_0000_0000
  {
    var m := 0x1_0000_0000;
    var t := y % m;
    assert y == (y / m) * m + t;
    assert y + q * m == (y / m + q) * m + t;
  }

  /**
   * The index that value `k` (counting from 0) of an `n`-value cache with last
   * index `index` is bound to: each base constructor receives `index - 1`,
   * computed in unchecked `int` arithmetic.
   */
  function Bound(index: Int32, n: nat, k: nat): Int32
  {
    Wrap32(index - (n - 1 - k))
  }

  /**
   * The length check made after binding a value to `b` raises: that is,
   * `EnumLengthCheck(b + 1)` with `b + 1` wrapped. At `b == int.MaxValue` the
   * argument wraps to `int.MinValue` and the check always passes.
   */
  predicate Fails(count: nat, b: Int32)
    ensures Fails(count, b) <==> count <= b < 0x7fff_ffff
  {
    EnumLengthCheck(count, Wrap32(b + 1)).Fail?
  }

  /**
   * The constructor chain of the `n`-value cache with last index `index`: the
   * `(n-1)`-value base is built first with `index - 1`, then value `n` is bound
   * to `index` and `EnumLengthCheck(index + 1)` runs, both offsets computed in
   * unchecked `int` arithmetic. The result is the bound index of each value in
   * order, or the exception that the first failing check raises.
   */
  function Chain(count: nat, n: nat, index: Int32): (r: Result<seq<Int32>, CacheError>)
    requires n >= 1
    ensures r.Err? <==> exists k :: 0 <= k < n && Fails(count, Bound(index, n, k))
    ensures r.Err? ==> r.error == ArgumentException
    ensures r.Ok? ==> |r.value| == n && forall k :: 0 <= k < n ==> r.value[k] == Bound(index, n, k)
    decreases n
  {
    var base := if n == 1 then Ok([]) else Chain(count, n - 1, Wrap32(index - 1));
    assert forall k :: 0 <= k < n - 1 ==> Bound(Wrap32(index - 1), n - 1, k) == Bound(index, n, k) by {
      forall k | 0 <= k < n - 1 ensures Bound(Wrap32(index - 1), n - 1, k) == Bound(index, n, k) {
        WrapShift(index - 1, n - 2 - k);
      }
    }
    assert Bound(index, n, n - 1) == index;
    if base.Err? then
      assert exists k :: 0 <= k < n && Fails(count, Bound(index, n, k)) by {
        var k :| 0 <= k < n - 1 && Fails(count, Bound(Wrap32(index - 1), n - 1, k));
        assert Fails(count, Bound(index, n, k));
      }
      base
    else if Fails(count, index) then Err(ArgumentException)
    else Ok(base.value + [index])
  }

  /**
   * Where no offset wraps, the chain is the plain one: it fails iff the
   * enumeration has fewer than `index + 1` members, and binds value `k` to
   * `index - n + 1 + k`.
   */
  lemma ChainWithoutWrap(count: nat, n: nat, index: Int32)
    requires n >= 1 && -0x8000_0000 <= index - n + 1 && index < 0x7fff_ffff
    ensures Chain(count, n, index).Err? <==> count < index + 1
    ensures Chain(count, n, index).Ok? ==> forall k :: 0 <= k < n ==> Chain(count, n, index).value[k] == index - n + 1 + k
  {
    var r := Chain(count, n, index);
    assert Bound(index, n, n - 1) == index;
    if r.Err? {
      var k :| 0 <= k < n && Fails(count, Bound(index, n, k));
      assert Bound(index, n, k) <= index;
    } else {
      assert !Fails(count, Bound(index, n, n - 1));
    }
  }

  /**
   * A one-value cache with index `int.MaxValue` is built whatever the
   * enumeration: `index + 1` wraps to `int.MinValue`, which every length passes.
   */
  lemma MaxIndexAccepted(count: nat)
    ensures Chain(count, 1, 0x7fff_ffff) == Ok([0x7fff_ffff])
  {
    var r := Chain(count, 1, 0x7fff_ffff);
    assert Bound(0x7fff_ffff, 1, 0) == 0x7fff_ffff;
    assert !Fails(count, 0x7fff_ffff);
    assert r.Ok? && r.value == [0x7fff_ffff];
  }

  /** With the default last index `n - 1`, value `k` (counting from 0) is bound to the `k`-th member. */
  lemma DefaultBinding(count: nat, n: nat)
    requires 1 <= n <= 6 && n <= count
    ensures Chain(count, n, n - 1) == Ok(seq(n, k => k))
  {
    ChainWithoutWrap(count, n, n - 1);
    assert Chain(count, n, n - 1).value == seq(n, k => k);
  }

  /**
   * The length check has no lower bound: a last index below `n - 1` is
   * accepted, binding the first value to a negative index that can only fail
   * when it is triggered.
   */
  lemma SmallIndexAccepted(count: nat, n: nat, index: int)
    requires 2 <= n <= 6 && 0 <= index < n - 1 && index < count
    ensures Chain(count, n, index).Ok? && Chain(count, n, index).value[0] < 0
  {
    ChainWithoutWrap(count, n, index);
  }

  class Cache<E, T> {
    const events: seq<E>
    /** The event index each value is bound to (`CacheValue.index`). */
    const indices: seq<int>
    const defaultValue: T
    /** The current `Value` of each cached value. */
    var values: seq<T>
    ghost var dispatched: seq<Dispatch<E, T>>

    ghost predicate Valid()
      reads this
    {
      |values| == |indices|
    }

    /** Every value starts at the default. */
    constructor (events: seq<E>, indices: seq<int>, defaultValue: T)
      ensures Valid()
      ensures this.events == events && this.indices == indices && this.defaultValue == defaultValue
      ensures values == seq(|indices|, _ => defaultValue) && dispatched == []
    {
      this.events := events;
      this.indices := indices;
      this.defaultValue := defaultValue;
      values := seq(|indices|, _ => defaultValue);
      dispatched := [];
    }

    /** Dispatches the `enumIndex`-th member to the target; out of range raises `IndexOutOfRange`. */
    method TriggerEvent(enumIndex: int) returns (r: Outcome<CacheError>)
      modifies this
      ensures r.Pass? <==> 0 <= enumIndex < |events|
      ensures r.Fail? ==> r.error == IndexOutOfRange && dispatched == old(dispatched)
      ensures r.Pass? ==> dispatched == old(dispatched) + [Dispatch(events[enumIndex], values)]
      ensures values == old(values)
    {
      if enumIndex < 0 || enumIndex >= |events| {
        return Fail(IndexOutOfRange);
      }
      dispatched := dispatched + [Dispatch(events[enumIndex], values)];
      return Pass;
    }

    /**
     * `CacheValue.Trigger` of value `k`: `Value` is `value` while its event is
     * dispatched, and the default afterwards; when the dispatch raises, the
     * exception propagates before the reset, so `value` stays.
     */
    method Trigger(k: int, value: T) returns (r: Outcome<CacheError>)
      requires Valid() && 0 <= k < |indices|
      modifies this
      ensures Valid()
      ensures r.Pass? <==> 0 <= indices[k] < |events|
      ensures r.Pass? ==> dispatched == old(dispatched) + [Dispatch(events[indices[k]], old(values)[k := value])]
      ensures r.Pass? ==> values == old(values)[k := defaultValue]
      ensures r.Fail? ==> r.error == IndexOutOfRange && dispatched == old(dispatched) && values == old(values)[k := value]
    {
      values := values[k := value];
      r := TriggerEvent(indices[k]);
      if r.Pass? {
        values := values[k := defaultValue];
      }
    }

    /**
     * `TriggerEventN(value)` for the `n`-th value (from 1): only that value
     * changes, and the event dispatched is the member it is bound to.
     */
    method TriggerEventN(n: int, value: T) returns (r: Outcome<CacheError>)
      requires Valid() && 1 <= n <= |indices|
      modifies this
      ensures Valid()
      ensures forall j :: 0 <= j < |values| && j != n - 1 ==> values[j] == old(values)[j]
      ensures r.Pass? <==> 0 <= indices[n - 1] < |events|
      ensures r.Pass? ==> dispatched == old(dispatched) + [Dispatch(events[indices[n - 1]], old(values)[n - 1 := value])]
      ensures r.Pass? ==> values == old(values)[n - 1 := defaultValue]
      ensures r.Fail? ==> r.error == IndexOutOfRange && dispatched == old(dispatched) && values == old(values)[n - 1 := value]
    {
      r := Trigger(n - 1, value);
    }
  }

  /**
   * Builds an `n`-value cache (the classes have one to six values) with last
   * index `index`; raises `ArgumentException` iff the length check after
   * some value fails, as `Chain` says.
   */
  method NewCache<E, T>(events: seq<E>, n: nat, index: Int32, defaultValue: T) returns (r: Result<Cache<E, T>, CacheError>)
    requires 1 <= n <= 6
    ensures r.Err? <==> Chain(|events|, n, index).Err?
    ensures r.Err? ==> r.error == ArgumentException
    ensures r.Ok? ==> fresh(r.value) && r.value.Valid() && r.value.events == events
    ensures r.Ok? ==> r.value.indices == Chain(|events|, n, index).value
    ensures r.Ok? ==> r.value.values == seq(n, _ => defaultValue) && r.value.dispatched == []
  {
    var chain := Chain(|events|, n, index);
    if chain.Err? {
      return Err(chain.error);
    }
    var cache := new Cache(events, chain.value, defaultValue);
    return Ok(cache);
  }
}
