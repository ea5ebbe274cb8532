/**
 Ports for dynamic listeners: sequential allocation in uint16 arithmetic from a uint64 counter.
 */
module Ports {
  import opened Wrappers
  import opened Bytes

  type uint16 = x: int | 0 <= x < 0x1_0000
  const TWO_64 := 0x1_0000_0000_0000_0000

  datatype PortError = NoPorts | Overflow

  /** nextDynamicPort: the sum wraps, and a wrapped port is recognised by being too small. */
  function NextDynamicPort(min: uint16, max: uint16, offset: uint64): Result<uint16, PortError> {
    if max == 0 then Failure(NoPorts)
    else
      var port := (min + offset % max) % 0x1_0000;
      if port < min then Failure(Overflow) else Success(port)
  }

  /** The wrap is always noticed, and a port that is given out is in the range. */
  lemma PortsStayInRange(min: uint16, max: uint16, offset: uint64)
    requires max > 0
    ensures NextDynamicPort(min, max, offset).Failure? <==> min + offset % max > 0xFFFF
    ensures var p := NextDynamicPort(min, max, offset);
            p.Success? ==> p.value == min + offset % max && min <= p.value < min + max
  {
    var sum := min + offset % max;
    assert sum < 2 * 0x1_0000;
    if sum >= 0x1_0000 {
      assert sum % 0x1_0000 == sum - 0x1_0000;
    }
  }

  // ---------------------------------------------------------------- configuration

  /** The part of the configuration that concerns dynamic ports. */
  class PortConfig {
    const disableDynamicListeners: bool
    const deterministicListeners: bool
    const dynamicSequentialMinPort: uint16
    var dynamicSequentialMaxPorts: uint16

    constructor (disabled: bool, deterministic: bool, min: uint16, max: uint16)
      ensures disableDynamicListeners == disabled && deterministicListeners == deterministic
      ensures dynamicSequentialMinPort == min && dynamicSequentialMaxPorts == max
    {
      disableDynamicListeners, deterministicListeners, dynamicSequentialMinPort := disabled, deterministic, min;
      dynamicSequentialMaxPorts := max;
    }

    /** Validate refuses what can not work and fills in the size of the range. */
    method Validate() returns (ok: bool)
      modifies this
      ensures ok <==> disableDynamicListeners
                      || (dynamicSequentialMinPort == 0 ==>
                          !deterministicListeners && old(dynamicSequentialMaxPorts) == 0)
      ensures dynamicSequentialMaxPorts ==
              if !disableDynamicListeners && old(dynamicSequentialMaxPorts) == 0 && dynamicSequentialMinPort > 0
              then 0x1_0000 - dynamicSequentialMinPort else old(dynamicSequentialMaxPorts)
      ensures ok && !disableDynamicListeners && dynamicSequentialMinPort > 0 ==> dynamicSequentialMaxPorts > 0
    {
      if !disableDynamicListeners {
        if dynamicSequentialMinPort == 0 && deterministicListeners {
          return false;
        }
        if dynamicSequentialMinPort == 0 && dynamicSequentialMaxPorts > 0 {
          return false;
        }
        if dynamicSequentialMaxPorts == 0 && dynamicSequentialMinPort > 0 {
          dynamicSequentialMaxPorts := (0x1_0000 - dynamicSequentialMinPort) % 0x1_0000;
        }
      }
      return true;
    }
  }

  /** With the size that Validate fills in, no port is ever refused. */
  lemma DefaultRangeNeverOverflows(min: uint16, offset: uint64)
    requires min > 0
    ensures NextDynamicPort(min, 0x1_0000 - min, offset).Success?
  {
    PortsStayInRange(min, 0x1_0000 - min, offset);
  }

  // ---------------------------------------------------------------- consecutive allocations

  /** The ports of the `n` allocations from counter value `c` on; the counter wraps. */
  function PortsFrom(min: uint16, max: uint16, c: uint64, n: nat): seq<int>
    requires max > 0 && min + max <= 0x1_0000
  {
    seq(n, i requires 0 <= i < n => PortAt(min, max, c, i))
  }

  function PortAt(min: uint16, max: uint16, c: uint64, i: nat): (p: int)
    requires max > 0 && min + max <= 0x1_0000
    ensures p == min + (c + i) % TWO_64 % max
  {
    PortsStayInRange(min, max, (c + i) % TWO_64);
    NextDynamicPort(min, max, (c + i) % TWO_64).value
  }

  function Range(min: nat, max: nat): (r: seq<int>)
    ensures |r| == max && forall i :: 0 <= i < max ==> r[i] == min + i
  {
    seq(max, i => min + i)
  }

  /** The counter reaches its limit among the `max` allocations from `c` on. */
  predicate Wraps(max: uint16, c: uint64) {
    c + max > TWO_64
  }

  /** Without a wrap, or with one that the range divides, the residues go round once. */
  lemma Residue(max: uint16, c: uint64, i: nat)
    requires 0 < max && i < max && (!Wraps(max, c) || TWO_64 % max == 0)
    ensures (c + i) % TWO_64 % max == if c % max + i < max then c % max + i else c % max + i - max
  {
    var sum := c + i;
    if sum >= TWO_64 {
      assert sum % TWO_64 == sum - TWO_64;
      Divides(TWO_64, max, sum);
    } else {
      assert sum % TWO_64 == sum;
    }
    SumMod(c, i, max);
  }

  lemma Divides(big: nat, m: nat, sum: nat)
    requires m > 0 && big % m == 0 && sum >= big
    ensures (sum - big) % m == sum % m
  {
    var q := big / m;
    assert big == q * m;
    var r := (sum - big) / m;
    assert sum == (q + r) * m + (sum - big) % m;
    ModUnique(sum, m, q + r, (sum - big) % m);
  }

  lemma ModUnique(x: int, m: nat, q: int, r: int)
    requires m > 0 && 0 <= r < m && x == q * m + r
    ensures x % m == r
  {
    var d := x / m - q;
    assert d * m == r - x % m by {
      assert x == (x / m) * m + x % m;
      assert d * m == (x / m) * m - q * m;
    }
    SmallMultiple(d, m);
  }

  lemma SmallMultiple(d: int, m: int)
    requires -m < d * m < m
    ensures d == 0
  {
  }

  lemma SumMod(c: nat, i: nat, m: nat)
    requires i < m
    ensures (c + i) % m == if c % m + i < m then c % m + i else c % m + i - m
  {
    if c % m + i < m {
      ModUnique(c + i, m, c / m, c % m + i);
    } else {
      assert c + i == (c / m + 1) * m + (c % m + i - m);
      ModUnique(c + i, m, c / m + 1, c % m + i - m);
    }
  }

  /** The residue that `m` values in a row leave out, when they wrap at `big`, no multiple of `m`. */
  function Missing(big: nat, m: nat, c: nat): int
    requires 0 < m
  {
    if big % m >= big - c then m - 1 else m + big % m - (big - c) - 1
  }

  lemma MissingIsMissing(big: nat, m: nat, c: nat, i: nat)
    requires 0 < m <= big && i < m && c < big < c + m && big % m != 0
    ensures 0 <= Missing(big, m, c) < m
    ensures (c + i) % big % m != Missing(big, m, c)
  {
    var k := big - c;
    if i >= k {
      ModUnique(c + i, big, 1, i - k);
      ModUnique(i - k, m, 0, i - k);
    } else {
      ModUnique(c + i, big, 0, c + i);
      NotBelow(big, m, k, k - i);
    }
  }

  lemma NotBelow(big: nat, m: nat, k: nat, below: nat)
    requires 0 < below <= k < m <= big && big % m != 0
    ensures var r := big % m; (big - below) % m != if r >= k then m - 1 else m + r - k - 1
  {
    BelowModulus(big, m, below);
  }

  lemma BelowModulus(big: nat, m: nat, below: nat)
    requires 0 < below < m <= big
    ensures (big - below) % m == if big % m >= below then big % m - below else big % m - below + m
  {
    var q, r := big / m, big % m;
    assert big == q * m + r;
    if r >= below {
      ModUnique(big - below, m, q, r - below);
    } else {
      assert (q - 1) * m == q * m - m;
      ModUnique(big - below, m, q - 1, r - below + m);
    }
  }

  /**
   `max` allocations in a row give each port of the range once, exactly when the counter does not
   wrap among them or its 2^64 values are a multiple of the range.
   */
  lemma ConsecutivePortsAreAPermutation(min: uint16, max: uint16, c: uint64)
    requires max > 0 && min + max <= 0x1_0000
    ensures multiset(PortsFrom(min, max, c, max)) == multiset(Range(min, max)) <==> !Wraps(max, c) || TWO_64 % max == 0
  {
    var ports, range := PortsFrom(min, max, c, max), Range(min, max);
    if !Wraps(max, c) || TWO_64 % max == 0 {
      var k := c % max;
      forall i | 0 <= i < max
        ensures ports[i] == (range[k..] + range[..k])[i]
      {
        Residue(max, c, i);
      }
      assert ports == range[k..] + range[..k];
      assert range == range[..k] + range[k..];
    } else {
      var p := min + Missing(TWO_64, max, c);
      forall i | 0 <= i < max
        ensures ports[i] != p
      {
        MissingIsMissing(TWO_64, max, c, i);
      }
      MissingIsMissing(TWO_64, max, c, 0);
      assert range[Missing(TWO_64, max, c)] == p;
      assert p in range && p !in ports;
      assert p in multiset(range) && p !in multiset(ports);
    }
  }
}
