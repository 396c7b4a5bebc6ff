/** Rings addressed by counters that wrap at a machine word, seen as windows on an unbounded history. */
module Counters {

  lemma MulAtLeast(k: int, m: nat)
    requires k >= 1
    ensures k * m >= m
  {
    assert k * m == (k - 1) * m + m;
  }

  lemma SmallMultiple(k: int, m: nat, d: int)
    requires d == k * m && 0 - m < d < m
    ensures k == 0
  {
    if k >= 1 { MulAtLeast(k, m); } else if k <= -1 { MulAtLeast(-k, m); }
  }

  lemma RemainderUnique(x: nat, q: int, m: nat, r: nat)
    requires x == q * m + r && r < m
    ensures x % m == r
  {
    assert x == x / m * m + x % m;
    assert (q - x / m) * m == q * m - x / m * m;
    SmallMultiple(q - x / m, m, x % m - r);
  }

  lemma QuotientIs(n: nat, b: nat, q: nat, r: nat)
    requires b > 0 && n == q * b + r && r < b
    ensures n / b == q
  {
    RemainderUnique(n, q, b, r);
    var k := n / b;
    assert n == k * b + r && (q - k) * b == q * b - k * b;
    SmallMultiple(q - k, b, 0);
  }

  lemma WrapMod(n: nat, size: nat, wrap: nat)
    requires 0 < size && 0 < wrap && wrap % size == 0
    ensures n % wrap % size == n % size
  {
    var c, k, r := wrap / size, n / wrap, n % wrap;
    assert wrap == c * size && n == k * wrap + r && r == r / size * size + r % size;
    assert k * (c * size) == (k * c) * size && (k * c + r / size) * size == (k * c) * size + r / size * size by {
      Distribute(k, c, size, r / size);
    }
    RemainderUnique(n, k * c + r / size, size, r % size);
  }

  lemma Distribute(k: int, c: int, m: int, e: int)
    ensures k * (c * m) == (k * c) * m && (k * c + e) * m == (k * c) * m + e * m
  {
  }

  /** Two positions less than a ring apart have different slots. */
  lemma SlotsDiffer(i: nat, j: nat, size: nat)
    requires 0 < size && i < j < i + size
    ensures i % size != j % size
  {
    if i % size == j % size {
      assert i == i / size * size + i % size && j == j / size * size + j % size;
      assert (j / size - i / size) * size == j / size * size - i / size * size;
      SmallMultiple(j / size - i / size, size, j - i);
    }
  }

  /** The wrapping counters tell whether anything is pending, and how much. */
  lemma CountersTell(a: nat, b: nat, wrap: nat)
    requires a <= b < a + wrap
    ensures a % wrap == b % wrap <==> a == b
    ensures (b % wrap - a % wrap) % wrap == b - a
  {
    if a < b { SlotsDiffer(a, b, wrap); }
    assert a == a / wrap * wrap + a % wrap && b == b / wrap * wrap + b % wrap;
    Difference(b % wrap - a % wrap, a / wrap - b / wrap, wrap, b - a, b / wrap, a / wrap);
  }

  lemma Difference(x: int, k: int, m: nat, d: nat, q: int, p: int)
    requires d < m && 0 - m < x < m && k == p - q && x == k * m + d - 0 && q * m - p * m == d - x
    ensures x % m == d
  {
    if k >= 1 { MulAtLeast(k, m); } else if k <= -2 { MulAtLeast(-k - 1, m); }
    assert k == 0 || k == -1;
  }

  lemma NextCounter(n: nat, wrap: nat)
    requires 1 < wrap
    ensures (n % wrap + 1) % wrap == (n + 1) % wrap
  {
    var q, r := n / wrap, n % wrap;
    assert n == q * wrap + r;
    NextRemainder(n, q, wrap, r);
  }

  lemma NextRemainder(n: nat, q: int, wrap: nat, r: nat)
    requires n == q * wrap + r && r < wrap
    ensures (r + 1) % wrap == (n + 1) % wrap
  {
    if r + 1 == wrap {
      assert (q + 1) * wrap == q * wrap + wrap;
      RemainderUnique(n + 1, q + 1, wrap, 0);
      RemainderUnique(r + 1, 1, wrap, 0);
    } else {
      RemainderUnique(n + 1, q, wrap, r + 1);
      RemainderUnique(r + 1, 0, wrap, r + 1);
    }
  }

  /** Slots `[from, |log|)` of the history are in the ring; the rest of the ring is stale. */
  ghost predicate Window(ring: seq<int>, log: seq<int>, from: nat, size: nat) {
    && 0 < size && |ring| == size && from <= |log| <= from + size
    && (forall i {:trigger log[i]} | from <= i < |log| :: ring[i % size] == log[i])
  }

  /** Adding an entry overwrites no pending slot, as long as there is room. */
  lemma WindowPush(ring: seq<int>, log: seq<int>, from: nat, size: nat, x: int)
    requires Window(ring, log, from, size) && |log| - from < size
    ensures Window(ring[|log| % size := x], log + [x], from, size)
  {
    forall i | from <= i < |log| ensures i % size != |log| % size { SlotsDiffer(i, |log|, size); }
  }

  lemma WindowPop(ring: seq<int>, log: seq<int>, from: nat, size: nat)
    requires Window(ring, log, from, size) && from < |log|
    ensures Window(ring, log, from + 1, size) && ring[from % size] == log[from]
  {
  }

  /** The writer's counter `idx` and the reader's counter `seen` stand for positions in the history `log`. */
  ghost predicate RingOf(ring: seq<int>, idx: nat, seen: nat, log: seq<int>, from: nat, size: nat, wrap: nat) {
    Window(ring, log, from, size) && size < wrap && wrap % size == 0 && idx == |log| % wrap && seen == from % wrap
  }

  lemma RingPush(ring: seq<int>, idx: nat, seen: nat, log: seq<int>, from: nat, size: nat, wrap: nat, x: int)
    requires RingOf(ring, idx, seen, log, from, size, wrap) && |log| < from + size
    ensures RingOf(ring[idx % size := x], (idx + 1) % wrap, seen, log + [x], from, size, wrap)
  {
    hide Window;
    assert 0 < size by { WindowSize(ring, log, from, size); }
    NextCounter(|log|, wrap);
    WrapMod(|log|, size, wrap);
    WindowPush(ring, log, from, size, x);
  }

  lemma WindowSize(ring: seq<int>, log: seq<int>, from: nat, size: nat)
    requires Window(ring, log, from, size)
    ensures 0 < size == |ring| && from <= |log| <= from + size
  {
  }

  /** The counters differ exactly when an entry is pending, and then the reader's slot holds the oldest one. */
  lemma RingPop(ring: seq<int>, idx: nat, seen: nat, log: seq<int>, from: nat, size: nat, wrap: nat)
    requires RingOf(ring, idx, seen, log, from, size, wrap)
    ensures 0 < size == |ring| && from <= |log| <= from + size && (idx - seen) % wrap == |log| - from
    ensures seen == idx <==> from == |log|
    ensures from < |log| ==>
      ring[seen % size] == log[from] && RingOf(ring, idx, (seen + 1) % wrap, log, from + 1, size, wrap)
  {
    hide Window;
    WindowSize(ring, log, from, size);
    CountersTell(from, |log|, wrap);
    NextCounter(from, wrap);
    if from < |log| {
      WindowPop(ring, log, from, size);
      WrapMod(from, size, wrap);
    }
  }
}
