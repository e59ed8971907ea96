/**
 * The rolling sample histories (`VecDeque<u64>`) kept per CPU core, per
 * network direction and per GPU: created holding 60 zeros, and on every
 * sample the front is popped once 60 samples are held, then the new sample
 * is pushed at the back.
 */
module History {

  /** The number of samples a sparkline shows. */
  const Capacity: nat := 60

  /** `n` zero samples. */
  function Zeros(n: nat): (h: seq<nat>)
    ensures |h| == n
    ensures forall i :: 0 <= i < n ==> h[i] == 0
  {
    seq(n, _ => 0)
  }

  /** The `for _ in 0..60 { history.push_back(0) }` loop that fills a new history. */
  method NewHistory() returns (h: seq<nat>)
    ensures |h| == Capacity
    ensures forall i :: 0 <= i < |h| ==> h[i] == 0
    ensures h == Zeros(Capacity)
  {
    h := [];
    for i := 0 to Capacity
      invariant |h| == i
      invariant forall k :: 0 <= k < i ==> h[k] == 0
    {
      h := h + [0];
    }
  }

  /** `if h.len() >= 60 { h.pop_front() }; h.push_back(v)`. */
  function Push(h: seq<nat>, v: nat): (r: seq<nat>)
    ensures |r| == (if |h| >= Capacity then |h| else |h| + 1)
    ensures r[|r| - 1] == v
    ensures |h| >= Capacity ==> forall i :: 0 <= i < |r| - 1 ==> r[i] == h[i + 1]
    ensures |h| < Capacity ==> forall i :: 0 <= i < |r| - 1 ==> r[i] == h[i]
  {
    (if |h| >= Capacity then h[1..] else h) + [v]
  }

  /** A history never grows beyond `Capacity`. */
  lemma PushBounded(h: seq<nat>, v: nat)
    requires |h| <= Capacity
    ensures |Push(h, v)| <= Capacity
    ensures |h| == Capacity ==> |Push(h, v)| == Capacity
  {
  }

  /** The samples `vs`, pushed in order. */
  function PushAll(h: seq<nat>, vs: seq<nat>): seq<nat>
    decreases |vs|
  {
    if vs == [] then h else PushAll(Push(h, vs[0]), vs[1..])
  }

  /**
   * A full history is a sliding window: after any run of pushes it holds
   * the last `Capacity` values of the old samples followed by the new ones.
   */
  lemma {:induction false} PushAllWindow(h: seq<nat>, vs: seq<nat>)
    requires |h| == Capacity
    ensures PushAll(h, vs) == (h + vs)[|vs|..]
    decreases |vs|
  {
    if vs != [] {
      var h' := Push(h, vs[0]);
      assert h' == h[1..] + [vs[0]];
      PushAllWindow(h', vs[1..]);
      assert h' + vs[1..] == (h + vs)[1..];
    } else {
      assert h + vs == h;
    }
  }

  /**
   * A history started with `Capacity` zeros holds exactly `Capacity`
   * samples after `n` pushes, and its newest `min(n, Capacity)` samples
   * are the pushed values in push order.
   */
  lemma PushedWindow(vs: seq<nat>)
    ensures |PushAll(Zeros(Capacity), vs)| == Capacity
    ensures var h := PushAll(Zeros(Capacity), vs);
            var m := if |vs| < Capacity then |vs| else Capacity;
            h[Capacity - m..] == vs[|vs| - m..]
  {
    PushAllWindow(Zeros(Capacity), vs);
    var m := if |vs| < Capacity then |vs| else Capacity;
    var all := Zeros(Capacity) + vs;
    assert all[|vs|..][Capacity - m..] == all[|vs| + Capacity - m..];
    assert all[|vs| + Capacity - m..] == vs[|vs| - m..];
  }
}
