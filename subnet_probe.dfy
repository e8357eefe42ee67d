/**
 * The host range of `scanDevicesUsingRealSubnet` and the probe enumeration of
 * `activeProbeRange` (NetworkToolsViewModel). The range is computed, as in the
 * app, on the little-endian DHCP integers with 32-bit wrap-around. The probes
 * themselves (UDP to ports 9 and 5353, two TCP connects) are fire-and-forget
 * I/O whose only effect is on the neighbour table, so a probe is modelled as
 * the address and the two TCP ports it is sent to.
 */
module SubnetProbe {
  import opened Int32
  import opened IpAddress
  import opened KotlinText

  /** `0xFFFFFF00.toInt()`, the "fallback /24" used when the DHCP netmask is 0. */
  const FALLBACK_MASK: Int := Of(0xFFFF_FF00)
  /** `maxHosts` */
  const MAX_HOSTS: int := 512
  /** `concurrency`: probes launched before the batch is awaited. */
  const CONCURRENCY: int := 80
  /** `ports`, rotated over the targets. */
  const PORTS: seq<int> := [80, 443, 22, 53]

  datatype ScanRange = ScanRange(network: Int, broadcast: Int, start: Int, end: Int, hostCount: int, step: int)

  function MaxInt(a: int, b: int): int {
    if a >= b then a else b
  }

  /** `if (hostCount > maxHosts) (hostCount / maxHosts) else 1` */
  function StepFor(hostCount: int): (step: int)
    ensures step >= 1
    ensures hostCount <= MAX_HOSTS ==> step == 1
  {
    if hostCount > MAX_HOSTS then hostCount / MAX_HOSTS else 1
  }

  /** `if (dhcp.netmask != 0) dhcp.netmask else 0xFFFFFF00.toInt()` */
  function EffectiveMask(netmask: Int): (mask: Int)
    ensures netmask != Int(0, 0, 0, 0) ==> mask == netmask
    ensures netmask == Int(0, 0, 0, 0) ==> mask == FALLBACK_MASK
  {
    if netmask == Int(0, 0, 0, 0) then FALLBACK_MASK else netmask
  }

  /** Network, broadcast, first and last host, count and stride for a given mask. */
  function RangeWithin(local: Int, mask: Int): (r: ScanRange)
    ensures r.network == And(local, mask) && r.broadcast == Or(r.network, Inv(mask))
    ensures r.hostCount >= 0 && r.step >= 1
    ensures r.step == StepFor(r.hostCount)
    ensures CountsWidth(r)
  {
    var network := And(local, mask);
    RangeFrom(network, Or(network, Inv(mask)))
  }

  /** The host count is the width `end - start + 1` of the range whenever that width fits an `Int`. */
  predicate CountsWidth(r: ScanRange) {
    var width := Value(r.end) - Value(r.start) + 1;
    MIN <= width - 1 && width <= MAX ==> r.hostCount == MaxInt(0, width)
  }

  /** The host range strictly inside `network .. broadcast`, its count and stride. */
  function RangeFrom(network: Int, broadcast: Int): (r: ScanRange)
    ensures r.network == network && r.broadcast == broadcast
    ensures r.start == Add(network, ONE) && r.end == Sub(broadcast, ONE)
    ensures r.hostCount >= 0 && r.step >= 1
    ensures r.step == StepFor(r.hostCount)
    ensures CountsWidth(r)
  {
    var start := Add(network, ONE);
    var end := Sub(broadcast, ONE);
    var hostCount := HostCount(start, end);
    ScanRange(network, broadcast, start, end, hostCount, StepFor(hostCount))
  }

  /** `(end - start + 1).coerceAtLeast(0)` in 32-bit arithmetic: the true width whenever it fits. */
  function HostCount(start: Int, end: Int): (hostCount: int)
    ensures hostCount >= 0
    ensures var width := Value(end) - Value(start) + 1;
      MIN <= width - 1 && width <= MAX ==> hostCount == MaxInt(0, width)
  {
    var count := Add(Sub(end, start), ONE);
    WidthWhenItFits(Value(end), Value(start), Value(Sub(end, start)), Value(count));
    MaxInt(0, Value(count))
  }

  /** When `end - start + 1` fits an `Int`, neither 32-bit step of computing it wraps. */
  lemma WidthWhenItFits(e: int, s: int, d: int, c: int)
    requires MIN <= e <= MAX && MIN <= s <= MAX
    requires d == Wrap(e - s) && c == Wrap(d + 1)
    ensures MIN <= e - s && e - s + 1 <= MAX ==> c == e - s + 1
  {
  }

  /** The range arithmetic of `scanDevicesUsingRealSubnet`. */
  function RangeFor(local: Int, netmask: Int): ScanRange {
    RangeWithin(local, EffectiveMask(netmask))
  }

  /* ----------------------------- the probe enumeration ----------------------------- */

  /**
   * The counter values `i, i+step, …` not above `end`, leaving out `skip`: the
   * addresses `activeProbeRange` probes, with a counter that does not wrap.
   */
  function Targets(i: int, end: int, step: int, skip: int): seq<int>
    requires step >= 1
    decreases end - i + step
  {
    if i > end then []
    else (if i == skip then [] else [i]) + Targets(i + step, end, step, skip)
  }

  /** Every target lies in `[i, end]` and differs from `skip`. */
  lemma {:induction false} TargetsInRange(i: int, end: int, step: int, skip: int, t: int)
    requires step >= 1
    requires t in Targets(i, end, step, skip)
    ensures i <= t <= end && t != skip
    decreases end - i + step
  {
    TargetsUnfold(i, end, step, skip);
    if t != i || i == skip {
      TargetsInRange(i + step, end, step, skip, t);
    }
  }

  /** The targets strictly increase. */
  lemma {:induction false} TargetsIncreasing(i: int, end: int, step: int, skip: int, k: nat, j: nat)
    requires step >= 1
    requires k < j < |Targets(i, end, step, skip)|
    ensures Targets(i, end, step, skip)[k] < Targets(i, end, step, skip)[j]
    decreases end - i + step
  {
    TargetsUnfold(i, end, step, skip);
    var rest := Targets(i + step, end, step, skip);
    if i == skip {
      TargetsIncreasing(i + step, end, step, skip, k, j);
    } else if k == 0 {
      assert Targets(i, end, step, skip)[j] == rest[j - 1];
      TargetsInRange(i + step, end, step, skip, rest[j - 1]);
    } else {
      TargetsIncreasing(i + step, end, step, skip, k - 1, j - 1);
    }
  }

  lemma TargetsUnfold(i: int, end: int, step: int, skip: int)
    requires step >= 1 && i <= end
    ensures Targets(i, end, step, skip) == (if i == skip then [] else [i]) + Targets(i + step, end, step, skip)
  {
  }

  /** Every address of the progression that is in range and not skipped is a target. */
  lemma {:induction false} TargetsComplete(i: int, end: int, step: int, skip: int, n: nat)
    requires step >= 1
    requires i + n * step <= end && i + n * step != skip
    ensures i + n * step in Targets(i, end, step, skip)
    decreases n
  {
    if n > 0 {
      assert i + step + (n - 1) * step == i + n * step;
      TargetsComplete(i + step, end, step, skip, n - 1);
    }
  }

  /** Every target lies on the progression: it is `i + n * step` for some `n`. */
  lemma {:induction false} TargetsOnProgression(i: int, end: int, step: int, skip: int, t: int)
    requires step >= 1
    requires t in Targets(i, end, step, skip)
    ensures exists n: nat :: t == i + n * step
    decreases end - i + step
  {
    if t == i {
      assert t == i + 0 * step;
    } else {
      TargetsUnfold(i, end, step, skip);
      TargetsInRange(i, end, step, skip, t);
      assert t in Targets(i + step, end, step, skip);
      TargetsOnProgression(i + step, end, step, skip, t);
      var n: nat :| t == i + step + n * step;
      assert t == i + (n + 1) * step;
    }
  }

  /** At most one target per stride of the range: `|targets| * step <= end - i + step`. */
  lemma {:induction false} TargetsCount(i: int, end: int, step: int, skip: int)
    requires step >= 1
    ensures |Targets(i, end, step, skip)| * step <= MaxInt(0, end - i + step)
    decreases end - i + step
  {
    if i <= end {
      var rest := Targets(i + step, end, step, skip);
      TargetsCount(i + step, end, step, skip);
      assert |Targets(i, end, step, skip)| <= |rest| + 1;
      MulMonotone(|Targets(i, end, step, skip)|, |rest| + 1, step);
      assert (|rest| + 1) * step == |rest| * step + step;
    }
  }

  lemma MulMonotone(a: nat, b: nat, c: nat)
    requires a <= b
    ensures a * c <= b * c
  {
  }

  /** With the stride set for the exact width of `[start, end]`, at most 1023 targets. */
  lemma StrideBound(start: int, end: int, skip: int)
    ensures |Targets(start, end, StepFor(MaxInt(0, end - start + 1)), skip)| <= 1023
  {
    var h := MaxInt(0, end - start + 1);
    var step := StepFor(h);
    var n := |Targets(start, end, step, skip)|;
    TargetsCount(start, end, step, skip);
    if h > MAX_HOSTS {
      assert h < MAX_HOSTS * step + MAX_HOSTS;
      assert n * step < 1024 * step;
      MulCancel(n, 1024, step);
    }
  }

  /**
   * With the stride `scanDevicesUsingRealSubnet` computes for a lease, at most
   * 1023 addresses are probed, whenever `end - start + 1` fits an `Int` (so
   * that `hostCount` is the true width).
   */
  lemma ProbeCountBound(local: Int, netmask: Int, skip: int)
    requires var r := RangeFor(local, netmask);
      MIN <= Value(r.end) - Value(r.start) && Value(r.end) - Value(r.start) + 1 <= MAX
    ensures var r := RangeFor(local, netmask);
      |Targets(Value(r.start), Value(r.end), r.step, skip)| <= 1023
  {
    CountedStrideBound(RangeFor(local, netmask), skip);
  }

  /** The stride bound for any range whose count is its width and whose stride follows that count. */
  lemma CountedStrideBound(r: ScanRange, skip: int)
    requires CountsWidth(r) && r.step == StepFor(r.hostCount)
    requires MIN <= Value(r.end) - Value(r.start) && Value(r.end) - Value(r.start) + 1 <= MAX
    ensures |Targets(Value(r.start), Value(r.end), r.step, skip)| <= 1023
  {
    StrideBound(Value(r.start), Value(r.end), skip);
  }

  lemma MulCancel(a: nat, b: nat, c: nat)
    requires c > 0 && a * c < b * c
    ensures a < b
  {
    if a >= b {
      MulMonotone(b, a, c);
    }
  }

  /* ----------------------------- probes and batches ----------------------------- */

  /**
   * One probed target: the counter value and the index `idx` it was launched
   * with, which picks the two TCP ports tried. The UDP pokes to ports 9 and
   * 5353 are the same for every target.
   */
  datatype Probe = Probe(counter: int, idx: nat) {
    /** The text `intToIp(i)` that every packet of this probe is sent to. */
    function Address(): string {
      IntToIp(Of(counter))
    }

    /** `ports[idx % ports.size]` */
    function Port1(): int {
      PORTS[idx % 4]
    }

    /** `ports[(idx + 2) % ports.size]` */
    function Port2(): int {
      PORTS[(idx + 2) % 4]
    }
  }

  /** The `idx`-th probed target. */
  function ProbeFor(target: int, idx: nat): Probe {
    Probe(target, idx)
  }

  /** Every probe tries two different ports of the four; consecutive probes rotate through them. */
  lemma ProbePortsDiffer(target: int, idx: nat)
    ensures var p := ProbeFor(target, idx);
      p.counter == target && p.Port1() != p.Port2() && p.Port1() in PORTS && p.Port2() in PORTS
      && p.Port2() == ProbeFor(target, idx + 2).Port1()
      && p.Port1() == ProbeFor(target, idx + 4).Port1()
  {
  }

  /** The probes of a list of targets: the `k`-th target probed gets index `k`. */
  function ProbesFor(targets: seq<int>): seq<Probe> {
    seq(|targets|, k requires 0 <= k < |targets| => ProbeFor(targets[k], k))
  }

  lemma ProbesForSnoc(targets: seq<int>, t: int)
    ensures ProbesFor(targets + [t]) == ProbesFor(targets) + [ProbeFor(t, |targets|)]
  {
  }

  /** The batches awaited one after another, concatenated. */
  function Flatten(batches: seq<seq<Probe>>): seq<Probe> {
    if batches == [] then [] else Flatten(batches[..|batches| - 1]) + batches[|batches| - 1]
  }

  lemma FlattenSnoc(batches: seq<seq<Probe>>, b: seq<Probe>)
    ensures Flatten(batches + [b]) == Flatten(batches) + b
  {
    assert (batches + [b])[..|batches|] == batches;
  }

  /**
   * The loop of `activeProbeRange`: walks `start, start+step, …` up to `end`,
   * skips the local address, and awaits the pending tasks whenever 80 are
   * in flight. The result lists the batches awaited, in order: every awaited
   * batch but the last is full, and together they probe exactly the targets.
   */
  method ActiveProbeRange(start: int, end: int, step: int, skip: int) returns (batches: seq<seq<Probe>>)
    requires step >= 1
    ensures Flatten(batches) == ProbesFor(Targets(start, end, step, skip))
    ensures forall k :: 0 <= k < |batches| ==> 1 <= |batches[k]| <= CONCURRENCY
    ensures forall k :: 0 <= k < |batches| - 1 ==> |batches[k]| == CONCURRENCY
  {
    var tasks: seq<Probe> := [];
    batches := [];
    var i := start;
    var idx := 0;
    while i <= end
      invariant Flatten(batches) + tasks + ProbesFrom(i, end, step, skip, idx) == ProbesFrom(start, end, step, skip, 0)
      invariant |tasks| <= CONCURRENCY
      invariant batches != [] ==> tasks != []
      invariant AllFull(batches)
      decreases end - i + step
    {
      if i != skip {
        if |tasks| >= CONCURRENCY {
          FlushBatch(batches, tasks, ProbesFrom(i, end, step, skip, idx));
          batches := batches + [tasks];
          tasks := [];
        }
        ProbeOne(Flatten(batches), tasks, i, end, step, skip, idx);
        tasks := tasks + [ProbeFor(i, idx)];
        idx := idx + 1;
      } else {
        assert ProbesFrom(i, end, step, skip, idx) == ProbesFrom(i + step, end, step, skip, idx);
      }
      i := i + step;
    }
    LastBatch(batches, tasks, start, end, step, skip, ProbesFrom(i, end, step, skip, idx));
    if |tasks| > 0 {
      batches := batches + [tasks];
    }
  }

  /**
   * The probes the loop still has to launch from counter `i` on, the next
   * probed target taking port index `idx`.
   */
  function ProbesFrom(i: int, end: int, step: int, skip: int, idx: nat): seq<Probe>
    requires step >= 1
    decreases end - i + step
  {
    if i > end then []
    else if i == skip then ProbesFrom(i + step, end, step, skip, idx)
    else [ProbeFor(i, idx)] + ProbesFrom(i + step, end, step, skip, idx + 1)
  }

  /** The probes still to come are those of the remaining targets, numbered on from the visited ones. */
  lemma {:induction false} ProbesFromTargets(visited: seq<int>, i: int, end: int, step: int, skip: int)
    requires step >= 1
    ensures ProbesFor(visited) + ProbesFrom(i, end, step, skip, |visited|) == ProbesFor(visited + Targets(i, end, step, skip))
    decreases end - i + step
  {
    if i > end {
      assert visited + [] == visited;
    } else if i == skip {
      ProbesFromTargets(visited, i + step, end, step, skip);
      SkippedCounter(visited, i, end, step, skip);
    } else {
      ProbesFromTargets(visited + [i], i + step, end, step, skip);
      ProbedCounter(visited, i, end, step, skip);
    }
  }

  lemma SkippedCounter(visited: seq<int>, i: int, end: int, step: int, skip: int)
    requires step >= 1 && i <= end && i == skip
    ensures ProbesFrom(i, end, step, skip, |visited|) == ProbesFrom(i + step, end, step, skip, |visited|)
    ensures visited + Targets(i, end, step, skip) == visited + Targets(i + step, end, step, skip)
  {
    TargetsUnfold(i, end, step, skip);
    assert [] + Targets(i + step, end, step, skip) == Targets(i + step, end, step, skip);
  }

  lemma ProbedCounter(visited: seq<int>, i: int, end: int, step: int, skip: int)
    requires step >= 1 && i <= end && i != skip
    ensures ProbesFor(visited) + ProbesFrom(i, end, step, skip, |visited|)
         == ProbesFor(visited + [i]) + ProbesFrom(i + step, end, step, skip, |visited + [i]|)
    ensures visited + Targets(i, end, step, skip) == (visited + [i]) + Targets(i + step, end, step, skip)
  {
    ProbedStep(visited, i, end, step, skip);
    TargetsUnfold(i, end, step, skip);
    Regroup(visited, i, Targets(i + step, end, step, skip));
  }

  lemma ProbedStep(visited: seq<int>, i: int, end: int, step: int, skip: int)
    requires step >= 1 && i <= end && i != skip
    ensures ProbesFor(visited) + ProbesFrom(i, end, step, skip, |visited|)
         == ProbesFor(visited + [i]) + ProbesFrom(i + step, end, step, skip, |visited + [i]|)
  {
    var n := |visited|;
    var rest := ProbesFrom(i + step, end, step, skip, n + 1);
    assert ProbesFrom(i, end, step, skip, n) == [ProbeFor(i, n)] + rest;
    ProbesForSnoc(visited, i);
    assert |visited + [i]| == n + 1;
    Regroup(ProbesFor(visited), ProbeFor(i, n), rest);
  }

  /** `a + ([x] + b) == (a + [x]) + b` */
  lemma Regroup<T>(a: seq<T>, x: T, b: seq<T>)
    ensures a + ([x] + b) == (a + [x]) + b
  {
  }

  predicate AllFull(batches: seq<seq<Probe>>) {
    forall k :: 0 <= k < |batches| ==> |batches[k]| == CONCURRENCY
  }

  /** Awaiting a full set of pending tasks moves them, unchanged, into the list of batches. */
  lemma FlushBatch(batches: seq<seq<Probe>>, tasks: seq<Probe>, rest: seq<Probe>)
    requires |tasks| == CONCURRENCY && AllFull(batches)
    ensures Flatten(batches + [tasks]) + [] + rest == Flatten(batches) + tasks + rest
    ensures AllFull(batches + [tasks])
  {
    FlattenSnoc(batches, tasks);
  }

  /** Launching the probe of target `i` takes it off the probes still to come. */
  lemma ProbeOne(done: seq<Probe>, tasks: seq<Probe>, i: int, end: int, step: int, skip: int, idx: nat)
    requires step >= 1 && i <= end && i != skip
    ensures done + (tasks + [ProbeFor(i, idx)]) + ProbesFrom(i + step, end, step, skip, idx + 1)
         == done + tasks + ProbesFrom(i, end, step, skip, idx)
  {
  }

  /** After the loop the last `awaitAll` takes what is still pending. */
  lemma LastBatch(batches: seq<seq<Probe>>, tasks: seq<Probe>, start: int, end: int, step: int, skip: int, rest: seq<Probe>)
    requires step >= 1 && rest == []
    requires Flatten(batches) + tasks + rest == ProbesFrom(start, end, step, skip, 0)
    requires |tasks| <= CONCURRENCY && (batches != [] ==> tasks != []) && AllFull(batches)
    ensures var all := if |tasks| > 0 then batches + [tasks] else batches;
      && Flatten(all) == ProbesFor(Targets(start, end, step, skip))
      && (forall k :: 0 <= k < |all| ==> 1 <= |all[k]| <= CONCURRENCY)
      && (forall k :: 0 <= k < |all| - 1 ==> |all[k]| == CONCURRENCY)
  {
    AllProbes(start, end, step, skip);
    LastFlatten(batches, tasks, rest);
    LastSizes(batches, tasks);
  }

  /** All probes of the loop, from the first counter on. */
  lemma AllProbes(start: int, end: int, step: int, skip: int)
    requires step >= 1
    ensures ProbesFrom(start, end, step, skip, 0) == ProbesFor(Targets(start, end, step, skip))
  {
    ProbesFromTargets([], start, end, step, skip);
    assert [] + Targets(start, end, step, skip) == Targets(start, end, step, skip);
    assert ProbesFor([]) == [];
  }

  lemma LastFlatten(batches: seq<seq<Probe>>, tasks: seq<Probe>, rest: seq<Probe>)
    requires rest == []
    ensures Flatten(if |tasks| > 0 then batches + [tasks] else batches) == Flatten(batches) + tasks + rest
  {
    if |tasks| > 0 {
      FlattenSnoc(batches, tasks);
    }
  }

  lemma LastSizes(batches: seq<seq<Probe>>, tasks: seq<Probe>)
    requires |tasks| <= CONCURRENCY && (batches != [] ==> tasks != []) && AllFull(batches)
    ensures var all := if |tasks| > 0 then batches + [tasks] else batches;
      && (forall k :: 0 <= k < |all| ==> 1 <= |all[k]| <= CONCURRENCY)
      && (forall k :: 0 <= k < |all| - 1 ==> |all[k]| == CONCURRENCY)
  {
  }

  /* ----------------------------- what the little-endian range means ----------------------------- */

  /** `Integer.reverseBytes`: the DHCP integer in host (big-endian) order and back. */
  function Swap(x: Int): Int {
    Int(x.b3, x.b2, x.b1, x.b0)
  }

  /**
   * With a mask whose low byte is 0 and whose other bytes are 255 (the fallback
   * constant is one), the range runs over the low byte: 1 to 254, the other
   * three bytes taken from the local address, one address at a time.
   */
  lemma LowByteRange(local: Int, mask: Int)
    requires mask == Int(0, 255, 255, 255)
    ensures RangeWithin(local, mask) == ScanRange(
      Int(0, local.b1, local.b2, local.b3), Int(255, local.b1, local.b2, local.b3),
      Int(1, local.b1, local.b2, local.b3), Int(254, local.b1, local.b2, local.b3), 254, 1)
  {
    LowByteNetwork(local, mask);
    LowByteBroadcast(local.b1, local.b2, local.b3, mask);
    IncrementLowByte(Int(0, local.b1, local.b2, local.b3));
    DecrementLowByte(Int(255, local.b1, local.b2, local.b3));
    LowByteCount(local.b1, local.b2, local.b3);
  }

  /** The mask whose low byte alone is 0 clears the low byte of the network. */
  lemma LowByteNetwork(local: Int, mask: Int)
    requires mask == Int(0, 255, 255, 255)
    ensures And(local, mask) == Int(0, local.b1, local.b2, local.b3)
  {
    ByteAndIdentities(local.b0); ByteAndIdentities(local.b1);
    ByteAndIdentities(local.b2); ByteAndIdentities(local.b3);
  }

  /** ... and its complement sets the low byte of the broadcast. */
  lemma LowByteBroadcast(b1: Byte, b2: Byte, b3: Byte, mask: Int)
    requires mask == Int(0, 255, 255, 255)
    ensures Or(Int(0, b1, b2, b3), Inv(mask)) == Int(255, b1, b2, b3)
  {
    InvOfLowByteMask();
    OrLowByte(b1, b2, b3);
  }

  lemma InvOfLowByteMask()
    ensures Inv(Int(0, 255, 255, 255)) == Int(255, 0, 0, 0)
  {
  }

  /** Or-ing in the low byte `255` sets that byte and keeps the other three. */
  lemma OrLowByte(b1: Byte, b2: Byte, b3: Byte)
    ensures Or(Int(0, b1, b2, b3), Int(255, 0, 0, 0)) == Int(255, b1, b2, b3)
  {
    ByteOrIdentities(b1); ByteOrIdentities(b2); ByteOrIdentities(b3);
    ByteOrIdentities(0);
  }

  /** From x.1 to x.254 of the low byte there are 254 hosts. */
  lemma LowByteCount(b1: Byte, b2: Byte, b3: Byte)
    ensures Value(Add(Sub(Int(254, b1, b2, b3), Int(1, b1, b2, b3)), ONE)) == 254
  {
    SameHighBytes(Int(254, b1, b2, b3), Int(1, b1, b2, b3));
  }

  /** Two `Int`s that agree above the low byte differ by the difference of their low bytes. */
  lemma SameHighBytes(x: Int, y: Int)
    requires x.b1 == y.b1 && x.b2 == y.b2 && x.b3 == y.b3
    ensures Value(x) - Value(y) == x.b0 - y.b0
  {
  }

  lemma NatToString255()
    ensures NatToString(255) == "255"
  {
    assert NatToString(25) == NatToString(2) + "5";
  }

  /** The fallback constant is the little-endian integer of "0.255.255.255". */
  lemma FallbackMaskText()
    ensures FALLBACK_MASK == Int(0, 255, 255, 255)
    ensures IntToIp(FALLBACK_MASK) == "0.255.255.255"
  {
    NatToString255();
  }

  /** "255.255.255.0" in the little-endian order of the DHCP integers: 0x00FFFFFF. */
  const SUBNET_24: Int := Int(255, 255, 255, 0)

  lemma SubnetMaskText()
    ensures IntToIp(SUBNET_24) == "255.255.255.0"
  {
    NatToString255();
  }

  /**
   * With a netmask of 0 the fallback constant applies, so the probe varies the
   * FIRST dotted octet of the local address (1 to 254) and keeps the other three.
   */
  lemma FallbackVariesFirstOctet(local: Int)
    ensures var r := RangeFor(local, Int(0, 0, 0, 0));
      r.start == Int(1, local.b1, local.b2, local.b3) && r.end == Int(254, local.b1, local.b2, local.b3)
      && r.step == 1
  {
    FallbackMaskText();
    LowByteRange(local, EffectiveMask(Int(0, 0, 0, 0)));
  }

  /** The mask 0x00FFFFFF keeps the three low bytes and sets the high byte of the broadcast. */
  lemma GenuineMaskRange(local: Int)
    ensures var r := RangeWithin(local, Int(255, 255, 255, 0));
      Value(r.end) < Value(r.start)
  {
    var mask := Int(255, 255, 255, 0);
    var network := Int(local.b0, local.b1, local.b2, 0);
    assert And(local, mask) == network by {
      ByteAndIdentities(local.b0); ByteAndIdentities(local.b1); ByteAndIdentities(local.b2);
    }
    var high := Int(0, 0, 0, 255);
    assert Inv(mask) == high;
    var broadcast := Int(local.b0, local.b1, local.b2, 255);
    assert Or(network, high) == broadcast by {
      ByteOrIdentities(local.b0); ByteOrIdentities(local.b1); ByteOrIdentities(local.b2);
      ByteOrIdentities(0);
    }
    var u: int := Unsigned(network);
    assert 0 <= u < 0x100_0000;
    assert Value(network) == u;
    assert Unsigned(broadcast) == u + 255 * 0x100_0000;
    assert Value(broadcast) == u - 0x100_0000;
    var r := RangeWithin(local, mask);
    assert Value(r.start) == Wrap(u + 1) == u + 1;
    assert Value(r.end) == Wrap(u - 0x100_0000 - 1) == u - 0x100_0000 - 1;
  }

  /**
   * With a genuine 255.255.255.0 mask (little-endian 0x00FFFFFF) the broadcast
   * value has its sign bit set, so `end < start` and nothing is probed, for
   * every local address.
   */
  lemma GenuineMaskProbesNothing(local: Int, skip: int)
    ensures IntToIp(SUBNET_24) == "255.255.255.0"
    ensures var r := RangeFor(local, SUBNET_24);
      Value(r.end) < Value(r.start) && Targets(Value(r.start), Value(r.end), r.step, skip) == []
  {
    assert IntToIp(SUBNET_24) == "255.255.255.0" by {
      SubnetMaskText();
    }
    var r := RangeFor(local, SUBNET_24);
    assert Value(r.end) < Value(r.start) by {
      GenuineMaskRange(local);
      assert r == RangeWithin(local, SUBNET_24);
    }
  }

  /**
   * The range worked out in host byte order: what the scan evidently intends.
   * Targets are host-order counters; `Swap` turns each back into the DHCP
   * integer that `intToIp` prints.
   */
  function HostOrderRange(local: Int, netmask: Int): ScanRange {
    RangeFor(Swap(local), Swap(netmask))
  }

  /**
   * In host order a genuine 255.255.255.0 mask probes a.b.c.1 to a.b.c.254 of
   * the local address a.b.c.d, one at a time.
   */
  lemma HostOrderRangeCoversSubnet(local: Int, netmask: Int)
    requires netmask == SUBNET_24
    ensures var r := HostOrderRange(local, netmask);
      Swap(r.start) == Int(local.b0, local.b1, local.b2, 1) && Swap(r.end) == Int(local.b0, local.b1, local.b2, 254)
      && r.hostCount == 254 && r.step == 1
  {
    HostOrderRangeIs(local, netmask);
    SwappedSubnet(HostOrderRange(local, netmask), local);
  }

  lemma SwappedSubnet(r: ScanRange, local: Int)
    requires r == ScanRange(
      Int(0, local.b2, local.b1, local.b0), Int(255, local.b2, local.b1, local.b0),
      Int(1, local.b2, local.b1, local.b0), Int(254, local.b2, local.b1, local.b0), 254, 1)
    ensures Swap(r.start) == Int(local.b0, local.b1, local.b2, 1) && Swap(r.end) == Int(local.b0, local.b1, local.b2, 254)
      && r.hostCount == 254 && r.step == 1
  {
  }

  lemma HostOrderRangeIs(local: Int, netmask: Int)
    requires netmask == SUBNET_24
    ensures HostOrderRange(local, netmask) == ScanRange(
      Int(0, local.b2, local.b1, local.b0), Int(255, local.b2, local.b1, local.b0),
      Int(1, local.b2, local.b1, local.b0), Int(254, local.b2, local.b1, local.b0), 254, 1)
  {
    HostOrderMask(local, netmask);
    LowByteRange(Swap(local), Int(0, 255, 255, 255));
  }

  lemma HostOrderMask(local: Int, netmask: Int)
    requires netmask == SUBNET_24
    ensures Swap(netmask) == Int(0, 255, 255, 255)
    ensures HostOrderRange(local, netmask) == RangeWithin(Swap(local), Swap(netmask))
  {
  }

  /* ----------------------------- the 32-bit counter ----------------------------- */

  /** The source's `i += step` on `Int`. */
  function NextCounter(i: Int, step: int): Int {
    Add(i, Of(step))
  }

  /**
   * With local address 192.168.1.10 and a DHCP netmask of 0x80000000
   * ("0.0.0.128"), the range is 1 .. Int.MAX_VALUE - 1 with stride 4194303.
   * After the 513th target the true next counter is past `end`, but the
   * 32-bit `i += step` wraps to a negative value that passes `i <= end`, so the
   * loop of the source goes on probing beyond its range.
   */
  lemma ProbeCounterWrapsPastEnd(local: Int, netmask: Int)
    requires local == Int(192, 168, 1, 10) && netmask == Int(0, 0, 0, 128)
    ensures var r := RangeFor(local, netmask);
      Value(r.start) == 1 && Value(r.end) == MAX - 1 && r.step == 4194303
    ensures var last := Of(1 + 512 * 4194303);
      Value(last) <= MAX - 1 && Value(last) + 4194303 > MAX - 1
      && Value(NextCounter(last, 4194303)) <= MAX - 1
  {
    WideMaskRange(local, netmask);
    CounterOverflow();
  }

  /** The 513th counter value and the wrapped value after it. */
  lemma CounterOverflow()
    ensures Value(Of(1 + 512 * 4194303)) == 2147483137
    ensures Value(NextCounter(Of(1 + 512 * 4194303), 4194303)) == 2147483137 + 4194303 - MODULUS
  {
    CounterBytes();
    assert Add(Int(1, 254, 255, 127), Int(255, 255, 63, 0)) == Int(0, 254, 63, 128);
  }

  lemma CounterBytes()
    ensures Of(1 + 512 * 4194303) == Int(1, 254, 255, 127)
    ensures Of(4194303) == Int(255, 255, 63, 0)
  {
    OfValue(Int(1, 254, 255, 127));
    OfValue(Int(255, 255, 63, 0));
  }

  lemma LocalAddressText()
    ensures IntToIp(Int(192, 168, 1, 10)) == "192.168.1.10" && IntToIp(Int(0, 0, 0, 128)) == "0.0.0.128"
  {
    assert NatToString(128) == "128" by { assert NatToString(12) == NatToString(1) + "2"; }
    assert NatToString(192) == "192" by { assert NatToString(19) == NatToString(1) + "9"; }
    assert NatToString(168) == "168" by { assert NatToString(16) == NatToString(1) + "6"; }
  }

  lemma WideMaskRange(local: Int, mask: Int)
    requires local == Int(192, 168, 1, 10) && mask == Int(0, 0, 0, 128)
    ensures var r := RangeWithin(local, mask);
      Value(r.start) == 1 && Value(r.end) == MAX - 1 && r.step == 4194303
  {
    var network := Int(0, 0, 0, 0);
    var broadcast := Int(255, 255, 255, 127);
    assert And(local, mask) == network;
    assert Or(network, Inv(mask)) == broadcast;
    IncrementLowByte(network);
    DecrementLowByte(broadcast);
    var start, end := Int(1, 0, 0, 0), Int(254, 255, 255, 127);
    assert Value(start) == 1 && Value(end) == MAX - 1;
    assert Value(Sub(end, start)) == MAX - 2;
    assert Value(Add(Sub(end, start), ONE)) == MAX - 1;
  }

  /**
   * A lease with netmask 255.255.255.255 at local int 0x80000000 (printed
   * "0.0.0.128"): network and broadcast are `Int.MIN_VALUE`, so start is
   * `Int.MIN_VALUE + 1` and `end` wraps to `Int.MAX_VALUE`. The width then wraps
   * to -1, leaving `hostCount` 0 and the stride 1, and since every `Int` is at
   * most `end`, the source's `while (i <= end)` never stops.
   */
  lemma FullMaskNeverEnds(local: Int, netmask: Int)
    requires local == Int(0, 0, 0, 128) && netmask == ALL_ONES
    ensures var r := RangeFor(local, netmask);
      Value(r.start) == MIN + 1 && Value(r.end) == MAX && r.hostCount == 0 && r.step == 1
      && Value(r.end) - Value(r.start) + 1 > MAX
      && forall i: Int :: Value(NextCounter(i, r.step)) <= Value(r.end)
  {
    FullMaskBytes(local, netmask);
    var r := RangeFor(local, netmask);
    assert Value(r.start) == MIN + 1 && Value(r.end) == MAX;
    assert Value(Sub(r.end, r.start)) == -2;
  }

  lemma FullMaskBytes(local: Int, netmask: Int)
    requires local == Int(0, 0, 0, 128) && netmask == ALL_ONES
    ensures And(local, netmask) == local && Inv(netmask) == ZERO && Or(local, ZERO) == local
  {
    assert And(local, ALL_ONES) == local;
    assert Inv(ALL_ONES) == Int(ByteInv(255), ByteInv(255), ByteInv(255), ByteInv(255));
    assert Or(local, ZERO) == local;
  }
}
