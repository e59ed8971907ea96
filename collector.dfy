/**
 * One tick of the dashboard (`refresh` in src/system/collector.rs): the
 * per-core CPU histories and their mean, the per-interface network
 * histories, and the process table (filtered, sorted, oriented,
 * truncated). What `sysinfo` reports this tick is passed in as readings.
 */
module Collector {
  import opened Wrappers
  import opened Strings
  import opened Numbers
  import opened History
  import opened App
  import opened ProcessOrder

  /** One core as `sysinfo` reports it: its name and its usage in percent. */
  datatype CpuReading = CpuReading(name: string, usage: real)

  /** One interface as `sysinfo` reports it: its name and the bytes moved since the last refresh. */
  datatype NetReading = NetReading(name: string, received: nat, transmitted: nat)

  function Min(a: nat, b: nat): nat {
    if a <= b then a else b
  }

  // ---------------------------------------------------------------------------
  // CPU
  // ---------------------------------------------------------------------------

  /** A fresh history per reported core: its name, usage zero, `Capacity` zero samples. */
  function SeedCores(cpus: seq<CpuReading>): (hs: seq<CpuHistory>)
    ensures |hs| == |cpus|
  {
    seq(|cpus|, i requires 0 <= i < |cpus| => CpuHistory(cpus[i].name, 0.0, Zeros(Capacity)))
  }

  /** The histories are created only while there are none. */
  function Seeded(hs: seq<CpuHistory>, cpus: seq<CpuReading>): seq<CpuHistory> {
    if hs == [] then SeedCores(cpus) else hs
  }

  /** One core's sample: the usage is overwritten and pushed, truncated toward zero. */
  function SampleCore(h: CpuHistory, usage: real): (r: CpuHistory)
    ensures r.coreName == h.coreName && r.usage == usage
    ensures r.history == Push(h.history, AsU64(usage))
  {
    h.(usage := usage, history := Push(h.history, AsU64(usage)))
  }

  /** Histories and cores are paired by position; a history without a core is left alone. */
  function SampleCores(hs: seq<CpuHistory>, cpus: seq<CpuReading>): (r: seq<CpuHistory>)
    ensures |r| == |hs|
  {
    seq(|hs|, i requires 0 <= i < |hs| => if i < |cpus| then SampleCore(hs[i], cpus[i].usage) else hs[i])
  }

  /** The sum of the usages, accumulated from the first core. */
  function SumUsage(cpus: seq<CpuReading>): real {
    if cpus == [] then 0.0 else SumUsage(cpus[..|cpus| - 1]) + cpus[|cpus| - 1].usage
  }

  /** `total / cores`, and zero when there is no core. */
  function MeanUsage(total: real, cores: nat): real {
    if cores == 0 then 0.0 else total / cores as real
  }

  /** The CPU part of a tick. */
  function CpuTick(d: AppData, cpus: seq<CpuReading>): AppData {
    var hs := Seeded(d.cpuHistory, cpus);
    d.(cpuHistory := SampleCores(hs, cpus),
       overallCpu := MeanUsage(SumUsage(cpus[..Min(|hs|, |cpus|)]), |cpus|))
  }

  /** The first tick creates one history per core, named after it, holding 59 zeros and the core's sample. */
  lemma FirstRefreshSeeds(d: AppData, cpus: seq<CpuReading>)
    requires d.cpuHistory == []
    ensures var hs := CpuTick(d, cpus).cpuHistory;
            |hs| == |cpus| &&
            forall i :: 0 <= i < |cpus| ==>
              hs[i].coreName == cpus[i].name && hs[i].usage == cpus[i].usage
              && hs[i].history == Zeros(Capacity - 1) + [AsU64(cpus[i].usage)]
  {
    var hs := CpuTick(d, cpus).cpuHistory;
    forall i | 0 <= i < |cpus|
      ensures hs[i].history == Zeros(Capacity - 1) + [AsU64(cpus[i].usage)]
    {
      assert SeedCores(cpus)[i].history == Zeros(Capacity);
      assert Zeros(Capacity)[1..] == Zeros(Capacity - 1);
    }
  }

  /** Later ticks keep the histories they have: same number, same names, in the same order. */
  lemma LaterRefreshKeepsCores(d: AppData, cpus: seq<CpuReading>)
    requires d.cpuHistory != []
    ensures |CpuTick(d, cpus).cpuHistory| == |d.cpuHistory|
    ensures forall i :: 0 <= i < |d.cpuHistory| ==> CpuTick(d, cpus).cpuHistory[i].coreName == d.cpuHistory[i].coreName
  {
  }

  /** Every history is a full window. */
  predicate FullWindows(hs: seq<CpuHistory>) {
    forall i :: 0 <= i < |hs| ==> |hs[i].history| == Capacity
  }

  /**
   * A tick keeps every history at `Capacity` samples: a sampled core's
   * samples shift left by one and the new sample is the last one; a
   * history whose core was not reported is untouched.
   */
  lemma CpuTickWindows(d: AppData, cpus: seq<CpuReading>)
    requires FullWindows(d.cpuHistory)
    ensures FullWindows(CpuTick(d, cpus).cpuHistory)
    ensures var hs := Seeded(d.cpuHistory, cpus);
            var r := CpuTick(d, cpus).cpuHistory;
            forall i :: 0 <= i < |r| ==>
              (i < |cpus| ==> r[i].history == hs[i].history[1..] + [AsU64(cpus[i].usage)]) &&
              (i >= |cpus| ==> r[i] == hs[i])
  {
  }

  /** The sum of `n` usages that each lie in [0, 100] lies in [0, 100 n]. */
  lemma {:induction false} SumUsageBounds(cpus: seq<CpuReading>)
    requires forall i :: 0 <= i < |cpus| ==> 0.0 <= cpus[i].usage <= 100.0
    ensures 0.0 <= SumUsage(cpus) <= 100.0 * |cpus| as real
  {
    if cpus != [] {
      SumUsageBounds(cpus[..|cpus| - 1]);
    }
  }

  lemma MeanBounds(total: real, count: nat, cores: nat)
    requires count <= cores && 0.0 <= total <= 100.0 * count as real
    ensures 0.0 <= MeanUsage(total, cores) <= 100.0
  {
    if cores > 0 {
      var c := cores as real;
      assert total <= 100.0 * c;
      assert total / c <= 100.0 by {
        assert (total / c) * c == total;
      }
    }
  }

  /** With no core the overall usage is zero. */
  lemma OverallCpuNoCores(d: AppData)
    ensures CpuTick(d, []).overallCpu == 0.0
  {
  }

  /** When every core has a history, the overall usage is the mean of all core usages. */
  lemma OverallCpuMean(d: AppData, cpus: seq<CpuReading>)
    requires |Seeded(d.cpuHistory, cpus)| >= |cpus| > 0
    ensures CpuTick(d, cpus).overallCpu == SumUsage(cpus) / |cpus| as real
  {
    CpuTickOverall(d, cpus);
    assert cpus[..|cpus|] == cpus;
  }

  /** The overall usage a tick computes, apart from the histories. */
  lemma CpuTickOverall(d: AppData, cpus: seq<CpuReading>)
    ensures CpuTick(d, cpus).overallCpu == MeanUsage(SumUsage(cpus[..Min(|Seeded(d.cpuHistory, cpus)|, |cpus|)]), |cpus|)
  {
  }

  /** Usages within [0, 100] give an overall usage within [0, 100]. */
  lemma OverallCpuBounds(d: AppData, cpus: seq<CpuReading>)
    requires forall i :: 0 <= i < |cpus| ==> 0.0 <= cpus[i].usage <= 100.0
    ensures 0.0 <= CpuTick(d, cpus).overallCpu <= 100.0
  {
    var hs := Seeded(d.cpuHistory, cpus);
    var m := Min(|hs|, |cpus|);
    SumUsageBounds(cpus[..m]);
    MeanBounds(SumUsage(cpus[..m]), m, |cpus|);
  }

  /** Cores beyond the histories add nothing to the total, though they count in the divisor. */
  lemma SkippedCoresNotSummed(d: AppData, cpus: seq<CpuReading>)
    requires d.cpuHistory != [] && |d.cpuHistory| < |cpus|
    ensures CpuTick(d, cpus).overallCpu == SumUsage(cpus[..|d.cpuHistory|]) / |cpus| as real
  {
  }

  /** The first-tick loop: one zero-filled history per core, in core order. */
  method SeedHistories(cpus: seq<CpuReading>) returns (hs: seq<CpuHistory>)
    ensures hs == SeedCores(cpus)
  {
    hs := [];
    for k := 0 to |cpus|
      invariant |hs| == k
      invariant forall j :: 0 <= j < k ==> hs[j] == CpuHistory(cpus[j].name, 0.0, Zeros(Capacity))
    {
      var history := NewHistory();
      hs := hs + [CpuHistory(cpus[k].name, 0.0, history)];
    }
  }

  /**
   * The sampling loop: each core with a history at its position overwrites
   * the usage, pops the oldest sample of a full window, pushes the new one,
   * and adds its usage to the running total.
   */
  method SampleHistories(seeded: seq<CpuHistory>, cpus: seq<CpuReading>) returns (hs: seq<CpuHistory>, total: real)
    ensures hs == SampleCores(seeded, cpus)
    ensures total == SumUsage(cpus[..Min(|seeded|, |cpus|)])
  {
    hs := seeded;
    total := 0.0;
    for i := 0 to |cpus|
      invariant hs == SampleCores(seeded, cpus[..i])
      invariant total == SumUsage(cpus[..Min(|seeded|, i)])
    {
      SampleCoresStep(seeded, cpus, i);
      if i < |hs| {
        var h := hs[i];
        var usage := cpus[i].usage;
        total := total + usage;
        var history := h.history;
        if |history| >= Capacity {
          history := history[1..];
        }
        history := history + [AsU64(usage)];
        hs := hs[i := h.(usage := usage, history := history)];
        assert cpus[..i + 1][..i] == cpus[..i];
      }
    }
    assert cpus[..|cpus|] == cpus;
  }

  /** The CPU part of `refresh`. */
  method RefreshCpu(app: AppState, cpus: seq<CpuReading>)
    modifies app
    ensures app.View() == CpuTick(old(app.View()), cpus)
  {
    if app.cpuHistory == [] {
      app.cpuHistory := SeedHistories(cpus);
    }
    var total;
    app.cpuHistory, total := SampleHistories(app.cpuHistory, cpus);
    app.overallCpu := if |cpus| == 0 then 0.0 else total / |cpus| as real;
  }

  lemma SampleCoresStep(hs: seq<CpuHistory>, cpus: seq<CpuReading>, i: nat)
    requires i < |cpus|
    ensures SampleCores(hs, cpus[..i + 1])
         == if i < |hs| then SampleCores(hs, cpus[..i])[i := SampleCore(hs[i], cpus[i].usage)] else SampleCores(hs, cpus[..i])
  {
  }

  // ---------------------------------------------------------------------------
  // Network
  // ---------------------------------------------------------------------------

  /** A loopback interface's name starts with `lo`. */
  predicate IsLoopback(name: string) {
    StartsWith(name, "lo")
  }

  /** The position of the first history for the interface named `name`. */
  function FindInterface(hs: seq<NetworkHistory>, name: string): (r: Option<nat>)
    ensures r.None? <==> forall j :: 0 <= j < |hs| ==> hs[j].interfaceName != name
    ensures r.Some? ==> r.value < |hs| && hs[r.value].interfaceName == name
                        && forall j :: 0 <= j < r.value ==> hs[j].interfaceName != name
  {
    if hs == [] then None
    else if hs[0].interfaceName == name then Some(0)
    else
      var r := FindInterface(hs[1..], name);
      if r.Some? then Some(r.value + 1) else None
  }

  /** The `iter_mut().find` over the histories, as a loop. */
  method FindInterfaceIndex(hs: seq<NetworkHistory>, name: string) returns (r: Option<nat>)
    ensures r == FindInterface(hs, name)
  {
    var i := 0;
    while i < |hs|
      invariant i <= |hs|
      invariant forall j :: 0 <= j < i ==> hs[j].interfaceName != name
    {
      if hs[i].interfaceName == name {
        FindInterfaceFirst(hs, name, i);
        return Some(i);
      }
      i := i + 1;
    }
    return None;
  }

  lemma FindInterfaceFirst(hs: seq<NetworkHistory>, name: string, i: nat)
    requires i < |hs| && hs[i].interfaceName == name
    requires forall j :: 0 <= j < i ==> hs[j].interfaceName != name
    ensures FindInterface(hs, name) == Some(i)
  {
    var r := FindInterface(hs, name);
    assert r.Some?;
    assert !(r.value < i) && !(i < r.value);
  }

  /** A known interface: both counts overwritten and pushed onto their histories. */
  function UpdateInterface(h: NetworkHistory, r: NetReading): NetworkHistory {
    h.(rxBytes := r.received, txBytes := r.transmitted,
       rxHistory := Push(h.rxHistory, r.received), txHistory := Push(h.txHistory, r.transmitted))
  }

  /** A new interface: its counts and two histories of `Capacity` zeros. */
  function NewInterface(r: NetReading): NetworkHistory {
    NetworkHistory(r.name, r.received, r.transmitted, Zeros(Capacity), Zeros(Capacity))
  }

  /** One reported interface: skipped, updated where found by name, or appended. */
  function ReconcileOne(hs: seq<NetworkHistory>, r: NetReading, showLoopback: bool): seq<NetworkHistory> {
    if !showLoopback && IsLoopback(r.name) then hs
    else
      match FindInterface(hs, r.name)
      case Some(i) => hs[i := UpdateInterface(hs[i], r)]
      case None => hs + [NewInterface(r)]
  }

  /** The interfaces in the order they are reported. */
  function Reconcile(hs: seq<NetworkHistory>, nets: seq<NetReading>, showLoopback: bool): seq<NetworkHistory> {
    if nets == [] then hs
    else ReconcileOne(Reconcile(hs, nets[..|nets| - 1], showLoopback), nets[|nets| - 1], showLoopback)
  }

  function NetworkTick(d: AppData, nets: seq<NetReading>): AppData {
    d.(networkHistory := Reconcile(d.networkHistory, nets, d.showLoopback))
  }

  /** A loopback interface is skipped entirely unless loopback is shown. */
  lemma LoopbackSkipped(hs: seq<NetworkHistory>, r: NetReading)
    requires IsLoopback(r.name)
    ensures ReconcileOne(hs, r, false) == hs
  {
  }

  /**
   * A known interface has its counts overwritten and each new count
   * appended to its history, which stays within `Capacity`; no other entry
   * changes.
   */
  lemma ExistingInterfaceUpdated(hs: seq<NetworkHistory>, r: NetReading, showLoopback: bool, i: nat)
    requires showLoopback || !IsLoopback(r.name)
    requires DistinctNames(hs)
    requires i < |hs| && hs[i].interfaceName == r.name
    requires |hs[i].rxHistory| <= Capacity && |hs[i].txHistory| <= Capacity
    ensures var h := ReconcileOne(hs, r, showLoopback);
            |h| == |hs| && h[i].interfaceName == r.name
            && h[i].rxBytes == r.received && h[i].txBytes == r.transmitted
            && h[i].rxHistory == Push(hs[i].rxHistory, r.received) && |h[i].rxHistory| <= Capacity
            && h[i].txHistory == Push(hs[i].txHistory, r.transmitted) && |h[i].txHistory| <= Capacity
    ensures var h := ReconcileOne(hs, r, showLoopback);
            forall j :: 0 <= j < |hs| && j != i ==> h[j] == hs[j]
  {
    var f := FindInterface(hs, r.name);
    assert f.Some?;
    var k := f.value;
    PushBounded(hs[i].rxHistory, r.received);
    PushBounded(hs[i].txHistory, r.transmitted);
  }

  /** An unknown interface is appended once, with its counts and full zero histories. */
  lemma NewInterfaceAppended(hs: seq<NetworkHistory>, r: NetReading, showLoopback: bool)
    requires showLoopback || !IsLoopback(r.name)
    requires forall j :: 0 <= j < |hs| ==> hs[j].interfaceName != r.name
    ensures ReconcileOne(hs, r, showLoopback)
         == hs + [NetworkHistory(r.name, r.received, r.transmitted, Zeros(Capacity), Zeros(Capacity))]
  {
  }

  /** No two histories share a name. */
  predicate DistinctNames(hs: seq<NetworkHistory>) {
    forall i, j :: 0 <= i < j < |hs| ==> hs[i].interfaceName != hs[j].interfaceName
  }

  /** Every history holds at most `Capacity` samples in each direction. */
  predicate BoundedWindows(hs: seq<NetworkHistory>) {
    forall i :: 0 <= i < |hs| ==> |hs[i].rxHistory| <= Capacity && |hs[i].txHistory| <= Capacity
  }

  /**
   * Reconciling one interface never removes or renames an entry, keeps the
   * names distinct and the windows bounded, and leaves the interface
   * present unless it was skipped.
   */
  lemma ReconcileOneInvariant(hs: seq<NetworkHistory>, r: NetReading, showLoopback: bool)
    requires DistinctNames(hs) && BoundedWindows(hs)
    ensures var h := ReconcileOne(hs, r, showLoopback);
            |h| >= |hs| && (forall i :: 0 <= i < |hs| ==> h[i].interfaceName == hs[i].interfaceName)
            && DistinctNames(h) && BoundedWindows(h)
            && ((showLoopback || !IsLoopback(r.name)) ==> exists i :: 0 <= i < |h| && h[i].interfaceName == r.name)
  {
    var h := ReconcileOne(hs, r, showLoopback);
    if showLoopback || !IsLoopback(r.name) {
      match FindInterface(hs, r.name)
      case Some(i) =>
        PushBounded(hs[i].rxHistory, r.received);
        PushBounded(hs[i].txHistory, r.transmitted);
        assert h[i].interfaceName == r.name;
      case None =>
        assert h[|hs|].interfaceName == r.name;
    }
  }

  /**
   * Over a whole tick the history list only grows, each earlier entry keeps
   * its name and place, names stay distinct and windows bounded.
   */
  lemma {:induction false} ReconcileInvariant(hs: seq<NetworkHistory>, nets: seq<NetReading>, showLoopback: bool)
    requires DistinctNames(hs) && BoundedWindows(hs)
    ensures var h := Reconcile(hs, nets, showLoopback);
            |h| >= |hs| && (forall i :: 0 <= i < |hs| ==> h[i].interfaceName == hs[i].interfaceName)
            && DistinctNames(h) && BoundedWindows(h)
  {
    if nets != [] {
      ReconcileInvariant(hs, nets[..|nets| - 1], showLoopback);
      ReconcileOneInvariant(Reconcile(hs, nets[..|nets| - 1], showLoopback), nets[|nets| - 1], showLoopback);
    }
  }

  /** Every interface reported in a tick, unless skipped as loopback, has a history afterwards. */
  lemma {:induction false} ReconcileCovers(hs: seq<NetworkHistory>, nets: seq<NetReading>, showLoopback: bool, k: nat)
    requires DistinctNames(hs) && BoundedWindows(hs)
    requires k < |nets| && (showLoopback || !IsLoopback(nets[k].name))
    ensures exists i :: 0 <= i < |Reconcile(hs, nets, showLoopback)|
                        && Reconcile(hs, nets, showLoopback)[i].interfaceName == nets[k].name
    decreases |nets|
  {
    var init := nets[..|nets| - 1];
    var before := Reconcile(hs, init, showLoopback);
    var after := Reconcile(hs, nets, showLoopback);
    assert after == ReconcileOne(before, nets[|nets| - 1], showLoopback);
    ReconcileInvariant(hs, init, showLoopback);
    ReconcileOneInvariant(before, nets[|nets| - 1], showLoopback);
    if k < |nets| - 1 {
      ReconcileCovers(hs, init, showLoopback, k);
      var i :| 0 <= i < |before| && before[i].interfaceName == init[k].name;
      assert 0 <= i < |after| && after[i].interfaceName == nets[k].name;
    } else {
      var i :| 0 <= i < |after| && after[i].interfaceName == nets[|nets| - 1].name;
      assert after[i].interfaceName == nets[k].name;
    }
  }

  /** The loop over the reported interfaces. */
  method ReconcileAll(hs: seq<NetworkHistory>, nets: seq<NetReading>, showLoopback: bool) returns (r: seq<NetworkHistory>)
    ensures r == Reconcile(hs, nets, showLoopback)
  {
    r := hs;
    for k := 0 to |nets|
      invariant r == Reconcile(hs, nets[..k], showLoopback)
    {
      assert nets[..k + 1][..k] == nets[..k];
      var reading := nets[k];
      if !showLoopback && StartsWith(reading.name, "lo") {
        continue;
      }
      var found := FindInterfaceIndex(r, reading.name);
      if found.Some? {
        var i := found.value;
        var h := r[i];
        var rxHistory := h.rxHistory;
        var txHistory := h.txHistory;
        if |rxHistory| >= Capacity {
          rxHistory := rxHistory[1..];
        }
        if |txHistory| >= Capacity {
          txHistory := txHistory[1..];
        }
        rxHistory := rxHistory + [reading.received];
        txHistory := txHistory + [reading.transmitted];
        r := r[i := h.(rxBytes := reading.received, txBytes := reading.transmitted,
                       rxHistory := rxHistory, txHistory := txHistory)];
      } else {
        var rxHistory := NewHistory();
        var txHistory := NewHistory();
        r := r + [NetworkHistory(reading.name, reading.received, reading.transmitted, rxHistory, txHistory)];
      }
    }
    assert nets[..|nets|] == nets;
  }

  /** The network part of `refresh`. */
  method RefreshNetwork(app: AppState, nets: seq<NetReading>)
    modifies app
    ensures app.View() == NetworkTick(old(app.View()), nets)
  {
    app.networkHistory := ReconcileAll(app.networkHistory, nets, app.showLoopback);
  }

  // ---------------------------------------------------------------------------
  // Processes
  // ---------------------------------------------------------------------------

  /** The processes whose lower-cased name contains `query`, in list order. */
  function Retain(ps: seq<ProcessInfo>, query: string): (r: seq<ProcessInfo>)
    ensures |r| <= |ps|
  {
    if ps == [] then []
    else
      var last := ps[|ps| - 1];
      Retain(ps[..|ps| - 1], query) + (if Contains(Lower(last.name), query) then [last] else [])
  }

  /** The search filter; an empty query keeps every process. */
  function FilterByQuery(ps: seq<ProcessInfo>, query: string): seq<ProcessInfo> {
    if query == [] then ps else Retain(ps, Lower(query))
  }

  /** A process matches when its name contains the query, both lower-cased. */
  predicate Matches(p: ProcessInfo, query: string) {
    Contains(Lower(p.name), Lower(query))
  }

  /** The ascending order, reversed when the table is sorted descending. */
  function Orient(ps: seq<ProcessInfo>, ascending: bool): seq<ProcessInfo> {
    if ascending then ps else Reverse(ps)
  }

  /** `truncate(max)` when the list is longer than `max`. */
  function Take(ps: seq<ProcessInfo>, max: nat): (r: seq<ProcessInfo>)
    ensures |r| == Min(|ps|, max)
    ensures r == ps[..|r|]
  {
    if |ps| > max then ps[..max] else ps
  }

  /** The process table a tick shows. */
  function Snapshot(procs: seq<ProcessInfo>, query: string, col: SortColumn, ascending: bool, max: nat): seq<ProcessInfo> {
    Take(Orient(SortBy(col, FilterByQuery(procs, query)), ascending), max)
  }

  function ProcessTick(d: AppData, procs: seq<ProcessInfo>): AppData {
    d.(processes := Snapshot(procs, d.searchQuery, d.sortColumn, d.sortAscending, d.maxProcesses))
  }

  /** Filtering keeps processes in their original relative order. */
  lemma {:induction false} RetainAppend(a: seq<ProcessInfo>, b: seq<ProcessInfo>, query: string)
    ensures Retain(a + b, query) == Retain(a, query) + Retain(b, query)
    decreases |b|
  {
    if b == [] {
      assert a + b == a;
    } else {
      assert (a + b)[..|a + b| - 1] == a + b[..|b| - 1];
      RetainAppend(a, b[..|b| - 1], query);
    }
  }

  /** Filtering keeps every copy of a matching process and none of any other. */
  lemma {:induction false} RetainCount(ps: seq<ProcessInfo>, query: string, p: ProcessInfo)
    ensures multiset(Retain(ps, query))[p] == if Contains(Lower(p.name), query) then multiset(ps)[p] else 0
  {
    if ps != [] {
      RetainCount(ps[..|ps| - 1], query, p);
      assert ps == ps[..|ps| - 1] + [ps[|ps| - 1]];
    }
  }

  /** Soundness and completeness of the search filter. */
  lemma FilterMembers(ps: seq<ProcessInfo>, query: string, p: ProcessInfo)
    ensures p in FilterByQuery(ps, query) <==> p in ps && Matches(p, query)
  {
    if query == [] {
      ContainsEmpty(Lower(p.name));
      assert Lower(query) == [];
    } else {
      RetainCount(ps, Lower(query), p);
      assert p in Retain(ps, Lower(query)) <==> multiset(Retain(ps, Lower(query)))[p] > 0;
    }
  }

  /** An empty query filters nothing, and matches every process anyway. */
  lemma {:induction false} EmptyQueryKeepsAll(ps: seq<ProcessInfo>)
    ensures FilterByQuery(ps, []) == ps
    ensures Retain(ps, Lower([])) == ps
  {
    if ps != [] {
      EmptyQueryKeepsAll(ps[..|ps| - 1]);
      ContainsEmpty(Lower(ps[|ps| - 1].name));
      assert Lower([]) == [];
      assert ps == ps[..|ps| - 1] + [ps[|ps| - 1]];
    }
  }

  /**
   * The table is ascending in the active column when sorted ascending and
   * descending otherwise; it holds `min(matching, max)` rows, the head of
   * the ordered list.
   */
  lemma SnapshotOrdered(procs: seq<ProcessInfo>, query: string, col: SortColumn, ascending: bool, max: nat)
    ensures var s := Snapshot(procs, query, col, ascending, max);
            var ordered := Orient(SortBy(col, FilterByQuery(procs, query)), ascending);
            |s| == Min(|FilterByQuery(procs, query)|, max) && s == ordered[..|s|]
            && (ascending ==> Sorted(col, s)) && (!ascending ==> SortedDescending(col, s))
  {
    var filtered := FilterByQuery(procs, query);
    var sorted := SortBy(col, filtered);
    var ordered := Orient(sorted, ascending);
    var s := Take(ordered, max);
    SortBySorted(col, filtered);
    if ascending {
      assert Sorted(col, ordered);
      assert Sorted(col, s) by {
        forall i | 0 <= i < |s| - 1 ensures KeyLe(col, s[i], s[i + 1]) {
          assert s[i] == ordered[i] && s[i + 1] == ordered[i + 1];
        }
      }
    } else {
      ReverseDescending(col, sorted);
      assert SortedDescending(col, ordered);
      assert SortedDescending(col, s) by {
        forall i | 0 <= i < |s| - 1 ensures KeyLe(col, s[i + 1], s[i]) {
          assert s[i] == ordered[i] && s[i + 1] == ordered[i + 1];
        }
      }
    }
  }

  /**
   * The descending table is the first `max` rows of the reversed full
   * ascending table.
   */
  lemma DescendingIsReverse(procs: seq<ProcessInfo>, query: string, col: SortColumn, max: nat)
    ensures Snapshot(procs, query, col, false, max) == Take(Reverse(Snapshot(procs, query, col, true, |procs|)), max)
  {
    var filtered := FilterByQuery(procs, query);
    assert |filtered| <= |procs|;
    assert Snapshot(procs, query, col, true, |procs|) == SortBy(col, filtered);
  }

  /** Filtering by the query and picking out one key commute. */
  lemma {:induction false} KeyClassRetain(col: SortColumn, ps: seq<ProcessInfo>, query: string, p: ProcessInfo)
    ensures KeyClass(col, Retain(ps, query), p) == Retain(KeyClass(col, ps, p), query)
  {
    if ps != [] {
      var init, last := ps[..|ps| - 1], ps[|ps| - 1];
      assert ps == init + [last];
      KeyClassRetain(col, init, query, p);
      KeyClassAppend(col, Retain(init, query), Retain([last], query), p);
      RetainAppend(init, [last], query);
      KeyClassAppend(col, init, [last], p);
      RetainAppend(KeyClass(col, init, p), KeyClass(col, [last], p), query);
      KeyClassRetainOne(col, last, query, p);
    }
  }

  /** Picking out one key and filtering commute on a single process. */
  lemma KeyClassRetainOne(col: SortColumn, q: ProcessInfo, query: string, p: ProcessInfo)
    ensures KeyClass(col, Retain([q], query), p) == Retain(KeyClass(col, [q], p), query)
  {
    assert [q][1..] == [] && [q][..0] == [];
  }

  /**
   * When nothing is cut off, matching processes with equal keys appear in
   * the ascending table in the order they were reported and in the
   * descending table in the reverse of that order.
   */
  lemma {:induction false} SnapshotEqualKeys(procs: seq<ProcessInfo>, query: string, col: SortColumn, ascending: bool, max: nat, p: ProcessInfo)
    requires |FilterByQuery(procs, query)| <= max
    ensures KeyClass(col, Snapshot(procs, query, col, ascending, max), p)
         == Orient(FilterByQuery(KeyClass(col, procs, p), query), ascending)
  {
    var filtered := FilterByQuery(procs, query);
    if query != [] {
      KeyClassRetain(col, procs, Lower(query), p);
    }
    SortByStable(col, filtered, p);
    if !ascending {
      KeyClassReverse(col, SortBy(col, filtered), p);
    }
  }

  /** Every row shown is a reported process that matches the query. */
  lemma SnapshotMembers(procs: seq<ProcessInfo>, query: string, col: SortColumn, ascending: bool, max: nat, p: ProcessInfo)
    requires p in Snapshot(procs, query, col, ascending, max)
    ensures p in procs && Matches(p, query)
  {
    var filtered := FilterByQuery(procs, query);
    var ordered := Orient(SortBy(col, filtered), ascending);
    ReversePermutation(SortBy(col, filtered));
    SortByPermutation(col, filtered);
    assert multiset(ordered) == multiset(filtered);
    assert p in ordered;
    assert p in multiset(filtered);
    FilterMembers(procs, query, p);
  }

  /** When nothing is cut off, the table is a permutation of the matching processes. */
  lemma SnapshotPermutation(procs: seq<ProcessInfo>, query: string, col: SortColumn, ascending: bool, max: nat)
    requires |FilterByQuery(procs, query)| <= max
    ensures multiset(Snapshot(procs, query, col, ascending, max)) == multiset(FilterByQuery(procs, query))
  {
    SortByPermutation(col, FilterByQuery(procs, query));
    ReversePermutation(SortBy(col, FilterByQuery(procs, query)));
  }

  /** The CPU-descending example: three processes, at most two shown. */
  lemma SnapshotExample()
    ensures var a := ProcessInfo(1, "a", 10.0, 0, "Run");
            var b := ProcessInfo(2, "b", 90.0, 0, "Run");
            var c := ProcessInfo(3, "c", 50.0, 0, "Run");
            Snapshot([a, b, c], [], Cpu, false, 2) == [b, c]
  {
    var a := ProcessInfo(1, "a", 10.0, 0, "Run");
    var b := ProcessInfo(2, "b", 90.0, 0, "Run");
    var c := ProcessInfo(3, "c", 50.0, 0, "Run");
    ExampleSorted(a, b, c);
    ExampleReversed(a, b, c);
    assert Snapshot([a, b, c], [], Cpu, false, 2) == [b, c, a][..2];
  }

  lemma ExampleSorted(a: ProcessInfo, b: ProcessInfo, c: ProcessInfo)
    requires a.cpuUsage < c.cpuUsage < b.cpuUsage
    ensures SortBy(Cpu, [a, b, c]) == [a, c, b]
  {
    assert SortBy(Cpu, [c]) == [c] by {
      assert [c][1..] == [];
    }
    assert SortBy(Cpu, [b, c]) == [c, b] by {
      assert [b, c][1..] == [c];
      ExampleInsertLast(b, c);
    }
    assert [a, b, c][1..] == [b, c];
    assert SortBy(Cpu, [a, b, c]) == Insert(Cpu, a, [c, b]);
  }

  lemma ExampleInsertLast(b: ProcessInfo, c: ProcessInfo)
    requires c.cpuUsage < b.cpuUsage
    ensures Insert(Cpu, b, [c]) == [c, b]
  {
    assert [c][1..] == [];
  }

  lemma ExampleReversed(a: ProcessInfo, b: ProcessInfo, c: ProcessInfo)
    ensures Reverse([a, c, b]) == [b, c, a]
  {
    var r := Reverse([a, c, b]);
    assert r[0] == b && r[1] == c && r[2] == a;
  }

  /** The search example: `chr` keeps `chrome` and `chromium` and drops `bash`. */
  lemma SearchExample()
    ensures var p1 := ProcessInfo(1, "chrome", 0.0, 0, "Run");
            var p2 := ProcessInfo(2, "bash", 0.0, 0, "Run");
            var p3 := ProcessInfo(3, "chromium", 0.0, 0, "Run");
            FilterByQuery([p1, p2, p3], "chr") == [p1, p3]
  {
    var p1 := ProcessInfo(1, "chrome", 0.0, 0, "Run");
    var p2 := ProcessInfo(2, "bash", 0.0, 0, "Run");
    var p3 := ProcessInfo(3, "chromium", 0.0, 0, "Run");
    ExampleNames();
    assert Lower("chr") == "chr";
    assert [p1, p2, p3][..2] == [p1, p2] && [p1, p2][..1] == [p1] && [p1][..0] == [];
    assert Retain([p1], "chr") == [p1];
    assert Retain([p1, p2], "chr") == [p1];
    assert Retain([p1, p2, p3], "chr") == [p1, p3];
  }

  lemma ExampleNames()
    ensures Contains(Lower("chrome"), "chr") && Contains(Lower("chromium"), "chr")
    ensures !Contains(Lower("bash"), "chr")
  {
    assert Lower("chrome") == "chrome" && Lower("chromium") == "chromium" && Lower("bash") == "bash";
    assert Contains("chrome", "chr") by {
      assert "chrome"[..3] == "chr";
    }
    assert Contains("chromium", "chr") by {
      assert "chromium"[..3] == "chr";
    }
    assert !Contains("bash", "chr") by {
      assert 'c' !in "bash";
      AbsentFirstChar("bash", "chr");
    }
  }

  /** The `retain` over the process list, as a loop. */
  method RetainMatching(ps: seq<ProcessInfo>, query: string) returns (kept: seq<ProcessInfo>)
    ensures kept == Retain(ps, query)
  {
    kept := [];
    for k := 0 to |ps|
      invariant kept == Retain(ps[..k], query)
    {
      assert ps[..k + 1][..k] == ps[..k];
      if Contains(Lower(ps[k].name), query) {
        kept := kept + [ps[k]];
      }
    }
    assert ps[..|ps|] == ps;
  }

  /** `clear` followed by one `push` per reported process. */
  method CollectProcesses(procs: seq<ProcessInfo>) returns (ps: seq<ProcessInfo>)
    ensures ps == procs
  {
    ps := [];
    for k := 0 to |procs|
      invariant ps == procs[..k]
    {
      ps := ps + [procs[k]];
    }
    assert procs[..|procs|] == procs;
  }

  /** `sort_by`: insertion from the last process to the first, which keeps equal keys in list order. */
  method SortProcesses(ps: seq<ProcessInfo>, col: SortColumn) returns (sorted: seq<ProcessInfo>)
    ensures sorted == SortBy(col, ps)
  {
    sorted := [];
    var k := |ps|;
    while k > 0
      invariant 0 <= k <= |ps|
      invariant sorted == SortBy(col, ps[k..])
    {
      k := k - 1;
      assert ps[k..][1..] == ps[k + 1..];
      sorted := Insert(col, ps[k], sorted);
    }
  }

  /** `reverse`: each process is put in front of those before it. */
  method ReverseProcesses(ps: seq<ProcessInfo>) returns (reversed: seq<ProcessInfo>)
    ensures reversed == Reverse(ps)
  {
    reversed := [];
    for k := 0 to |ps|
      invariant |reversed| == k
      invariant forall i :: 0 <= i < k ==> reversed[i] == ps[k - 1 - i]
    {
      reversed := [ps[k]] + reversed;
    }
  }

  /**
   * The process pipeline of `refresh`: collect, keep the processes
   * matching a non-empty query, sort ascending, reverse when descending,
   * cut to `max`.
   */
  method BuildSnapshot(procs: seq<ProcessInfo>, query: string, col: SortColumn, ascending: bool, max: nat)
    returns (ps: seq<ProcessInfo>)
    ensures ps == Snapshot(procs, query, col, ascending, max)
  {
    ps := CollectProcesses(procs);
    if query != [] {
      ps := RetainMatching(ps, Lower(query));
    }
    assert ps == FilterByQuery(procs, query);
    ps := SortProcesses(ps, col);
    if !ascending {
      ps := ReverseProcesses(ps);
    }
    assert ps == Orient(SortBy(col, FilterByQuery(procs, query)), ascending);
    if |ps| > max {
      ps := ps[..max];
    }
  }

  /** The process part of `refresh`. */
  method RefreshProcesses(app: AppState, procs: seq<ProcessInfo>)
    modifies app
    ensures app.View() == ProcessTick(old(app.View()), procs)
  {
    app.processes := BuildSnapshot(procs, app.searchQuery, app.sortColumn, app.sortAscending, app.maxProcesses);
  }

  // ---------------------------------------------------------------------------
  // The whole tick
  // ---------------------------------------------------------------------------

  /** A tick: CPU, then network, then processes; nothing else in the state changes. */
  function Tick(d: AppData, cpus: seq<CpuReading>, nets: seq<NetReading>, procs: seq<ProcessInfo>): (r: AppData)
    ensures r.gpus == d.gpus && r.selectedProcess == d.selectedProcess && r.tableSelected == d.tableSelected
    ensures r.sortColumn == d.sortColumn && r.sortAscending == d.sortAscending
    ensures r.searchMode == d.searchMode && r.searchQuery == d.searchQuery && r.shouldQuit == d.shouldQuit
    ensures r.showLoopback == d.showLoopback && r.maxProcesses == d.maxProcesses && r.tickRateMs == d.tickRateMs
  {
    ProcessTick(NetworkTick(CpuTick(d, cpus), nets), procs)
  }

  /** `refresh`. */
  method Refresh(app: AppState, cpus: seq<CpuReading>, nets: seq<NetReading>, procs: seq<ProcessInfo>)
    modifies app
    ensures app.View() == Tick(old(app.View()), cpus, nets, procs)
  {
    RefreshCpu(app, cpus);
    RefreshNetwork(app, nets);
    RefreshProcesses(app, procs);
  }

  /**
   * Two ticks with the same readings: the second shows the same process
   * table, and every CPU history is still a full window.
   */
  lemma RepeatedTick(d: AppData, cpus: seq<CpuReading>, nets: seq<NetReading>, procs: seq<ProcessInfo>)
    requires FullWindows(d.cpuHistory)
    ensures var once := Tick(d, cpus, nets, procs);
            var twice := Tick(once, cpus, nets, procs);
            twice.processes == once.processes
            && FullWindows(once.cpuHistory) && FullWindows(twice.cpuHistory)
            && |twice.cpuHistory| == |once.cpuHistory|
  {
    var once := Tick(d, cpus, nets, procs);
    CpuTickWindows(d, cpus);
    CpuTickWindows(once, cpus);
    if d.cpuHistory == [] {
      if cpus != [] {
        assert once.cpuHistory != [];
      }
    }
  }
}
