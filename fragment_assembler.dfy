/** The DPDK fragment assembler (vr_dpdk_fragment_assembler.c): one table
    of hash buckets per forwarding lcore, one fragment queue per forwarding
    lcore, and a budgeted round-robin scan of a table's buckets whose
    resume index is one static shared by all lcores. The fragment lists
    and queues themselves belong to vr_fragment.c, which is not part of
    this model: what vr_fragment_enqueue, vr_fragment_assemble and
    vr_assembler_table_scan do to them is a parameter. */
module FragmentAssembler {
  import opened Bytes

  /** VR_ASSEMBLER_BUCKET_COUNT: buckets in each lcore's table. */
  const VR_ASSEMBLER_BUCKET_COUNT := 1024
  /** VR_DPDK_FWD_LCORE_ID: the first forwarding lcore. */
  const VR_DPDK_FWD_LCORE_ID := 10
  /** The initial, never changed, value of assembler_scan_thresh. */
  const ASSEMBLER_SCAN_THRESH := 1024
  const EINVAL := 22
  const ENOMEM := 12

  /** A bucket's frag_list: the fragments chained in it, oldest first;
      [] is a NULL list. Fragments are named by number. */
  type FragList = seq<nat>
  /** A per-lcore vr_fragment_queue: queued packets; [] has a NULL tail. */
  type FragQueue = seq<nat>

  /** vr_fragment_enqueue on one queue: its return value and the queue
      afterwards. */
  type EnqueueFn = (FragQueue, nat) -> (int, FragQueue)
  /** vr_fragment_assemble on one bucket's list and a queue element. */
  type AssembleFn = (FragList, nat) -> FragList
  /** vr_assembler_table_scan on a non-empty list: how many entries it
      scanned, and the list once stale entries are gone. */
  type TableScanFn = FragList -> (uint32, FragList)

  /** What the assembler does that the model records rather than performs:
      packet drops, scheduled work, and vr_free calls. */
  datatype Event =
    | DroppedFragment(pkt: nat)          // vr_pfree(pkt, VP_DROP_FRAGMENTS)
    | ScheduledAssembly(cpu: nat, queue: nat)
    | QueueFreed(queue: nat, contents: FragQueue)
    | QueueArrayFreed
    | TableScanExit                      // vr_assembler_table_scan_exit()
    | TableFreed(lcore: nat)
    | TableArrayFreed

  /** Bucket number d of a scan that starts at bucket start. */
  function Slot(start: nat, d: nat): nat
    requires start < VR_ASSEMBLER_BUCKET_COUNT && d < VR_ASSEMBLER_BUCKET_COUNT
  {
    if start + d < VR_ASSEMBLER_BUCKET_COUNT then start + d else start + d - VR_ASSEMBLER_BUCKET_COUNT
  }

  /** Slot is (start + d) % VR_ASSEMBLER_BUCKET_COUNT, the bucket the
      loop at line 218 picks. */
  lemma SlotIsIndex(start: nat, d: nat)
    requires start < VR_ASSEMBLER_BUCKET_COUNT && d < VR_ASSEMBLER_BUCKET_COUNT
    ensures (start + d) % VR_ASSEMBLER_BUCKET_COUNT == Slot(start, d)
  {
  }

  /** A bucket after the scan looked at it: an empty one is skipped. */
  function Scanned(b: FragList, scan: TableScanFn): FragList
  {
    if b == [] then [] else scan(b).1
  }

  /** What the scan of one table comes to: buckets visited, the running
      count, and the buckets afterwards. */
  datatype ScanResult = ScanResult(visited: nat, scanned: uint32, buckets: seq<FragList>)

  /** The scan loop of dpdk_fragment_assembler_table_scan from its j-th
      bucket on, with `scanned` counted so far (lines 217-227). */
  function ScanFrom(buckets: seq<FragList>, start: nat, j: nat, scanned: uint32, scan: TableScanFn): (r: ScanResult)
    requires |buckets| == VR_ASSEMBLER_BUCKET_COUNT && start < VR_ASSEMBLER_BUCKET_COUNT
    requires j <= VR_ASSEMBLER_BUCKET_COUNT
    ensures |r.buckets| == VR_ASSEMBLER_BUCKET_COUNT
    ensures j <= r.visited <= VR_ASSEMBLER_BUCKET_COUNT
    ensures j < VR_ASSEMBLER_BUCKET_COUNT ==> j < r.visited
    decreases VR_ASSEMBLER_BUCKET_COUNT - j
  {
    if j == |buckets| then ScanResult(j, scanned, buckets)
    else
      var k := Slot(start, j);
      var b := buckets[k];
      var s: uint32 := if b != [] then U32(scanned + scan(b).0) else scanned;
      var next := buckets[k := Scanned(b, scan)];
      if s > ASSEMBLER_SCAN_THRESH then ScanResult(j + 1, s, next)
      else ScanFrom(next, start, j + 1, s, scan)
  }

  /** Line 229: where the next scan starts. */
  function NextScanIndex(i: nat, visited: nat): (r: nat)
    ensures r < VR_ASSEMBLER_BUCKET_COUNT
  {
    (i + visited) % VR_ASSEMBLER_BUCKET_COUNT
  }

  /** One call's scan, from the persisted index. */
  function Scan(buckets: seq<FragList>, start: nat, scan: TableScanFn): ScanResult
    requires |buckets| == VR_ASSEMBLER_BUCKET_COUNT && start < VR_ASSEMBLER_BUCKET_COUNT
  {
    ScanFrom(buckets, start, 0, 0, scan)
  }

  /** The 32-bit running count after the first n buckets of a scan of
      the original table. */
  function Cumulative(buckets: seq<FragList>, start: nat, n: nat, scan: TableScanFn): uint32
    requires |buckets| == VR_ASSEMBLER_BUCKET_COUNT && start < VR_ASSEMBLER_BUCKET_COUNT
    requires n <= VR_ASSEMBLER_BUCKET_COUNT
  {
    if n == 0 then 0
    else
      var b := buckets[Slot(start, n - 1)];
      U32(Cumulative(buckets, start, n - 1, scan) + (if b != [] then scan(b).0 else 0))
  }

  /** The running count after the first n buckets has not passed
      assembler_scan_thresh, so the scan goes on. */
  predicate WithinThreshold(buckets: seq<FragList>, start: nat, n: nat, scan: TableScanFn)
    requires |buckets| == VR_ASSEMBLER_BUCKET_COUNT && start < VR_ASSEMBLER_BUCKET_COUNT
    requires n <= VR_ASSEMBLER_BUCKET_COUNT
  {
    Cumulative(buckets, start, n, scan) <= ASSEMBLER_SCAN_THRESH
  }

  /** The events of dpdk_fragment_queue_exit on the queue array (None when
      it is NULL): a vr_fragment_queue_free for each non-empty queue, then
      the array is freed. */
  function QueueExitEvents(queues: Option<seq<FragQueue>>): seq<Event>
  {
    if queues.None? then []
    else QueueFrees(queues.value, |queues.value|) + [QueueArrayFreed]
  }

  function QueueFrees(qs: seq<FragQueue>, n: nat): seq<Event>
    requires n <= |qs|
  {
    if n == 0 then []
    else QueueFrees(qs, n - 1) + (if qs[n - 1] != [] then [QueueFreed(n - 1, qs[n - 1])] else [])
  }

  /** The events of dpdk_assembler_table_exit, given which lcore tables
      are allocated (None when the table array is NULL). */
  function TableExitEvents(present: Option<seq<bool>>): seq<Event>
  {
    [TableScanExit] + (if present.None? then [] else TableFrees(present.value, |present.value|) + [TableArrayFreed])
  }

  function TableFrees(present: seq<bool>, n: nat): seq<Event>
    requires n <= |present|
  {
    if n == 0 then []
    else TableFrees(present, n - 1) + (if present[n - 1] then [TableFreed(n - 1)] else [])
  }

  /** The index of the first of vr_zalloc's calls during init that fails
      (0: the queue array, 1: the table array, 2 + i: lcore i's table), or
      None when all nbFwdLcores + 2 succeed. */
  function FirstAllocFailure(nbFwdLcores: nat, zalloc: nat -> bool, from: nat): (r: Option<nat>)
    requires from <= nbFwdLcores + 2
    ensures r.Some? ==> from <= r.value < nbFwdLcores + 2 && !zalloc(r.value)
                        && forall k :: from <= k < r.value ==> zalloc(k)
    ensures r.None? ==> forall k :: from <= k < nbFwdLcores + 2 ==> zalloc(k)
    decreases nbFwdLcores + 2 - from
  {
    if from == nbFwdLcores + 2 then None
    else if !zalloc(from) then Some(from)
    else FirstAllocFailure(nbFwdLcores, zalloc, from + 1)
  }

  /** A queue array's contents, None when it is NULL. */
  ghost function QueueContents(q: array?<FragQueue>): Option<seq<FragQueue>>
    reads q
  {
    if q == null then None else Some(q[..])
  }

  /** Which lcore tables are allocated, None when the array is NULL. */
  ghost function TablePresence(t: array?<array?<FragList>>): Option<seq<bool>>
    reads t
  {
    if t == null then None
    else Some(seq(t.Length, i requires 0 <= i < t.Length reads t => t[i] != null))
  }

  /** Distinct steps of one scan visit distinct buckets. */
  lemma SlotInjective(start: nat, d: nat, e: nat)
    requires start < VR_ASSEMBLER_BUCKET_COUNT && d < VR_ASSEMBLER_BUCKET_COUNT && e < VR_ASSEMBLER_BUCKET_COUNT
    ensures Slot(start, d) == Slot(start, e) <==> d == e
  {
  }

  /** The buckets still to come are unchanged by one step of the scan. */
  lemma StepKeepsRest(b0: seq<FragList>, buckets: seq<FragList>, start: nat, j: nat, scan: TableScanFn)
    requires |b0| == |buckets| == VR_ASSEMBLER_BUCKET_COUNT && start < VR_ASSEMBLER_BUCKET_COUNT
    requires j < VR_ASSEMBLER_BUCKET_COUNT
    requires forall d :: j <= d < VR_ASSEMBLER_BUCKET_COUNT ==> buckets[Slot(start, d)] == b0[Slot(start, d)]
    ensures var next := buckets[Slot(start, j) := Scanned(buckets[Slot(start, j)], scan)];
            (forall d :: j + 1 <= d < VR_ASSEMBLER_BUCKET_COUNT ==> next[Slot(start, d)] == b0[Slot(start, d)])
            && (forall d :: 0 <= d < j ==> next[Slot(start, d)] == buckets[Slot(start, d)])
            && next[Slot(start, j)] == Scanned(b0[Slot(start, j)], scan)
  {
    var k := Slot(start, j);
    var next := buckets[k := Scanned(buckets[k], scan)];
    forall d | 0 <= d < VR_ASSEMBLER_BUCKET_COUNT && d != j
      ensures next[Slot(start, d)] == buckets[Slot(start, d)]
    {
      SlotInjective(start, d, j);
    }
  }

  /** How far the scan loop goes from step j on and what it counts, over
      a table whose buckets from step j on are b0's. */
  function CountFrom(b0: seq<FragList>, start: nat, j: nat, scanned: uint32, scan: TableScanFn): (nat, uint32)
    requires |b0| == VR_ASSEMBLER_BUCKET_COUNT && start < VR_ASSEMBLER_BUCKET_COUNT
    requires j <= VR_ASSEMBLER_BUCKET_COUNT
    decreases VR_ASSEMBLER_BUCKET_COUNT - j
  {
    if j == VR_ASSEMBLER_BUCKET_COUNT then (j, scanned)
    else
      var b := b0[Slot(start, j)];
      var s: uint32 := if b != [] then U32(scanned + scan(b).0) else scanned;
      if s > ASSEMBLER_SCAN_THRESH then (j + 1, s) else CountFrom(b0, start, j + 1, s, scan)
  }

  /** The scan loop visits and counts as CountFrom says. */
  lemma {:induction false} ScanFromCounts(b0: seq<FragList>, buckets: seq<FragList>, start: nat, j: nat,
                                          scanned: uint32, scan: TableScanFn)
    requires |b0| == |buckets| == VR_ASSEMBLER_BUCKET_COUNT && start < VR_ASSEMBLER_BUCKET_COUNT
    requires j <= VR_ASSEMBLER_BUCKET_COUNT
    requires forall d :: j <= d < VR_ASSEMBLER_BUCKET_COUNT ==> buckets[Slot(start, d)] == b0[Slot(start, d)]
    ensures var r := ScanFrom(buckets, start, j, scanned, scan);
            (r.visited, r.scanned) == CountFrom(b0, start, j, scanned, scan)
    decreases VR_ASSEMBLER_BUCKET_COUNT - j
  {
    if j < VR_ASSEMBLER_BUCKET_COUNT {
      var k := Slot(start, j);
      var s: uint32 := if buckets[k] != [] then U32(scanned + scan(buckets[k]).0) else scanned;
      if s <= ASSEMBLER_SCAN_THRESH {
        StepKeepsRest(b0, buckets, start, j, scan);
        ScanFromCounts(b0, buckets[k := Scanned(buckets[k], scan)], start, j + 1, s, scan);
      }
    }
  }

  /** The count of the scan loop from step j on: it ends as the original
      table's running count over the buckets visited, which stayed within
      the threshold before the last one and exceeds it when the scan stops
      early. */
  lemma {:induction false} CountFromFacts(b0: seq<FragList>, start: nat, j: nat, scanned: uint32, scan: TableScanFn)
    requires |b0| == VR_ASSEMBLER_BUCKET_COUNT && start < VR_ASSEMBLER_BUCKET_COUNT
    requires j <= VR_ASSEMBLER_BUCKET_COUNT
    requires scanned == Cumulative(b0, start, j, scan)
    requires forall n :: 1 <= n <= j ==> WithinThreshold(b0, start, n, scan)
    ensures var (visited, total) := CountFrom(b0, start, j, scanned, scan);
            j <= visited <= VR_ASSEMBLER_BUCKET_COUNT
            && total == Cumulative(b0, start, visited, scan)
            && (forall n :: 1 <= n < visited ==> WithinThreshold(b0, start, n, scan))
            && (visited < VR_ASSEMBLER_BUCKET_COUNT ==> total > ASSEMBLER_SCAN_THRESH)
    decreases VR_ASSEMBLER_BUCKET_COUNT - j
  {
    if j < VR_ASSEMBLER_BUCKET_COUNT {
      var b := b0[Slot(start, j)];
      var s: uint32 := if b != [] then U32(scanned + scan(b).0) else scanned;
      assert s == Cumulative(b0, start, j + 1, scan);
      if s <= ASSEMBLER_SCAN_THRESH {
        CountFromFacts(b0, start, j + 1, s, scan);
      }
    }
  }

  /** The buckets of the scan loop from step j on: those visited are what
      vr_assembler_table_scan left of the original ones (empty ones stay
      empty), earlier ones are untouched, later ones are the originals. */
  lemma {:induction false} ScanFromBuckets(b0: seq<FragList>, buckets: seq<FragList>, start: nat, j: nat,
                                           scanned: uint32, scan: TableScanFn)
    requires |b0| == |buckets| == VR_ASSEMBLER_BUCKET_COUNT && start < VR_ASSEMBLER_BUCKET_COUNT
    requires j <= VR_ASSEMBLER_BUCKET_COUNT
    requires forall d :: j <= d < VR_ASSEMBLER_BUCKET_COUNT ==> buckets[Slot(start, d)] == b0[Slot(start, d)]
    ensures var r := ScanFrom(buckets, start, j, scanned, scan);
            (forall d :: r.visited <= d < VR_ASSEMBLER_BUCKET_COUNT ==>
                  r.buckets[Slot(start, d)] == b0[Slot(start, d)])
            && (forall d :: 0 <= d < j ==> r.buckets[Slot(start, d)] == buckets[Slot(start, d)])
            && (forall d :: j <= d < r.visited ==> r.buckets[Slot(start, d)] == Scanned(b0[Slot(start, d)], scan))
    decreases VR_ASSEMBLER_BUCKET_COUNT - j
  {
    if j < VR_ASSEMBLER_BUCKET_COUNT {
      var k := Slot(start, j);
      var s: uint32 := if buckets[k] != [] then U32(scanned + scan(buckets[k]).0) else scanned;
      StepKeepsRest(b0, buckets, start, j, scan);
      if s <= ASSEMBLER_SCAN_THRESH {
        ScanFromBuckets(b0, buckets[k := Scanned(buckets[k], scan)], start, j + 1, s, scan);
      }
    }
  }

  /** dpdk_fragment_assembler_table_scan visits between 1 and
      VR_ASSEMBLER_BUCKET_COUNT consecutive buckets from the resume index;
      it stops after the first bucket at which the running count exceeds
      assembler_scan_thresh (that bucket is visited), and otherwise makes
      a full pass. Empty buckets add nothing and stay empty, non-empty
      visited buckets are what vr_assembler_table_scan left, and buckets
      not visited are unchanged. */
  lemma ScanExtent(buckets: seq<FragList>, start: nat, scan: TableScanFn)
    requires |buckets| == VR_ASSEMBLER_BUCKET_COUNT && start < VR_ASSEMBLER_BUCKET_COUNT
    ensures var r := Scan(buckets, start, scan);
            1 <= r.visited <= VR_ASSEMBLER_BUCKET_COUNT
            && r.scanned == Cumulative(buckets, start, r.visited, scan)
            && (forall n :: 1 <= n < r.visited ==> WithinThreshold(buckets, start, n, scan))
            && (r.visited < VR_ASSEMBLER_BUCKET_COUNT ==> Cumulative(buckets, start, r.visited, scan) > ASSEMBLER_SCAN_THRESH)
            && (forall d :: 0 <= d < r.visited ==> r.buckets[Slot(start, d)] == Scanned(buckets[Slot(start, d)], scan))
            && (forall d :: r.visited <= d < VR_ASSEMBLER_BUCKET_COUNT ==>
                  r.buckets[Slot(start, d)] == buckets[Slot(start, d)])
  {
    ScanFromCounts(buckets, buckets, start, 0, 0, scan);
    CountFromFacts(buckets, start, 0, 0, scan);
    ScanFromBuckets(buckets, buckets, start, 0, 0, scan);
  }

  /** Every bucket is some step of the scan, so the lemma above covers the
      whole table. */
  lemma SlotCovers(start: nat, k: nat)
    requires start < VR_ASSEMBLER_BUCKET_COUNT && k < VR_ASSEMBLER_BUCKET_COUNT
    ensures var d := if start <= k then k - start else k + VR_ASSEMBLER_BUCKET_COUNT - start;
            d < VR_ASSEMBLER_BUCKET_COUNT && Slot(start, d) == k
  {
  }

  /** The resume index stays a bucket number, moves on by the buckets
      visited, and a full pass leaves it where it was. */
  lemma ScanIndexUpdate(i: nat, visited: nat)
    requires i < VR_ASSEMBLER_BUCKET_COUNT && 1 <= visited <= VR_ASSEMBLER_BUCKET_COUNT
    ensures NextScanIndex(i, visited) == Slot(i, visited % VR_ASSEMBLER_BUCKET_COUNT)
    ensures visited == VR_ASSEMBLER_BUCKET_COUNT ==> NextScanIndex(i, visited) == i
  {
  }

  /** A second dpdk_fragment_assembler_exit, on NULL arrays, frees nothing:
      it only calls vr_assembler_table_scan_exit again. */
  lemma SecondExit()
    ensures QueueExitEvents(None) + TableExitEvents(None) == [TableScanExit]
  {
  }

  /** Init succeeds exactly when every one of its allocations does; what
      stays allocated after a failure is stated by Assembler.Init. */
  lemma InitFailure(nbFwdLcores: nat, zalloc: nat -> bool)
    ensures FirstAllocFailure(nbFwdLcores, zalloc, 0).None? <==> forall k :: 0 <= k < nbFwdLcores + 2 ==> zalloc(k)
  {
  }

  /** One bucket of the scan loop (lines 218-221): a non-empty list is
      handed to vr_assembler_table_scan and its count added. */
  method VisitBucket(t: array<FragList>, k: nat, scanned: uint32, scan: TableScanFn) returns (s: uint32)
    requires k < t.Length
    modifies t
    ensures t[..] == old(t[..])[k := Scanned(old(t[k]), scan)]
    ensures s == if old(t[k]) != [] then U32(scanned + scan(old(t[k])).0) else scanned
  {
    s := scanned;
    if t[k] != [] {
      var (c, b) := scan(t[k]);
      s := U32(scanned + c);
      t[k] := b;
    }
  }

  /** The bucket loop of dpdk_fragment_assembler_table_scan over one
      lcore's table, from bucket i; returns j, the buckets visited. */
  method ScanBuckets(t: array<FragList>, i: nat, scan: TableScanFn) returns (j: nat)
    requires t.Length == VR_ASSEMBLER_BUCKET_COUNT && i < VR_ASSEMBLER_BUCKET_COUNT
    modifies t
    ensures var r := Scan(old(t[..]), i, scan);
            t[..] == r.buckets && j == r.visited
  {
    ghost var r := Scan(t[..], i, scan);
    var scanned: uint32 := 0;
    j := 0;
    while j < VR_ASSEMBLER_BUCKET_COUNT
      invariant 0 <= j <= VR_ASSEMBLER_BUCKET_COUNT
      invariant ScanFrom(t[..], i, j, scanned, scan) == r
    {
      ghost var before := t[..];
      ghost var scanned0 := scanned;
      var k := (i + j) % VR_ASSEMBLER_BUCKET_COUNT;
      SlotIsIndex(i, j);
      scanned := VisitBucket(t, k, scanned, scan);
      if scanned > ASSEMBLER_SCAN_THRESH {
        assert ScanFrom(before, i, j, scanned0, scan) == ScanResult(j + 1, scanned, t[..]);
        j := j + 1;
        break;
      }
      assert ScanFrom(before, i, j, scanned0, scan) == ScanFrom(t[..], i, j + 1, scanned, scan);
      j := j + 1;
    }
  }

  class Assembler {
    /** vr_dpdk.nb_fwd_lcores and vr_num_cpus. */
    const nbFwdLcores: nat
    const numCpus: nat
    /** assembler_table: per forwarding lcore, its buckets (NULL until
        allocated). */
    var assemblerTable: array?<array?<FragList>>
    /** per_cpu_queues. */
    var perCpuQueues: array?<FragQueue>
    /** assembler_scan_index, shared by all lcores. */
    var scanIndex: int
    /** Frees, drops and scheduled work so far. */
    var events: seq<Event>

    ghost predicate Valid()
      reads this, assemblerTable
    {
      0 <= scanIndex < VR_ASSEMBLER_BUCKET_COUNT
      && (perCpuQueues != null ==> perCpuQueues.Length == nbFwdLcores)
      && (assemblerTable != null ==>
            assemblerTable.Length == nbFwdLcores
            && (forall i :: 0 <= i < nbFwdLcores && assemblerTable[i] != null ==>
                  assemblerTable[i].Length == VR_ASSEMBLER_BUCKET_COUNT)
            && (forall i, k :: 0 <= i < k < nbFwdLcores && assemblerTable[i] != null ==>
                  assemblerTable[i] != assemblerTable[k]))
    }

    /** The load-time state: both arrays NULL, the scan index 0. */
    constructor (nbFwdLcores: nat, numCpus: nat)
      ensures Valid()
      ensures this.nbFwdLcores == nbFwdLcores && this.numCpus == numCpus
      ensures assemblerTable == null && perCpuQueues == null && scanIndex == 0 && events == []
    {
      this.nbFwdLcores := nbFwdLcores;
      this.numCpus := numCpus;
      assemblerTable := null;
      perCpuQueues := null;
      scanIndex := 0;
      events := [];
    }

    /** Whether the tables of all lcores are allocated. */
    ghost predicate TablesReady()
      reads this, assemblerTable
    {
      assemblerTable != null && assemblerTable.Length == nbFwdLcores
      && forall i :: 0 <= i < nbFwdLcores ==> assemblerTable[i] != null
    }

    /** dpdk_fragment_queue_init: zalloc tells whether vr_zalloc succeeds. */
    method QueueInit(zallocOk: bool) returns (ret: int)
      requires Valid()
      modifies this
      ensures Valid()
      ensures ret == (if zallocOk then 0 else -ENOMEM)
      ensures zallocOk ==> perCpuQueues != null && fresh(perCpuQueues)
                           && perCpuQueues[..] == seq(nbFwdLcores, _ => [])
      ensures !zallocOk ==> perCpuQueues == null
      ensures assemblerTable == old(assemblerTable) && scanIndex == old(scanIndex) && events == old(events)
    {
      if !zallocOk {
        perCpuQueues := null;
        return -ENOMEM;
      }
      perCpuQueues := new FragQueue[nbFwdLcores](_ => []);
      assert perCpuQueues[..] == seq(nbFwdLcores, _ => []);
      return 0;
    }

    /** dpdk_assembler_table_init: vr_zalloc call k succeeds when
        zalloc(k) (1 is the pointer array, 2 + i lcore i's table). On a
        failure the tables allocated so far stay allocated. */
    method TableInit(zalloc: nat -> bool) returns (ret: int)
      requires Valid()
      modifies this
      ensures Valid()
      ensures ret == 0 || ret == -ENOMEM
      ensures ret == 0 <==> forall k :: 1 <= k < nbFwdLcores + 2 ==> zalloc(k)
      ensures !zalloc(1) ==> assemblerTable == null
      ensures zalloc(1) ==>
                assemblerTable != null && fresh(assemblerTable)
                && forall i :: 0 <= i < nbFwdLcores ==>
                     (assemblerTable[i] != null <==> forall k :: 1 <= k <= i + 2 ==> zalloc(k))
                     && (assemblerTable[i] != null ==>
                           fresh(assemblerTable[i])
                           && assemblerTable[i][..] == seq(VR_ASSEMBLER_BUCKET_COUNT, _ => []))
      ensures ret == 0 ==> TablesReady()
      ensures perCpuQueues == old(perCpuQueues) && scanIndex == old(scanIndex) && events == old(events)
    {
      if !zalloc(1) {
        assemblerTable := null;
        return -ENOMEM;
      }
      var table := new array?<FragList>[nbFwdLcores](_ => null);
      assemblerTable := table;
      var i := 0;
      while i < nbFwdLcores
        invariant 0 <= i <= nbFwdLcores
        invariant assemblerTable == table && fresh(table)
        invariant forall k :: 1 <= k <= i + 1 ==> zalloc(k)
        invariant forall n :: 0 <= n < i ==>
                    table[n] != null && fresh(table[n])
                    && table[n][..] == seq(VR_ASSEMBLER_BUCKET_COUNT, _ => [])
        invariant forall n :: i <= n < nbFwdLcores ==> table[n] == null
        invariant forall n, k :: 0 <= n < k < i ==> table[n] != table[k]
        invariant perCpuQueues == old(perCpuQueues) && scanIndex == old(scanIndex) && events == old(events)
        invariant Valid()
      {
        if !zalloc(i + 2) {
          return -ENOMEM;
        }
        var buckets := new FragList[VR_ASSEMBLER_BUCKET_COUNT](_ => []);
        assert buckets[..] == seq(VR_ASSEMBLER_BUCKET_COUNT, _ => []);
        table[i] := buckets;
        i := i + 1;
      }
      return 0;
    }

    /** dpdk_fragment_assembler_init: the queues, then the tables; vr_zalloc
        call k (0: queues, 1: table array, 2 + i: lcore i's table) succeeds
        when zalloc(k). Returns 0 exactly when every allocation succeeded. */
    method Init(zalloc: nat -> bool) returns (ret: int)
      requires Valid()
      modifies this
      ensures Valid()
      ensures ret == (if FirstAllocFailure(nbFwdLcores, zalloc, 0).None? then 0 else -ENOMEM)
      ensures ret == 0 ==> perCpuQueues != null && TablesReady()
      ensures !zalloc(0) ==> perCpuQueues == null && assemblerTable == old(assemblerTable)
      // A table failure keeps the queue array and the tables allocated before it.
      ensures zalloc(0) ==> perCpuQueues != null && fresh(perCpuQueues)
                            && perCpuQueues[..] == seq(nbFwdLcores, _ => [])
      ensures zalloc(0) && !zalloc(1) ==> assemblerTable == null
      ensures zalloc(0) && zalloc(1) ==>
                assemblerTable != null && fresh(assemblerTable)
                && forall i :: 0 <= i < nbFwdLcores ==>
                     (assemblerTable[i] != null <==> forall k :: 1 <= k <= i + 2 ==> zalloc(k))
                     && (assemblerTable[i] != null ==>
                           fresh(assemblerTable[i])
                           && assemblerTable[i][..] == seq(VR_ASSEMBLER_BUCKET_COUNT, _ => []))
      // Success leaves every queue and every bucket empty.
      ensures ret == 0 ==>
                perCpuQueues[..] == seq(nbFwdLcores, _ => [])
                && forall i :: 0 <= i < nbFwdLcores ==>
                     assemblerTable[i][..] == seq(VR_ASSEMBLER_BUCKET_COUNT, _ => [])
      ensures scanIndex == old(scanIndex) && events == old(events)
    {
      ret := QueueInit(zalloc(0));
      if ret != 0 {
        return;
      }
      ret := TableInit(zalloc);
      InitFailure(nbFwdLcores, zalloc);
    }

    /** dpdk_fragment_queue_exit. */
    method QueueExit()
      requires Valid()
      modifies this, perCpuQueues
      ensures Valid()
      ensures perCpuQueues == null
      ensures events == old(events) + QueueExitEvents(old(QueueContents(perCpuQueues)))
      ensures assemblerTable == old(assemblerTable) && scanIndex == old(scanIndex)
    {
      if perCpuQueues == null {
        return;
      }
      var i := 0;
      while i < nbFwdLcores
        invariant 0 <= i <= nbFwdLcores
        invariant perCpuQueues == old(perCpuQueues) && perCpuQueues[..] == old(perCpuQueues[..])
        invariant events == old(events) + QueueFrees(perCpuQueues[..], i)
        invariant assemblerTable == old(assemblerTable) && scanIndex == old(scanIndex)
      {
        if perCpuQueues[i] != [] {
          events := events + [QueueFreed(i, perCpuQueues[i])];
        }
        i := i + 1;
      }
      events := events + [QueueArrayFreed];
      perCpuQueues := null;
    }

    /** dpdk_assembler_table_exit. */
    method TableExit()
      requires Valid()
      modifies this, assemblerTable
      ensures Valid()
      ensures assemblerTable == null
      ensures events == old(events) + TableExitEvents(old(TablePresence(assemblerTable)))
      ensures perCpuQueues == old(perCpuQueues) && scanIndex == old(scanIndex)
    {
      ghost var pres := TablePresence(assemblerTable);
      events := events + [TableScanExit];
      if assemblerTable == null {
        return;
      }
      ghost var present := pres.value;
      var i := 0;
      while i < nbFwdLcores
        invariant 0 <= i <= nbFwdLcores
        invariant assemblerTable == old(assemblerTable)
        invariant forall n :: i <= n < nbFwdLcores ==> assemblerTable[n] == old(assemblerTable[n])
        invariant forall n :: 0 <= n < i ==> assemblerTable[n] == null
        invariant events == old(events) + [TableScanExit] + TableFrees(present, i)
        invariant perCpuQueues == old(perCpuQueues) && scanIndex == old(scanIndex)
      {
        if assemblerTable[i] != null {
          events := events + [TableFreed(i)];
          assemblerTable[i] := null;
        }
        i := i + 1;
      }
      events := events + [TableArrayFreed];
      assemblerTable := null;
      assert events == old(events) + TableExitEvents(pres);
    }

    /** dpdk_fragment_assembler_exit: both arrays end NULL. */
    method Exit()
      requires Valid()
      modifies this, perCpuQueues, assemblerTable
      ensures Valid()
      ensures perCpuQueues == null && assemblerTable == null && scanIndex == old(scanIndex)
      ensures events == old(events) + QueueExitEvents(old(QueueContents(perCpuQueues))) + TableExitEvents(old(TablePresence(assemblerTable)))
    {
      QueueExit();
      TableExit();
    }

    /** dpdk_fragment_assembler_enqueue, called on lcore `cpu` with packet
        `pkt`. Off the forwarding lcores the packet is dropped and -EINVAL
        returned; otherwise it goes to that lcore's queue, assembly work is
        scheduled only when vr_fragment_enqueue returns 0, and the result
        is 0 either way. */
    method Enqueue(cpu: nat, pkt: nat, enqueue: EnqueueFn) returns (ret: int)
      requires Valid()
      requires VR_DPDK_FWD_LCORE_ID <= cpu < numCpus ==>
                 perCpuQueues != null && cpu - VR_DPDK_FWD_LCORE_ID < perCpuQueues.Length
      modifies this, perCpuQueues
      ensures Valid()
      ensures assemblerTable == old(assemblerTable) && perCpuQueues == old(perCpuQueues) && scanIndex == old(scanIndex)
      ensures !(VR_DPDK_FWD_LCORE_ID <= cpu < numCpus) ==>
                ret == -EINVAL && events == old(events) + [DroppedFragment(pkt)]
                && (perCpuQueues != null ==> perCpuQueues[..] == old(perCpuQueues[..]))
      ensures VR_DPDK_FWD_LCORE_ID <= cpu < numCpus ==>
                var q := cpu - VR_DPDK_FWD_LCORE_ID;
                var (r, q') := enqueue(old(perCpuQueues[q]), pkt);
                ret == 0
                && perCpuQueues[..] == old(perCpuQueues[..])[q := q']
                && events == old(events) + (if r == 0 then [ScheduledAssembly(cpu, q)] else [])
    {
      if cpu >= numCpus || cpu < VR_DPDK_FWD_LCORE_ID {
        events := events + [DroppedFragment(pkt)];
        return -EINVAL;
      }
      var q := cpu - VR_DPDK_FWD_LCORE_ID;
      var (r, q') := enqueue(perCpuQueues[q], pkt);
      perCpuQueues[q] := q';
      if r == 0 {
        events := events + [ScheduledAssembly(cpu, q)];
      }
      return 0;
    }

    /** dpdk_fragment_sync_assemble on lcore `cpu`: the fragment goes to
        bucket hash % VR_ASSEMBLER_BUCKET_COUNT of that lcore's table, and
        no other bucket or table changes. */
    method SyncAssemble(cpu: nat, vfqe: nat, hash: uint32, assemble: AssembleFn)
      requires Valid() && TablesReady()
      requires VR_DPDK_FWD_LCORE_ID <= cpu < numCpus && cpu - VR_DPDK_FWD_LCORE_ID < nbFwdLcores
      modifies assemblerTable[cpu - VR_DPDK_FWD_LCORE_ID]
      ensures Valid() && TablesReady()
      ensures var t := assemblerTable[cpu - VR_DPDK_FWD_LCORE_ID];
              var index := hash % VR_ASSEMBLER_BUCKET_COUNT;
              t[..] == old(t[..])[index := assemble(old(t[index]), vfqe)]
    {
      var lcore := cpu - VR_DPDK_FWD_LCORE_ID;
      var index := hash % VR_ASSEMBLER_BUCKET_COUNT;
      var bucket := assemblerTable[lcore];
      bucket[index] := assemble(bucket[index], vfqe);
    }

    /** dpdk_fragment_assembler_table_scan on lcore `cpu`: the buckets of
        that lcore's table become those of Scan from the shared index, and
        the index moves on by the number of buckets visited. */
    method TableScan(cpu: nat, scan: TableScanFn)
      requires Valid() && TablesReady()
      requires VR_DPDK_FWD_LCORE_ID <= cpu < numCpus && cpu - VR_DPDK_FWD_LCORE_ID < nbFwdLcores
      modifies this, assemblerTable[cpu - VR_DPDK_FWD_LCORE_ID]
      ensures Valid() && TablesReady()
      ensures assemblerTable == old(assemblerTable) && perCpuQueues == old(perCpuQueues) && events == old(events)
      ensures var t := assemblerTable[cpu - VR_DPDK_FWD_LCORE_ID];
              var r := Scan(old(t[..]), old(scanIndex), scan);
              t[..] == r.buckets && scanIndex == NextScanIndex(old(scanIndex), r.visited)
    {
      var t := assemblerTable[cpu - VR_DPDK_FWD_LCORE_ID];
      var i := scanIndex;
      var visited := ScanBuckets(t, i, scan);
      scanIndex := NextScanIndex(i, visited);
    }
  }
}
