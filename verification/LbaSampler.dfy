/** Drawing from a pool in place: the pick is overwritten by the last live element and the pool shrinks by one. */
module Sampling {
  import opened Sorting

  /** The live part of the pool and what was drawn from it. */
  datatype Draw<T> = Draw(live: seq<T>, picks: seq<T>)

  function SwapRemove<T>(live: seq<T>, k: nat): (r: seq<T>)
    requires k < |live|
  {
    live[k := live[|live| - 1]][..|live| - 1]
  }

  /** One draw: the element at index k is picked, and replaced or removed. */
  function Next<T>(d: Draw<T>, k: nat, replace: bool): Draw<T>
    requires k < |d.live|
  {
    Draw(if replace then d.live else SwapRemove(d.live, k), d.picks + [d.live[k]])
  }

  /** After n draws; draw i takes index draws(i) % |live|, so any sequence of indices arises from some draws. */
  function Drawn<T>(pool: seq<T>, draws: nat -> nat, replace: bool, n: nat): (d: Draw<T>)
    ensures replace ==> d.live == pool && |d.picks| == if pool == [] then 0 else n
    ensures !replace ==> |d.picks| == (if n < |pool| then n else |pool|) && |d.live| == |pool| - |d.picks|
  {
    if n == 0 then Draw(pool, [])
    else
      var d := Drawn(pool, draws, replace, n - 1);
      if d.live == [] then d else Next(d, draws(n - 1) % |d.live|, replace)
  }

  lemma {:induction false} SwapRemoveContents<T>(live: seq<T>, k: nat)
    requires k < |live|
    ensures multiset(SwapRemove(live, k)) + multiset{live[k]} == multiset(live)
  {
    var last := |live| - 1;
    var swapped := live[k := live[last]];
    assert live == live[..last] + [live[last]];
    if k < last {
      assert live == live[..k] + [live[k]] + live[k + 1..last] + [live[last]];
      assert swapped[..last] == live[..k] + [live[last]] + live[k + 1..last];
    } else {
      assert swapped[..last] == live[..last];
    }
  }

  lemma NextConserves<T>(d: Draw<T>, k: nat)
    requires k < |d.live|
    ensures var d' := Next(d, k, false); multiset(d'.live) + multiset(d'.picks) == multiset(d.live) + multiset(d.picks)
  {
    hide SwapRemove;
    SwapRemoveContents(d.live, k);
    var d' := Next(d, k, false);
    assert multiset(d'.picks) == multiset(d.picks) + multiset{d.live[k]};
  }

  /** Conservation: without replacement the live pool and the picks are the original pool, whatever was drawn. */
  lemma PoolIsConserved<T>(pool: seq<T>, draws: nat -> nat, n: nat)
    ensures var d := Drawn(pool, draws, false, n); multiset(d.live) + multiset(d.picks) == multiset(pool)
  {
    hide Next;
    if n > 0 {
      PoolIsConserved(pool, draws, n - 1);
      var d := Drawn(pool, draws, false, n - 1);
      if d.live != [] {
        NextConserves(d, draws(n - 1) % |d.live|);
      }
    }
  }

  /** With replacement every pick is from the whole pool. */
  lemma ReplacedPicksAreFromPool<T>(pool: seq<T>, draws: nat -> nat, n: nat)
    ensures forall x :: x in Drawn(pool, draws, true, n).picks ==> x in pool
  {
    if n > 0 {
      ReplacedPicksAreFromPool(pool, draws, n - 1);
    }
  }

  lemma PicksGrow<T>(pool: seq<T>, draws: nat -> nat, replace: bool, m: nat, n: nat)
    requires m <= n
    ensures Drawn(pool, draws, replace, m).picks <= Drawn(pool, draws, replace, n).picks
  {
    if m < n {
      PicksGrow(pool, draws, replace, m, n - 1);
    }
  }

  lemma MultisetOfDistinct<T>(s: seq<T>)
    requires forall x :: multiset(s)[x] <= 1
    ensures Distinct(s)
  {
    forall i, j | 0 <= i < j < |s|
      ensures s[i] != s[j]
    {
      var x := s[i];
      assert s == s[..j] + [s[j]] + s[j + 1..];
      assert multiset(s)[x] == multiset(s[..j])[x] + multiset{s[j]}[x] + multiset(s[j + 1..])[x];
      assert s[..j][i] in multiset(s[..j]);
    }
  }

  /** Without replacement a pool of distinct elements gives distinct picks, all from the pool. */
  lemma PicksAreDistinct<T>(pool: seq<T>, draws: nat -> nat, n: nat)
    requires Distinct(pool)
    ensures var picks := Drawn(pool, draws, false, n).picks;
      Distinct(picks) && forall i :: 0 <= i < |picks| ==> picks[i] in pool
  {
    PoolIsConserved(pool, draws, n);
    DistinctCount(pool);
    var d := Drawn(pool, draws, false, n);
    forall x
      ensures multiset(d.picks)[x] <= 1
    {
      assert (multiset(d.live) + multiset(d.picks))[x] == multiset(pool)[x];
    }
    MultisetOfDistinct(d.picks);
    forall i | 0 <= i < |d.picks|
      ensures d.picks[i] in pool
    {
      assert d.picks[i] in multiset(d.picks);
      assert d.picks[i] in multiset(pool);
    }
  }
}

/** The LBA table of an RPMB performance run: one 64-byte row per task entry. */
module RpmbPerf {
  import opened Common
  import opened Bytes
  import opened Sorting
  import opened Sampling

  const SEQUENTIAL := 0
  const RANDOM := 1
  const WRITE := 1
  const ENTRY_SIZE := 64
  const MAC_SIZE := 32
  const MAX_TASK_ENTRY := 0xF8000

  type Mac = s: seq<byte> | |s| == 32 witness Fill(0, 32)

  datatype PerfVar = PerfVar(
    mode: nat, direction: nat, chunk: nat, testSizeKb: nat, startLba: nat, endLba: nat, allowOverlap: bool, align: bool, latency: nat)

  // ---------- sizing ----------

  function TaskEntry(v: PerfVar): nat
    requires v.chunk > 0
  {
    Quotient(v.testSizeKb * 1024, v.chunk * 256)
  }

  /** Floor division of a by b. */
  function Quotient(a: nat, b: nat): (q: nat)
    requires b > 0
  {
    a / b
  }

  /** The sectors of the table, filled up to 8 KiB. */
  function SectorCount(taskEntry: nat): (n: nat) {
    var n := taskEntry / 8 + if taskEntry % 8 != 0 then 1 else 0;
    n + if n % 16 != 0 then 16 - n % 16 else 0
  }

  /** It is the least multiple of 8 KiB that holds every row. */
  lemma SectorCountIsLeast(taskEntry: nat)
    ensures var n := SectorCount(taskEntry);
      && n * 512 % 8192 == 0
      && taskEntry * 64 <= n * 512
      && forall m: nat :: m * 512 % 8192 == 0 && taskEntry * 64 <= m * 512 ==> n <= m
  {
    var n := SectorCount(taskEntry);
    forall m: nat | m * 512 % 8192 == 0 && taskEntry * 64 <= m * 512
      ensures n <= m
    {
      assert m % 16 == 0;
    }
  }

  // ---------- the pool ----------

  function PoolSize(v: PerfVar): int
    requires v.chunk > 0
  {
    if v.align then (v.endLba + 1 - v.startLba) / v.chunk else v.endLba + 1 - v.chunk - v.startLba
  }

  function Pool(v: PerfVar): (pool: seq<nat>)
    requires v.chunk > 0
    ensures |pool| == if PoolSize(v) > 0 then PoolSize(v) else 0
  {
    seq(if PoolSize(v) > 0 then PoolSize(v) else 0, i => v.startLba + if v.align then i * v.chunk else i)
  }

  lemma NextMultiple(i: nat, chunk: nat)
    ensures (i + 1) * chunk == i * chunk + chunk
  {
  }

  lemma {:induction false} ChunksApart(i: nat, j: nat, chunk: nat)
    requires i < j
    ensures i * chunk + chunk <= j * chunk
  {
    NextMultiple(j - 1, chunk);
    if i < j - 1 {
      ChunksApart(i, j - 1, chunk);
    }
  }

  /** Chunks a and b do not share a block. */
  predicate Apart(a: nat, b: nat, chunk: nat) {
    a + chunk <= b || b + chunk <= a
  }

  predicate InRange(v: PerfVar, lba: nat) {
    v.startLba <= lba && lba + v.chunk <= v.endLba + 1
  }

  /** Every start in the pool keeps its chunk in range; aligned chunks are apart from each other. */
  lemma PoolIsInRange(v: PerfVar)
    requires v.chunk > 0
    ensures forall i :: 0 <= i < |Pool(v)| ==> InRange(v, Pool(v)[i])
    ensures Distinct(Pool(v))
    ensures v.align ==> forall i, j :: 0 <= i < j < |Pool(v)| ==> Apart(Pool(v)[i], Pool(v)[j], v.chunk)
  {
    var pool := Pool(v);
    if v.align {
      forall i, j | 0 <= i < j < |pool|
        ensures pool[i] + v.chunk <= pool[j]
      {
        ChunksApart(i, j, v.chunk);
      }
      forall i | 0 <= i < |pool|
        ensures InRange(v, pool[i])
      {
        ChunksApart(i, |pool|, v.chunk);
      }
    }
  }

  /** The unaligned pool is every start in range but the last one, which no run can pick. */
  lemma UnalignedPoolExact(v: PerfVar, lba: nat)
    requires v.chunk > 0 && !v.align
    ensures lba in Pool(v) <==> InRange(v, lba) && lba + v.chunk != v.endLba + 1
  {
    if InRange(v, lba) && lba + v.chunk != v.endLba + 1 {
      assert Pool(v)[lba - v.startLba] == lba;
    }
  }

  lemma AlignedStartIsPooled(v: PerfVar, lba: nat, i: nat)
    requires v.chunk > 0 && v.align && InRange(v, lba) && lba == v.startLba + i * v.chunk
    ensures lba in Pool(v)
  {
    QuotientIsBelow(i, v.chunk, v.endLba + 1 - v.startLba);
    assert Pool(v)[i] == lba;
  }

  /** The aligned pool is every start in range at a whole number of chunks from the first. */
  lemma {:induction false} AlignedPoolExact(v: PerfVar, lba: nat)
    requires v.chunk > 0 && v.align
    ensures lba in Pool(v) <==> InRange(v, lba) && (lba - v.startLba) % v.chunk == 0
  {
    PoolIsInRange(v);
    if lba in Pool(v) {
      var i: nat :| i < |Pool(v)| && Pool(v)[i] == lba;
      MultipleHasNoRemainder(i, v.chunk);
    }
    if InRange(v, lba) && (lba - v.startLba) % v.chunk == 0 {
      AlignedStartIsPooled(v, lba, (lba - v.startLba) / v.chunk);
    }
  }

  lemma MultipleHasNoRemainder(i: nat, chunk: nat)
    requires chunk > 0
    ensures i * chunk % chunk == 0
  {
    RemainderIs(i * chunk, chunk, i, 0);
  }

  /** Quotient and remainder are unique. */
  lemma RemainderIs(a: nat, b: nat, q: nat, r: nat)
    requires b > 0 && a == q * b + r && r < b
    ensures a / b == q && a % b == r
  {
    var q', r' := a / b, a % b;
    assert a == q' * b + r';
    if q < q' {
      ChunksApart(q, q', b);
      assert false;
    } else if q' < q {
      ChunksApart(q', q, b);
      assert false;
    }
  }

  lemma QuotientIsBelow(i: nat, chunk: nat, size: nat)
    requires chunk > 0 && i * chunk + chunk <= size
    ensures i < size / chunk
  {
    var q := size / chunk;
    assert size < q * chunk + chunk;
    if q == i {
      assert false;
    } else if q < i {
      ChunksApart(q, i, chunk);
      assert false;
    }
  }

  // ---------- rows ----------

  /** MAC (left blank for a read), big-endian LBA, and 30 bytes never written. */
  function Row(lba: nat, counter: nat, write: bool, mac: (nat, nat) -> Mac): (r: seq<byte>)
    ensures |r| == 64
  {
    (if write then mac(counter, lba) else Fill(0xFF, MAC_SIZE)) + ToBytes(lba, 2) + Fill(0xFF, 30)
  }

  /** One row per LBA; a write counts up once per row. */
  function Rows(lbas: seq<nat>, counter: nat, write: bool, mac: (nat, nat) -> Mac): (r: seq<seq<byte>>)
    ensures |r| == |lbas| && forall i :: 0 <= i < |r| ==> |r[i]| == 64
  {
    seq(|lbas|, i requires 0 <= i < |lbas| => Row(lbas[i], counter + i, write, mac))
  }

  /** The buffer holds the rows from its start and is blank after them. */
  ghost predicate IsTable(b: seq<byte>, rows: seq<seq<byte>>) {
    && 64 * |rows| <= |b|
    && (forall i :: 0 <= i < |rows| ==> b[64 * i..64 * i + 64] == rows[i])
    && (forall p :: 64 * |rows| <= p < |b| ==> b[p] == 0xFF)
  }

  lemma TableStep(b: seq<byte>, rows: seq<seq<byte>>, row: seq<byte>)
    requires IsTable(b, rows) && 64 * |rows| + 64 <= |b| && |row| == 64
    ensures IsTable(Overwrite(b, 64 * |rows|, row), rows + [row])
  {
    var n := |rows|;
    var c := Overwrite(b, 64 * n, row);
    forall i | 0 <= i < n + 1
      ensures c[64 * i..64 * i + 64] == (rows + [row])[i]
    {
      if i < n {
        assert b[64 * i..64 * i + 64] == rows[i];
        assert c[64 * i..64 * i + 64] == b[64 * i..64 * i + 64];
      } else {
        assert c[64 * n..64 * n + 64] == row;
      }
    }
  }

  lemma RowParts(lba: nat, counter: nat, write: bool, mac: (nat, nat) -> Mac)
    ensures Row(lba, counter, write, mac)[32..34] == ToBytes(lba, 2)
    ensures write ==> Row(lba, counter, write, mac)[..32] == mac(counter, lba)
    ensures !write ==> Row(lba, counter, write, mac)[..32] == Fill(0xFF, 32)
    ensures Row(lba, counter, write, mac)[34..64] == Fill(0xFF, 30)
  {
  }

  lemma SliceOfSlice(b: seq<byte>, at: nat, lo: nat, hi: nat)
    requires at + 64 <= |b| && lo <= hi <= 64
    ensures b[at..at + 64][lo..hi] == b[at + lo..at + hi]
  {
    var row := b[at..at + 64];
    assert forall k :: 0 <= k < hi - lo ==> row[lo..hi][k] == row[lo + k] == b[at + (lo + k)];
  }

  /** The table says which LBA each entry works on. */
  lemma TableReadsBack(b: seq<byte>, lbas: seq<nat>, counter: nat, write: bool, mac: (nat, nat) -> Mac, i: nat)
    requires IsTable(b, Rows(lbas, counter, write, mac)) && i < |lbas| && lbas[i] < 0x1_0000
    ensures FromBytes(b[64 * i + 32..64 * i + 34]) == lbas[i]
    ensures write ==> b[64 * i..64 * i + 32] == mac(counter + i, lbas[i])
    ensures !write ==> b[64 * i..64 * i + 32] == Fill(0xFF, 32)
    ensures b[64 * i + 34..64 * i + 64] == Fill(0xFF, 30)
  {
    hide Row, FromBytes;
    var row := b[64 * i..64 * i + 64];
    assert row == Rows(lbas, counter, write, mac)[i] == Row(lbas[i], counter + i, write, mac);
    RowParts(lbas[i], counter + i, write, mac);
    SliceOfSlice(b, 64 * i, 32, 34);
    SliceOfSlice(b, 64 * i, 0, 32);
    SliceOfSlice(b, 64 * i, 34, 64);
    Pow256Of4();
    BytesRoundTrip(lbas[i], 2);
  }

  // ---------- what can go wrong ----------

  /** The MAC input and the row hold 4-byte counters and 2-byte LBAs and lengths. */
  function EncodeError(v: PerfVar, lba: nat, counter: nat): Option<Error> {
    if v.direction == WRITE && (counter >= 0x1_0000_0000 || lba >= 0x1_0000 || v.chunk >= 0x1_0000) then Some(OverflowError)
    else if lba >= 0x1_0000 then Some(StructError)
    else None
  }

  /** When an entry cannot be encoded: MAC input of a write first, then the row. */
  lemma EncodeErrorExact(v: PerfVar, lba: nat, counter: nat)
    ensures var e := EncodeError(v, lba, counter);
      && (e == Some(OverflowError) <==> v.direction == 1 && (counter > 0xFFFF_FFFF || lba > 0xFFFF || v.chunk > 0xFFFF))
      && (e == Some(StructError) <==> v.direction != 1 && lba > 0xFFFF)
      && e in {None, Some(OverflowError), Some(StructError)}
  {
  }

  /** A sequential run starts at the start and goes on by one chunk at a time. */
  lemma SequentialLbasExact(v: PerfVar, n: nat, i: nat)
    requires i < n
    ensures SequentialLbas(v, n)[0] == v.startLba
    ensures i + 1 < n ==> SequentialLbas(v, n)[i + 1] == SequentialLbas(v, n)[i] + v.chunk
  {
    NextMultiple(i, v.chunk);
    assert 0 * v.chunk == 0;
  }

  function SequentialLbas(v: PerfVar, n: nat): (r: seq<nat>)
    ensures |r| == n
  {
    seq(n, i => v.startLba + i * v.chunk)
  }

  /** How random entry i of n fails, given that the earlier ones did not. */
  function RandomError(v: PerfVar, draws: nat -> nat, n: nat, counter: nat, i: nat): Option<Error>
    requires v.chunk > 0
  {
    var live := Drawn(Pool(v), draws, v.allowOverlap, i).live;
    if live == [] then Some(ValueError)
    else
      var encode := EncodeError(v, live[draws(i) % |live|], counter + i);
      if encode.Some? then encode
      else if !v.allowOverlap && |live| == 1 && i < n - 1 then Some(TypeError)
      else None
  }

  function EntryError(v: PerfVar, draws: nat -> nat, n: nat, counter: nat, i: nat): Option<Error>
    requires v.chunk > 0
  {
    if v.mode == SEQUENTIAL then EncodeError(v, v.startLba + i * v.chunk, counter + i)
    else if v.mode == RANDOM then RandomError(v, draws, n, counter, i)
    else None
  }

  function Lbas(v: PerfVar, draws: nat -> nat, n: nat): seq<nat>
    requires v.chunk > 0
  {
    if v.mode == SEQUENTIAL then SequentialLbas(v, n)
    else if v.mode == RANDOM then Drawn(Pool(v), draws, v.allowOverlap, n).picks
    else []
  }

  ghost predicate NoErrorBefore(v: PerfVar, draws: nat -> nat, n: nat, counter: nat, m: nat)
    requires v.chunk > 0
  {
    forall i: nat :: i < m ==> EntryError(v, draws, n, counter, i).None?
  }

  /** Entry i is the first that fails, with e. */
  ghost predicate FirstError(v: PerfVar, draws: nat -> nat, n: nat, counter: nat, i: nat, e: Error)
    requires v.chunk > 0
  {
    i < n && NoErrorBefore(v, draws, n, counter, i) && EntryError(v, draws, n, counter, i) == Some(e)
  }

  lemma PickAt(pool: seq<nat>, draws: nat -> nat, replace: bool, i: nat, n: nat)
    requires i < n && Drawn(pool, draws, replace, i).live != []
    ensures var live, picks := Drawn(pool, draws, replace, i).live, Drawn(pool, draws, replace, n).picks;
      |Drawn(pool, draws, replace, i).picks| == i ==> i < |picks| && picks[i] == live[draws(i) % |live|]
  {
    PicksGrow(pool, draws, replace, i + 1, n);
  }

  /** The picks of a run without overlap are encodable, each with its counter. */
  ghost predicate AllEncodable(v: PerfVar, picks: seq<nat>, counter: nat) {
    forall i :: 0 <= i < |picks| ==> EncodeError(v, picks[i], counter + i).None?
  }

  lemma RandomErrorExact(v: PerfVar, draws: nat -> nat, n: nat, counter: nat, i: nat)
    requires v.chunk > 0 && !v.allowOverlap && i < n
    ensures var picks := Drawn(Pool(v), draws, false, n).picks;
      RandomError(v, draws, n, counter, i) ==
      if i >= |Pool(v)| then Some(ValueError)
      else if EncodeError(v, picks[i], counter + i).Some? then EncodeError(v, picks[i], counter + i)
      else if i + 1 == |Pool(v)| < n then Some(TypeError)
      else None
  {
    if i < |Pool(v)| {
      PickAt(Pool(v), draws, false, i, n);
    }
  }

  /** Without overlap a run is accepted exactly if the pool holds enough starts and every pick can be encoded. */
  lemma RandomRunExact(v: PerfVar, draws: nat -> nat, n: nat, counter: nat)
    requires v.chunk > 0 && v.mode == RANDOM && !v.allowOverlap
    ensures NoErrorBefore(v, draws, n, counter, n) <==>
      n <= |Pool(v)| && AllEncodable(v, Drawn(Pool(v), draws, false, n).picks, counter)
  {
    hide Pool, Drawn, RandomError, EncodeError;
    var pool, picks := Pool(v), Drawn(Pool(v), draws, false, n).picks;
    if NoErrorBefore(v, draws, n, counter, n) {
      if n > |pool| {
        var e := EntryError(v, draws, n, counter, |pool|);
        RandomErrorExact(v, draws, n, counter, |pool|);
        assert false;
      }
      forall i | 0 <= i < |picks|
        ensures EncodeError(v, picks[i], counter + i).None?
      {
        RandomErrorExact(v, draws, n, counter, i);
        assert EntryError(v, draws, n, counter, i).None?;
      }
    }
    if n <= |pool| && AllEncodable(v, picks, counter) {
      forall i: nat | i < n
        ensures EntryError(v, draws, n, counter, i).None?
      {
        RandomErrorExact(v, draws, n, counter, i);
      }
    }
  }

  /** A run without overlap that asks for more than the pool holds draws it empty and then raises. */
  lemma OversizeRunRaises(v: PerfVar, draws: nat -> nat, n: nat, counter: nat)
    requires v.chunk > 0 && v.mode == RANDOM && !v.allowOverlap && n > |Pool(v)|
    requires AllEncodable(v, Drawn(Pool(v), draws, false, n).picks, counter)
    ensures if Pool(v) == [] then FirstError(v, draws, n, counter, 0, ValueError)
            else FirstError(v, draws, n, counter, |Pool(v)| - 1, TypeError)
  {
    hide Pool, Drawn, RandomError, EncodeError;
    var pool := Pool(v);
    forall i: nat | i < n
      ensures RandomError(v, draws, n, counter, i) ==
        if i >= |pool| then Some(ValueError) else if i + 1 == |pool| then Some(TypeError) else None
    {
      RandomErrorExact(v, draws, n, counter, i);
    }
  }

  lemma OverlapErrorExact(v: PerfVar, draws: nat -> nat, n: nat, counter: nat, i: nat)
    requires v.chunk > 0 && v.allowOverlap && i < n
    ensures RandomError(v, draws, n, counter, i) ==
      if Pool(v) == [] then Some(ValueError) else EncodeError(v, Drawn(Pool(v), draws, true, n).picks[i], counter + i)
  {
    hide Pool, EncodeError;
    if Pool(v) != [] {
      PickAt(Pool(v), draws, true, i, n);
    }
  }

  /** With overlap a run of any length is accepted exactly if the pool is not empty and every pick can be encoded. */
  lemma OverlapRunExact(v: PerfVar, draws: nat -> nat, n: nat, counter: nat)
    requires v.chunk > 0 && v.mode == RANDOM && v.allowOverlap && n > 0
    ensures NoErrorBefore(v, draws, n, counter, n) <==>
      Pool(v) != [] && AllEncodable(v, Drawn(Pool(v), draws, true, n).picks, counter)
  {
    hide Pool, Drawn, RandomError, EncodeError;
    var picks := Drawn(Pool(v), draws, true, n).picks;
    forall i: nat | i < n
      ensures EntryError(v, draws, n, counter, i) == if Pool(v) == [] then Some(ValueError) else EncodeError(v, picks[i], counter + i)
    {
      OverlapErrorExact(v, draws, n, counter, i);
    }
    if Pool(v) == [] {
      assert EntryError(v, draws, n, counter, 0) == Some(ValueError);
    } else {
      if NoErrorBefore(v, draws, n, counter, n) {
        forall i | 0 <= i < |picks|
          ensures EncodeError(v, picks[i], counter + i).None?
        {
          assert EntryError(v, draws, n, counter, i).None?;
        }
      }
    }
  }

  /** With every LBA of the range in 16 bits and the counters in 32, the size of the pool alone decides. */
  lemma PoolSizeDecides(v: PerfVar, draws: nat -> nat, n: nat, counter: nat)
    requires v.chunk > 0 && v.mode == RANDOM && !v.allowOverlap && v.endLba < 0x1_0000
    requires v.direction == WRITE ==> counter + n <= 0x1_0000_0000 && v.chunk < 0x1_0000
    ensures NoErrorBefore(v, draws, n, counter, n) <==> n <= |Pool(v)|
  {
    hide Pool, Drawn;
    RandomRunExact(v, draws, n, counter);
    PoolIsInRange(v);
    PicksAreDistinct(Pool(v), draws, n);
  }

  // ---------- the table written in place ----------

  lemma RowsStep(lbas: seq<nat>, lba: nat, counter: nat, write: bool, mac: (nat, nat) -> Mac)
    ensures Rows(lbas + [lba], counter, write, mac) == Rows(lbas, counter, write, mac) + [Row(lba, counter + |lbas|, write, mac)]
  {
    hide Row;
  }

  lemma SequentialStep(v: PerfVar, i: nat)
    ensures SequentialLbas(v, i + 1) == SequentialLbas(v, i) + [v.startLba + i * v.chunk]
  {
  }

  /** What one more row does to a table; a read does not depend on the counter. */
  lemma TableGrows(b: seq<byte>, lbas: seq<nat>, lba: nat, counter: nat, frame: nat, write: bool, mac: (nat, nat) -> Mac)
    requires IsTable(b, Rows(lbas, counter, write, mac)) && 64 * |lbas| + 64 <= |b|
    requires write ==> frame == counter + |lbas|
    ensures IsTable(Overwrite(b, 64 * |lbas|, Row(lba, frame, write, mac)), Rows(lbas + [lba], counter, write, mac))
    ensures forall p :: 64 * |lbas| <= p < |b| ==> b[p] == 0xFF
  {
    hide Overwrite;
    RowsStep(lbas, lba, counter, write, mac);
    assert Row(lba, frame, write, mac) == Row(lba, counter + |lbas|, write, mac);
    TableStep(b, Rows(lbas, counter, write, mac), Row(lba, frame, write, mac));
  }

  lemma BlankIsTable(b: seq<byte>, counter: nat, write: bool, mac: (nat, nat) -> Mac)
    requires forall p :: 0 <= p < |b| ==> b[p] == 0xFF
    ensures IsTable(b, Rows([], counter, write, mac))
  {
  }

  /** Blank bytes under a row stay blank where the row leaves them. */
  lemma RowOverBlank(b: seq<byte>, at: nat, lba: nat, counter: nat, write: bool, mac: (nat, nat) -> Mac)
    requires at + 64 <= |b| && forall p :: at <= p < at + 64 ==> b[p] == 0xFF
    ensures var marked := if write then Overwrite(b, at, mac(counter, lba)) else b;
      Overwrite(marked, at + 32, ToBytes(lba, 2)) == Overwrite(b, at, Row(lba, counter, write, mac))
  {
    RowParts(lba, counter, write, mac);
    var row := Row(lba, counter, write, mac);
    var marked := if write then Overwrite(b, at, mac(counter, lba)) else b;
    var done := Overwrite(marked, at + 32, ToBytes(lba, 2));
    forall p | at <= p < at + 64
      ensures done[p] == row[p - at]
    {
    }
  }

  /** The starts random runs draw from, as an array the draws are made in. */
  method BuildPool(v: PerfVar) returns (totalLba: array<nat>)
    requires v.chunk > 0
    ensures fresh(totalLba) && totalLba[..] == Pool(v)
  {
    var lbaCnt := PoolSize(v);
    totalLba := new nat[if lbaCnt > 0 then lbaCnt else 0](_ => 0);
    for i := 0 to totalLba.Length
      invariant forall j :: 0 <= j < i ==> totalLba[j] == Pool(v)[j]
    {
      totalLba[i] := v.startLba + if v.align then i * v.chunk else i;
    }
  }

  /** Overwrite the pick with the last live start; the live part is one shorter from then on. */
  method TakeOut(totalLba: array<nat>, cnt: nat, k: nat)
    requires k < cnt <= totalLba.Length
    modifies totalLba
    ensures totalLba[..cnt - 1] == SwapRemove(old(totalLba[..cnt]), k)
  {
    totalLba[k] := totalLba[cnt - 1];
  }

  lemma NothingDrawn(v: PerfVar, draws: nat -> nat)
    requires v.chunk > 0
    ensures Drawn(Pool(v), draws, v.allowOverlap, 0) == Draw(Pool(v), [])
  {
  }

  lemma RandomStep(v: PerfVar, draws: nat -> nat, n: nat, counter: nat, i: nat)
    requires v.chunk > 0 && v.mode == RANDOM
    ensures var d := Drawn(Pool(v), draws, v.allowOverlap, i);
      var d' := Drawn(Pool(v), draws, v.allowOverlap, i + 1);
      if d.live == [] then EntryError(v, draws, n, counter, i) == Some(ValueError)
      else
        var k := draws(i) % |d.live|;
        && d'.live == (if v.allowOverlap then d.live else SwapRemove(d.live, k))
        && d'.picks == d.picks + [d.live[k]]
        && var encode := EncodeError(v, d.live[k], counter + i);
           EntryError(v, draws, n, counter, i) ==
           if encode.Some? then encode else if !v.allowOverlap && |d.live| == 1 && i < n - 1 then Some(TypeError) else None
  {
    hide Pool, SwapRemove, EncodeError;
  }

  lemma EncodeIgnoresReadCounter(v: PerfVar, lba: nat, a: nat, b: nat)
    requires v.direction == WRITE ==> a == b
    ensures EncodeError(v, lba, a) == EncodeError(v, lba, b)
  {
  }

  lemma EncodeNeverTypeError(v: PerfVar, lba: nat, counter: nat)
    ensures EncodeError(v, lba, counter) != Some(TypeError)
  {
  }

  /** The request checks of a run, in order. */
  function RequestError(v: PerfVar): Option<Error> {
    if v.mode == SEQUENTIAL && v.testSizeKb * 1024 > (v.endLba + 1 - v.startLba) * 256 then Some(TypeError)
    else if v.latency == 1 then Some(TypeError)
    else if v.chunk == 0 then Some(ZeroDivisionError)
    else if v.latency == 0 && TaskEntry(v) > MAX_TASK_ENTRY then Some(TypeError)
    else None
  }

  /** The pool array and the table after i random entries. */
  ghost predicate Sampled(b: seq<byte>, totalLba: seq<nat>, cnt: int, v: PerfVar, draws: nat -> nat, i: nat, counter: nat,
                          mac: (nat, nat) -> Mac)
    requires v.chunk > 0
  {
    var d := Drawn(Pool(v), draws, v.allowOverlap, i);
    && cnt <= |totalLba|
    && (if cnt > 0 then totalLba[..cnt] else []) == d.live
    && |d.picks| == i
    && IsTable(b, Rows(d.picks, counter, v.direction == WRITE, mac))
  }

  class RpmbPerformance {
    var writeCounter: nat
    var frameCounter: nat
    var lbaEntryBuffer: seq<byte>

    /** One row: the MAC if it is a write, then the LBA. */
    method WriteRow(buf: array<byte>, i: nat, lba: nat, v: PerfVar, mac: (nat, nat) -> Mac) returns (error: Option<Error>)
      requires 64 * i + 64 <= buf.Length
      requires forall p :: 64 * i <= p < 64 * i + 64 ==> buf[p] == 0xFF
      modifies buf, this`frameCounter
      ensures error == EncodeError(v, lba, old(frameCounter))
      ensures error.None? ==> buf[..] == Overwrite(old(buf[..]), 64 * i, Row(lba, old(frameCounter), v.direction == WRITE, mac))
      ensures frameCounter == old(frameCounter) + if error.None? && v.direction == WRITE then 1 else 0
    {
      hide Row, Overwrite;
      RowOverBlank(buf[..], 64 * i, lba, frameCounter, v.direction == WRITE, mac);
      if v.direction == WRITE {
        if frameCounter >= 0x1_0000_0000 || lba >= 0x1_0000 || v.chunk >= 0x1_0000 { return Some(OverflowError); }
        WriteSlice(buf, 64 * i, mac(frameCounter, lba));
        frameCounter := frameCounter + 1;
      }
      if lba >= 0x1_0000 { return Some(StructError); }
      WriteSlice(buf, 64 * i + 32, ToBytes(lba, 2));
      return None;
    }

    /** What a table run leaves behind: the full table, or the first entry that failed. */
    ghost predicate Filled(b: seq<byte>, v: PerfVar, draws: nat -> nat, n: nat, counter: nat, mac: (nat, nat) -> Mac, error: Option<Error>,
                           failed: nat)
      requires v.chunk > 0
      reads this
    {
      match error
      case None =>
        && NoErrorBefore(v, draws, n, counter, n)
        && IsTable(b, Rows(Lbas(v, draws, n), counter, v.direction == WRITE, mac))
        && (v.direction == WRITE ==> frameCounter == counter + n)
      case Some(e) =>
        && FirstError(v, draws, n, counter, failed, e)
        && (v.direction == WRITE ==> frameCounter == counter + failed + if e == TypeError then 1 else 0)
    }

    method FillSequential(buf: array<byte>, v: PerfVar, n: nat, mac: (nat, nat) -> Mac, ghost draws: nat -> nat, ghost counter: nat)
      returns (error: Option<Error>, ghost failed: nat)
      requires v.chunk > 0 && v.mode == SEQUENTIAL && 64 * n <= buf.Length
      requires forall p :: 0 <= p < buf.Length ==> buf[p] == 0xFF
      requires v.direction == WRITE ==> frameCounter == counter
      modifies buf, this`frameCounter
      ensures Filled(buf[..], v, draws, n, counter, mac, error, failed)
      ensures v.direction != WRITE ==> frameCounter == old(frameCounter)
    {
      hide Row, Overwrite, Rows;
      failed := 0;
      ghost var write := v.direction == WRITE;
      BlankIsTable(buf[..], counter, write, mac);
      var lba := v.startLba;
      for i := 0 to n
        invariant lba == v.startLba + i * v.chunk
        invariant NoErrorBefore(v, draws, n, counter, i)
        invariant IsTable(buf[..], Rows(SequentialLbas(v, i), counter, write, mac))
        invariant frameCounter == if write then counter + i else old(frameCounter)
      {
        TableGrows(buf[..], SequentialLbas(v, i), lba, counter, frameCounter, write, mac);
        SequentialStep(v, i);
        NextMultiple(i, v.chunk);
        ghost var entry := EntryError(v, draws, n, counter, i);
        error := WriteRow(buf, i, lba, v, mac);
        if error.Some? { return error, i; }
        lba := lba + v.chunk;
      }
      return None, 0;
    }

    /** One random entry: draw, write the row, take the pick out of the pool. */
    method RandomEntry(buf: array<byte>, totalLba: array<nat>, cnt: int, i: nat, v: PerfVar, n: nat, mac: (nat, nat) -> Mac,
                       draws: nat -> nat, ghost counter: nat)
      returns (error: Option<Error>, cnt': int)
      requires v.chunk > 0 && v.mode == RANDOM && i < n && 64 * n <= buf.Length
      requires Sampled(buf[..], totalLba[..], cnt, v, draws, i, counter, mac)
      requires v.direction == WRITE ==> frameCounter == counter + i
      modifies buf, totalLba, this`frameCounter
      ensures error == EntryError(v, draws, n, counter, i)
      ensures error.None? ==> Sampled(buf[..], totalLba[..], cnt', v, draws, i + 1, counter, mac)
      ensures frameCounter == old(frameCounter) +
        if v.direction == WRITE && (error.None? || error == Some(TypeError)) then 1 else 0
    {
      hide Row, Overwrite, Rows, Pool, Drawn, SwapRemove, EncodeError, EntryError, IsTable;
      RandomStep(v, draws, n, counter, i);
      cnt' := cnt;
      ghost var d := Drawn(Pool(v), draws, v.allowOverlap, i);
      if cnt <= 0 { return Some(ValueError), cnt; }
      var randLbaIdx := draws(i) % cnt;
      var lba := totalLba[randLbaIdx];
      TableGrows(buf[..], d.picks, lba, counter, frameCounter, v.direction == WRITE, mac);
      EncodeIgnoresReadCounter(v, lba, counter + i, frameCounter);
      EncodeNeverTypeError(v, lba, frameCounter);
      assert totalLba[..cnt] == d.live;
      error := WriteRow(buf, i, lba, v, mac);
      if error.Some? { return; }
      if !v.allowOverlap {
        TakeOut(totalLba, cnt, randLbaIdx);
        cnt' := cnt - 1;
        if cnt' == 0 && i < n - 1 { return Some(TypeError), cnt'; }
      }
    }

    method FillRandom(buf: array<byte>, v: PerfVar, n: nat, mac: (nat, nat) -> Mac, draws: nat -> nat, ghost counter: nat)
      returns (error: Option<Error>, ghost failed: nat)
      requires v.chunk > 0 && v.mode == RANDOM && 64 * n <= buf.Length
      requires forall p :: 0 <= p < buf.Length ==> buf[p] == 0xFF
      requires v.direction == WRITE ==> frameCounter == counter
      modifies buf, this`frameCounter
      ensures Filled(buf[..], v, draws, n, counter, mac, error, failed)
      ensures v.direction != WRITE ==> frameCounter == old(frameCounter)
    {
      hide Rows, Pool, Drawn, EntryError, IsTable, PoolSize;
      failed := 0;
      BlankIsTable(buf[..], counter, v.direction == WRITE, mac);
      NothingDrawn(v, draws);
      var totalLba := BuildPool(v);
      var lbaCnt := PoolSize(v);
      for i := 0 to n
        invariant NoErrorBefore(v, draws, n, counter, i)
        invariant Sampled(buf[..], totalLba[..], lbaCnt, v, draws, i, counter, mac)
        invariant frameCounter == if v.direction == WRITE then counter + i else old(frameCounter)
      {
        error, lbaCnt := RandomEntry(buf, totalLba, lbaCnt, i, v, n, mac, draws, counter);
        if error.Some? { return error, i; }
      }
      return None, 0;
    }

    /** The LBA buffer of a run; it is stored only when every entry was written. */
    method PrepareLbaBuffer(size: nat, v: PerfVar, n: nat, draws: nat -> nat, mac: (nat, nat) -> Mac)
      returns (error: Option<Error>, ghost failed: nat)
      requires v.chunk > 0 && 64 * n <= size
      modifies this
      ensures writeCounter == old(writeCounter)
      ensures v.mode <= RANDOM ==> Filled(lbaEntryBuffer, v, draws, n, writeCounter, mac, error, failed)
      ensures v.mode > RANDOM ==> error == None && lbaEntryBuffer == Fill(0xFF, size)
      ensures if error.None? then |lbaEntryBuffer| == size else lbaEntryBuffer == old(lbaEntryBuffer)
      ensures v.direction != WRITE ==> frameCounter == old(frameCounter)
    {
      hide FirstError, NoErrorBefore, IsTable, Lbas;
      error, failed := None, 0;
      var buf := new byte[size](_ => 0xFF);
      if v.direction == WRITE { frameCounter := writeCounter; }
      if v.mode == SEQUENTIAL {
        error, failed := FillSequential(buf, v, n, mac, draws, writeCounter);
      } else if v.mode == RANDOM {
        error, failed := FillRandom(buf, v, n, mac, draws, writeCounter);
      }
      if error.None? { lbaEntryBuffer := buf[..]; }
    }

    /** A run up to the device call, and the counter it leaves. */
    method Executer(v: PerfVar, draws: nat -> nat, mac: (nat, nat) -> Mac) returns (error: Option<Error>, ghost failed: nat)
      modifies this
      ensures RequestError(v).Some? ==> error == RequestError(v) && frameCounter == old(frameCounter)
      ensures RequestError(v).None? ==> v.chunk > 0
      ensures RequestError(v).None? && v.mode <= RANDOM ==>
        Filled(lbaEntryBuffer, v, draws, TaskEntry(v), old(writeCounter), mac, error, failed)
      ensures RequestError(v).None? && v.mode > RANDOM ==>
        error == None && lbaEntryBuffer == Fill(0xFF, SectorCount(TaskEntry(v)) * 512)
      ensures error.None? ==> |lbaEntryBuffer| == SectorCount(TaskEntry(v)) * 512
      ensures error.None? ==> writeCounter == old(writeCounter) + if v.direction == WRITE then TaskEntry(v) else 0
      ensures error.None? && v.direction == WRITE && v.mode <= RANDOM ==> frameCounter == writeCounter
      ensures error.Some? ==> writeCounter == old(writeCounter) && lbaEntryBuffer == old(lbaEntryBuffer)
    {
      hide FirstError, NoErrorBefore, IsTable, Lbas, TaskEntry, SectorCount;
      failed := 0;
      if v.mode == SEQUENTIAL && v.testSizeKb * 1024 > (v.endLba + 1 - v.startLba) * 256 { return Some(TypeError), 0; }
      if v.latency == 1 { return Some(TypeError), 0; }
      if v.chunk == 0 { return Some(ZeroDivisionError), 0; }
      var taskEntry := TaskEntry(v);
      if v.latency == 0 && taskEntry > MAX_TASK_ENTRY { return Some(TypeError), 0; }
      var sectorCnt := SectorCount(taskEntry);
      SectorCountIsLeast(taskEntry);
      error, failed := PrepareLbaBuffer(sectorCnt * 512, v, taskEntry, draws, mac);
      if error.None? && v.direction == WRITE {
        writeCounter := writeCounter + taskEntry;
      }
    }
  }

  // ---------- what a table covers ----------

  /** The chunks of the LBAs lie in range and do not share a block. */
  ghost predicate Disjoint(v: PerfVar, lbas: seq<nat>) {
    && (forall i :: 0 <= i < |lbas| ==> InRange(v, lbas[i]))
    && (forall i, j :: 0 <= i < j < |lbas| ==> Apart(lbas[i], lbas[j], v.chunk))
  }

  lemma EntriesFitRequest(v: PerfVar)
    requires v.chunk > 0
    ensures TaskEntry(v) * v.chunk * 256 <= v.testSizeKb * 1024
  {
    var a, b := v.testSizeKb * 1024, v.chunk * 256;
    var q := TaskEntry(v);
    assert q == a / b;
    assert a == q * b + a % b;
    assert q * b == q * v.chunk * 256;
  }

  /** The entries use up the test size to less than one chunk. */
  lemma TaskEntryExact(v: PerfVar)
    requires v.chunk > 0
    ensures var n, bytes, chunk := TaskEntry(v), v.testSizeKb * 1024, v.chunk * 256;
      n * chunk <= bytes < n * chunk + chunk
  {
    var bytes, chunk := v.testSizeKb * 1024, v.chunk * 256;
    assert bytes == bytes / chunk * chunk + bytes % chunk;
  }

  /** Which requests are let through, and what each of the others raises first. */
  lemma RequestErrorExact(v: PerfVar)
    ensures var e := RequestError(v);
      var tooLarge := v.mode == 0 && v.testSizeKb * 1024 > (v.endLba + 1 - v.startLba) * 256;
      && (e == Some(ZeroDivisionError) <==> !tooLarge && v.latency != 1 && v.chunk == 0)
      && (e == Some(TypeError) <==>
            tooLarge || v.latency == 1 || (v.chunk != 0 && v.latency == 0 && TaskEntry(v) > 1015808))
      && (e == None <==> !tooLarge && v.latency != 1 && v.chunk != 0 && (v.latency == 0 ==> TaskEntry(v) <= 1015808))
  {
    hide TaskEntry;
  }

  /** A sequential run that is let through is carried out if the range has 16-bit LBAs and the counters last. */
  lemma SequentialRunSucceeds(v: PerfVar, draws: nat -> nat, counter: nat)
    requires v.mode == SEQUENTIAL && RequestError(v).None? && v.endLba <= 0xFFFF
    requires v.direction == WRITE ==> counter + TaskEntry(v) <= 0x1_0000_0000 && v.chunk <= 0xFFFF
    ensures NoErrorBefore(v, draws, TaskEntry(v), counter, TaskEntry(v))
  {
    hide TaskEntry;
    var n := TaskEntry(v);
    SequentialRunIsDisjoint(v);
    forall i: nat | i < n
      ensures EntryError(v, draws, n, counter, i).None?
    {
      assert InRange(v, SequentialLbas(v, n)[i]);
    }
  }

  /** A sequential run over the whole range is let through, in chunks that divide it or not. */
  lemma FullRangeIsAccepted(v: PerfVar)
    requires v.mode == SEQUENTIAL && v.latency == 0 && v.chunk > 0 && v.startLba <= v.endLba <= 0xFFFF
    requires v.testSizeKb * 1024 == (v.endLba + 1 - v.startLba) * 256
    ensures RequestError(v).None?
  {
    TaskEntryExact(v);
    hide TaskEntry;
    var n := TaskEntry(v);
    ManyChunks(n, v.chunk * 256);
  }

  lemma ManyChunks(n: nat, chunk: nat)
    requires chunk >= 256
    ensures n * 256 <= n * chunk
  {
    assert n * (chunk - 256) >= 0;
    assert n * chunk == n * 256 + n * (chunk - 256);
  }

  /** A sequential run that passes the size check covers its range without overlap. */
  lemma SequentialRunIsDisjoint(v: PerfVar)
    requires v.mode == SEQUENTIAL && RequestError(v).None?
    ensures Disjoint(v, SequentialLbas(v, TaskEntry(v)))
  {
    hide TaskEntry;
    var n := TaskEntry(v);
    EntriesFitRequest(v);
    assert n * v.chunk <= v.endLba + 1 - v.startLba || n * v.chunk == 0;
    forall i | 0 <= i < n
      ensures InRange(v, SequentialLbas(v, n)[i])
    {
      ChunksApart(i, n, v.chunk);
    }
    forall i, j | 0 <= i < j < n
      ensures Apart(SequentialLbas(v, n)[i], SequentialLbas(v, n)[j], v.chunk)
    {
      ChunksApart(i, j, v.chunk);
    }
  }

  /** Whatever is drawn, an aligned run without overlap picks chunks in range that share no block. */
  lemma AlignedRunIsDisjoint(v: PerfVar, draws: nat -> nat, n: nat)
    requires v.chunk > 0 && v.align && !v.allowOverlap
    ensures Disjoint(v, Drawn(Pool(v), draws, false, n).picks)
  {
    hide Pool, Drawn;
    var pool, picks := Pool(v), Drawn(Pool(v), draws, false, n).picks;
    PoolIsInRange(v);
    PicksAreDistinct(pool, draws, n);
    forall i | 0 <= i < |picks|
      ensures InRange(v, picks[i])
    {
      assert picks[i] in pool;
    }
    forall i, j | 0 <= i < j < |picks|
      ensures Apart(picks[i], picks[j], v.chunk)
    {
      assert picks[i] in pool && picks[j] in pool && picks[i] != picks[j];
      var a :| 0 <= a < |pool| && pool[a] == picks[i];
      var b :| 0 <= b < |pool| && pool[b] == picks[j];
      assert if a < b then Apart(pool[a], pool[b], v.chunk) else Apart(pool[b], pool[a], v.chunk);
    }
  }
}
