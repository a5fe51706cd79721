/**
 * Where things go in the command-package buffer, and when a package fits.
 *
 * Entries of 72 bytes are packed 113 to a group of 8 KiB, with 56 bytes of padding at the end of
 * each group. Payloads start at a data-begin offset that depends on the number of entries only.
 */
module Layout {
  import opened Sequences

  const ENTRY_SIZE: nat := 72
  const ALIGN_SIZE_512: nat := 512
  const ALIGN_SIZE_8K: nat := 8192
  const NOT_INITIALIZED: int := -1
  const BUF_SIZE: nat := 62 * 1024 * 1024
  const ENTRY_PADDING_SIZE: nat := ALIGN_SIZE_8K % ENTRY_SIZE
  const ENTRY_CNT_PER_GRP: nat := ALIGN_SIZE_8K / ENTRY_SIZE
  const BUF_SIZE_IN_512B: nat := BUF_SIZE / 512
  const ALIGN_EHS_UNIT: nat := 96
  const EHS_BUF_SIZE: nat := 512 * 1024

  function CeilDiv(a: nat, b: nat): (r: nat)
    requires b > 0
  {
    (a + b - 1) / b
  }

  function AlignUp(value: nat, alignment: nat): (r: nat)
    requires alignment > 0
  {
    CeilDiv(value, alignment) * alignment
  }

  /** AlignUp gives the least multiple that is not below the value, at the three alignments in use. */
  lemma AlignUpIsLeastMultiple(v: nat)
    ensures AlignUp(v, 512) % 512 == 0 && v <= AlignUp(v, 512) < v + 512
    ensures AlignUp(v, 96) % 96 == 0 && v <= AlignUp(v, 96) < v + 96
    ensures AlignUp(v, 8192) % 8192 == 0 && v <= AlignUp(v, 8192) < v + 8192
  {
  }

  // ---------- entry slots ----------

  /** Byte offset of entry slot k: its 8 KiB group, and its place among the 113 entries of the group. */
  function EntryOffset(k: nat): (r: nat) {
    k / 113 * 8192 + k % 113 * 72
  }

  /** The incremental step the allocator takes after writing an entry at `ptr`. */
  function NextEntryPtr(ptr: nat): nat {
    if (ptr + ENTRY_SIZE * 2) % ALIGN_SIZE_8K < ENTRY_SIZE
    then ptr + ENTRY_SIZE + ENTRY_PADDING_SIZE
    else ptr + ENTRY_SIZE
  }

  function PtrAfter(pushes: nat): nat {
    if pushes == 0 then 0 else NextEntryPtr(PtrAfter(pushes - 1))
  }

  lemma WithinGroup(g: nat, c: nat)
    ensures (8192 * g + c) % 8192 == c % 8192
  {
  }

  lemma SlotParts(g: nat, e: nat)
    requires e < 113
    ensures EntryOffset(113 * g + e) == 8192 * g + 72 * e
  {
    assert (113 * g + e) / 113 == g && (113 * g + e) % 113 == e;
  }

  lemma NextEntryPtrInGroup(g: nat, e: nat)
    requires e < 113
    ensures NextEntryPtr(8192 * g + 72 * e) == if e == 112 then 8192 * (g + 1) else 8192 * g + 72 * (e + 1)
  {
    WithinGroup(g, 72 * e + 144);
  }

  lemma NextEntryPtrIsNextSlot(k: nat)
    ensures NextEntryPtr(EntryOffset(k)) == EntryOffset(k + 1)
  {
    hide NextEntryPtr, EntryOffset;
    var g, e := k / 113, k % 113;
    assert k == 113 * g + e;
    SlotParts(g, e);
    NextEntryPtrInGroup(g, e);
    if e == 112 {
      SlotParts(g + 1, 0);
      assert k + 1 == 113 * (g + 1) + 0;
    } else {
      SlotParts(g, e + 1);
    }
  }

  /** The pointer refines the formula: k pushes from 0 reach exactly slot k. */
  lemma {:induction false} PointerRefinesFormula(k: nat)
    ensures PtrAfter(k) == EntryOffset(k)
  {
    hide NextEntryPtr;
    if k > 0 {
      PointerRefinesFormula(k - 1);
      NextEntryPtrIsNextSlot(k - 1);
      hide EntryOffset;
    }
  }

  /** No entry straddles an 8 KiB boundary, and the padding is the last 56 bytes of the group. */
  lemma EntryStaysInItsGroup(k: nat)
    ensures EntryOffset(k) / 8192 == k / 113 == (EntryOffset(k) + ENTRY_SIZE - 1) / 8192
    ensures EntryOffset(k) % 8192 + ENTRY_SIZE <= 8192 - 56
  {
    var g, e := k / 113, k % 113;
    assert EntryOffset(k) == 8192 * g + 72 * e;
    assert 72 * e + 72 <= 8192 - 56;
  }

  /** Slots come in order and do not overlap. */
  lemma EntrySlotsDisjoint(j: nat, k: nat)
    requires j < k
    ensures EntryOffset(j) + ENTRY_SIZE <= EntryOffset(k)
  {
    var g, e := j / 113, j % 113;
    var h, f := k / 113, k % 113;
    assert EntryOffset(j) == 8192 * g + 72 * e && EntryOffset(k) == 8192 * h + 72 * f;
    assert g <= h;
    if g == h {
      assert e < f;
    }
  }

  // ---------- data begin ----------

  function GroupCount(entryCnt: nat): nat {
    if CeilDiv(entryCnt, ENTRY_CNT_PER_GRP) < 4 then 4 else CeilDiv(entryCnt, ENTRY_CNT_PER_GRP)
  }

  /** The offset set_data_begin_offset computes. */
  function DataBegin(entryCnt: nat): (r: nat) {
    var r := AlignUp(entryCnt, ENTRY_CNT_PER_GRP) / ENTRY_CNT_PER_GRP * ALIGN_SIZE_8K;
    if r < 32 * 1024 then 32 * 1024 else r
  }

  lemma DataBeginIsGroups(entryCnt: nat)
    ensures DataBegin(entryCnt) == GroupCount(entryCnt) * 8192
    ensures 113 * GroupCount(entryCnt) >= entryCnt
  {
    var c := CeilDiv(entryCnt, 113);
    assert c * 113 / 113 == c;
  }

  /** Data begins at the least group boundary, 32 KiB or later, below which that many entries fit. */
  lemma DataBeginIsLeast(entryCnt: nat)
    ensures var begin := DataBegin(entryCnt);
      && begin >= 32768 && begin % 8192 == 0 && 113 * (begin / 8192) >= entryCnt
      && forall m: nat :: m >= 32768 && m % 8192 == 0 && 113 * (m / 8192) >= entryCnt ==> begin <= m
  {
    var groups := GroupCount(entryCnt);
    DataBeginIsGroups(entryCnt);
    hide DataBegin;
    forall m: nat | m >= 32768 && m % 8192 == 0 && 113 * (m / 8192) >= entryCnt
      ensures groups * 8192 <= m
    {
      var g := m / 8192;
      assert m == 8192 * g && g >= 4 && 113 * g >= entryCnt;
    }
  }

  /** The entry part of _has_room_for_cmd. */
  predicate EntryHasRoom(entryPtr: nat, dataBegin: nat) {
    AlignUp(entryPtr + ENTRY_SIZE * 2, ALIGN_SIZE_8K) <= dataBegin
  }

  /** Slot k passes the entry check exactly if slots 0..k+1 all fit below the data. */
  lemma EntryRoomExact(k: nat, groups: nat)
    ensures EntryHasRoom(EntryOffset(k), groups * 8192) <==> k + 2 <= 113 * groups
  {
    var g, e := k / 113, k % 113;
    assert k == 113 * g + e;
    assert EntryOffset(k) == 8192 * g + 72 * e;
    var up := AlignUp(8192 * g + 72 * e + 144, 8192);
    if e == 112 {
      assert up == 8192 * (g + 2);
    } else {
      assert up == 8192 * (g + 1);
    }
  }

  /** Every one of n commands finds entry room when the data begins after n + 1 entries. */
  lemma EveryEntryHasRoom(n: nat, k: nat)
    requires k < n
    ensures EntryHasRoom(EntryOffset(k), DataBegin(n + 1))
  {
    EntryRoomExact(k, GroupCount(n + 1));
    DataBeginIsGroups(n + 1);
  }

  /** Slots 0..n, the terminator slot n included, end at or below the data-begin offset. */
  lemma SlotsBelowData(n: nat, k: nat)
    requires k <= n
    ensures EntryOffset(k) + ENTRY_SIZE <= DataBegin(n + 1)
  {
    var g, e := k / 113, k % 113;
    assert EntryOffset(k) == 8192 * g + 72 * e;
    DataBeginIsGroups(n + 1);
    assert g + 1 <= GroupCount(n + 1);
  }

  /** _has_room_for_cmd: entry, payload and EHS space at the three pointers. */
  predicate HasRoom(entryPtr: nat, dataPtr: nat, ehsPtr: nat, dataBegin: int, payloadLen: nat, ehsLen: nat) {
    && AlignUp(entryPtr + ENTRY_SIZE * 2, ALIGN_SIZE_8K) <= dataBegin
    && dataPtr + AlignUp(payloadLen, ALIGN_SIZE_512) <= BUF_SIZE
    && ehsPtr + AlignUp(ehsLen, ALIGN_EHS_UNIT) <= EHS_BUF_SIZE
  }

  /**
   * There is room exactly if slots k and k + 1 lie below the data, and payload and EHS, filled up to whole
   * blocks of 512 and 96 bytes, end inside their buffers of 62 MiB and 512 KiB.
   */
  lemma HasRoomExact(k: nat, dataPtr: nat, ehsPtr: nat, groups: nat, payloadLen: nat, ehsLen: nat)
    ensures HasRoom(EntryOffset(k), dataPtr, ehsPtr, groups * 8192, payloadLen, ehsLen) <==>
      && k + 2 <= 113 * groups
      && (exists m: nat :: payloadLen <= 512 * m && dataPtr + 512 * m <= 65011712)
      && (exists m: nat :: ehsLen <= 96 * m && ehsPtr + 96 * m <= 524288)
  {
    EntryRoomExact(k, groups);
    hide EntryOffset;
    BlocksFitExact(dataPtr, payloadLen);
    EhsBlocksFitExact(ehsPtr, ehsLen);
  }

  lemma BlocksFitExact(ptr: nat, len: nat)
    ensures ptr + AlignUp(len, 512) <= 65011712 <==> exists m: nat :: len <= 512 * m && ptr + 512 * m <= 65011712
  {
    AlignUpIsLeastMultiple(len);
    hide AlignUp;
    var a := AlignUp(len, 512);
    assert a == 512 * (a / 512);
  }

  lemma EhsBlocksFitExact(ptr: nat, len: nat)
    ensures ptr + AlignUp(len, 96) <= 524288 <==> exists m: nat :: len <= 96 * m && ptr + 96 * m <= 524288
  {
    AlignUpIsLeastMultiple(len);
    hide AlignUp;
    var a := AlignUp(len, 96);
    assert a == 96 * (a / 96);
  }

  // ---------- admission ----------

  /** early_check_if_full: the totals test enqueue uses. */
  predicate EarlyCheckIfFull(entryCnt: nat, totalData: nat, totalEhs: nat) {
    var grpCnt := CeilDiv(entryCnt, ENTRY_CNT_PER_GRP);
    var grpCnt' := if grpCnt < 4 then 4 else grpCnt;
    || BUF_SIZE_IN_512B - grpCnt' * (8192 / 512) - totalData < 0
    || totalEhs > EHS_BUF_SIZE / ALIGN_EHS_UNIT
  }

  /** The sizes a command is admitted by, in 512-byte and 96-byte blocks. */
  datatype Size = Size(data: nat, ehs: nat)

  function TotalData(sizes: seq<Size>): nat {
    if sizes == [] then 0 else TotalData(sizes[..|sizes| - 1]) + sizes[|sizes| - 1].data
  }

  function TotalEhs(sizes: seq<Size>): nat {
    if sizes == [] then 0 else TotalEhs(sizes[..|sizes| - 1]) + sizes[|sizes| - 1].ehs
  }

  /** Enqueueing the commands one by one: each is tested against the totals it would bring about. */
  predicate AdmittedOneByOne(sizes: seq<Size>) {
    sizes == [] ||
    (var before := sizes[..|sizes| - 1];
     var last := sizes[|sizes| - 1];
     && AdmittedOneByOne(before)
     && !EarlyCheckIfFull(|before| + 2, TotalData(before) + last.data, TotalEhs(before) + last.ehs))
  }

  /** The capacity condition on the totals alone. */
  predicate FitsInTotal(n: nat, data: nat, ehs: nat) {
    && 16 * (if (n + 1 + 112) / 113 < 4 then 4 else (n + 1 + 112) / 113) + data <= 126976
    && ehs <= 5461
  }

  /** Capacity is exact and free of order: only the final totals matter. */
  lemma {:induction false} CapacityIsExact(sizes: seq<Size>)
    ensures AdmittedOneByOne(sizes) <==> FitsInTotal(|sizes|, TotalData(sizes), TotalEhs(sizes))
  {
    if sizes != [] {
      CapacityIsExact(sizes[..|sizes| - 1]);
    }
  }

  lemma {:induction false} TotalsWithout(s: seq<Size>, i: nat)
    requires i < |s|
    ensures TotalData(s) == TotalData(Without(s, i)) + s[i].data
    ensures TotalEhs(s) == TotalEhs(Without(s, i)) + s[i].ehs
  {
    var before := s[..|s| - 1];
    if i == |s| - 1 {
      assert Without(s, i) == before;
    } else {
      TotalsWithout(before, i);
      assert Without(s, i)[..|s| - 2] == Without(before, i);
    }
  }

  /** Totals do not depend on the order of the commands. */
  lemma {:induction false} TotalsArePermutationFree(a: seq<Size>, b: seq<Size>)
    requires multiset(a) == multiset(b)
    ensures TotalData(a) == TotalData(b) && TotalEhs(a) == TotalEhs(b)
  {
    if a == [] {
      assert |multiset(b)| == 0;
    } else {
      var i := ReorderingWithoutLast(a, b);
      TotalsArePermutationFree(a[..|a| - 1], Without(b, i));
      TotalsWithout(b, i);
    }
  }

  /** Admission of a set of commands does not depend on the order they are enqueued in. */
  lemma AdmissionIsOrderFree(a: seq<Size>, b: seq<Size>)
    requires multiset(a) == multiset(b)
    ensures AdmittedOneByOne(a) <==> AdmittedOneByOne(b)
  {
    CapacityIsExact(a);
    CapacityIsExact(b);
    TotalsArePermutationFree(a, b);
    assert |a| == |multiset(a)| == |multiset(b)| == |b|;
  }

  lemma {:induction false} NoDataTotals(n: nat)
    ensures TotalData(seq(n, _ => Size(0, 0))) == 0 && TotalEhs(seq(n, _ => Size(0, 0))) == 0
  {
    if n > 0 {
      NoDataTotals(n - 1);
      assert seq(n, _ => Size(0, 0))[..n - 1] == seq(n - 1, _ => Size(0, 0));
    }
  }

  /** Commands without data or EHS: exactly 896767 of them fit. */
  lemma DatalessCapacity(n: nat)
    ensures AdmittedOneByOne(seq(n, _ => Size(0, 0))) <==> n <= 896767
  {
    var s: seq<Size> := seq(n, _ => Size(0, 0));
    CapacityIsExact(s);
    NoDataTotals(n);
  }
}
