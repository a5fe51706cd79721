/** The image of a whole package: what is at every byte once the first m commands have been pushed. */
module PackageLayout {
  import opened Bytes
  import opened Layout
  import opened Protocols

  function Blocks(c: Command): nat { CeilDiv(c.DataLength(), ALIGN_SIZE_512) }

  function EhsBlocks(c: Command): nat { CeilDiv(|c.Ehs()|, ALIGN_EHS_UNIT) }

  function SumBlocks(cmds: seq<Command>): nat {
    if cmds == [] then 0 else SumBlocks(cmds[..|cmds| - 1]) + Blocks(cmds[|cmds| - 1])
  }

  /** EHS blocks of every command, tester commands included: what send pushes. */
  function SumEhsBlocks(cmds: seq<Command>): nat {
    if cmds == [] then 0 else SumEhsBlocks(cmds[..|cmds| - 1]) + EhsBlocks(cmds[|cmds| - 1])
  }

  lemma SumsStep(cmds: seq<Command>, k: nat)
    requires k < |cmds|
    ensures SumBlocks(cmds[..k + 1]) == SumBlocks(cmds[..k]) + Blocks(cmds[k])
    ensures SumEhsBlocks(cmds[..k + 1]) == SumEhsBlocks(cmds[..k]) + EhsBlocks(cmds[k])
  {
    hide Blocks, EhsBlocks;
    assert cmds[..k + 1][..k] == cmds[..k];
  }

  lemma {:induction false} SumsMonotone(cmds: seq<Command>, j: nat, k: nat)
    requires j <= k <= |cmds|
    ensures SumBlocks(cmds[..j]) <= SumBlocks(cmds[..k])
    ensures SumEhsBlocks(cmds[..j]) <= SumEhsBlocks(cmds[..k])
    decreases k
  {
    hide Blocks, EhsBlocks;
    if j < k {
      SumsMonotone(cmds, j, k - 1);
      SumsStep(cmds, k - 1);
    }
  }

  // ---------- addresses ----------

  function Begin(cmds: seq<Command>): nat { DataBegin(|cmds| + 1) }

  function DataStart(cmds: seq<Command>, k: nat): nat
    requires k <= |cmds|
  {
    Begin(cmds) + 512 * SumBlocks(cmds[..k])
  }

  function EhsStart(cmds: seq<Command>, k: nat): nat
    requires k <= |cmds|
  {
    96 * SumEhsBlocks(cmds[..k])
  }

  /** The data of the package ends inside the buffer. */
  predicate DataFits(cmds: seq<Command>) {
    DataStart(cmds, |cmds|) <= BUF_SIZE
  }

  predicate EhsFits(cmds: seq<Command>, m: nat)
    requires m <= |cmds|
  {
    EhsStart(cmds, m) <= EHS_BUF_SIZE
  }

  /** Commands 0..m-1 can each be composed and hold no more payload than their declared length. */
  ghost predicate Pushable(cmds: seq<Command>, m: nat)
    requires m <= |cmds|
  {
    forall j :: 0 <= j < m ==>
      WellFormed(cmds[j]) && ComposeError(cmds[j]).None? && |cmds[j].data| <= cmds[j].DataLength()
  }

  /** The payload as stored: what the caller supplied, then 0xFF up to the 512-byte boundary. */
  function StoredPayload(c: Command): (s: seq<byte>)
    requires |c.data| <= c.DataLength()
    ensures |s| == 512 * Blocks(c)
  {
    c.data + Fill(0xFF, 512 * Blocks(c) - |c.data|)
  }

  function StoredEhs(c: Command): (s: seq<byte>)
    ensures |s| == 96 * EhsBlocks(c)
  {
    c.Ehs() + Fill(0, 96 * EhsBlocks(c) - |c.Ehs()|)
  }

  predicate InSlot(p: nat, j: nat) {
    EntryOffset(j) <= p < EntryOffset(j) + ENTRY_SIZE
  }

  // ---------- separation ----------

  /** Payload extents, and EHS extents, follow one another without overlap and are as long as the rounded lengths. */
  lemma ExtentsInOrder(cmds: seq<Command>, j: nat, k: nat)
    requires j < k <= |cmds|
    ensures Begin(cmds) <= DataStart(cmds, j) <= DataStart(cmds, j + 1) <= DataStart(cmds, k) <= DataStart(cmds, |cmds|)
    ensures EhsStart(cmds, j) <= EhsStart(cmds, j + 1) <= EhsStart(cmds, k)
    ensures DataStart(cmds, j + 1) == DataStart(cmds, j) + 512 * Blocks(cmds[j])
    ensures EhsStart(cmds, j + 1) == EhsStart(cmds, j) + 96 * EhsBlocks(cmds[j])
  {
    hide Blocks, EhsBlocks, DataBegin;
    SumsStep(cmds, j);
    SumsMonotone(cmds, j + 1, k);
    SumsMonotone(cmds, k, |cmds|);
  }

  /** No two extents of a package meet; entries lie below the data-begin offset, payloads at or above it, all aligned. */
  lemma ExtentsDisjoint(cmds: seq<Command>, j: nat, k: nat)
    requires j < k < |cmds|
    ensures EntryOffset(j) + ENTRY_SIZE <= EntryOffset(k) < EntryOffset(k) + ENTRY_SIZE <= Begin(cmds) <= DataStart(cmds, j)
    ensures cmds[j].DataLength() <= 512 * Blocks(cmds[j]) && DataStart(cmds, j) + 512 * Blocks(cmds[j]) <= DataStart(cmds, k)
    ensures |cmds[j].Ehs()| <= 96 * EhsBlocks(cmds[j]) && EhsStart(cmds, j) + 96 * EhsBlocks(cmds[j]) <= EhsStart(cmds, k)
  {
    hide CeilDiv, DataBegin, EntryOffset;
    EntrySlotsDisjoint(j, k);
    SlotsBelowData(|cmds|, k);
    ExtentsInOrder(cmds, j, k);
    AlignUpIsLeastMultiple(cmds[j].DataLength());
    AlignUpIsLeastMultiple(|cmds[j].Ehs()|);
  }

  /** Both pointers stay aligned: the two assertions in _build_cmd_seq_buf hold. */
  lemma PointersAligned(cmds: seq<Command>, k: nat)
    requires k <= |cmds|
    ensures DataStart(cmds, k) % 512 == 0 && EhsStart(cmds, k) % 96 == 0
  {
    hide CeilDiv, GroupCount, SumBlocks, SumEhsBlocks;
    DataBeginIsGroups(|cmds| + 1);
  }

  // ---------- the image ----------

  ghost predicate EntriesLaid(buf: seq<byte>, cmds: seq<Command>, m: nat)
    requires m <= |cmds| && Pushable(cmds, m) && |buf| == BUF_SIZE
  {
    forall j :: 0 <= j < m ==>
      Slice(buf, EntryOffset(j), EntryOffset(j) + ENTRY_SIZE)
      == PatchedEntry(cmds[j], DataStart(cmds, j), EhsStart(cmds, j))
  }

  ghost predicate PayloadsLaid(buf: seq<byte>, cmds: seq<Command>, m: nat)
    requires m <= |cmds| && Pushable(cmds, m) && |buf| == BUF_SIZE
  {
    forall j :: 0 <= j < m ==>
      Slice(buf, DataStart(cmds, j), DataStart(cmds, j + 1)) == StoredPayload(cmds[j])
  }

  /** Everything that is neither an entry nor a payload still holds the initial 0xFF. */
  ghost predicate RestBlank(buf: seq<byte>, cmds: seq<Command>, m: nat)
    requires m <= |cmds| && |buf| == BUF_SIZE
  {
    && (forall p :: 0 <= p < BUF_SIZE && p < Begin(cmds) && (forall j :: 0 <= j < m ==> !InSlot(p, j)) ==> buf[p] == 0xFF)
    && (forall p :: DataStart(cmds, m) <= p < BUF_SIZE ==> buf[p] == 0xFF)
  }

  ghost predicate EhsLaid(ehs: seq<byte>, cmds: seq<Command>, m: nat)
    requires m <= |cmds| && |ehs| == EHS_BUF_SIZE
  {
    && (forall j :: 0 <= j < m ==> Slice(ehs, EhsStart(cmds, j), EhsStart(cmds, j + 1)) == StoredEhs(cmds[j]))
    && (forall p :: EhsStart(cmds, m) <= p < EHS_BUF_SIZE ==> ehs[p] == 0)
  }

  /** Both buffers after the first m commands have been pushed into fresh ones. */
  ghost predicate LaidOut(buf: seq<byte>, ehs: seq<byte>, cmds: seq<Command>, m: nat)
    requires m <= |cmds|
  {
    && |buf| == BUF_SIZE && |ehs| == EHS_BUF_SIZE
    && Pushable(cmds, m) && EhsFits(cmds, m)
    && EntriesLaid(buf, cmds, m)
    && PayloadsLaid(buf, cmds, m)
    && RestBlank(buf, cmds, m)
    && EhsLaid(ehs, cmds, m)
  }

  lemma BlankIsLaidOut(buf: seq<byte>, ehs: seq<byte>, cmds: seq<Command>)
    requires buf == Fill(0xFF, BUF_SIZE) && ehs == Fill(0, EHS_BUF_SIZE)
    ensures LaidOut(buf, ehs, cmds, 0)
  {
    assert cmds[..0] == [];
  }

  lemma SliceOutsideOverwrite(s: seq<byte>, at: nat, t: seq<byte>, lo: nat, hi: nat)
    requires hi <= |s| && (hi <= at || at + |t| <= lo)
    ensures Slice(Overwrite(s, at, t), lo, hi) == Slice(s, lo, hi)
  {
    var after, before := Slice(Overwrite(s, at, t), lo, hi), Slice(s, lo, hi);
    assert |after| == |before|;
    assert forall i :: 0 <= i < |after| ==> after[i] == before[i];
  }

  lemma SliceOfOverwrite(s: seq<byte>, at: nat, t: seq<byte>)
    requires at + |t| <= |s|
    ensures Slice(Overwrite(s, at, t), at, at + |t|) == t
  {
  }

  lemma SliceOfBlankOverwritten(s: seq<byte>, lo: nat, hi: nat, t: seq<byte>, b: byte)
    requires lo + |t| <= hi <= |s| && (forall p :: lo <= p < hi ==> s[p] == b)
    ensures Slice(Overwrite(s, lo, t), lo, hi) == t + Fill(b, hi - lo - |t|)
  {
  }

  /** buf after push_cmd has written command m's payload and entry. */
  function Pushed(buf: seq<byte>, cmds: seq<Command>, m: nat): (r: seq<byte>)
    requires m < |cmds| && WellFormed(cmds[m]) && ComposeError(cmds[m]).None?
    ensures |r| == |buf|
  {
    Overwrite(Overwrite(buf, DataStart(cmds, m), cmds[m].data), EntryOffset(m),
              PatchedEntry(cmds[m], DataStart(cmds, m), EhsStart(cmds, m)))
  }

  /** Facts about a push that is due: where it writes. */
  lemma PushTargets(cmds: seq<Command>, m: nat)
    requires m < |cmds| && DataFits(cmds) && Pushable(cmds, m + 1)
    ensures EntryOffset(m) + ENTRY_SIZE <= Begin(cmds) <= DataStart(cmds, m)
    ensures DataStart(cmds, m) + |cmds[m].data| <= DataStart(cmds, m + 1) <= BUF_SIZE
    ensures DataStart(cmds, m + 1) == DataStart(cmds, m) + 512 * Blocks(cmds[m])
  {
    hide CeilDiv, DataBegin, EntryOffset;
    SlotsBelowData(|cmds|, m);
    ExtentsInOrder(cmds, m, m + 1);
    AlignUpIsLeastMultiple(cmds[m].DataLength());
  }

  lemma PushKeepsEntry(buf: seq<byte>, cmds: seq<Command>, m: nat, j: nat)
    requires j < m < |cmds| && |buf| == BUF_SIZE && DataFits(cmds) && Pushable(cmds, m + 1)
    ensures Slice(Pushed(buf, cmds, m), EntryOffset(j), EntryOffset(j) + ENTRY_SIZE)
         == Slice(buf, EntryOffset(j), EntryOffset(j) + ENTRY_SIZE)
  {
    hide CeilDiv, DataBegin, EntryOffset;
    var lo, hi := EntryOffset(j), EntryOffset(j) + ENTRY_SIZE;
    var mid := Overwrite(buf, DataStart(cmds, m), cmds[m].data);
    PushTargets(cmds, m);
    EntrySlotsDisjoint(j, m);
    SliceOutsideOverwrite(buf, DataStart(cmds, m), cmds[m].data, lo, hi);
    SliceOutsideOverwrite(mid, EntryOffset(m), PatchedEntry(cmds[m], DataStart(cmds, m), EhsStart(cmds, m)), lo, hi);
  }

  lemma PushKeepsPayload(buf: seq<byte>, cmds: seq<Command>, m: nat, j: nat)
    requires j < m < |cmds| && |buf| == BUF_SIZE && DataFits(cmds) && Pushable(cmds, m + 1)
    ensures Slice(Pushed(buf, cmds, m), DataStart(cmds, j), DataStart(cmds, j + 1))
         == Slice(buf, DataStart(cmds, j), DataStart(cmds, j + 1))
  {
    hide CeilDiv, DataBegin, EntryOffset;
    var lo, hi := DataStart(cmds, j), DataStart(cmds, j + 1);
    var mid := Overwrite(buf, DataStart(cmds, m), cmds[m].data);
    PushTargets(cmds, m);
    ExtentsInOrder(cmds, j, m);
    SliceOutsideOverwrite(buf, DataStart(cmds, m), cmds[m].data, lo, hi);
    SliceOutsideOverwrite(mid, EntryOffset(m), PatchedEntry(cmds[m], DataStart(cmds, m), EhsStart(cmds, m)), lo, hi);
  }

  lemma PushWritesPayload(buf: seq<byte>, cmds: seq<Command>, m: nat)
    requires m < |cmds| && |buf| == BUF_SIZE && DataFits(cmds) && Pushable(cmds, m + 1)
    requires forall p :: DataStart(cmds, m) <= p < BUF_SIZE ==> buf[p] == 0xFF
    ensures Slice(Pushed(buf, cmds, m), DataStart(cmds, m), DataStart(cmds, m + 1)) == StoredPayload(cmds[m])
  {
    hide CeilDiv, DataBegin, EntryOffset;
    var lo, hi := DataStart(cmds, m), DataStart(cmds, m + 1);
    var mid := Overwrite(buf, lo, cmds[m].data);
    PushTargets(cmds, m);
    SliceOfBlankOverwritten(buf, lo, hi, cmds[m].data, 0xFF);
    SliceOutsideOverwrite(mid, EntryOffset(m), PatchedEntry(cmds[m], DataStart(cmds, m), EhsStart(cmds, m)), lo, hi);
  }

  lemma PushKeepsBlank(buf: seq<byte>, cmds: seq<Command>, m: nat, p: nat)
    requires m < |cmds| && |buf| == BUF_SIZE && DataFits(cmds) && Pushable(cmds, m + 1)
    requires p < BUF_SIZE && buf[p] == 0xFF && !InSlot(p, m)
    requires p < Begin(cmds) || DataStart(cmds, m + 1) <= p
    ensures Pushed(buf, cmds, m)[p] == 0xFF
  {
    hide CeilDiv, DataBegin, EntryOffset;
    PushTargets(cmds, m);
  }

  lemma PushExtendsEntries(buf: seq<byte>, cmds: seq<Command>, m: nat)
    requires m < |cmds| && |buf| == BUF_SIZE && DataFits(cmds) && Pushable(cmds, m + 1)
    requires EntriesLaid(buf, cmds, m)
    ensures EntriesLaid(Pushed(buf, cmds, m), cmds, m + 1)
  {
    hide CeilDiv, DataBegin, EntryOffset;
    PushTargets(cmds, m);
    SliceOfOverwrite(Overwrite(buf, DataStart(cmds, m), cmds[m].data), EntryOffset(m),
                     PatchedEntry(cmds[m], DataStart(cmds, m), EhsStart(cmds, m)));
    forall j | 0 <= j < m { PushKeepsEntry(buf, cmds, m, j); }
  }

  lemma PushExtendsPayloads(buf: seq<byte>, cmds: seq<Command>, m: nat)
    requires m < |cmds| && |buf| == BUF_SIZE && DataFits(cmds) && Pushable(cmds, m + 1)
    requires PayloadsLaid(buf, cmds, m) && RestBlank(buf, cmds, m)
    ensures PayloadsLaid(Pushed(buf, cmds, m), cmds, m + 1)
  {
    hide CeilDiv, DataBegin, EntryOffset;
    PushWritesPayload(buf, cmds, m);
    forall j | 0 <= j < m { PushKeepsPayload(buf, cmds, m, j); }
  }

  lemma PushKeepsRestBlank(buf: seq<byte>, cmds: seq<Command>, m: nat)
    requires m < |cmds| && |buf| == BUF_SIZE && DataFits(cmds) && Pushable(cmds, m + 1)
    requires RestBlank(buf, cmds, m)
    ensures RestBlank(Pushed(buf, cmds, m), cmds, m + 1)
  {
    hide CeilDiv, DataBegin, EntryOffset;
    PushTargets(cmds, m);
    forall p | 0 <= p < BUF_SIZE && p < Begin(cmds) && (forall j :: 0 <= j < m + 1 ==> !InSlot(p, j))
      ensures Pushed(buf, cmds, m)[p] == 0xFF
    {
      assert !InSlot(p, m);
      PushKeepsBlank(buf, cmds, m, p);
    }
    forall p | DataStart(cmds, m + 1) <= p < BUF_SIZE
      ensures Pushed(buf, cmds, m)[p] == 0xFF
    {
      PushKeepsBlank(buf, cmds, m, p);
    }
  }

  lemma PushKeepsEhs(ehs: seq<byte>, cmds: seq<Command>, m: nat, j: nat)
    requires j < m < |cmds| && |ehs| == EHS_BUF_SIZE && EhsFits(cmds, m + 1)
    ensures Slice(Overwrite(ehs, EhsStart(cmds, m), cmds[m].Ehs()), EhsStart(cmds, j), EhsStart(cmds, j + 1))
         == Slice(ehs, EhsStart(cmds, j), EhsStart(cmds, j + 1))
  {
    hide CeilDiv, DataBegin, EntryOffset;
    ExtentsInOrder(cmds, j, m);
    ExtentsInOrder(cmds, m, m + 1);
    SliceOutsideOverwrite(ehs, EhsStart(cmds, m), cmds[m].Ehs(), EhsStart(cmds, j), EhsStart(cmds, j + 1));
  }

  lemma PushWritesEhs(ehs: seq<byte>, cmds: seq<Command>, m: nat)
    requires m < |cmds| && |ehs| == EHS_BUF_SIZE && EhsFits(cmds, m + 1)
    requires forall p :: EhsStart(cmds, m) <= p < EHS_BUF_SIZE ==> ehs[p] == 0
    ensures EhsStart(cmds, m) + |cmds[m].Ehs()| <= EhsStart(cmds, m + 1)
    ensures Slice(Overwrite(ehs, EhsStart(cmds, m), cmds[m].Ehs()), EhsStart(cmds, m), EhsStart(cmds, m + 1)) == StoredEhs(cmds[m])
  {
    hide CeilDiv, DataBegin, EntryOffset, Slice;
    ExtentsInOrder(cmds, m, m + 1);
    AlignUpIsLeastMultiple(|cmds[m].Ehs()|);
    SliceOfBlankOverwritten(ehs, EhsStart(cmds, m), EhsStart(cmds, m + 1), cmds[m].Ehs(), 0);
  }

  lemma PushExtendsEhs(ehs: seq<byte>, cmds: seq<Command>, m: nat)
    requires m < |cmds| && |ehs| == EHS_BUF_SIZE && EhsFits(cmds, m + 1)
    requires EhsLaid(ehs, cmds, m)
    ensures EhsLaid(Overwrite(ehs, EhsStart(cmds, m), cmds[m].Ehs()), cmds, m + 1)
  {
    hide EhsStart, Slice, StoredEhs;
    PushWritesEhs(ehs, cmds, m);
    forall j | 0 <= j < m { PushKeepsEhs(ehs, cmds, m, j); }
  }

  /** Command m, pushed at the two pointers, extends the image by one command. */
  lemma PushExtendsImage(buf: seq<byte>, ehs: seq<byte>, cmds: seq<Command>, m: nat)
    requires m < |cmds| && DataFits(cmds) && LaidOut(buf, ehs, cmds, m)
    requires Pushable(cmds, m + 1) && EhsFits(cmds, m + 1)
    ensures LaidOut(Pushed(buf, cmds, m), Overwrite(ehs, EhsStart(cmds, m), cmds[m].Ehs()), cmds, m + 1)
  {
    PushExtendsEntries(buf, cmds, m);
    PushExtendsPayloads(buf, cmds, m);
    PushKeepsRestBlank(buf, cmds, m);
    PushExtendsEhs(ehs, cmds, m);
  }

  // ---------- what the image says ----------

  lemma InNoEarlierSlot(p: nat, n: nat)
    requires InSlot(p, n)
    ensures forall j :: 0 <= j < n ==> !InSlot(p, j)
  {
    hide CeilDiv, DataBegin, EntryOffset;
    forall j | 0 <= j < n
      ensures !InSlot(p, j)
    {
      EntrySlotsDisjoint(j, n);
    }
  }

  /** The terminator slot after the last entry is untouched. */
  lemma TerminatorSlotIsBlank(buf: seq<byte>, ehs: seq<byte>, cmds: seq<Command>)
    requires LaidOut(buf, ehs, cmds, |cmds|) && DataFits(cmds)
    ensures Slice(buf, EntryOffset(|cmds|), EntryOffset(|cmds|) + ENTRY_SIZE) == Fill(0xFF, ENTRY_SIZE)
  {
    hide CeilDiv, DataBegin, EntryOffset, EntriesLaid, PayloadsLaid, EhsLaid, Pushable;
    SlotsBelowData(|cmds|, |cmds|);
    SumsMonotone(cmds, 0, |cmds|);
    forall p | EntryOffset(|cmds|) <= p < EntryOffset(|cmds|) + ENTRY_SIZE
      ensures p < BUF_SIZE && buf[p] == 0xFF
    {
      InNoEarlierSlot(p, |cmds|);
    }
  }

  /** The extent a data byte belongs to. */
  lemma {:induction false} ExtentOf(cmds: seq<Command>, m: nat, p: nat) returns (j: nat)
    requires m <= |cmds| && Begin(cmds) <= p < DataStart(cmds, m)
    ensures j < m && DataStart(cmds, j) <= p < DataStart(cmds, j + 1)
  {
    hide CeilDiv, DataBegin, EntryOffset;
    assert cmds[..0] == [];
    if p >= DataStart(cmds, m - 1) {
      j := m - 1;
    } else {
      j := ExtentOf(cmds, m - 1, p);
    }
  }

  lemma ByteOfSlice(a: seq<byte>, b: seq<byte>, lo: nat, hi: nat, p: nat)
    requires lo <= p < hi <= |a| && |a| == |b| && Slice(a, lo, hi) == Slice(b, lo, hi)
    ensures a[p] == b[p]
  {
    assert a[p] == Slice(a, lo, hi)[p - lo] && b[p] == Slice(b, lo, hi)[p - lo];
  }

  lemma SameEntryByte(a: seq<byte>, b: seq<byte>, cmds: seq<Command>, j: nat, p: nat)
    requires j < |cmds| && Pushable(cmds, |cmds|) && |a| == |b| == BUF_SIZE && DataFits(cmds)
    requires EntriesLaid(a, cmds, |cmds|) && EntriesLaid(b, cmds, |cmds|) && InSlot(p, j)
    ensures p < BUF_SIZE && a[p] == b[p]
  {
    hide CeilDiv, DataBegin, EntryOffset;
    SlotsBelowData(|cmds|, j);
    SumsMonotone(cmds, 0, |cmds|);
    ByteOfSlice(a, b, EntryOffset(j), EntryOffset(j) + ENTRY_SIZE, p);
  }

  lemma SamePayloadByte(a: seq<byte>, b: seq<byte>, cmds: seq<Command>, p: nat)
    requires Pushable(cmds, |cmds|) && |a| == |b| == BUF_SIZE && DataFits(cmds)
    requires PayloadsLaid(a, cmds, |cmds|) && PayloadsLaid(b, cmds, |cmds|)
    requires Begin(cmds) <= p < DataStart(cmds, |cmds|)
    ensures a[p] == b[p]
  {
    hide CeilDiv, DataBegin, EntryOffset;
    var j := ExtentOf(cmds, |cmds|, p);
    ExtentsInOrder(cmds, j, |cmds|);
    ByteOfSlice(a, b, DataStart(cmds, j), DataStart(cmds, j + 1), p);
  }

  /** The EHS extent a byte belongs to. */
  lemma {:induction false} EhsExtentOf(cmds: seq<Command>, m: nat, p: nat) returns (j: nat)
    requires m <= |cmds| && p < EhsStart(cmds, m)
    ensures j < m && EhsStart(cmds, j) <= p < EhsStart(cmds, j + 1)
  {
    hide EhsBlocks;
    assert cmds[..0] == [];
    if p >= EhsStart(cmds, m - 1) {
      j := m - 1;
    } else {
      j := EhsExtentOf(cmds, m - 1, p);
    }
  }

  lemma SameEhsByte(a: seq<byte>, b: seq<byte>, cmds: seq<Command>, p: nat)
    requires |a| == |b| == EHS_BUF_SIZE && EhsFits(cmds, |cmds|) && EhsLaid(a, cmds, |cmds|) && EhsLaid(b, cmds, |cmds|)
    requires p < EHS_BUF_SIZE
    ensures a[p] == b[p]
  {
    hide EhsBlocks;
    if p < EhsStart(cmds, |cmds|) {
      var j := EhsExtentOf(cmds, |cmds|, p);
      ExtentsInOrder(cmds, j, |cmds|);
      SumsMonotone(cmds, j + 1, |cmds|);
      ByteOfSlice(a, b, EhsStart(cmds, j), EhsStart(cmds, j + 1), p);
    }
  }

  /** The description leaves no byte of either buffer open: it has at most one solution. */
  lemma ImageIsUnique(a: seq<byte>, b: seq<byte>, ehsA: seq<byte>, ehsB: seq<byte>, cmds: seq<Command>)
    requires LaidOut(a, ehsA, cmds, |cmds|) && LaidOut(b, ehsB, cmds, |cmds|) && DataFits(cmds)
    ensures a == b && ehsA == ehsB
  {
    hide CeilDiv, DataBegin, EntryOffset;
    forall p | 0 <= p < BUF_SIZE
      ensures a[p] == b[p]
    {
      if p >= Begin(cmds) {
        if p < DataStart(cmds, |cmds|) {
          SamePayloadByte(a, b, cmds, p);
        }
      } else if j :| 0 <= j < |cmds| && InSlot(p, j) {
        SameEntryByte(a, b, cmds, j, p);
      }
    }
    forall p | 0 <= p < EHS_BUF_SIZE
      ensures ehsA[p] == ehsB[p]
    {
      SameEhsByte(ehsA, ehsB, cmds, p);
    }
  }

  /** What the tester reads in slot j of a package, byte for byte, from the fields of command j. */
  lemma SlotReadsBack(img: seq<byte>, ehs: seq<byte>, cmds: seq<Command>, j: nat)
    requires j < |cmds| && LaidOut(img, ehs, cmds, |cmds|) && DataFits(cmds)
    ensures EntryOffset(j) + ENTRY_SIZE <= |img|
    ensures var c, e := cmds[j], img[EntryOffset(j)..EntryOffset(j) + ENTRY_SIZE];
      && (c.Upiu? ==>
            && (forall m :: 0 <= m < 32 && m != 3 ==> e[m] == c.header[m])
            && e[3] == c.taskTag
            && ParseParam(e[32..72]) == c.param.(
                 dataAddressOffset := if c.param.dataLength != 0 then DataStart(cmds, j) else c.param.dataAddressOffset,
                 ehsDataAddress := if c.ehsLength != 0 && c.ehsBody != [] then EhsStart(cmds, j) else c.param.ehsDataAddress))
      && (c.Tester? ==>
            && e[0] == 0xFF && e[1] == c.functionCode
            && (forall m :: 2 <= m < 72 && !(54 <= m < 58) ==> e[m] == c.body[m - 2])
            && e[54..58] == if c.ehsLength != 0 && c.ehsBody != [] then ToBytes(EhsStart(cmds, j), 4) else c.body[52..56])
  {
    hide CeilDiv, DataBegin, EntryOffset, PayloadsLaid, RestBlank, EhsLaid, ParseParam, PatchedEntry, ComposeError, ToBytes, DataStart, EhsStart;
    StartsAreWords(cmds, j);
    SlotsBelowData(|cmds|, j);
    EntryReadsBack(cmds[j], DataStart(cmds, j), EhsStart(cmds, j));
    assert Slice(img, EntryOffset(j), EntryOffset(j) + ENTRY_SIZE) == PatchedEntry(cmds[j], DataStart(cmds, j), EhsStart(cmds, j));
  }

  lemma StartsAreWords(cmds: seq<Command>, j: nat)
    requires j < |cmds| && DataFits(cmds) && EhsFits(cmds, |cmds|)
    ensures DataStart(cmds, j) < 0x1_0000_0000 && EhsStart(cmds, j) < 0x1_0000_0000
    ensures Begin(cmds) <= BUF_SIZE
  {
    hide CeilDiv, DataBegin, SumBlocks, SumEhsBlocks;
    SumsMonotone(cmds, j, |cmds|);
  }

  /** The EHS buffer at a command's address holds its EHS: the body, if the length field is not 0. */
  lemma EhsReadsBack(img: seq<byte>, ehs: seq<byte>, cmds: seq<Command>, j: nat)
    requires j < |cmds| && LaidOut(img, ehs, cmds, |cmds|) && cmds[j].ehsLength != 0
    ensures Slice(ehs, EhsStart(cmds, j), EhsStart(cmds, j) + |cmds[j].ehsBody|) == cmds[j].ehsBody
  {
    hide LaidOut, EhsStart;
    EhsSurvives(img, ehs, cmds, j, ehs);
  }

  /** What a caller finds at a command's data address: its payload, then 0xFF up to the data length. */
  function ExpectedData(c: Command): seq<byte>
    requires |c.data| <= c.DataLength()
  {
    c.data + Fill(0xFF, c.DataLength() - |c.data|)
  }

  /** A device that left command i's extent alone returns exactly what was pushed for i. */
  lemma PayloadSurvives(img: seq<byte>, ehs: seq<byte>, cmds: seq<Command>, i: nat, info: seq<byte>)
    requires i < |cmds| && LaidOut(img, ehs, cmds, |cmds|) && DataFits(cmds)
    requires Slice(info, DataStart(cmds, i), DataStart(cmds, i + 1)) == Slice(img, DataStart(cmds, i), DataStart(cmds, i + 1))
    ensures Slice(info, DataStart(cmds, i), DataStart(cmds, i) + cmds[i].DataLength()) == ExpectedData(cmds[i])
  {
    hide CeilDiv, DataBegin, EntryOffset, Slice, EntriesLaid, RestBlank, EhsLaid;
    var lo, hi, len := DataStart(cmds, i), DataStart(cmds, i + 1), cmds[i].DataLength();
    ExtentsInOrder(cmds, i, i + 1);
    AlignUpIsLeastMultiple(len);
    SlicePrefix(info, lo, hi, len);
    StoredPayloadPrefix(cmds[i]);
  }

  lemma StoredPayloadPrefix(c: Command)
    requires |c.data| <= c.DataLength() <= 512 * Blocks(c)
    ensures StoredPayload(c)[..c.DataLength()] == ExpectedData(c)
  {
    hide CeilDiv, DataBegin, EntryOffset;
  }

  lemma SlicePrefix(s: seq<byte>, lo: nat, hi: nat, len: nat)
    requires lo + len <= hi && |Slice(s, lo, hi)| == hi - lo
    ensures Slice(s, lo, lo + len) == Slice(s, lo, hi)[..len]
  {
  }

  lemma {:induction false} EhsSurvives(img: seq<byte>, ehs: seq<byte>, cmds: seq<Command>, i: nat, info: seq<byte>)
    requires i < |cmds| && LaidOut(img, ehs, cmds, |cmds|)
    requires Slice(info, EhsStart(cmds, i), EhsStart(cmds, i + 1)) == Slice(ehs, EhsStart(cmds, i), EhsStart(cmds, i + 1))
    ensures Slice(info, EhsStart(cmds, i), EhsStart(cmds, i) + |cmds[i].Ehs()|) == cmds[i].Ehs()
  {
    hide CeilDiv, DataBegin, EntryOffset, Slice, EntriesLaid, PayloadsLaid, RestBlank, Pushable, EhsStart, StoredEhs;
    var len := |cmds[i].Ehs()|;
    ExtentsInOrder(cmds, i, i + 1);
    AlignUpIsLeastMultiple(len);
    StoredEhsPrefix(cmds[i]);
    SlicePrefix(info, EhsStart(cmds, i), EhsStart(cmds, i + 1), len);
  }

  lemma StoredEhsPrefix(c: Command)
    ensures |c.Ehs()| <= 96 * EhsBlocks(c) && StoredEhs(c)[..|c.Ehs()|] == c.Ehs()
  {
    hide CeilDiv;
    AlignUpIsLeastMultiple(|c.Ehs()|);
  }
}
