/** The allocator that lays a package out in one buffer, and the index of the buffer that comes back. */
module BufferManager {
  import opened Common
  import opened Bytes
  import opened Layout
  import opened Protocols
  import opened CycleTracker
  import opened ResponseIndex

  class BufferManager {
    var buffer: array<byte>
    /** Next entry position, unoccupied. */
    var entryPtr: nat
    /** Next data position, unoccupied. */
    var dataPtr: nat
    var dataBegin: int
    var ehsBuffer: array<byte>
    var ehsPtr: nat
    var cycleIndicatorToOffset: map<CycleIndicator, nat>

    /** The state reset_module leaves. */
    ghost predicate Fresh()
      reads this, buffer, ehsBuffer
    {
      && buffer != ehsBuffer
      && buffer[..] == Fill(0xFF, BUF_SIZE) && ehsBuffer[..] == Fill(0, EHS_BUF_SIZE)
      && entryPtr == 0 && dataPtr == 0 && ehsPtr == 0
      && dataBegin == NOT_INITIALIZED
      && cycleIndicatorToOffset == map[]
    }

    constructor ()
      ensures Fresh() && fresh(buffer) && fresh(ehsBuffer)
    {
      buffer := new byte[BUF_SIZE](_ => 0xFF);
      ehsBuffer := new byte[EHS_BUF_SIZE](_ => 0);
      entryPtr, dataPtr, ehsPtr := 0, 0, 0;
      dataBegin := NOT_INITIALIZED;
      cycleIndicatorToOffset := map[];
      new;
      assert buffer[..] == Fill(0xFF, BUF_SIZE) && ehsBuffer[..] == Fill(0, EHS_BUF_SIZE);
    }

    method ResetModule()
      modifies this
      ensures Fresh() && fresh(buffer) && fresh(ehsBuffer)
    {
      buffer := new byte[BUF_SIZE](_ => 0xFF);
      entryPtr, dataPtr := 0, 0;
      dataBegin := NOT_INITIALIZED;
      ehsBuffer := new byte[EHS_BUF_SIZE](_ => 0);
      ehsPtr := 0;
      cycleIndicatorToOffset := map[];
      assert buffer[..] == Fill(0xFF, BUF_SIZE) && ehsBuffer[..] == Fill(0, EHS_BUF_SIZE);
    }

    method SetDataBeginOffset(entryCnt: nat)
      modifies `dataBegin, `dataPtr
      ensures dataBegin == dataPtr == DataBegin(entryCnt)
    {
      dataBegin := AlignUp(entryCnt, ENTRY_CNT_PER_GRP) / ENTRY_CNT_PER_GRP * ALIGN_SIZE_8K;
      if dataBegin < 32 * 1024 {
        dataBegin := 32 * 1024;
      }
      dataPtr := dataBegin;
    }

    /** Both buffers have their full size, and data has begun no later than the data pointer. */
    ghost predicate Ready()
      reads this
    {
      && buffer != ehsBuffer && buffer.Length == BUF_SIZE && ehsBuffer.Length == EHS_BUF_SIZE
      && NOT_INITIALIZED <= dataBegin <= dataPtr
    }

    predicate HasRoomForCmd(payloadLen: nat, ehsLen: nat)
      reads this
    {
      HasRoom(entryPtr, dataPtr, ehsPtr, dataBegin, payloadLen, ehsLen)
    }

    /** The exception push_cmd raises before it has written anything. */
    function PushError(entryLen: nat, dataLen: nat, payloadLen: nat, ehsLen: nat): Option<Error>
      reads this
    {
      if dataBegin == NOT_INITIALIZED then Some(PushCmdBeforeSetDataBeginOffset)
      else if entryLen == 0 then Some(IndexError)
      else if !HasRoomForCmd(dataLen, ehsLen) then Some(BufIsFull)
      else if payloadLen > dataLen then Some(PayloadSizeExceedsExpectation)
      else None
    }

    /** Push payload, EHS and entry. An entry that is not 72 bytes long is refused when the other two are in place. */
    method PushCmd(entry: array<byte>, payload: seq<byte>, ehs: seq<byte>) returns (r: Result<(nat, nat)>)
      requires Ready() && entry != buffer && entry != ehsBuffer
      modifies `entryPtr, `dataPtr, `ehsPtr, buffer, ehsBuffer, entry
      ensures r == match old(PushError(entry.Length, EntryDataLength(entry[..]), |payload|, |ehs|))
                   case Some(e) => Err(e)
                   case None => if entry.Length != ENTRY_SIZE then Err(EntrySizeNotAlign72) else Ok((old(dataPtr), old(ehsPtr)))
      ensures old(PushError(entry.Length, EntryDataLength(entry[..]), |payload|, |ehs|)).Some? ==>
        unchanged(this) && buffer[..] == old(buffer[..]) && ehsBuffer[..] == old(ehsBuffer[..])
      ensures old(PushError(entry.Length, EntryDataLength(entry[..]), |payload|, |ehs|)).None? ==>
        var dataLen := old(EntryDataLength(entry[..]));
        var withPayload := Overwrite(old(buffer[..]), old(dataPtr), payload);
        && ehsBuffer[..] == Overwrite(old(ehsBuffer[..]), old(ehsPtr), ehs)
        && dataPtr == old(dataPtr) + AlignUp(dataLen, 512)
        && ehsPtr == old(ehsPtr) + AlignUp(|ehs|, 96)
        && if entry.Length == ENTRY_SIZE
           then && buffer[..] == Overwrite(withPayload, old(entryPtr),
                                           PatchEntry(old(entry[..]), dataLen, old(dataPtr), |ehs|, old(ehsPtr)))
                && entryPtr == NextEntryPtr(old(entryPtr))
           else buffer[..] == withPayload && entryPtr == old(entryPtr)
    {
      hide CeilDiv, NextEntryPtr, FromBytes;
      if dataBegin == NOT_INITIALIZED { return Err(PushCmdBeforeSetDataBeginOffset); }
      if entry.Length == 0 { return Err(IndexError); }
      var dataLen := 0;
      if entry[0] != 0xFF {
        dataLen := FromBytes(Slice(entry[..], 46, 50));
      }
      if !HasRoomForCmd(dataLen, |ehs|) { return Err(BufIsFull); }
      AlignUpIsLeastMultiple(dataLen);
      AlignUpIsLeastMultiple(|ehs|);
      AlignUpIsLeastMultiple(entryPtr + ENTRY_SIZE * 2);
      if |payload| > dataLen { return Err(PayloadSizeExceedsExpectation); }
      var dataStart := PushPayload(dataLen, payload);
      var ehsStart := PushEhs(ehs);
      // A buffer too short to hold the address words is refused below in any case.
      if dataLen != 0 && entry.Length >= 46 {
        WriteSlice(entry, 42, ToBytes(dataStart, 4));
      }
      if |ehs| != 0 && entry.Length >= 58 {
        WriteSlice(entry, 54, ToBytes(ehsStart, 4));
      }
      var pushed := PushEntry(entry[..]);
      return if pushed then Ok((dataStart, ehsStart)) else Err(EntrySizeNotAlign72);
    }

    method PushPayload(dataLen: nat, payload: seq<byte>) returns (start: nat)
      requires |payload| <= dataLen && dataPtr + |payload| <= buffer.Length
      modifies `dataPtr, buffer
      ensures start == old(dataPtr) && dataPtr == start + AlignUp(dataLen, ALIGN_SIZE_512)
      ensures buffer[..] == Overwrite(old(buffer[..]), start, payload)
    {
      start := dataPtr;
      WriteSlice(buffer, dataPtr, payload);
      dataPtr := dataPtr + AlignUp(dataLen, ALIGN_SIZE_512);
    }

    method PushEntry(entry: seq<byte>) returns (ok: bool)
      requires entryPtr + ENTRY_SIZE <= buffer.Length
      modifies `entryPtr, buffer
      ensures ok <==> |entry| == ENTRY_SIZE
      ensures entryPtr == if ok then NextEntryPtr(old(entryPtr)) else old(entryPtr)
      ensures buffer[..] == if ok then Overwrite(old(buffer[..]), old(entryPtr), entry) else old(buffer[..])
    {
      if |entry| != ENTRY_SIZE { return false; }
      WriteSlice(buffer, entryPtr, entry);
      if (entryPtr + ENTRY_SIZE * 2) % ALIGN_SIZE_8K < ENTRY_SIZE {
        entryPtr := entryPtr + (ENTRY_SIZE + ENTRY_PADDING_SIZE);
      } else {
        entryPtr := entryPtr + ENTRY_SIZE;
      }
      return true;
    }

    method PushEhs(ehs: seq<byte>) returns (start: nat)
      requires ehsPtr + |ehs| <= ehsBuffer.Length
      modifies `ehsPtr, ehsBuffer
      ensures start == old(ehsPtr) && ehsPtr == start + AlignUp(|ehs|, ALIGN_EHS_UNIT)
      ensures ehsBuffer[..] == Overwrite(old(ehsBuffer[..]), start, ehs)
    {
      start := ehsPtr;
      WriteSlice(ehsBuffer, ehsPtr, ehs);
      ehsPtr := ehsPtr + AlignUp(|ehs|, ALIGN_EHS_UNIT);
    }

    /** Read one response slot and number it; the part of the parsing loop that can raise. */
    method NumberSlot(tracker: CycleTracker, cnt: nat, offset: nat) returns (slot: Slot, indicator: CycleIndicator)
      requires tracker.Valid() && offset == EntryOffset(cnt)
      modifies tracker
      ensures tracker.Valid() && slot == SlotAt(buffer[..], cnt)
      ensures match slot
              case Keyed(k) => tracker.history == old(tracker.history) + [k]
                            && indicator == IndicatorAt(tracker.history, |old(tracker.history)|)
              case _ => tracker.history == old(tracker.history)
    {
      hide EntryOffset;
      indicator := CycleIndicator(-1, CMD_UPIU, -1);
      var r: Result<CycleIndicator>;
      if offset >= buffer.Length { return Bad(IndexError), indicator; }
      var transactionType := buffer[offset];
      if transactionType == 0xFF {
        if offset + 1 >= buffer.Length { return Bad(IndexError), indicator; }
        if !IsFuncType(buffer[offset + 1]) { return Bad(ValueError), indicator; }
        r := tracker.IncrementCycle(buffer[offset + 1], None);
      } else if transactionType / 32 % 2 != 0 {
        if offset + 3 >= buffer.Length { return Bad(IndexError), indicator; }
        r := tracker.IncrementCycle(CMD_UPIU, Some(buffer[offset + 3]));
      } else {
        return End, indicator;
      }
      if r.Err? { return Bad(r.error), indicator; }
      return Keyed(if transactionType == 0xFF then TesterKey(buffer[offset + 1]) else UpiuKey(buffer[offset + 3])), r.value;
    }

    /**
     * Index the response slots. On an exception the slots before the offending one stay indexed.
     */
    method GenRspCycleIndicator(entryCnt: nat) returns (error: Option<Error>)
      modifies `cycleIndicatorToOffset
      ensures cycleIndicatorToOffset == old(cycleIndicatorToOffset) + IndexOf(ParsedKeys(buffer[..], entryCnt))
      ensures error == ParseError(buffer[..], entryCnt)
    {
      hide EntryOffset, ParsedSoFar, ParsedKeys, ParseError, IndexOf, SlotAt, IndicatorAt;
      ghost var buf := buffer[..];
      var tracker := new CycleTracker();
      var cnt := 0;
      StartOfParse(buf);
      while cnt < entryCnt
        invariant cnt <= entryCnt && tracker.Valid() && fresh(tracker)
        invariant |tracker.history| == cnt && ParsedSoFar(buf, tracker.history)
        invariant cycleIndicatorToOffset == old(cycleIndicatorToOffset) + IndexOf(tracker.history)
      {
        ghost var was := tracker.history;
        var offset := SlotOffset(cnt);
        var slot, indicator := NumberSlot(tracker, cnt, offset);
        if !slot.Keyed? {
          ParseStops(buf, entryCnt, was);
          return if slot.Bad? then Some(slot.error) else None;
        }
        ParseStep(buf, was, slot.key);
        IndexStep(was, slot.key);
        cycleIndicatorToOffset := cycleIndicatorToOffset[indicator := offset];
        cnt := cnt + 1;
      }
      ParseStops(buf, entryCnt, tracker.history);
      return None;
    }

    /** The slot offset by divmod, as the parser computes it. */
    static function SlotOffset(cnt: nat): (offset: nat)
      ensures offset == EntryOffset(cnt)
    {
      var groupIdx := cnt / ENTRY_CNT_PER_GRP;
      var entryIdx := cnt % ENTRY_CNT_PER_GRP;
      assert ENTRY_SIZE * ENTRY_CNT_PER_GRP + ENTRY_PADDING_SIZE == 8192 && ENTRY_CNT_PER_GRP == 113;
      var groupOffset := (ENTRY_SIZE * ENTRY_CNT_PER_GRP + ENTRY_PADDING_SIZE) * groupIdx;
      groupOffset + entryIdx * ENTRY_SIZE
    }

    method GetEntry(indicator: CycleIndicator) returns (r: Result<seq<byte>>)
      ensures r == if indicator in cycleIndicatorToOffset
                   then Ok(Slice(buffer[..], cycleIndicatorToOffset[indicator], cycleIndicatorToOffset[indicator] + ENTRY_SIZE))
                   else Err(CycleIndicatorNotFound)
    {
      if indicator !in cycleIndicatorToOffset { return Err(CycleIndicatorNotFound); }
      var offset := cycleIndicatorToOffset[indicator];
      return Ok(Slice(buffer[..], offset, offset + ENTRY_SIZE));
    }

    function GetPayload(offset: nat, length: nat): seq<byte>
      reads this, buffer
    {
      Slice(buffer[..], offset, offset + length)
    }

    function GetEhs(offset: nat, length: nat): seq<byte>
      reads this, ehsBuffer
    {
      Slice(ehsBuffer[..], offset, offset + length)
    }
  }
}
