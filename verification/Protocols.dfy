/** Commands as they are queued, and the 72-byte entry each is composed into. */
module Protocols {
  import opened Common
  import opened Bytes
  import opened Layout
  import opened CycleTracker

  datatype PatternMode = HwIncrease | HwDecrease | HwFix | HwRandom | PtnErase

  /** The two-bit code of a mode; PtnErase (0xFF) has none and cannot be packed. */
  function PatternCode(m: PatternMode): nat
    requires m != PtnErase
  {
    match m
    case HwIncrease => 0
    case HwDecrease => 1
    case HwFix => 2
    case HwRandom => 3
  }

  /** CmdUpiuParam: bytes 32..71 of a UPIU entry. */
  datatype Param = Param(
    delayTime: nat,
    waitQueueEmpty: bool,
    patternMode: PatternMode,
    addTag: bool,
    dataInOut: bool,
    crcCompare: bool,
    markTagOrCrc32: nat,
    dataAddressOffset: nat,
    dataLength: nat,
    timeout: nat,
    ehsDataAddress: nat)

  /** The distinctions enqueue draws between UPIU commands; OtherScsi and the first four carry a CommandUpiu. */
  datatype UpiuKind = Write | Read | HpbRead | ReadBuffer | OtherScsi | TaskManagement | Descriptor | OtherUpiu

  /** The 32-byte UPIU. Byte 0 is the transaction type; byte 3, the task tag, is kept beside it. */
  type Header = h: seq<byte> | |h| == 32 && h[0] != 0xFF witness seq(32, _ => 0)

  datatype Command =
    | Upiu(kind: UpiuKind, header: Header, taskTag: int, specificTag: Option<u32>, param: Param,
           data: seq<byte>, ehsLength: byte, ehsBody: seq<byte>)
    | Tester(functionCode: byte, body: seq<byte>, data: seq<byte>, ehsLength: byte, ehsBody: seq<byte>)
  {
    /** The EHS bytes: none when the length field is 0. */
    function Ehs(): seq<byte> {
      if ehsLength == 0 then [] else ehsBody
    }

    /** l46_data_length as push_cmd sees it: tester entries carry no data. */
    function DataLength(): nat {
      if Upiu? then param.dataLength else 0
    }

    /** b8_total_ehs_length. */
    function TotalEhsLength(): nat
      requires Upiu?
    {
      header[8]
    }

    /** l12_expected_data_length of a CommandUpiu. */
    function ExpectedDataLength(): nat
      requires Upiu?
    {
      FromBytes(header[12..16])
    }

    /** u12_specific_fields.w18_length of a descriptor request. */
    function DescriptorLength(): nat
      requires Upiu?
    {
      FromBytes(header[18..20])
    }

    predicate IsReadWrite() {
      Upiu? && (kind.Write? || kind.Read?)
    }

    /** The key the command is numbered under. */
    function KeyOf(): Key {
      match this
      case Upiu(_, _, tag, _, _, _, _, _) => if 0 <= tag <= 255 then UpiuKey(tag) else NoKey
      case Tester(f, _, _, _, _) => if IsFuncType(f) && f != CMD_UPIU then TesterKey(f) else NoKey
    }
  }

  predicate WellFormed(c: Command) {
    c.Tester? ==> |c.body| == ENTRY_SIZE - 2
  }

  /** Where the header keeps the lengths that commands are sized by. */
  lemma HeaderFields(c: Command)
    requires c.Upiu?
    ensures var h := c.header;
      && c.ExpectedDataLength() == 0x100_0000 * (h[12] as int) + 0x1_0000 * (h[13] as int) + 0x100 * (h[14] as int) + h[15]
      && c.DescriptorLength() == 0x100 * (h[18] as int) + h[19]
      && c.TotalEhsLength() == h[8]
  {
    var h := c.header;
    BigEndian(h[12], h[13], h[14], h[15]);
    BigEndian(h[18], h[19], 0, 0);
    assert h[12..16] == [h[12], h[13], h[14], h[15]] && h[18..20] == [h[18], h[19]];
  }

  // ---------- parameter bytes ----------

  function Bit(b: bool): nat { if b then 1 else 0 }

  /** The option flags and the pattern mode at their bit positions: bytes 36..37. */
  function OptionWord(p: Param): (w: nat)
    requires p.patternMode != PtnErase
  {
    Bit(p.crcCompare) * 256 + Bit(p.dataInOut) * 64 + Bit(p.addTag) * 16 + PatternCode(p.patternMode) * 4
    + Bit(p.waitQueueEmpty)
  }

  /** Every word fits its four bytes. */
  predicate WordsFit(p: Param) {
    && p.delayTime < 0x1_0000_0000 && p.markTagOrCrc32 < 0x1_0000_0000 && p.dataAddressOffset < 0x1_0000_0000
    && p.dataLength < 0x1_0000_0000 && p.timeout < 0x1_0000_0000 && p.ehsDataAddress < 0x1_0000_0000
  }

  predicate Packable(p: Param) {
    p.patternMode != PtnErase && WordsFit(p)
  }

  function ParamBytes(p: Param): (b: seq<byte>)
    requires Packable(p)
    ensures |b| == 40
  {
    ToBytes(p.delayTime, 4) + ToBytes(OptionWord(p), 2) + ToBytes(p.markTagOrCrc32, 4)
    + ToBytes(p.dataAddressOffset, 4) + ToBytes(p.dataLength, 4) + ToBytes(p.timeout, 4)
    + ToBytes(p.ehsDataAddress, 4) + Fill(0, 14)
  }

  /** CmdUpiuParam.to_bytes, slice by slice. */
  method ParamToBytes(p: Param) returns (b: array<byte>)
    requires Packable(p)
    ensures fresh(b) && b[..] == ParamBytes(p)
  {
    b := new byte[40](_ => 0);
    WriteSlice(b, 0, ToBytes(p.delayTime, 4));
    WriteSlice(b, 4, ToBytes(OptionWord(p), 2));
    WriteSlice(b, 6, ToBytes(p.markTagOrCrc32, 4));
    WriteSlice(b, 10, ToBytes(p.dataAddressOffset, 4));
    WriteSlice(b, 14, ToBytes(p.dataLength, 4));
    WriteSlice(b, 18, ToBytes(p.timeout, 4));
    WriteSlice(b, 22, ToBytes(p.ehsDataAddress, 4));
  }

  /** Read the parameters back from their bytes. */
  function ParseParam(b: seq<byte>): Param
    requires |b| == 40
  {
    var w := FromBytes(b[4..6]);
    var mode := w / 4 % 4;
    Param(
      Word32(b, 0),
      w % 2 == 1,
      if mode == 0 then HwIncrease else if mode == 1 then HwDecrease else if mode == 2 then HwFix else HwRandom,
      w / 16 % 2 == 1,
      w / 64 % 2 == 1,
      w / 256 % 2 == 1,
      Word32(b, 6), Word32(b, 10), Word32(b, 14), Word32(b, 18), Word32(b, 22))
  }

  lemma Parts(s: seq<byte>, p0: seq<byte>, p1: seq<byte>, p2: seq<byte>, p3: seq<byte>, p4: seq<byte>,
              p5: seq<byte>, p6: seq<byte>, rest: seq<byte>)
    requires |p0| == |p2| == |p3| == |p4| == |p5| == |p6| == 4 && |p1| == 2
    requires s == p0 + p1 + p2 + p3 + p4 + p5 + p6 + rest
    ensures s[0..4] == p0 && s[4..6] == p1 && s[6..10] == p2 && s[10..14] == p3
    ensures s[14..18] == p4 && s[18..22] == p5 && s[22..26] == p6 && s[26..] == rest
  {
  }

  lemma ParamParts(p: Param)
    requires Packable(p)
    ensures var b := ParamBytes(p);
      && b[0..4] == ToBytes(p.delayTime, 4) && b[4..6] == ToBytes(OptionWord(p), 2)
      && b[6..10] == ToBytes(p.markTagOrCrc32, 4) && b[10..14] == ToBytes(p.dataAddressOffset, 4)
      && b[14..18] == ToBytes(p.dataLength, 4) && b[18..22] == ToBytes(p.timeout, 4)
      && b[22..26] == ToBytes(p.ehsDataAddress, 4) && b[26..] == Fill(0, 14)
  {
    Parts(ParamBytes(p), ToBytes(p.delayTime, 4), ToBytes(OptionWord(p), 2), ToBytes(p.markTagOrCrc32, 4),
          ToBytes(p.dataAddressOffset, 4), ToBytes(p.dataLength, 4), ToBytes(p.timeout, 4),
          ToBytes(p.ehsDataAddress, 4), Fill(0, 14));
  }

  lemma WordFields(crc: nat, dio: nat, tag: nat, code: nat, wqe: nat)
    requires crc < 2 && dio < 2 && tag < 2 && code < 4 && wqe < 2
    ensures var w := crc * 256 + dio * 64 + tag * 16 + code * 4 + wqe;
      && w < 0x1_0000 && w % 2 == wqe && w / 4 % 4 == code && w / 16 % 2 == tag && w / 64 % 2 == dio && w / 256 % 2 == crc
  {
  }

  lemma OptionWordFields(p: Param)
    requires Packable(p)
    ensures var w := OptionWord(p);
      && w % 2 == Bit(p.waitQueueEmpty) && w / 4 % 4 == PatternCode(p.patternMode)
      && w / 16 % 2 == Bit(p.addTag) && w / 64 % 2 == Bit(p.dataInOut) && w / 256 % 2 == Bit(p.crcCompare)
    ensures FromBytes(ToBytes(OptionWord(p), 2)) == OptionWord(p)
  {
    WordFields(Bit(p.crcCompare), Bit(p.dataInOut), Bit(p.addTag), PatternCode(p.patternMode), Bit(p.waitQueueEmpty));
    Pow256Of4();
    BytesRoundTrip(OptionWord(p), 2);
  }

  /** Which byte and bit of the parameters holds what, and that nothing else is set. */
  lemma ParamLayout(p: Param)
    requires Packable(p)
    ensures var b := ParamBytes(p);
      && Word32(b, 0) == p.delayTime && Word32(b, 6) == p.markTagOrCrc32 && Word32(b, 10) == p.dataAddressOffset
      && Word32(b, 14) == p.dataLength && Word32(b, 18) == p.timeout && Word32(b, 22) == p.ehsDataAddress
      && b[4] == (if p.crcCompare then 1 else 0)
      && b[5] == (if p.dataInOut then 64 else 0) + (if p.addTag then 16 else 0) + (if p.waitQueueEmpty then 1 else 0)
                 + (match p.patternMode case HwIncrease => 0 case HwDecrease => 4 case HwFix => 8 case HwRandom => 12)
      && forall i :: 26 <= i < 40 ==> b[i] == 0
  {
    var b := ParamBytes(p);
    ParamParts(p);
    Word32RoundTrip(p.delayTime);
    Word32RoundTrip(p.markTagOrCrc32);
    Word32RoundTrip(p.dataAddressOffset);
    Word32RoundTrip(p.dataLength);
    Word32RoundTrip(p.timeout);
    Word32RoundTrip(p.ehsDataAddress);
    OptionBytes(p);
    assert b[4] == b[4..6][0] && b[5] == b[4..6][1];
    assert forall i :: 26 <= i < 40 ==> b[i] == b[26..][i - 26];
  }

  lemma OptionBytes(p: Param)
    requires Packable(p)
    ensures ToBytes(OptionWord(p), 2) == [OptionWord(p) / 256, OptionWord(p) % 256]
    ensures OptionWord(p) / 256 == Bit(p.crcCompare)
    ensures OptionWord(p) % 256 == Bit(p.dataInOut) * 64 + Bit(p.addTag) * 16 + PatternCode(p.patternMode) * 4 + Bit(p.waitQueueEmpty)
  {
    var w := OptionWord(p);
    assert ToBytes(w, 2) == ToBytes(w / 256, 1) + [w % 256] && ToBytes(w / 256, 1) == ToBytes(w / 256 / 256, 0) + [w / 256 % 256];
  }

  /** The parameter bytes lose nothing: every field reads back. */
  lemma {:induction false} ParamRoundTrip(p: Param)
    requires Packable(p)
    ensures ParseParam(ParamBytes(p)) == p
  {
    ParamParts(p);
    Word32RoundTrip(p.delayTime);
    Word32RoundTrip(p.markTagOrCrc32);
    Word32RoundTrip(p.dataAddressOffset);
    Word32RoundTrip(p.dataLength);
    Word32RoundTrip(p.timeout);
    Word32RoundTrip(p.ehsDataAddress);
    OptionWordFields(p);
  }

  // ---------- entries ----------

  /** The exception compose_entry_buf raises for a command, if any: struct for the tag byte, then the parameters. */
  function ComposeError(c: Command): Option<Error> {
    if c.Tester? then None
    else if c.taskTag < 0 || c.taskTag > 255 then Some(StructError)
    else if c.param.delayTime >= 0x1_0000_0000 then Some(OverflowError)
    else if c.param.patternMode == PtnErase then Some(BitstructError)
    else if !WordsFit(c.param) then Some(OverflowError)
    else None
  }

  /** When a command composes, and the exception of the first field that does not fit. */
  lemma ComposeErrorExact(c: Command)
    ensures ComposeError(c).None? <==>
      c.Tester? ||
      (&& 0 <= c.taskTag <= 255 && c.param.patternMode != PtnErase
       && c.param.delayTime <= 0xFFFF_FFFF && c.param.markTagOrCrc32 <= 0xFFFF_FFFF && c.param.dataAddressOffset <= 0xFFFF_FFFF
       && c.param.dataLength <= 0xFFFF_FFFF && c.param.timeout <= 0xFFFF_FFFF && c.param.ehsDataAddress <= 0xFFFF_FFFF)
    ensures ComposeError(c) == Some(StructError) <==> c.Upiu? && !(0 <= c.taskTag <= 255)
    ensures ComposeError(c) == Some(BitstructError) <==>
      c.Upiu? && 0 <= c.taskTag <= 255 && c.param.delayTime <= 0xFFFF_FFFF && c.param.patternMode == PtnErase
    ensures ComposeError(c) in {None, Some(StructError), Some(BitstructError), Some(OverflowError)}
  {
  }

  function EntryBytes(c: Command): (e: seq<byte>)
    requires WellFormed(c) && ComposeError(c).None?
    ensures |e| == ENTRY_SIZE
    ensures e[0] == 0xFF <==> c.Tester?
  {
    match c
    case Upiu(_, header, tag, _, p, _, _, _) => header[3 := tag] + ParamBytes(p)
    case Tester(f, body, _, _, _) => [0xFF, f] + body
  }

  /** compose_entry_buf: a fresh 72-byte buffer holding the entry. */
  method ComposeEntryBuf(c: Command) returns (r: Result<array<byte>>)
    requires WellFormed(c)
    ensures match ComposeError(c)
            case Some(e) => r == Err(e)
            case None => r.Ok? && fresh(r.value) && r.value[..] == EntryBytes(c)
  {
    if c.Upiu? {
      if c.taskTag < 0 || c.taskTag > 255 { return Err(StructError); }
      if c.param.delayTime >= 0x1_0000_0000 { return Err(OverflowError); }
      if c.param.patternMode == PtnErase { return Err(BitstructError); }
      if !WordsFit(c.param) { return Err(OverflowError); }
      var b := new byte[ENTRY_SIZE](_ => 0);
      WriteSlice(b, 0, c.header[3 := c.taskTag]);
      var p := ParamToBytes(c.param);
      WriteSlice(b, 32, p[..]);
      return Ok(b);
    } else {
      var b := new byte[ENTRY_SIZE](_ => 0);
      WriteSlice(b, 0, [0xFF, c.functionCode]);
      WriteSlice(b, 2, c.body);
      return Ok(b);
    }
  }

  /** The data length push_cmd reads back from an entry, whatever its length. */
  function EntryDataLength(entry: seq<byte>): nat {
    if entry == [] || entry[0] == 0xFF then 0 else FromBytes(Slice(entry, 46, 50))
  }

  lemma EntryCarriesDataLength(c: Command)
    requires WellFormed(c) && ComposeError(c).None?
    ensures EntryDataLength(EntryBytes(c)) == c.DataLength()
  {
    if c.Upiu? {
      var b := ParamBytes(c.param);
      assert EntryBytes(c)[46..50] == b[14..18];
      assert b[14..18] == ToBytes(c.param.dataLength, 4);
      Word32RoundTrip(c.param.dataLength);
    }
  }

  /** The entry push_cmd writes: the two address words are patched only where there is data or EHS. */
  function PatchEntry(entry: seq<byte>, dataLen: nat, dataStart: nat, ehsLen: nat, ehsStart: nat): (e: seq<byte>)
    ensures |e| == |entry|
  {
    var e1 := if dataLen != 0 then Overwrite(entry, 42, ToBytes(dataStart, 4)) else entry;
    if ehsLen != 0 then Overwrite(e1, 54, ToBytes(ehsStart, 4)) else e1
  }

  function PatchedEntry(c: Command, dataStart: nat, ehsStart: nat): (e: seq<byte>)
    requires WellFormed(c) && ComposeError(c).None?
    ensures |e| == ENTRY_SIZE
  {
    PatchEntry(EntryBytes(c), c.DataLength(), dataStart, |c.Ehs()|, ehsStart)
  }

  /** send's write-back of the offsets into the command kept in the list. */
  function StoreBack(c: Command, dataStart: nat, ehsStart: nat): Command {
    if c.Tester? then c
    else c.(param := c.param.(dataAddressOffset := dataStart, ehsDataAddress := ehsStart))
  }

  /**
   * Patching bytes 42..45 and 54..57 is the same as recomposing the entry with the offsets stored
   * back, for whichever of the two are written at all.
   */
  lemma PatchAgreesWithStoreBack(c: Command, dataStart: u32, ehsStart: u32)
    requires WellFormed(c) && c.Upiu? && ComposeError(c).None?
    ensures ComposeError(StoreBack(c, dataStart, ehsStart)).None?
    ensures PatchedEntry(c, dataStart, ehsStart)
         == EntryBytes(StoreBack(c,
                                 if c.DataLength() != 0 then dataStart else c.param.dataAddressOffset,
                                 if |c.Ehs()| != 0 then ehsStart else c.param.ehsDataAddress))
  {
    var d := if c.DataLength() != 0 then dataStart else c.param.dataAddressOffset;
    var e := if |c.Ehs()| != 0 then ehsStart else c.param.ehsDataAddress;
    var p' := StoreBack(c, d, e).param;
    ParamParts(c.param);
    ParamParts(p');
    Glue(ParamBytes(c.param), ParamBytes(p'));
    PatchPointwise(c.header[3 := c.taskTag], ParamBytes(c.param), ParamBytes(p'),
                   c.DataLength(), dataStart, |c.Ehs()|, ehsStart);
  }

  /** The address words of an entry read as the offsets in the command's parameters. */
  lemma EntryWords(c: Command)
    requires WellFormed(c) && ComposeError(c).None? && c.Upiu?
    ensures FromBytes(EntryBytes(c)[42..46]) == c.param.dataAddressOffset
    ensures FromBytes(EntryBytes(c)[54..58]) == c.param.ehsDataAddress
  {
    var b := ParamBytes(c.param);
    ParamParts(c.param);
    assert EntryBytes(c)[42..46] == b[10..14] && EntryBytes(c)[54..58] == b[22..26];
    Word32RoundTrip(c.param.dataAddressOffset);
    Word32RoundTrip(c.param.ehsDataAddress);
  }

  /** The offsets patched into an entry, when they are written, are the ones stored back in the command. */
  lemma PatchedWordsAreStoredBack(c: Command, dataStart: u32, ehsStart: u32)
    requires WellFormed(c) && c.Upiu? && ComposeError(c).None?
    ensures var stored := StoreBack(c, dataStart, ehsStart).param;
      && (c.DataLength() != 0 ==> FromBytes(PatchedEntry(c, dataStart, ehsStart)[42..46]) == stored.dataAddressOffset)
      && (|c.Ehs()| != 0 ==> FromBytes(PatchedEntry(c, dataStart, ehsStart)[54..58]) == stored.ehsDataAddress)
  {
    PatchAgreesWithStoreBack(c, dataStart, ehsStart);
    EntryWords(StoreBack(c,
                         if c.DataLength() != 0 then dataStart else c.param.dataAddressOffset,
                         if |c.Ehs()| != 0 then ehsStart else c.param.ehsDataAddress));
  }

  /**
   * What stands in a pushed entry, byte for byte. UPIU: the header with the tag at byte 3, then the parameters with
   * the two offsets where there is data or EHS. Tester command: 0xFF, function code and body, with an EHS
   * offset at bytes 54..57 if it has EHS.
   */
  lemma EntryReadsBack(c: Command, dataStart: u32, ehsStart: u32)
    requires WellFormed(c) && ComposeError(c).None?
    ensures var e := PatchedEntry(c, dataStart, ehsStart);
      && (c.Upiu? ==>
            && (forall m :: 0 <= m < 32 && m != 3 ==> e[m] == c.header[m])
            && e[3] == c.taskTag
            && ParseParam(e[32..72]) == c.param.(
                 dataAddressOffset := if c.param.dataLength != 0 then dataStart else c.param.dataAddressOffset,
                 ehsDataAddress := if c.ehsLength != 0 && c.ehsBody != [] then ehsStart else c.param.ehsDataAddress))
      && (c.Tester? ==>
            && e[0] == 0xFF && e[1] == c.functionCode
            && (forall m :: 2 <= m < 72 && !(54 <= m < 58) ==> e[m] == c.body[m - 2])
            && e[54..58] == if c.ehsLength != 0 && c.ehsBody != [] then ToBytes(ehsStart, 4) else c.body[52..56])
  {
    var e := PatchedEntry(c, dataStart, ehsStart);
    if c.Upiu? {
      PatchAgreesWithStoreBack(c, dataStart, ehsStart);
      var stored := StoreBack(c,
                              if c.DataLength() != 0 then dataStart else c.param.dataAddressOffset,
                              if |c.Ehs()| != 0 then ehsStart else c.param.ehsDataAddress);
      ParamRoundTrip(stored.param);
      hide ParamBytes, ParseParam;
      assert e == c.header[3 := c.taskTag] + ParamBytes(stored.param);
      assert e[32..72] == ParamBytes(stored.param);
    } else {
      TesterEntryReadsBack(c, dataStart, ehsStart);
    }
  }

  lemma TesterEntryReadsBack(c: Command, dataStart: u32, ehsStart: u32)
    requires WellFormed(c) && c.Tester?
    ensures var e := PatchedEntry(c, dataStart, ehsStart);
      && e[0] == 0xFF && e[1] == c.functionCode
      && (forall m :: 2 <= m < 72 && !(54 <= m < 58) ==> e[m] == c.body[m - 2])
      && e[54..58] == if c.ehsLength != 0 && c.ehsBody != [] then ToBytes(ehsStart, 4) else c.body[52..56]
  {
    hide ToBytes;
    var plain := [0xFF, c.functionCode] + c.body;
    assert EntryBytes(c) == plain && plain[54..58] == c.body[52..56];
  }

  lemma Glue(was: seq<byte>, now: seq<byte>)
    requires |was| == |now| == 40
    requires was[0..4] == now[0..4] && was[4..6] == now[4..6] && was[6..10] == now[6..10]
    requires was[14..18] == now[14..18] && was[18..22] == now[18..22]
    ensures was[..10] == now[..10] && was[14..22] == now[14..22]
  {
    assert was[..10] == was[0..4] + was[4..6] + was[6..10];
    assert now[..10] == now[0..4] + now[4..6] + now[6..10];
    assert was[14..22] == was[14..18] + was[18..22];
    assert now[14..22] == now[14..18] + now[18..22];
  }

  lemma OverwritePart(l: seq<byte>, x: seq<byte>, r: seq<byte>, t: seq<byte>)
    requires |x| == |t|
    ensures Overwrite(l + x + r, |l|, t) == l + t + r
  {
  }

  lemma Reassociate(h: seq<byte>, l: seq<byte>, x: seq<byte>, m: seq<byte>, y: seq<byte>, r: seq<byte>)
    ensures (h + l) + x + (m + y + r) == (h + l + x + m) + y + r == h + (l + x + m + y + r)
  {
  }

  lemma InParts(b: seq<byte>)
    requires |b| == 40
    ensures b == b[..10] + b[10..14] + b[14..22] + b[22..26] + b[26..]
  {
  }

  lemma PatchPointwise(h: seq<byte>, was: seq<byte>, now: seq<byte>, dataLen: nat, d: nat, ehsLen: nat, e: nat)
    requires |h| == 32 && |was| == |now| == 40
    requires was[..10] == now[..10] && was[14..22] == now[14..22] && was[26..] == now[26..]
    requires now[10..14] == if dataLen != 0 then ToBytes(d, 4) else was[10..14]
    requires now[22..26] == if ehsLen != 0 then ToBytes(e, 4) else was[22..26]
    ensures PatchEntry(h + was, dataLen, d, ehsLen, e) == h + now
  {
    hide Overwrite, ToBytes;
    var l, x, m, y, r := was[..10], was[10..14], was[14..22], was[22..26], was[26..];
    var x', y' := now[10..14], now[22..26];
    InParts(was);
    InParts(now);
    Reassociate(h, l, x, m, y, r);
    Reassociate(h, l, x', m, y, r);
    Reassociate(h, l, x', m, y', r);
    OverwritePart(h + l, x, m + y + r, x');
    OverwritePart(h + l + x' + m, y, r, y');
  }
}
