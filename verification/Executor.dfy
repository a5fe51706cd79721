/**
 * The executor itself: module globals as fields, updated step by step. Every method is proved to
 * take the corresponding step of the Package state machine, and send to produce the package image.
 */
module Executor {
  import opened Common
  import opened Bytes
  import opened Layout
  import opened Protocols
  import opened Occurrences
  import opened CycleTracker
  import opened PackageLayout
  import opened ResponseIndex
  import opened Package
  import opened PackageProperties
  import opened BufferManager

  /** Where the current package stands: being built, failed before submission, submitted, or answered. */
  datatype Phase = Building | Stuck | Submitted | Answered

  /** The request handed to the tester's send_cmd_seq. */
  datatype SendCmdSeq = SendCmdSeq(qd: int, option: set<nat>, cmdBlkCnt: nat, dataBlkCnt: nat)

  datatype Response =
    | UpiuResponse(entry: seq<byte>, data: seq<byte>, ehs: seq<byte>)
    | TesterResponse(entry: seq<byte>)

  // UPIU response transaction types
  const NOP_IN: byte := 0x20
  const RSP: byte := 0x21
  const TM_RSP: byte := 0x24
  const QRY_RSP: byte := 0x36

  /** identify_response: classify an entry and fetch the command's data and EHS. */
  function Identify(entry: seq<byte>, c: Command, buf: seq<byte>, ehsBuf: seq<byte>): Result<Response> {
    var e := if |entry| < ENTRY_SIZE then entry + Fill(0, ENTRY_SIZE - |entry|) else entry;
    if e[0] != 0xFF then
      if e[0] != TM_RSP && e[0] != QRY_RSP && e[0] != NOP_IN && e[0] != RSP then Err(UnidentifiedResponse)
      else if c.Tester? then Err(AttributeError)
      else Ok(UpiuResponse(
                e,
                Slice(buf, c.param.dataAddressOffset, c.param.dataAddressOffset + c.param.dataLength),
                if c.TotalEhsLength() > 0
                then Slice(ehsBuf, c.param.ehsDataAddress, c.param.ehsDataAddress + c.TotalEhsLength() * 32) else []))
    else if IsFuncType(e[1]) && e[1] != CMD_UPIU then Ok(TesterResponse(e))
    else Err(UnidentifiedResponse)
  }

  lemma FirstFailureIs(cmds: seq<Command>, k: nat, m: nat)
    requires k <= m <= |cmds|
    requires forall j :: k <= j < m ==> PushErrorAt(cmds, j).None?
    requires m < |cmds| ==> PushErrorAt(cmds, m).Some?
    ensures FirstFailure(cmds, k) == m
  {
    hide PushErrorAt;
    var f := FirstFailure(cmds, k);
  }

  lemma StoredBackStep(queue: seq<Queued>, m: nat)
    requires m < |queue|
    ensures var cmds := Commands(queue);
      StoredBack(queue, m + 1)
      == StoredBack(queue, m)[m := queue[m].(cmd := StoreBack(cmds[m], DataStart(cmds, m), EhsStart(cmds, m)))]
  {
    hide StoreBack, DataStart, EhsStart;
  }

  lemma TuningIgnoresTag(c: Command, tag: int, markTag: nat)
    requires c.Upiu?
    ensures ManualMisaligned(c.(taskTag := tag)) == ManualMisaligned(c)
    ensures TunedParam(c.(taskTag := tag), markTag) == TunedParam(c, markTag)
    ensures TakesMarkTag(c.(taskTag := tag)) == TakesMarkTag(c)
  {
  }

  lemma AppendCounts(queue: seq<Queued>, q: Queued, k: Key)
    ensures Count(Keys(queue + [q]), k) == Count(Keys(queue), k) + if q.cmd.KeyOf() == k then 1 else 0
  {
    assert Keys(queue + [q])[..|queue|] == Keys(queue);
  }

  lemma HistoryCounts(history: seq<Key>, added: Key, k: Key)
    ensures Count(history + [added], k) == Count(history, k) + if added == k then 1 else 0
  {
    assert (history + [added])[..|history|] == history;
  }

  /** The tracker's history and the list count alike. */
  ghost predicate SameCounts(history: seq<Key>, queue: seq<Queued>) {
    forall k :: IsRealKey(k) ==> Count(history, k) == Count(Keys(queue), k)
  }

  /** Counting the appended command keeps the counts equal, whatever indicator it is given. */
  lemma NumberedCounts(before: seq<Queued>, cmd: Command, ind: CycleIndicator, history: seq<Key>, history': seq<Key>)
    requires SameCounts(history, before)
    requires history' == if cmd.KeyOf().NoKey? then history else history + [cmd.KeyOf()]
    ensures SameCounts(history', before + [Queued(cmd, ind)])
  {
    forall k | IsRealKey(k)
      ensures Count(history', k) == Count(Keys(before + [Queued(cmd, ind)]), k)
    {
      AppendCounts(before, Queued(cmd, ind), k);
      HistoryCounts(history, cmd.KeyOf(), k);
    }
  }

  /** The arguments enqueue passes to the tracker stand for the command's key, or raise its numbering error. */
  lemma CallArguments(cmd: Command)
    requires cmd.Tester? ==> IsFuncType(cmd.functionCode)
    ensures KeyOfCall(if cmd.Tester? then cmd.functionCode else CMD_UPIU, if cmd.Tester? then None else Some(cmd.taskTag))
         == if cmd.KeyOf().NoKey? then Err(NumberingError(cmd)) else Ok(cmd.KeyOf())
    ensures !cmd.KeyOf().NoKey? ==> IsRealKey(cmd.KeyOf())
  {
  }

  lemma AdmitFull(s: State, c: Command)
    requires EarlyCheckIfFull(|s.queue| + 2, s.totalPayload + Blocks(c), s.totalEhs + AccountedEhs(c))
    ensures Admit(s, c) == (s, Err(CmdListIsFull))
  {
    hide EarlyCheckIfFull, Blocks, AccountedEhs;
  }

  lemma EnqueueWhenSent(s: State, c: Command, testerVersion: int)
    requires s.isSent
    ensures Package.Enqueue(s, c, testerVersion) == (s, Err(CmdListNotClear))
  {
  }

  lemma NoKeyIndicator(before: seq<Queued>, cmd: Command)
    requires cmd.KeyOf().NoKey?
    ensures NextIndicator(before, cmd) == CycleIndicator(-1, CMD_UPIU, -1)
  {
  }

  lemma NumberedIndicator(before: seq<Queued>, cmd: Command, history: seq<Key>)
    requires SameCounts(history, before) && IsRealKey(cmd.KeyOf())
    ensures IndicatorAt(history + [cmd.KeyOf()], |history|) == NextIndicator(before, cmd)
  {
    assert (history + [cmd.KeyOf()])[..|history|] == history;
  }

  lemma TesterStoreBack(c: Command, d: nat, e: nat)
    requires c.Tester?
    ensures StoreBack(c, d, e) == c
  {
  }

  lemma NextOfQueue(queue: seq<Queued>, m: nat)
    requires m < |queue| && CommandsSound(queue)
    ensures StoredBack(queue, m)[m] == queue[m] && Commands(queue)[m] == queue[m].cmd && WellFormed(queue[m].cmd)
  {
  }

  /** PushErrorAt spelled out on the room checks push_cmd makes, and the pointer steps. */
  lemma PushRoom(cmds: seq<Command>, m: nat)
    requires m < |cmds| && DataFits(cmds)
    ensures DataStart(cmds, m) + AlignUp(cmds[m].DataLength(), 512) == DataStart(cmds, m + 1) <= BUF_SIZE
    ensures EhsStart(cmds, m) + AlignUp(|cmds[m].Ehs()|, 96) == EhsStart(cmds, m + 1)
    ensures PushErrorAt(cmds, m) ==
      if ComposeError(cmds[m]).Some? then ComposeError(cmds[m])
      else if EhsStart(cmds, m + 1) > EHS_BUF_SIZE then Some(BufIsFull)
      else if |cmds[m].data| > cmds[m].DataLength() then Some(PayloadSizeExceedsExpectation)
      else None
    ensures Begin(cmds) <= DataStart(cmds, m)
  {
    hide CeilDiv, DataBegin;
    ExtentsInOrder(cmds, m, m + 1);
    ExtentsInOrder(cmds, m, |cmds|);
  }

  lemma PushedImage(buf: seq<byte>, ehs: seq<byte>, cmds: seq<Command>, m: nat, buf': seq<byte>, ehs': seq<byte>)
    requires m < |cmds| && DataFits(cmds) && LaidOut(buf, ehs, cmds, m)
    requires WellFormed(cmds[m]) && ComposeError(cmds[m]).None? && |cmds[m].data| <= cmds[m].DataLength()
    requires EhsStart(cmds, m + 1) <= EHS_BUF_SIZE
    requires buf' == Overwrite(Overwrite(buf, DataStart(cmds, m), cmds[m].data), EntryOffset(m),
                               PatchEntry(EntryBytes(cmds[m]), cmds[m].DataLength(), DataStart(cmds, m),
                                          |cmds[m].Ehs()|, EhsStart(cmds, m)))
    requires ehs' == Overwrite(ehs, EhsStart(cmds, m), cmds[m].Ehs())
    ensures LaidOut(buf', ehs', cmds, m + 1)
  {
    hide EntriesLaid, PayloadsLaid, RestBlank, EhsLaid, DataStart, EhsStart, EntryOffset, PatchEntry, EntryBytes, ComposeError;
    PushExtendsImage(buf, ehs, cmds, m);
  }

  lemma PushAllStart(queue: seq<Queued>, buf: seq<byte>, ehs: seq<byte>)
    requires buf == Fill(0xFF, BUF_SIZE) && ehs == Fill(0, EHS_BUF_SIZE)
    ensures LaidOut(buf, ehs, Commands(queue), 0) && StoredBack(queue, 0) == queue
    ensures EntryOffset(0) == 0 && DataStart(Commands(queue), 0) == Begin(Commands(queue)) && EhsStart(Commands(queue), 0) == 0
  {
    BlankIsLaidOut(buf, ehs, Commands(queue));
    assert Commands(queue)[..0] == [];
  }

  /** The request for a package that is submitted from state s. */
  function Request(s: State, qd: int, qdLimit: Option<int>, readHwCompare: bool, skipResponseCheck: bool, recordTimestamp: bool,
                   recordResponse: bool, initialOption: set<nat>): SendCmdSeq
    requires qdLimit.Some?
  {
    SendCmdSeq(if qd != -1 then qd else qdLimit.value,
               OptionBits(initialOption, s, readHwCompare, skipResponseCheck, recordTimestamp, recordResponse),
               CmdBlkCnt(Commands(s.queue)), DataBlkCnt(Commands(s.queue)))
  }

  lemma NothingCounted()
    ensures SameCounts([], [])
  {
  }

  lemma SentKeepsPackageOk(s: State)
    requires PackageOk(s)
    ensures PackageOk(s.(isSent := true))
  {
    AlikeKeepsPackageOk(s, s.(isSent := true));
  }

  lemma SameCountsStoredBack(history: seq<Key>, queue: seq<Queued>, m: nat)
    requires SameCounts(history, queue)
    ensures SameCounts(history, StoredBack(queue, m))
  {
    hide AlikeQueues;
    StoredBackIsAlike(queue, m);
    AlikeKeepsKeys(queue, StoredBack(queue, m));
  }

  /** The request as it is built from the pointers, after the offsets have been stored back, is the one for the list. */
  lemma RequestIs(s: State, s': State, qd: int, qdLimit: Option<int>, compare: bool, skip: bool, timestamp: bool,
                  response: bool, initial: set<nat>)
    requires PackageOk(s) && qdLimit.Some? && s' == s.(isSent := true, queue := s'.queue)
    ensures Request(s, qd, qdLimit, compare, skip, timestamp, response, initial)
         == SendCmdSeq(
              if qd != -1 then qd else qdLimit.value,
              OptionBits(initial, s', compare, skip, timestamp, response),
              CeilDiv(EntryOffset(|s.queue|), 512),
              if s.totalPayload == 0 then CeilDiv(EntryOffset(|s.queue|), 512)
              else DataStart(Commands(s.queue), |s.queue|) / 512)
  {
    hide CeilDiv, EntryOffset, DataStart, IndicatorsInOrder, Uniform, FlagsExact, CommandsSound;
    AccountedTotals(s);
  }

  /** Whether the returned buffers are parsed. */
  predicate Parses(reply: Reply, clearOnSuccess: bool) {
    if reply.Completed? then !clearOnSuccess else reply.parse
  }

  function AfterReply(reply: Reply, n: nat): Result<()> {
    match reply
    case Completed(info, _) => if ParseError(info, n).Some? then Err(ParseError(info, n).value) else Ok(())
    case Failed(parse, info, _) =>
      Err(if parse && ParseError(info, n).Some? then ParseError(info, n).value else Error.DllError)
  }

  lemma CheckedIsUnsent(s: State, readHwCompare: bool)
    requires SendCheck(s, readHwCompare).None?
    ensures !s.isSent
  {
  }

  /** A Python list index: negative ones count from the end. */
  function PyIndex(i: int, n: nat): Option<nat> {
    if 0 <= i < n then Some(i) else if i < 0 <= i + n then Some(i + n) else None
  }

  /** What read_response returns for a queued command. */
  function Lookup(index: map<CycleIndicator, nat>, buf: seq<byte>, ehsBuf: seq<byte>, q: Queued): Result<Response> {
    if q.indicator in index
    then Identify(Slice(buf, index[q.indicator], index[q.indicator] + ENTRY_SIZE), q.cmd, buf, ehsBuf)
    else Err(CycleIndicatorNotFound)
  }

  class Executor {
    const mgr: BufferManager
    const tracker: CycleTracker
    var cmdList: seq<Queued>
    var totalPayloadIn512B: nat
    var totalEhsIn96B: nat
    var markTag: nat
    var taskTag: nat
    var rwManualMode: Option<bool>
    var activeTaskMgmt: bool
    var hasHpb: bool
    var hasReadBuffer: bool
    var isCmdSent: bool
    var packagePatternMode: Option<PatternMode>
    var qdLimit: Option<int>
    /** gHostInfo.sdk_ver1, -1 when unknown. */
    var testerVersion: int

    ghost var phase: Phase
    /** The list and both buffers as they were when the package was handed to the tester. */
    ghost var sentQueue: seq<Queued>
    ghost var sentImage: seq<byte>
    ghost var sentEhs: seq<byte>

    ghost function Abs(): State
      reads this
    {
      State(cmdList, totalPayloadIn512B, totalEhsIn96B, markTag, taskTag, rwManualMode, packagePatternMode,
            activeTaskMgmt, hasHpb, hasReadBuffer, isCmdSent)
    }

    /** The tracker has counted what is in the list. */
    ghost predicate Tracks()
      reads `cmdList, tracker
    {
      tracker.Valid() && SameCounts(tracker.history, cmdList)
    }

    /** The package that was submitted is the image of the list, and the list has its offsets. */
    ghost predicate Delivered()
      reads `cmdList, `sentQueue, `sentImage, `sentEhs
    {
      && cmdList == StoredBack(sentQueue, |sentQueue|)
      && DataFits(Commands(sentQueue))
      && LaidOut(sentImage, sentEhs, Commands(sentQueue), |sentQueue|)
    }

    ghost predicate PhaseOk()
      reads `phase, `isCmdSent, `cmdList, `sentQueue, `sentImage, `sentEhs, mgr, mgr.buffer, mgr.ehsBuffer
    {
      && (phase.Building? <==> !isCmdSent)
      && (phase.Building? ==> mgr.Fresh())
      && (phase.Stuck? || phase.Submitted? ==> mgr.cycleIndicatorToOffset == map[])
      && (phase.Submitted? || phase.Answered? ==> Delivered())
      && (phase.Answered? ==> mgr.cycleIndicatorToOffset == IndexOf(ParsedKeys(mgr.buffer[..], |cmdList|)))
    }

    ghost predicate Valid()
      reads this, mgr, mgr.buffer, mgr.ehsBuffer, tracker
    {
      PackageOk(Abs()) && Tracks() && PhaseOk()
    }

    constructor ()
      ensures Valid() && fresh(mgr) && fresh(tracker) && fresh(mgr.buffer) && fresh(mgr.ehsBuffer)
      ensures Abs() == Initial(0, 0) && phase == Building && qdLimit.None?
    {
      mgr := new BufferManager();
      tracker := new CycleTracker();
      cmdList, totalPayloadIn512B, totalEhsIn96B, markTag, taskTag := [], 0, 0, 0, 0;
      rwManualMode, packagePatternMode, qdLimit, testerVersion := None, None, None, -1;
      activeTaskMgmt, hasHpb, hasReadBuffer, isCmdSent := false, false, false, false;
      phase, sentQueue, sentImage, sentEhs := Building, [], [], [];
      new;
      ClearedIsOk(Initial(0, 0));
    }

    method SetQdLimit(limit: int)
      modifies `qdLimit
      ensures qdLimit == Some(limit)
    {
      qdLimit := Some(limit);
    }

    // ---------- enqueue ----------

    method GetTaskTag() returns (tag: nat)
      modifies `taskTag
      ensures taskTag == old(taskTag) + 1 && tag == taskTag % 256
    {
      taskTag := taskTag + 1;
      return taskTag % 256;
    }

    method GetMarkTag() returns (tag: nat)
      modifies `markTag
      ensures markTag == old(markTag) + 1 && tag == markTag % 0x1_0000_0000
    {
      markTag := markTag + 1;
      return markTag % 0x1_0000_0000;
    }

    /** The first half of _auto_tune_param: fill in the parameters by kind of command. */
    method TuneByKind(entry: Command) returns (cmd: Command, misaligned: bool)
      requires entry.Upiu?
      modifies `markTag
      ensures markTag == if TakesMarkTag(entry) then old(markTag) + 1 else old(markTag)
      ensures misaligned == ManualMisaligned(entry)
      ensures !misaligned ==> cmd == entry.(param := TunedParam(entry, old(markTag)))
    {
      hide AlignUp;
      cmd := entry;
      misaligned := false;
      if cmd.kind.Write? && !cmd.param.dataInOut {
        cmd := cmd.(param := cmd.param.(crcCompare := false));
        if cmd.specificTag.None? {
          var mark := GetMarkTag();
          cmd := cmd.(param := cmd.param.(markTagOrCrc32 := mark));
        } else {
          cmd := cmd.(param := cmd.param.(markTagOrCrc32 := cmd.specificTag.value));
        }
        cmd := cmd.(param := cmd.param.(dataLength := 0));
      } else if (cmd.kind.Read? || cmd.kind.HpbRead?) && !cmd.param.dataInOut {
        cmd := cmd.(param := cmd.param.(dataLength := 0));
      } else if (cmd.kind.Write? || cmd.kind.Read? || cmd.kind.HpbRead?) && cmd.param.dataInOut {
        if cmd.ExpectedDataLength() % 4096 != 0 {
          misaligned := true;
          return;
        }
        cmd := cmd.(param := cmd.param.(addTag := false, dataLength := AlignUp(cmd.ExpectedDataLength(), ALIGN_SIZE_512)));
      } else if cmd.kind.ReadBuffer? || cmd.kind.OtherScsi? {
        cmd := cmd.(param := cmd.param.(addTag := false, dataLength := AlignUp(cmd.ExpectedDataLength(), ALIGN_SIZE_512)));
      } else if cmd.kind.Descriptor? {
        cmd := cmd.(param := cmd.param.(dataLength := AlignUp(cmd.DescriptorLength(), ALIGN_SIZE_512)));
      }
      if cmd.kind.Read? && cmd.param.crcCompare {
        cmd := cmd.(param := cmd.param.(addTag := false));
      }
    }

    /** One data direction and one pattern mode per package: record the first, insist on them after. */
    method CheckModes(cmd: Command) returns (error: Option<Error>)
      requires cmd.Upiu?
      modifies `rwManualMode, `packagePatternMode
      ensures error == ModeError(cmd, old(rwManualMode), old(packagePatternMode))
      ensures rwManualMode == RecordedRw(cmd, old(rwManualMode))
      ensures packagePatternMode == RecordedPattern(cmd, old(rwManualMode), old(packagePatternMode))
    {
      if cmd.kind.Write? || cmd.kind.Read? {
        if rwManualMode.None? {
          rwManualMode := Some(cmd.param.dataInOut);
        } else if rwManualMode.value != cmd.param.dataInOut {
          return Some(AutoAndManualMixed);
        }
        if packagePatternMode.None? {
          packagePatternMode := Some(cmd.param.patternMode);
        } else if packagePatternMode.value != cmd.param.patternMode {
          return Some(PatternModeMixed);
        }
      }
      return None;
    }

    method AutoTuneParam(entry: Command) returns (cmd: Command, error: Option<Error>)
      requires entry.Upiu?
      modifies `taskTag, `markTag, `rwManualMode, `packagePatternMode
      ensures Abs() == AfterTuning(entry, old(Abs()))
      ensures error == TuneError(entry, old(Abs()), testerVersion)
      ensures error.None? ==> cmd == Tuned(entry, old(Abs()))
    {
      hide ManualMisaligned, TunedParam, TakesMarkTag;
      cmd := entry;
      if cmd.taskTag == -1 {
        var tag := GetTaskTag();
        cmd := cmd.(taskTag := tag);
      }
      assert ManualMisaligned(cmd) == ManualMisaligned(entry) && TunedParam(cmd, markTag) == TunedParam(entry, markTag)
          && TakesMarkTag(cmd) == TakesMarkTag(entry) by {
        TuningIgnoresTag(entry, cmd.taskTag, markTag);
      }
      var misaligned;
      cmd, misaligned := TuneByKind(cmd);
      if misaligned {
        return cmd, Some(ManualRwDataShallAlign4K);
      }
      var modeError := CheckModes(cmd);
      if modeError.Some? {
        return cmd, modeError;
      }
      if cmd.ehsLength != 0 && testerVersion < 7 {
        return cmd, Some(EhsFeatureNotSupported);
      }
      if cmd.TotalEhsLength() * 32 != |cmd.Ehs()| {
        return cmd, Some(EhsLengthMismatch);
      }
      return cmd, None;
    }

    /** The second half of enqueue: append, account, and number the command. */
    method Append(cmd: Command, payloadLen: nat, ehsLen: nat) returns (r: Result<nat>)
      requires Tracks() && payloadLen == Blocks(cmd) && ehsLen == AccountedEhs(cmd)
      requires !EarlyCheckIfFull(|cmdList| + 2, totalPayloadIn512B + payloadLen, totalEhsIn96B + ehsLen)
      modifies `activeTaskMgmt, `hasHpb, `hasReadBuffer, `cmdList, `totalPayloadIn512B, `totalEhsIn96B, tracker
      ensures Tracks()
      ensures (Abs(), r) == Admit(old(Abs()), cmd)
    {
      hide EarlyCheckIfFull, Blocks, AccountedEhs, SameCounts, NextIndicator, NumberingError;
      ghost var before := cmdList;
      if cmd.Upiu? && cmd.kind.TaskManagement? {
        activeTaskMgmt := true;
      }
      if cmd.Upiu? && cmd.kind.HpbRead? {
        hasHpb := true;
      }
      if cmd.Upiu? && cmd.kind.ReadBuffer? {
        hasReadBuffer := true;
      }
      cmdList := cmdList + [Queued(cmd, CycleIndicator(-1, CMD_UPIU, -1))];
      totalPayloadIn512B := totalPayloadIn512B + payloadLen;
      totalEhsIn96B := totalEhsIn96B + ehsLen;
      r := NumberLast(before, cmd);
    }

    /** Number the command just appended; if that raises it keeps its default indicator. */
    method NumberLast(ghost before: seq<Queued>, cmd: Command) returns (r: Result<nat>)
      requires cmdList == before + [Queued(cmd, CycleIndicator(-1, CMD_UPIU, -1))]
      requires tracker.Valid() && SameCounts(tracker.history, before)
      modifies `cmdList, tracker
      ensures Tracks()
      ensures cmdList == before + [Queued(cmd, NextIndicator(before, cmd))]
      ensures r == if cmd.KeyOf().NoKey? then Err(NumberingError(cmd)) else Ok(|before|)
    {
      hide SameCounts, KeyOfCall, NextIndicator, IndicatorAt;
      if cmd.KeyOf().NoKey? {
        NoKeyIndicator(before, cmd);
      }
      ghost var history := tracker.history;
      var indicator: Result<CycleIndicator>;
      if cmd.Tester? && !IsFuncType(cmd.functionCode) {
        NumberedCounts(before, cmd, CycleIndicator(-1, CMD_UPIU, -1), history, history);
        return Err(ValueError);
      }
      CallArguments(cmd);
      if cmd.Tester? {
        indicator := tracker.IncrementCycle(cmd.functionCode, None);
      } else {
        indicator := tracker.IncrementCycle(CMD_UPIU, Some(cmd.taskTag));
      }
      if indicator.Err? {
        NumberedCounts(before, cmd, CycleIndicator(-1, CMD_UPIU, -1), history, history);
        return Err(indicator.error);
      }
      NumberedIndicator(before, cmd, history);
      NumberedCounts(before, cmd, indicator.value, history, tracker.history);
      var last := |cmdList| - 1;
      cmdList := cmdList[last := cmdList[last].(indicator := indicator.value)];
      assert cmdList == before + [Queued(cmd, indicator.value)];
      return Ok(last);
    }

    /** Tune, test capacity, append: enqueue past its first check. */
    method TuneAndAppend(cmdEntry: Command) returns (r: Result<nat>)
      requires Tracks() && !isCmdSent
      modifies `taskTag, `markTag, `rwManualMode, `packagePatternMode, `activeTaskMgmt, `hasHpb, `hasReadBuffer,
               `cmdList, `totalPayloadIn512B, `totalEhsIn96B, tracker
      ensures Tracks()
      ensures (Abs(), r) == Package.Enqueue(old(Abs()), cmdEntry, testerVersion)
    {
      assert CeilDiv(0, ALIGN_SIZE_512) == 0;
      hide Tracks, AfterTuning, TuneError, CeilDiv, EarlyCheckIfFull, Admit, TunedParam, TunedTag;
      var cmd := cmdEntry;
      var payloadLen, ehsLen := 0, 0;
      if cmd.Upiu? {
        var error;
        cmd, error := AutoTuneParam(cmd);
        if error.Some? {
          return Err(error.value);
        }
        payloadLen := CeilDiv(cmd.param.dataLength, ALIGN_SIZE_512);
        ehsLen := CeilDiv(|cmd.Ehs()|, ALIGN_EHS_UNIT);
      }
      if EarlyCheckIfFull(|cmdList| + 2, totalPayloadIn512B + payloadLen, totalEhsIn96B + ehsLen) {
        AdmitFull(Abs(), cmd);
        return Err(CmdListIsFull);
      }
      r := Append(cmd, payloadLen, ehsLen);
    }

    /**
     * Queue a copy of the command and return its index. Tags and modes change even when a check
     * fails, and a command whose numbering is refused stays in the list.
     */
    method Enqueue(cmdEntry: Command) returns (r: Result<nat>)
      requires Valid() && WellFormed(cmdEntry)
      modifies this, tracker
      ensures Valid() && phase == old(phase) && qdLimit == old(qdLimit) && testerVersion == old(testerVersion)
      ensures old(isCmdSent) ==> unchanged(this) && unchanged(tracker)
      ensures (Abs(), r) == Package.Enqueue(old(Abs()), cmdEntry, testerVersion)
    {
      hide PackageOk, Tracks, Package.Enqueue, Delivered, BufferManager.Fresh;
      EnqueueKeepsPackageOk(Abs(), cmdEntry, testerVersion);
      if isCmdSent {
        EnqueueWhenSent(Abs(), cmdEntry, testerVersion);
        return Err(CmdListNotClear);
      }
      r := TuneAndAppend(cmdEntry);
    }

    // ---------- send ----------

    /**
     * Compose and push every command in list order, storing the offsets back. The only exceptions
     * are those PushErrorAt names; when there is none the buffers hold the package image and the
     * pointers stand at its ends.
     */
    method PushAll() returns (error: Option<Error>)
      requires PackageOk(Abs()) && mgr.Fresh()
      modifies `cmdList, mgr, mgr.buffer, mgr.ehsBuffer
      ensures var cmds := Commands(old(cmdList));
        var m := FirstFailure(cmds, 0);
        && cmdList == StoredBack(old(cmdList), m)
        && error == (if m < |cmds| then PushErrorAt(cmds, m) else None)
        && DataFits(cmds)
        && LaidOut(mgr.buffer[..], mgr.ehsBuffer[..], cmds, m)
        && mgr.entryPtr == EntryOffset(m) && mgr.dataPtr == DataStart(cmds, m) && mgr.ehsPtr == EhsStart(cmds, m)
      ensures mgr.buffer == old(mgr.buffer) && mgr.ehsBuffer == old(mgr.ehsBuffer) && mgr.cycleIndicatorToOffset == map[]
    {
      hide LaidOut, StoredBack, PushErrorAt, EntryOffset, EntryHasRoom, DataBegin, CeilDiv, IndicatorsInOrder, Uniform, FlagsExact;
      ghost var queue, cmds := cmdList, Commands(cmdList);
      PushAllStart(queue, mgr.buffer[..], mgr.ehsBuffer[..]);
      AdmittedDataFits(Abs());
      mgr.SetDataBeginOffset(|cmdList| + 1);
      var idx := 0;
      while idx < |cmdList|
        invariant idx <= |cmdList| == |queue|
        invariant forall j :: 0 <= j < idx ==> PushErrorAt(cmds, j).None?
        invariant cmdList == StoredBack(queue, idx)
        invariant mgr.Ready() && mgr.dataBegin == Begin(cmds)
        invariant LaidOut(mgr.buffer[..], mgr.ehsBuffer[..], cmds, idx)
        invariant mgr.entryPtr == EntryOffset(idx) && mgr.dataPtr == DataStart(cmds, idx) && mgr.ehsPtr == EhsStart(cmds, idx)
        invariant mgr.buffer == old(mgr.buffer) && mgr.ehsBuffer == old(mgr.ehsBuffer) && mgr.cycleIndicatorToOffset == map[]
      {
        EveryEntryHasRoom(|cmds|, idx);
        var e := PushNext(queue, idx);
        if e.Some? {
          FirstFailureIs(cmds, 0, idx);
          return e;
        }
        idx := idx + 1;
      }
      FirstFailureIs(cmds, 0, |cmds|);
      return None;
    }

    /** One round of send's loop. */
    method PushNext(ghost queue: seq<Queued>, idx: nat) returns (error: Option<Error>)
      requires idx < |cmdList| == |queue| && cmdList == StoredBack(queue, idx)
      requires CommandsSound(queue) && DataFits(Commands(queue))
      requires EntryHasRoom(EntryOffset(idx), Begin(Commands(queue)))
      requires mgr.Ready() && mgr.dataBegin == Begin(Commands(queue))
      requires LaidOut(mgr.buffer[..], mgr.ehsBuffer[..], Commands(queue), idx)
      requires mgr.entryPtr == EntryOffset(idx) && mgr.dataPtr == DataStart(Commands(queue), idx)
      requires mgr.ehsPtr == EhsStart(Commands(queue), idx)
      modifies `cmdList, mgr`entryPtr, mgr`dataPtr, mgr`ehsPtr, mgr.buffer, mgr.ehsBuffer
      ensures error == PushErrorAt(Commands(queue), idx)
      ensures var cmds := Commands(queue);
        var m := if error.None? then idx + 1 else idx;
        && cmdList == StoredBack(queue, m)
        && LaidOut(mgr.buffer[..], mgr.ehsBuffer[..], cmds, m)
        && mgr.entryPtr == EntryOffset(m) && mgr.dataPtr == DataStart(cmds, m) && mgr.ehsPtr == EhsStart(cmds, m)
      ensures mgr.Ready()
    {
      hide LaidOut, StoredBack, EntryOffset, DataBegin, DataFits, CeilDiv, NextEntryPtr, EhsFits, DataStart, EhsStart,
           PatchEntry, EntryBytes, EntryDataLength, ComposeError, PushErrorAt, StoreBack, WellFormed;
      ghost var cmds := Commands(queue);
      ghost var buf, ehs := mgr.buffer[..], mgr.ehsBuffer[..];
      var cmd := cmdList[idx].cmd;
      NextOfQueue(queue, idx);
      var entry := ComposeEntryBuf(cmd);
      PushRoom(cmds, idx);
      if entry.Err? {
        return Some(entry.error);
      }
      EntryCarriesDataLength(cmd);
      var pushed := mgr.PushCmd(entry.value, cmd.data, cmd.Ehs());
      if pushed.Err? {
        return Some(pushed.error);
      }
      PushedImage(buf, ehs, cmds, idx, mgr.buffer[..], mgr.ehsBuffer[..]);
      NextEntryPtrIsNextSlot(idx);
      if cmd.Upiu? {
        cmdList := cmdList[idx := cmdList[idx].(cmd := StoreBack(cmd, pushed.value.0, pushed.value.1))];
      }
      StoredBackStep(queue, idx);
      if cmd.Tester? {
        TesterStoreBack(cmd, pushed.value.0, pushed.value.1);
        assert cmdList[idx := cmdList[idx].(cmd := cmd)] == cmdList;
      }
      return None;
    }

    /** _build_cmd_seq_buf: the request object; both pointers are aligned when it is called. */
    method BuildCmdSeqBuf(qd: int, readHwCompare: bool, skipResponseCheck: bool, recordTimestamp: bool, recordResponse: bool,
                          initialOption: set<nat>)
      returns (r: Result<SendCmdSeq>)
      requires mgr.dataPtr % ALIGN_SIZE_512 == 0 && mgr.ehsPtr % ALIGN_EHS_UNIT == 0
      ensures qdLimit.None? ==> r == Err(ShallSetQdLimit)
      ensures qdLimit.Some? ==> r == Ok(SendCmdSeq(
                if qd != -1 then qd else qdLimit.value,
                OptionBits(initialOption, Abs(), readHwCompare, skipResponseCheck, recordTimestamp, recordResponse),
                CeilDiv(mgr.entryPtr, 512),
                if totalPayloadIn512B == 0 then CeilDiv(mgr.entryPtr, 512) else mgr.dataPtr / 512))
    {
      hide CeilDiv;
      if qdLimit.None? { return Err(ShallSetQdLimit); }
      var option := initialOption;
      if recordTimestamp { option := option + {0}; }
      if recordResponse { option := option + {1}; }
      if activeTaskMgmt { option := option + {3}; }
      if skipResponseCheck { option := option + {6}; }
      if rwManualMode == Some(true) {
        option := option + {2};
        option := option - {4};
      }
      if readHwCompare {
        option := option - {2};
        option := option + {4};
        option := option - {7};
      }
      var cmdBlkCnt := CeilDiv(mgr.entryPtr, ALIGN_SIZE_512);
      var dataBlkCnt := mgr.dataPtr / ALIGN_SIZE_512;
      if totalPayloadIn512B == 0 {
        dataBlkCnt := cmdBlkCnt;
      }
      return Ok(SendCmdSeq(if qd != -1 then qd else qdLimit.value, option, cmdBlkCnt, dataBlkCnt));
    }

    /** Take over the buffers the tester returned and index the responses. */
    method GetBuffersAndSetToBufMngr(info: seq<byte>, ehs: seq<byte>) returns (error: Option<Error>)
      requires mgr.cycleIndicatorToOffset == map[]
      modifies mgr
      ensures mgr.buffer[..] == info && fresh(mgr.buffer)
      ensures if totalEhsIn96B > 0 then mgr.ehsBuffer[..] == ehs && fresh(mgr.ehsBuffer) else mgr.ehsBuffer == old(mgr.ehsBuffer)
      ensures mgr.cycleIndicatorToOffset == IndexOf(ParsedKeys(info, |cmdList|))
      ensures error == ParseError(info, |cmdList|)
    {
      hide IndexOf, ParsedKeys, ParseError;
      if totalEhsIn96B > 0 {
        mgr.ehsBuffer := new byte[|ehs|](i requires 0 <= i < |ehs| => ehs[i]);
        assert mgr.ehsBuffer[..] == ehs;
      }
      mgr.buffer := new byte[|info|](i requires 0 <= i < |info| => info[i]);
      assert mgr.buffer[..] == info;
      error := mgr.GenRspCycleIndicator(|cmdList|);
    }

    method Clear()
      requires Valid()
      modifies this, mgr, tracker
      ensures Valid() && fresh(mgr.buffer) && fresh(mgr.ehsBuffer)
      ensures Abs() == Cleared(old(Abs())) && phase == Building
      ensures qdLimit == old(qdLimit) && testerVersion == old(testerVersion)
      ensures sentQueue == old(sentQueue) && sentImage == old(sentImage) && sentEhs == old(sentEhs)
    {
      hide PackageOk, Delivered, IndexOf, ParsedKeys, BufferManager.Fresh, SameCounts, CycleTracker.Valid;
      ClearedIsOk(Abs());
      NothingCounted();
      mgr.ResetModule();
      ResetGlobals();
      tracker.Reset();
      phase := Building;
    }

    /** The package globals clear() resets; the tag counters run on. */
    method ResetGlobals()
      modifies `cmdList, `totalPayloadIn512B, `totalEhsIn96B, `rwManualMode, `activeTaskMgmt, `hasReadBuffer, `hasHpb,
               `isCmdSent, `packagePatternMode
      ensures Abs() == Cleared(old(Abs()))
    {
      cmdList := [];
      totalPayloadIn512B := 0;
      totalEhsIn96B := 0;
      rwManualMode := None;
      activeTaskMgmt := false;
      hasReadBuffer := false;
      hasHpb := false;
      isCmdSent := false;
      packagePatternMode := None;
    }

    method CheckSend(readHwCompare: bool) returns (error: Option<Error>)
      ensures error == SendCheck(Abs(), readHwCompare)
    {
      if isCmdSent { return Some(CmdListNotClear); }
      if rwManualMode == Some(true) && readHwCompare { return Some(HwCmpWithManualMode); }
      if hasHpb && readHwCompare { return Some(HwCmpWithHpbRead); }
      if hasReadBuffer && readHwCompare { return Some(HwCmpWithReadBuffer); }
      return None;
    }

    /** Mark the package sent and lay it out. Until the request is built it counts as stuck. */
    method LayOutPackage() returns (error: Option<Error>)
      requires Valid() && !isCmdSent
      modifies `isCmdSent, `cmdList, `phase, mgr, mgr.buffer, mgr.ehsBuffer
      ensures Valid() && phase == Stuck && mgr.buffer == old(mgr.buffer) && mgr.ehsBuffer == old(mgr.ehsBuffer)
      ensures Abs() == Submit(old(Abs()), qdLimit).0
      ensures var cmds := Commands(old(cmdList));
        var m := FirstFailure(cmds, 0);
        && error == (if m < |cmds| then PushErrorAt(cmds, m) else None)
        && cmdList == StoredBack(old(cmdList), m)
        && DataFits(cmds) && LaidOut(mgr.buffer[..], mgr.ehsBuffer[..], cmds, m)
        && mgr.entryPtr == EntryOffset(m) && mgr.dataPtr == DataStart(cmds, m) && mgr.ehsPtr == EhsStart(cmds, m)
    {
      hide PackageOk, CeilDiv, DataBegin, DataStart, EhsStart, StoredBack, PushErrorAt, LaidOut, EntryOffset,
           SameCounts, DataFits, BufferManager.Fresh, IndexOf, ParsedKeys, CycleTracker.Valid, FirstFailure;
      ghost var s0 := Abs();
      isCmdSent := true;
      phase := Stuck;
      SentKeepsPackageOk(s0);
      SubmitKeepsPackageOk(s0, qdLimit);
      error := PushAll();
      SameCountsStoredBack(tracker.history, s0.queue, FirstFailure(Commands(s0.queue), 0));
    }

    /** send from the sanity checks up to the tester call: the layout and the request. */
    method SubmitPackage(qd: int, readHwCompare: bool, skipResponseCheck: bool, recordTimestamp: bool, recordResponse: bool,
                         initialOption: set<nat>)
      returns (r: Result<SendCmdSeq>)
      requires Valid() && !isCmdSent
      modifies `isCmdSent, `cmdList, `phase, `sentQueue, `sentImage, `sentEhs, mgr, mgr.buffer, mgr.ehsBuffer
      ensures Valid() && mgr.buffer == old(mgr.buffer) && mgr.ehsBuffer == old(mgr.ehsBuffer)
      ensures Abs() == Submit(old(Abs()), qdLimit).0
      ensures match Submit(old(Abs()), qdLimit).1
              case Some(e) => r == Err(e) && phase == Stuck
              case None =>
                && phase == Submitted && sentQueue == old(cmdList)
                && mgr.buffer[..] == sentImage && mgr.ehsBuffer[..] == sentEhs
                && r == Ok(Request(old(Abs()), qd, qdLimit, readHwCompare, skipResponseCheck, recordTimestamp,
                                   recordResponse, initialOption))
    {
      hide PackageOk, CeilDiv, DataBegin, DataStart, EhsStart, StoredBack, PushErrorAt, LaidOut, EntryOffset, OptionBits,
           SameCounts, DataFits, BufferManager.Fresh, IndexOf, ParsedKeys, Request, CycleTracker.Valid, FirstFailure, Tracks;
      ghost var s0 := Abs();
      var error := LayOutPackage();
      if error.Some? {
        return Err(error.value);
      }
      PointersAligned(Commands(s0.queue), |s0.queue|);
      r := BuildCmdSeqBuf(qd, readHwCompare, skipResponseCheck, recordTimestamp, recordResponse, initialOption);
      if r.Err? {
        return;
      }
      RequestIs(s0, Abs(), qd, qdLimit, readHwCompare, skipResponseCheck, recordTimestamp, recordResponse, initialOption);
      sentQueue, sentImage, sentEhs := s0.queue, mgr.buffer[..], mgr.ehsBuffer[..];
      phase := Submitted;
    }

    /** After a submission: clear, or take over the returned buffers, or raise. */
    method HandleReply(clearOnSuccess: bool, reply: Reply) returns (r: Result<()>)
      requires Valid() && phase == Submitted && mgr.ehsBuffer[..] == sentEhs
      modifies this, mgr, tracker
      ensures Valid() && qdLimit == old(qdLimit) && testerVersion == old(testerVersion)
      ensures sentQueue == old(sentQueue) && sentImage == old(sentImage) && sentEhs == old(sentEhs)
      ensures (mgr.buffer == old(mgr.buffer) || fresh(mgr.buffer)) && (mgr.ehsBuffer == old(mgr.ehsBuffer) || fresh(mgr.ehsBuffer))
      ensures reply.Completed? && clearOnSuccess ==> Abs() == Cleared(old(Abs())) && r == Ok(())
      ensures !(reply.Completed? && clearOnSuccess) ==> Abs() == old(Abs()) && r == AfterReply(reply, |cmdList|)
      ensures Parses(reply, clearOnSuccess) ==>
        && phase == Answered && mgr.buffer[..] == reply.info
        && mgr.ehsBuffer[..] == if totalEhsIn96B > 0 then reply.ehs else sentEhs
    {
      hide PackageOk, Delivered, BufferManager.Fresh, IndexOf, ParsedKeys, ParseError, Tracks;
      match reply {
        case Completed(info, ehs) =>
          if clearOnSuccess {
            Clear();
            return Ok(());
          }
          var error := GetBuffersAndSetToBufMngr(info, ehs);
          phase := Answered;
          return if error.Some? then Err(error.value) else Ok(());
        case Failed(parse, info, ehs) =>
          if parse {
            var error := GetBuffersAndSetToBufMngr(info, ehs);
            phase := Answered;
            if error.Some? {
              return Err(error.value);
            }
          }
          return Err(Error.DllError);
      }
    }

    /**
     * Check, lay out, submit, and deal with what the tester returns. The package handed over is
     * the image of the list; `request` is the object passed with it.
     */
    method Send(qd: int, clearOnSuccess: bool, readHwCompare: bool, skipResponseCheck: bool, recordTimestamp: bool,
                recordResponse: bool, initialOption: set<nat>, reply: Reply)
      returns (r: Result<()>, request: Option<SendCmdSeq>)
      requires Valid()
      modifies this, mgr, mgr.buffer, mgr.ehsBuffer, tracker
      ensures Valid() && qdLimit == old(qdLimit) && testerVersion == old(testerVersion)
      ensures (mgr.buffer == old(mgr.buffer) || fresh(mgr.buffer)) && (mgr.ehsBuffer == old(mgr.ehsBuffer) || fresh(mgr.ehsBuffer))
      ensures (Abs(), r) == Package.Send(old(Abs()), readHwCompare, clearOnSuccess, qdLimit, reply)
      ensures request.Some? <==> SendCheck(old(Abs()), readHwCompare).None? && Submit(old(Abs()), qdLimit).1.None?
      ensures request.Some? ==>
        && request.value == Request(old(Abs()), qd, qdLimit, readHwCompare, skipResponseCheck, recordTimestamp, recordResponse,
                                    initialOption)
        && sentQueue == old(cmdList) && DataFits(Commands(sentQueue))
        && LaidOut(sentImage, sentEhs, Commands(sentQueue), |sentQueue|)
      ensures request.Some? && Parses(reply, clearOnSuccess) ==>
        && phase == Answered && mgr.buffer[..] == reply.info
        && mgr.ehsBuffer[..] == if totalEhsIn96B > 0 then reply.ehs else sentEhs
    {
      hide PackageOk, BufferManager.Fresh, IndexOf, ParsedKeys, ParseError, Tracks, SendCheck, Submit, LaidOut, DataFits,
           StoredBack, Request, FirstFailure;
      ghost var s0 := Abs();
      var error := CheckSend(readHwCompare);
      if error.Some? {
        return Err(error.value), None;
      }
      CheckedIsUnsent(s0, readHwCompare);
      var submitted := SubmitPackage(qd, readHwCompare, skipResponseCheck, recordTimestamp, recordResponse, initialOption);
      if submitted.Err? {
        return Err(submitted.error), None;
      }
      request := Some(submitted.value);
      r := HandleReply(clearOnSuccess, reply);
    }

    // ---------- responses ----------

    method ReadResponse(index: int) returns (r: Result<Response>)
      ensures r == match PyIndex(index, |cmdList|)
                   case None => Err(IndexError)
                   case Some(i) => Lookup(mgr.cycleIndicatorToOffset, mgr.buffer[..], mgr.ehsBuffer[..], cmdList[i])
    {
      hide Identify, Slice;
      var i := if index < 0 then index + |cmdList| else index;
      if i < 0 || i >= |cmdList| { return Err(IndexError); }
      var cmd := cmdList[i];
      var entry := mgr.GetEntry(cmd.indicator);
      if entry.Err? { return Err(entry.error); }
      r := IdentifyResponse(entry.value, cmd.cmd);
    }

    method IdentifyResponse(entry: seq<byte>, cmd: Command) returns (r: Result<Response>)
      ensures r == Identify(entry, cmd, mgr.buffer[..], mgr.ehsBuffer[..])
    {
      var e := entry;
      if |e| < ENTRY_SIZE {
        e := e + Fill(0, ENTRY_SIZE - |e|);
      }
      if e[0] != 0xFF {
        if e[0] != TM_RSP && e[0] != QRY_RSP && e[0] != NOP_IN && e[0] != RSP {
          return Err(UnidentifiedResponse);
        }
        if cmd.Tester? { return Err(AttributeError); }
        var data := mgr.GetPayload(cmd.param.dataAddressOffset, cmd.param.dataLength);
        var ehs := [];
        if cmd.TotalEhsLength() > 0 {
          ehs := mgr.GetEhs(cmd.param.ehsDataAddress, cmd.TotalEhsLength() * 32);
        }
        return Ok(UpiuResponse(e, data, ehs));
      }
      if IsFuncType(e[1]) && e[1] != CMD_UPIU { return Ok(TesterResponse(e)); }
      return Err(UnidentifiedResponse);
    }
  }
}
