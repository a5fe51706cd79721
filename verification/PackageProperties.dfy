/** What holds of every package, over whole runs of enqueue, send and clear. */
module PackageProperties {
  import opened Common
  import opened Bytes
  import opened Layout
  import opened Protocols
  import opened CycleTracker
  import opened Occurrences
  import opened PackageLayout
  import opened ResponseIndex
  import opened Package

  // ---------- runs ----------

  datatype Op =
    | DoEnqueue(cmd: Command, testerVersion: int)
    | DoSend(readHwCompare: bool, clearOnSuccess: bool, qdLimit: Option<int>, reply: Reply)
    | DoClear

  function Step(s: State, op: Op): State {
    match op
    case DoEnqueue(c, version) => Enqueue(s, c, version).0
    case DoSend(compare, clear, qd, reply) => Send(s, compare, clear, qd, reply).0
    case DoClear => Cleared(s)
  }

  function Run(s: State, ops: seq<Op>): State {
    if ops == [] then s else Step(Run(s, ops[..|ops| - 1]), ops[|ops| - 1])
  }

  ghost predicate CommandsWellFormed(ops: seq<Op>) {
    forall i :: 0 <= i < |ops| && ops[i].DoEnqueue? ==> WellFormed(ops[i].cmd)
  }

  /** Every reachable state is sound, also after calls that raised. */
  lemma {:induction false} RunKeepsPackageOk(markTag: nat, taskTag: nat, ops: seq<Op>)
    requires CommandsWellFormed(ops)
    ensures PackageOk(Run(Initial(markTag, taskTag), ops))
  {
    hide PackageOk, Enqueue, Send;
    var s0 := Initial(markTag, taskTag);
    if ops == [] {
      ClearedIsOk(s0);
    } else {
      var before, op := ops[..|ops| - 1], ops[|ops| - 1];
      RunKeepsPackageOk(markTag, taskTag, before);
      var s := Run(s0, before);
      match op
      case DoEnqueue(c, version) => EnqueueKeepsPackageOk(s, c, version);
      case DoSend(compare, clear, qd, reply) => SendKeepsPackageOk(s, compare, clear, qd, reply);
      case DoClear => ClearedIsOk(s);
    }
  }

  // ---------- admission is sound ----------

  /** Tester commands carry no EHS; enqueue does not count theirs. */
  ghost predicate NoTesterEhs(cmds: seq<Command>) {
    forall i :: 0 <= i < |cmds| && cmds[i].Tester? ==> cmds[i].Ehs() == []
  }

  /** A package that passed the totals test has room for its data. */
  lemma AdmittedDataFits(s: State)
    requires Accounted(s)
    ensures DataFits(Commands(s.queue)) && s.totalEhs <= 5461
  {
    var cmds := Commands(s.queue);
    DataBeginIsGroups(|cmds| + 1);
    assert cmds[..|cmds|] == cmds;
  }

  /** The totals test implies the test push_cmd makes, entry and data parts, at every push. */
  lemma AdmissionIsSound(s: State, k: nat)
    requires Accounted(s) && k < |s.queue|
    ensures var cmds := Commands(s.queue);
      && EntryHasRoom(EntryOffset(k), Begin(cmds))
      && DataStart(cmds, k) + AlignUp(cmds[k].DataLength(), ALIGN_SIZE_512) <= BUF_SIZE
  {
    hide CeilDiv, DataBegin, EntryOffset, EntryHasRoom;
    var cmds := Commands(s.queue);
    EveryEntryHasRoom(|cmds|, k);
    AdmittedDataFits(s);
    ExtentsInOrder(cmds, k, |cmds|);
  }

  lemma {:induction false} AccountedIsAll(cmds: seq<Command>)
    ensures SumAccountedEhs(cmds) <= SumEhsBlocks(cmds)
    ensures NoTesterEhs(cmds) ==> SumAccountedEhs(cmds) == SumEhsBlocks(cmds)
  {
    if cmds != [] {
      AccountedIsAll(cmds[..|cmds| - 1]);
    }
  }

  /** The EHS test passes at every push exactly if all EHS, tester commands' included, is at most 5461 blocks. */
  lemma EhsRoomExact(cmds: seq<Command>)
    ensures (forall k :: 0 <= k < |cmds| ==> EhsStart(cmds, k) + AlignUp(|cmds[k].Ehs()|, ALIGN_EHS_UNIT) <= EHS_BUF_SIZE)
       <==> SumEhsBlocks(cmds) <= 5461
  {
    hide CeilDiv;
    var n := |cmds|;
    assert cmds[..n] == cmds && cmds[..0] == [];
    if SumEhsBlocks(cmds) <= 5461 {
      forall k | 0 <= k < n
        ensures EhsStart(cmds, k) + AlignUp(|cmds[k].Ehs()|, ALIGN_EHS_UNIT) <= EHS_BUF_SIZE
      {
        SumsStep(cmds, k);
        SumsMonotone(cmds, k + 1, n);
      }
    } else {
      SumsStep(cmds, n - 1);
      assert EhsStart(cmds, n - 1) + AlignUp(|cmds[n - 1].Ehs()|, ALIGN_EHS_UNIT) > EHS_BUF_SIZE;
    }
  }

  /** No push of an admitted package finds the buffers full, if tester commands carry no EHS. */
  lemma AdmittedNeverFull(s: State, k: nat)
    requires Accounted(s) && NoTesterEhs(Commands(s.queue)) && k < |s.queue|
    ensures PushErrorAt(Commands(s.queue), k) != Some(BufIsFull)
  {
    hide EhsStart, AlignUp, Accounted;
    AdmittedDataFits(s);
    AccountedIsAll(Commands(s.queue));
    EhsRoomExact(Commands(s.queue));
    assert s.totalEhs == SumAccountedEhs(Commands(s.queue)) by { AccountedTotals(s); }
  }

  lemma AccountedTotals(s: State)
    requires Accounted(s)
    ensures s.totalPayload == SumBlocks(Commands(s.queue)) && s.totalEhs == SumAccountedEhs(Commands(s.queue))
  {
    hide EarlyCheckIfFull;
  }

  ghost predicate OpsWithoutTesterEhs(ops: seq<Op>) {
    forall i :: 0 <= i < |ops| && ops[i].DoEnqueue? && ops[i].cmd.Tester? ==> ops[i].cmd.Ehs() == []
  }

  lemma EnqueueKeepsNoTesterEhs(s: State, c: Command, testerVersion: int)
    requires NoTesterEhs(Commands(s.queue)) && (c.Tester? ==> c.Ehs() == [])
    ensures NoTesterEhs(Commands(Enqueue(s, c, testerVersion).0.queue))
  {
    hide EarlyCheckIfFull, Blocks, AccountedEhs, NextIndicator, TuneError, TunedParam, TunedTag;
    var was, now := Commands(s.queue), Commands(Enqueue(s, c, testerVersion).0.queue);
    assert |now| == |was| || (|now| == |was| + 1 && (now[|was|].Upiu? || now[|was|] == c));
    assert forall i :: 0 <= i < |was| ==> now[i] == was[i];
  }

  lemma {:induction false} RunKeepsNoTesterEhs(s: State, ops: seq<Op>)
    requires NoTesterEhs(Commands(s.queue)) && OpsWithoutTesterEhs(ops)
    ensures NoTesterEhs(Commands(Run(s, ops).queue))
  {
    hide Enqueue, Send;
    if ops != [] {
      var before, op := ops[..|ops| - 1], ops[|ops| - 1];
      RunKeepsNoTesterEhs(s, before);
      var t := Run(s, before);
      match op
      case DoEnqueue(c, version) => EnqueueKeepsNoTesterEhs(t, c, version);
      case DoSend(compare, clear, qd, reply) => SendKeepsNoTesterEhs(t, compare, clear, qd, reply);
      case DoClear =>
    }
  }

  lemma SubmitKeepsNoTesterEhs(s: State, qd: Option<int>)
    requires NoTesterEhs(Commands(s.queue))
    ensures NoTesterEhs(Commands(Submit(s, qd).0.queue))
  {
    hide FirstFailure, StoredBack, PushErrorAt;
    var m := FirstFailure(Commands(s.queue), 0);
    StoredBackIsAlike(s.queue, m);
    var was, now := Commands(s.queue), Commands(StoredBack(s.queue, m));
    forall i | 0 <= i < |now|
      ensures now[i].Tester? ==> was[i].Tester? && now[i].Ehs() == was[i].Ehs()
    {
      assert Alike(s.queue[i].cmd, StoredBack(s.queue, m)[i].cmd);
    }
  }

  lemma SendKeepsNoTesterEhs(s: State, compare: bool, clear: bool, qd: Option<int>, reply: Reply)
    requires NoTesterEhs(Commands(s.queue))
    ensures NoTesterEhs(Commands(Send(s, compare, clear, qd, reply).0.queue))
  {
    SubmitKeepsNoTesterEhs(s, qd);
    hide Submit, ParseError, SendCheck;
  }

  /**
   * Admission soundness over whole runs: whatever was enqueued, sent, failed and cleared before, a
   * send never finds the buffer full.
   */
  lemma SendNeverFull(markTag: nat, taskTag: nat, ops: seq<Op>, compare: bool, clear: bool, qd: Option<int>, reply: Reply)
    requires CommandsWellFormed(ops) && OpsWithoutTesterEhs(ops)
    ensures Send(Run(Initial(markTag, taskTag), ops), compare, clear, qd, reply).1 != Err(BufIsFull)
  {
    var s := Run(Initial(markTag, taskTag), ops);
    RunKeepsPackageOk(markTag, taskTag, ops);
    RunKeepsNoTesterEhs(Initial(markTag, taskTag), ops);
    var m := FirstFailure(Commands(s.queue), 0);
    if m < |s.queue| {
      hide Run, FirstFailure, PushErrorAt, StoredBack, ParsedKeys;
      AdmittedNeverFull(s, m);
    } else {
      hide Run, FirstFailure, PushErrorAt, StoredBack;
      ParseErrorIsParserError(reply.info, |s.queue|);
    }
  }

  lemma ParseErrorIsParserError(buf: seq<byte>, n: nat)
    ensures ParseError(buf, n) in {None, Some(IndexError), Some(ValueError), Some(TasktagShallNotBeNone)}
  {
    hide EntryOffset, ParsedKeys;
  }

  /** If every command can be composed and holds its payload, laying the package out fails for exactly one reason, too much EHS. */
  lemma SubmitFullExact(s: State, qdLimit: Option<int>)
    requires forall k :: 0 <= k < |s.queue| ==>
      ComposeError(s.queue[k].cmd).None? && |s.queue[k].cmd.data| <= s.queue[k].cmd.DataLength()
    ensures Submit(s, qdLimit).1 == Some(BufIsFull) <==> SumEhsBlocks(Commands(s.queue)) > 5461
  {
    hide EhsStart, AlignUp, ComposeError, StoredBack, SumEhsBlocks;
    var cmds := Commands(s.queue);
    EhsRoomExact(cmds);
    forall k | 0 <= k < |cmds|
      ensures PushErrorAt(cmds, k).None? <==> EhsStart(cmds, k) + AlignUp(|cmds[k].Ehs()|, ALIGN_EHS_UNIT) <= EHS_BUF_SIZE
      ensures PushErrorAt(cmds, k) in {None, Some(BufIsFull)}
    {
    }
  }

  lemma FirstTester(c: Command)
    requires c.Tester? && IsRealKey(c.KeyOf())
    ensures var r := Enqueue(Initial(0, 0), c, 7);
      r.1 == Ok(0) && Commands(r.0.queue) == [c] && SendCheck(r.0, false).None?
  {
    hide NextIndicator;
  }

  lemma OneTesterFull(s: State, c: Command, reply: Reply)
    requires c.Tester? && c.data == [] && EhsBlocks(c) > 5461 && Commands(s.queue) == [c]
    requires SendCheck(s, false).None?
    ensures Send(s, false, true, Some(1), reply).1 == Err(BufIsFull)
  {
    hide FirstFailure, PushErrorAt, StoredBack, EhsBlocks, ParseError;
    assert [c][..0] == [];
    assert SumEhsBlocks([c]) == SumEhsBlocks([]) + EhsBlocks(c);
    assert s.queue[0].cmd == Commands(s.queue)[0];
    SubmitFullExact(s, Some(1));
  }

  /** Admission does not see EHS on tester commands: a package that is admitted and cannot be sent. */
  lemma TesterEhsCanOverflow()
    ensures var c := Tester(1, Fill(0, 70), [], 1, [1] + Fill(0, 32 * 16385 - 1));
      && WellFormed(c)
      && Enqueue(Initial(0, 0), c, 7).1 == Ok(0)
      && Send(Enqueue(Initial(0, 0), c, 7).0, false, true, Some(1), Completed([], [])).1 == Err(BufIsFull)
  {
    hide Send, Enqueue;
    var c := Tester(1, Fill(0, 70), [], 1, [1] + Fill(0, 32 * 16385 - 1));
    FirstTester(c);
    assert |c.Ehs()| == 32 * 16385;
    OneTesterFull(Enqueue(Initial(0, 0), c, 7).0, c, Completed([], []));
  }

  /** The list-full exception, exactly: the totals with the new command in are past capacity. */
  lemma ListFullExact(s: State, c: Command)
    requires Accounted(s)
    ensures Admit(s, c).1 == Err(CmdListIsFull)
       <==> !FitsInTotal(|s.queue| + 1, SumBlocks(Commands(s.queue)) + Blocks(c),
                         SumAccountedEhs(Commands(s.queue)) + AccountedEhs(c))
  {
    hide SumBlocks, SumAccountedEhs, Blocks, AccountedEhs, NextIndicator;
  }

  // ---------- refused numbering ----------

  /** The tracker has no key for the command: a tag outside 0..255 that is not left to the executor, or no tester function. */
  predicate Unnumberable(c: Command) {
    if c.Upiu? then c.taskTag < -1 || c.taskTag > 255 else !IsFuncType(c.functionCode) || c.functionCode == CMD_UPIU
  }

  /** Enqueue gets as far as the list: not sent yet, tuning passed, room by the totals. */
  predicate ReachesList(s: State, c: Command, testerVersion: int) {
    && !s.isSent
    && (c.Upiu? ==> TuneError(c, s, testerVersion).None?)
    && var queued := if c.Upiu? then Tuned(c, s) else c;
       !EarlyCheckIfFull(|s.queue| + 2, s.totalPayload + Blocks(queued), s.totalEhs + AccountedEhs(queued))
  }

  /**
   * An enqueue that raises has lengthened the list exactly if it got as far as the list with a command that
   * cannot be numbered; the command is then the last of the list, with the default indicator.
   */
  lemma RefusedNumberingExact(s: State, c: Command, testerVersion: int)
    ensures var (s', r) := Enqueue(s, c, testerVersion);
      && (r.Err? && |s'.queue| > |s.queue| <==> ReachesList(s, c, testerVersion) && Unnumberable(c))
      && (r.Err? && |s'.queue| > |s.queue| ==>
            && |s'.queue| == |s.queue| + 1 && s'.queue[..|s.queue|] == s.queue
            && s'.queue[|s.queue|].indicator == CycleIndicator(-1, CMD_UPIU, -1)
            && r.error == if c.Upiu? then InvalidTasktagValue else if c.functionCode == 0 then TasktagShallNotBeNone else ValueError)
  {
    hide EarlyCheckIfFull, Blocks, AccountedEhs, TunedParam, TuneError;
    var queued := if c.Upiu? then Tuned(c, s) else c;
    assert queued.KeyOf().NoKey? <==> Unnumberable(c);
  }

  lemma FirstTesterRefused(c: Command)
    requires c.Tester? && Unnumberable(c)
    ensures var r := Enqueue(Initial(0, 0), c, 7); r.1 == Err(NumberingError(c)) && |r.0.queue| == 1
  {
    hide NextIndicator, NumberingError;
  }

  lemma FirstTaskManagementRefused(c: Command)
    requires c.Upiu? && c.kind.TaskManagement? && Unnumberable(c)
    requires c.ehsLength == 0 && c.TotalEhsLength() == 0 && c.param.dataLength == 0
    ensures var r := Enqueue(Initial(0, 0), c, 7); r.1 == Err(InvalidTasktagValue) && |r.0.queue| == 1
  {
    hide NextIndicator;
    assert TuneError(c, Initial(0, 0), 7).None?;
    assert TunedParam(c, 0).dataLength == 0;
    hide TuneError, TunedParam;
  }

  /** The three ways: a tag out of range, a function code without a name, and the code of a UPIU on a tester command. */
  lemma RefusedNumberingWitness(param: Param)
    requires param.dataLength == 0
    ensures var upiu := Upiu(TaskManagement, seq(32, _ => 0), 256, None, param, [], 0, []);
      var r := Enqueue(Initial(0, 0), upiu, 7); r.1 == Err(InvalidTasktagValue) && |r.0.queue| == 1
    ensures var unnamed := Tester(0x0C, Fill(0, 70), [], 0, []);
      var r := Enqueue(Initial(0, 0), unnamed, 7); r.1 == Err(ValueError) && |r.0.queue| == 1
    ensures var zero := Tester(CMD_UPIU, Fill(0, 70), [], 0, []);
      var r := Enqueue(Initial(0, 0), zero, 7); r.1 == Err(TasktagShallNotBeNone) && |r.0.queue| == 1
  {
    hide Enqueue;
    FirstTaskManagementRefused(Upiu(TaskManagement, seq(32, _ => 0), 256, None, param, [], 0, []));
    FirstTesterRefused(Tester(0x0C, Fill(0, 70), [], 0, []));
    FirstTesterRefused(Tester(CMD_UPIU, Fill(0, 70), [], 0, []));
  }

  // ---------- the block counts handed to the tester ----------

  function CmdBlkCnt(cmds: seq<Command>): nat { CeilDiv(EntryOffset(|cmds|), 512) }

  function DataBlkCnt(cmds: seq<Command>): nat {
    if SumBlocks(cmds) == 0 then CmdBlkCnt(cmds) else DataStart(cmds, |cmds|) / 512
  }

  /**
   * The command blocks cover the last entry and stop at or before the data; the data blocks end
   * exactly where the data does.
   */
  lemma BlockCountsCover(cmds: seq<Command>)
    ensures cmds != [] ==> EntryOffset(|cmds| - 1) + ENTRY_SIZE <= 512 * CmdBlkCnt(cmds)
    ensures 512 * CmdBlkCnt(cmds) <= Begin(cmds)
    ensures SumBlocks(cmds) != 0 ==> 512 * DataBlkCnt(cmds) == Begin(cmds) + 512 * SumBlocks(cmds)
  {
    hide EntryOffset, CeilDiv, DataStart, SumBlocks, Begin;
    var n := |cmds|;
    SlotEnds(cmds);
    if n > 0 {
      EntrySlotsDisjoint(n - 1, n);
    }
    PackageEnd(cmds);
    RoundedUpStays(EntryOffset(n), Begin(cmds) / 512);
  }

  lemma SlotEnds(cmds: seq<Command>)
    ensures EntryOffset(|cmds|) <= Begin(cmds)
  {
    hide EntryOffset, DataBegin;
    SlotsBelowData(|cmds|, |cmds|);
  }

  lemma PackageEnd(cmds: seq<Command>)
    ensures Begin(cmds) % 512 == 0 && DataStart(cmds, |cmds|) == Begin(cmds) + 512 * SumBlocks(cmds)
  {
    hide GroupCount, SumBlocks;
    DataBeginIsGroups(|cmds| + 1);
    hide DataBegin;
    assert cmds[..|cmds|] == cmds;
  }

  lemma RoundedUpStays(v: nat, blocks: nat)
    ensures v <= 512 * CeilDiv(v, 512)
    ensures v <= 512 * blocks ==> 512 * CeilDiv(v, 512) <= 512 * blocks
  {
  }

  /** The EHS block count fits the EHS buffer and covers the accounted EHS. */
  lemma EhsBlockCountFits(s: State)
    requires Accounted(s)
    ensures 96 * s.totalEhs <= 512 * CeilDiv(s.totalEhs * 96, 512) <= EHS_BUF_SIZE
  {
    AdmittedDataFits(s);
  }

  // ---------- package uniformity ----------

  /** A send that passes the hardware-compare checks holds nothing the tester cannot compare. */
  lemma HwCompareIsSafe(s: State)
    requires PackageOk(s) && SendCheck(s, true).None?
    ensures !Holds(s.queue, HpbRead) && !Holds(s.queue, ReadBuffer)
    ensures forall i :: 0 <= i < |s.queue| && s.queue[i].cmd.IsReadWrite() ==> !s.queue[i].cmd.param.dataInOut
  {
    hide Accounted, IndicatorsInOrder, CommandsSound, Holds;
  }

  /** Two reads or writes of one package agree in both modes. */
  lemma ReadWritesAgree(markTag: nat, taskTag: nat, ops: seq<Op>, i: nat, j: nat)
    requires CommandsWellFormed(ops)
    requires var q := Run(Initial(markTag, taskTag), ops).queue;
      i < |q| && j < |q| && q[i].cmd.IsReadWrite() && q[j].cmd.IsReadWrite()
    ensures var q := Run(Initial(markTag, taskTag), ops).queue;
      && q[i].cmd.param.dataInOut == q[j].cmd.param.dataInOut
      && q[i].cmd.param.patternMode == q[j].cmd.param.patternMode
  {
    RunKeepsPackageOk(markTag, taskTag, ops);
    hide Run, Accounted, IndicatorsInOrder, CommandsSound, Holds;
  }

  /** send's option bits, as a set of bit numbers. */
  function OptionBits(initial: set<nat>, s: State, readHwCompare: bool, skipResponseCheck: bool, recordTimestamp: bool,
                      recordResponse: bool): set<nat>
  {
    var o1 := if recordTimestamp then initial + {0} else initial;
    var o2 := if recordResponse then o1 + {1} else o1;
    var o3 := if s.activeTaskMgmt then o2 + {3} else o2;
    var o4 := if skipResponseCheck then o3 + {6} else o3;
    var o5 := if s.rwManual == Some(true) then (o4 + {2}) - {4} else o4;
    if readHwCompare then (o5 - {2}) + {4} - {7} else o5
  }

  /** Manual mode and hardware compare are never both requested, and each is requested when it should be. */
  lemma OptionBitsExclusive(initial: set<nat>, s: State, compare: bool, skip: bool, timestamp: bool, response: bool)
    requires SendCheck(s, compare).None? && 2 !in initial && 4 !in initial
    ensures var o := OptionBits(initial, s, compare, skip, timestamp, response);
      && !(2 in o && 4 in o)
      && (4 in o <==> compare)
      && (2 in o <==> s.rwManual == Some(true))
      && (3 in o <==> s.activeTaskMgmt || 3 in initial)
  {
  }

  /** len is the least multiple of 512 that holds n bytes. */
  predicate RoundedTo512(len: nat, n: nat) {
    len % 512 == 0 && n <= len < n + 512
  }

  /**
   * The data length a tuned command asks room for: none for an automatic read or write, exactly the expected
   * length for a manual one, the expected length rounded up for other SCSI commands and descriptors.
   */
  lemma TunedLengths(c: Command, s: State, testerVersion: int)
    requires c.Upiu? && TuneError(c, s, testerVersion).None?
    ensures var r := Tuned(c, s);
      var rw := c.kind.Write? || c.kind.Read? || c.kind.HpbRead?;
      && (rw && !c.param.dataInOut ==> r.DataLength() == 0 && Blocks(r) == 0)
      && (rw && c.param.dataInOut ==> r.DataLength() == c.ExpectedDataLength() == 512 * Blocks(r) && !r.param.addTag)
      && (c.kind.ReadBuffer? || c.kind.OtherScsi? ==> RoundedTo512(r.DataLength(), c.ExpectedDataLength()) && !r.param.addTag)
      && (c.kind.Descriptor? ==> RoundedTo512(r.DataLength(), c.DescriptorLength()))
      && (c.kind.TaskManagement? || c.kind.OtherUpiu? ==> r.DataLength() == c.DataLength())
      && (r.kind.Read? && r.param.crcCompare ==> !r.param.addTag)
  {
    hide ModeError, CeilDiv, FromBytes;
    AlignUpIsLeastMultiple(c.ExpectedDataLength());
    AlignUpIsLeastMultiple(c.DescriptorLength());
    AlignUpIsLeastMultiple(0);
    AlignedStays(c.ExpectedDataLength());
  }

  lemma {:induction false} AlignedStays(n: nat)
    ensures n % 4096 == 0 ==> AlignUp(n, 512) == n
  {
  }

  // ---------- numbering ----------

  /** The cycle of a queued command is the number of earlier ones with its tag or function. */
  lemma CycleCountsEarlier(s: State, i: nat)
    requires PackageOk(s) && i < |s.queue| && IsRealKey(s.queue[i].cmd.KeyOf())
    ensures s.queue[i].indicator.cycle == |EarlierEqual(Keys(s.queue), i)|
  {
    hide Accounted, Uniform, FlagsExact, CommandsSound;
    var keys := Keys(s.queue);
    OccurrenceCountsEarlierEqual(keys, i);
    assert s.queue[i].indicator == IndicatorAt(keys, i);
    assert keys[i] == s.queue[i].cmd.KeyOf();
  }

  function EnqueueAll(s: State, cs: seq<Command>, version: int): State {
    if cs == [] then s else Enqueue(EnqueueAll(s, cs[..|cs| - 1], version), cs[|cs| - 1], version).0
  }

  ghost predicate AllReturned(s: State, cs: seq<Command>, version: int) {
    forall i :: 0 <= i < |cs| ==> Enqueue(EnqueueAll(s, cs[..i], version), cs[i], version).1.Ok?
  }

  function UpiuCount(keys: seq<Key>): nat {
    if keys == [] then 0 else UpiuCount(keys[..|keys| - 1]) + if keys[|keys| - 1].UpiuKey? then 1 else 0
  }

  /** The UPIU keys run through the tags after t in order, with tester keys anywhere between. */
  ghost predicate TagsFrom(t: nat, keys: seq<Key>) {
    forall i :: 0 <= i < |keys| && keys[i].UpiuKey? ==> keys[i].tag == (t + 1 + UpiuCount(keys[..i])) % 256
  }

  lemma ReturnedEnqueueAppends(s: State, c: Command, version: int)
    requires Enqueue(s, c, version).1.Ok? && (c.Upiu? ==> c.taskTag == -1)
    ensures var r := Enqueue(s, c, version).0;
      && |r.queue| == |s.queue| + 1
      && r.taskTag == s.taskTag + (if c.Upiu? then 1 else 0)
      && Keys(r.queue)[..|s.queue|] == Keys(s.queue)
      && Keys(r.queue)[|s.queue|].UpiuKey? == c.Upiu?
      && (c.Upiu? ==> Keys(r.queue)[|s.queue|] == UpiuKey((s.taskTag + 1) % 256))
  {
    hide EarlyCheckIfFull, Blocks, AccountedEhs, NextIndicator, TunedParam, TuneError;
  }

  lemma AllReturnedPrefix(s: State, cs: seq<Command>, version: int)
    requires cs != [] && AllReturned(s, cs, version)
    ensures AllReturned(s, cs[..|cs| - 1], version)
    ensures Enqueue(EnqueueAll(s, cs[..|cs| - 1], version), cs[|cs| - 1], version).1.Ok?
  {
    hide Enqueue, EnqueueAll;
    var n := |cs| - 1;
    forall i | 0 <= i < n
      ensures Enqueue(EnqueueAll(s, cs[..n][..i], version), cs[..n][i], version).1.Ok?
    {
      assert cs[..n][..i] == cs[..i];
    }
  }

  /** Each key is a UPIU key exactly where the command is a UPIU. */
  ghost predicate KindsMatch(keys: seq<Key>, cs: seq<Command>) {
    |keys| == |cs| && forall i :: 0 <= i < |cs| ==> keys[i].UpiuKey? == cs[i].Upiu?
  }

  lemma {:induction false} KindsMatchAppend(before: seq<Key>, keys: seq<Key>, cs: seq<Command>)
    requires cs != [] && |keys| == |cs| && keys[..|cs| - 1] == before && KindsMatch(before, cs[..|cs| - 1])
    requires keys[|cs| - 1].UpiuKey? == cs[|cs| - 1].Upiu?
    ensures KindsMatch(keys, cs)
    ensures UpiuCount(keys) == UpiuCount(before) + if cs[|cs| - 1].Upiu? then 1 else 0
  {
    forall i | 0 <= i < |cs| - 1
      ensures keys[i] == before[i] && cs[..|cs| - 1][i] == cs[i]
    {
    }
  }

  /** Auto-tagged packages: the i-th UPIU gets tag (t + 1 + i) mod 256, whatever tester commands are between. */
  lemma {:induction false} AutoTags(s: State, cs: seq<Command>, version: int)
    requires s.queue == [] && AllReturned(s, cs, version)
    requires forall i :: 0 <= i < |cs| && cs[i].Upiu? ==> cs[i].taskTag == -1
    ensures var r := EnqueueAll(s, cs, version);
      && KindsMatch(Keys(r.queue), cs) && TagsFrom(s.taskTag, Keys(r.queue))
      && r.taskTag == s.taskTag + UpiuCount(Keys(r.queue))
  {
    hide Enqueue, AllReturned;
    if cs != [] {
      var n := |cs| - 1;
      AllReturnedPrefix(s, cs, version);
      AutoTags(s, cs[..n], version);
      var before, after := EnqueueAll(s, cs[..n], version), EnqueueAll(s, cs, version);
      ReturnedEnqueueAppends(before, cs[n], version);
      hide EnqueueAll, TagsFrom, UpiuCount;
      KindsMatchAppend(Keys(before.queue), Keys(after.queue), cs);
      TagsFromAppend(s.taskTag, Keys(before.queue), Keys(after.queue));
    }
  }

  lemma {:induction false} TagsFromAppend(t: nat, before: seq<Key>, keys: seq<Key>)
    requires |keys| == |before| + 1 && keys[..|before|] == before && TagsFrom(t, before)
    requires keys[|before|].UpiuKey? ==> keys[|before|].tag == (t + 1 + UpiuCount(before)) % 256
    ensures TagsFrom(t, keys)
  {
    forall i | 0 <= i < |before|
      ensures keys[..i] == before[..i] && keys[i] == before[i]
    {
    }
  }

  /** How many of m consecutive tags after t equal g. */
  function TagUses(t: nat, m: nat, g: byte): nat {
    (m + 255 - (g - t - 1) % 256) / 256
  }

  lemma TagUsesStep(t: nat, m: nat, g: byte)
    ensures TagUses(t, m + 1, g) == TagUses(t, m, g) + if (t + 1 + m) % 256 == g then 1 else 0
  {
    var d := (g - t - 1) % 256;
    assert (t + 1 + m) % 256 == g <==> m % 256 == d by {
      TagMatches(t, m, g);
    }
    var q, e := m / 256, m % 256;
    assert m == 256 * q + e;
    if e == d {
      assert m + 1 + 255 - d == 256 * (q + 1);
    } else if e > d {
      assert (m + 255 - d) / 256 == q + 1 && (m + 256 - d) / 256 == q + 1;
    } else {
      assert (m + 255 - d) / 256 == q && (m + 256 - d) / 256 == q;
    }
  }

  lemma TagMatches(t: nat, m: nat, g: byte)
    ensures (t + 1 + m) % 256 == g <==> m % 256 == (g - t - 1) % 256
  {
    var x := t + 1 + m - g;
    assert (t + 1 + m) % 256 == g <==> x % 256 == 0;
    var y := m - (g - t - 1);
    assert x == y;
    assert m % 256 == (g - t - 1) % 256 <==> y % 256 == 0;
  }

  lemma CountLast(keys: seq<Key>, k: Key)
    requires keys != []
    ensures Count(keys, k) == Count(keys[..|keys| - 1], k) + if keys[|keys| - 1] == k then 1 else 0
  {
  }

  lemma {:induction false} CountOfTag(t: nat, keys: seq<Key>, g: byte)
    requires TagsFrom(t, keys)
    ensures Count(keys, UpiuKey(g)) == TagUses(t, UpiuCount(keys), g)
  {
    hide TagUses, TagsFrom, Count;
    if keys == [] {
      assert Count(keys, UpiuKey(g)) == 0 by { NothingToCount(g); }
      assert TagUses(t, 0, g) == 0 by { NoTagUses(t, g); }
    } else {
      var n := |keys| - 1;
      TagsFromPrefix(t, keys, n);
      CountLast(keys, UpiuKey(g));
      CountOfTag(t, keys[..n], g);
      TagUsesStep(t, UpiuCount(keys[..n]), g);
    }
  }

  lemma NothingToCount(g: byte)
    ensures Count([], UpiuKey(g)) == 0
  {
  }

  lemma NoTagUses(t: nat, g: byte)
    ensures TagUses(t, 0, g) == 0
  {
  }

  lemma {:induction false} EnqueueAllKeepsPackageOk(s: State, cs: seq<Command>, version: int)
    requires PackageOk(s) && forall j :: 0 <= j < |cs| ==> WellFormed(cs[j])
    ensures PackageOk(EnqueueAll(s, cs, version))
  {
    hide PackageOk, Enqueue;
    if cs != [] {
      EnqueueAllKeepsPackageOk(s, cs[..|cs| - 1], version);
      EnqueueKeepsPackageOk(EnqueueAll(s, cs[..|cs| - 1], version), cs[|cs| - 1], version);
    }
  }

  lemma TagCycle(t: nat, queue: seq<Queued>, i: nat)
    requires TagsFrom(t, Keys(queue)) && IndicatorsInOrder(queue) && i < |queue| && Keys(queue)[i].UpiuKey?
    ensures var rank := UpiuCount(Keys(queue)[..i]);
      && Keys(queue)[i] == UpiuKey((t + 1 + rank) % 256)
      && queue[i].indicator == CycleIndicator(rank / 256, CMD_UPIU, (t + 1 + rank) % 256)
  {
    hide TagUses, TagsFrom, UpiuCount, Count;
    var before := Keys(queue)[..i];
    TagsFromPrefix(t, Keys(queue), i);
    CountOfTag(t, before, Keys(queue)[i].tag);
    TagUsesOfOwn(t, UpiuCount(before));
  }

  lemma TagsFromPrefix(t: nat, keys: seq<Key>, i: nat)
    requires TagsFrom(t, keys) && i < |keys|
    ensures TagsFrom(t, keys[..i])
    ensures keys[i].UpiuKey? ==> keys[i].tag == (t + 1 + UpiuCount(keys[..i])) % 256
  {
    hide UpiuCount;
    forall j | 0 <= j < i
      ensures keys[..i][..j] == keys[..j]
    {
    }
  }

  /** ... and cycle i / 256. */
  lemma AutoCycles(s: State, cs: seq<Command>, version: int, i: nat)
    requires s.queue == [] && PackageOk(s) && AllReturned(s, cs, version)
    requires forall j :: 0 <= j < |cs| ==> WellFormed(cs[j]) && (cs[j].Upiu? ==> cs[j].taskTag == -1)
    requires i < |cs| && cs[i].Upiu?
    ensures var q := EnqueueAll(s, cs, version).queue;
      && |q| == |cs|
      && var rank := UpiuCount(Keys(q)[..i]);
         && Keys(q)[i] == UpiuKey((s.taskTag + 1 + rank) % 256)
         && q[i].indicator == CycleIndicator(rank / 256, CMD_UPIU, (s.taskTag + 1 + rank) % 256)
  {
    hide EnqueueAll, AllReturned, TagsFrom, IndicatorsInOrder, Accounted, Uniform, FlagsExact, CommandsSound;
    AutoTags(s, cs, version);
    EnqueueAllKeepsPackageOk(s, cs, version);
    TagCycle(s.taskTag, EnqueueAll(s, cs, version).queue, i);
  }

  lemma TagUsesOfOwn(t: nat, m: nat)
    ensures TagUses(t, m, (t + 1 + m) % 256) == m / 256
  {
    var g := (t + 1 + m) % 256;
    TagMatches(t, m, g);
    var q, e := m / 256, m % 256;
    assert m == 256 * q + e;
    assert m + 255 - e == 256 * q + 255;
  }
}
