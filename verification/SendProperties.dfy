/** When send returns, what it raises, what it asks of the tester, and what it leaves behind. */
module SendProperties {
  import opened Common
  import opened Layout
  import opened Protocols
  import opened PackageLayout
  import opened ResponseIndex
  import opened Package
  import opened PackageProperties
  import opened Executor

  // ---------- before the package is laid out ----------

  /** The four checks, each with its own condition and the ones made before it. */
  lemma SendCheckExact(s: State, compare: bool)
    ensures var e := SendCheck(s, compare);
      var manual := s.rwManual == Some(true);
      && (e == Some(CmdListNotClear) <==> s.isSent)
      && (e == Some(HwCmpWithManualMode) <==> !s.isSent && compare && manual)
      && (e == Some(HwCmpWithHpbRead) <==> !s.isSent && compare && !manual && s.hasHpb)
      && (e == Some(HwCmpWithReadBuffer) <==> !s.isSent && compare && !manual && !s.hasHpb && s.hasReadBuffer)
      && (e == None <==> !s.isSent && (compare ==> !manual && !s.hasHpb && !s.hasReadBuffer))
  {
  }

  /** In a sound package: a comparing send is let through exactly if nothing queued rules comparing out. */
  lemma CompareAllowedExact(s: State)
    requires PackageOk(s) && !s.isSent && s.rwManual != Some(true)
    ensures SendCheck(s, true).None? <==> !Holds(s.queue, HpbRead) && !Holds(s.queue, ReadBuffer)
  {
    hide Accounted, IndicatorsInOrder, Uniform, CommandsSound, Holds;
  }

  // ---------- the layout ----------

  /** Laying out succeeds exactly if every command composes and holds its payload, all EHS fits, and a limit is set. */
  lemma SubmitSucceedsExact(s: State, qdLimit: Option<int>)
    ensures Submit(s, qdLimit).1.None? <==>
      && (forall k :: 0 <= k < |s.queue| ==>
            ComposeError(s.queue[k].cmd).None? && |s.queue[k].cmd.data| <= s.queue[k].cmd.DataLength())
      && SumEhsBlocks(Commands(s.queue)) <= 5461
      && qdLimit.Some?
  {
    hide EhsStart, AlignUp, ComposeError, StoredBack, SumEhsBlocks, EhsBlocks;
    var cmds := Commands(s.queue);
    EhsRoomExact(cmds);
    forall k | 0 <= k < |cmds|
      ensures PushErrorAt(cmds, k).None? <==>
        && ComposeError(cmds[k]).None? && |cmds[k].data| <= cmds[k].DataLength()
        && EhsStart(cmds, k) + AlignUp(|cmds[k].Ehs()|, ALIGN_EHS_UNIT) <= EHS_BUF_SIZE
    {
    }
    assert forall k :: 0 <= k < |cmds| ==> cmds[k] == s.queue[k].cmd;
    hide PushErrorAt;
  }

  /** Once the checks are passed the package counts as sent, whatever happens then, and only the stored offsets change in the list. */
  lemma SubmitLeaves(s: State, qdLimit: Option<int>)
    ensures var s' := Submit(s, qdLimit).0;
      && s'.isSent && AlikeQueues(s.queue, s'.queue)
      && s' == s.(isSent := true, queue := s'.queue)
  {
    hide PushErrorAt;
    StoredBackIsAlike(s.queue, FirstFailure(Commands(s.queue), 0));
  }

  // ---------- the outcome ----------

  /** A package as it is after clearing: empty, unsent, without modes or flags, the tag counters as they were. */
  lemma ClearedExact(s: State)
    ensures var r := Cleared(s);
      && r.queue == [] && r.totalPayload == 0 && r.totalEhs == 0
      && r.rwManual == None && r.pattern == None
      && !r.activeTaskMgmt && !r.hasHpb && !r.hasReadBuffer && !r.isSent
      && r.markTag == s.markTag && r.taskTag == s.taskTag
  {
  }

  /**
   * A send returns exactly if its checks pass, the package can be laid out, the tester succeeds, and the reply is
   * not looked at or can be parsed. It then leaves a cleared package, or the sent one if told not to clear.
   */
  lemma SendReturnsExact(s: State, compare: bool, clear: bool, qdLimit: Option<int>, reply: Reply)
    ensures var (s', r) := Send(s, compare, clear, qdLimit, reply);
      && (r.Ok? <==>
            && SendCheck(s, compare).None? && Submit(s, qdLimit).1.None? && reply.Completed?
            && (clear || ParseError(reply.info, |s.queue|).None?))
      && (r.Ok? ==> s' == if clear then Cleared(s) else Submit(s, qdLimit).0)
      && (SendCheck(s, compare).Some? ==> s' == s)
      && (r.Err? && SendCheck(s, compare).None? ==> s' == Submit(s, qdLimit).0)
  {
    hide PushErrorAt, ParseError, FirstFailure, StoredBack;
  }

  /** The returned buffers are indexed after a success that keeps the package, and after a failure of the kinds that say so. */
  lemma ParsesExact(reply: Reply, clear: bool)
    ensures Parses(reply, clear) <==> (reply.Completed? && !clear) || (reply.Failed? && reply.parse)
  {
  }

  /** What a failing send raises: the first of check, layout, parse error of a reply that is parsed, and the tester's own error. */
  lemma SendRaisesExact(s: State, compare: bool, clear: bool, qdLimit: Option<int>, reply: Reply)
    requires Send(s, compare, clear, qdLimit, reply).1.Err?
    ensures var e := Send(s, compare, clear, qdLimit, reply).1.error;
      var check, layout, parse := SendCheck(s, compare), Submit(s, qdLimit).1, ParseError(reply.info, |s.queue|);
      && (check.Some? ==> e == check.value)
      && (check.None? && layout.Some? ==> e == layout.value)
      && (check.None? && layout.None? && reply.Completed? ==> parse == Some(e))
      && (check.None? && layout.None? && reply.Failed? && reply.parse && parse.Some? ==> e == parse.value)
      && (check.None? && layout.None? && reply.Failed? && (!reply.parse || parse.None?) ==> e == Error.DllError)
  {
    hide PushErrorAt, ParseError, FirstFailure, StoredBack, SendCheck;
  }

  // ---------- the request ----------

  /** Every option bit, for any initial value: which request sets it, which clears it, and that no other bit changes. */
  lemma OptionBitsExact(initial: set<nat>, s: State, compare: bool, skip: bool, timestamp: bool, response: bool, bit: nat)
    ensures var manual := s.rwManual == Some(true);
      bit in OptionBits(initial, s, compare, skip, timestamp, response) <==>
        match bit
        case 0 => timestamp || 0 in initial
        case 1 => response || 1 in initial
        case 2 => !compare && (manual || 2 in initial)
        case 3 => s.activeTaskMgmt || 3 in initial
        case 4 => compare || (!manual && 4 in initial)
        case 6 => skip || 6 in initial
        case 7 => !compare && 7 in initial
        case _ => bit in initial
  {
  }

  /** The queue depth asked for, or the limit; the blocks of entries and of entries with data. */
  lemma RequestExact(s: State, qd: int, limit: int, compare: bool, skip: bool, timestamp: bool, response: bool, initial: set<nat>)
    ensures var r := Request(s, qd, Some(limit), compare, skip, timestamp, response, initial);
      var cmds := Commands(s.queue);
      && r.qd == (if qd == -1 then limit else qd)
      && r.option == OptionBits(initial, s, compare, skip, timestamp, response)
      && 512 * (r.cmdBlkCnt - 1) < EntryOffset(|cmds|) <= 512 * r.cmdBlkCnt
      && (if SumBlocks(cmds) == 0 then r.dataBlkCnt == r.cmdBlkCnt else 512 * r.dataBlkCnt == Begin(cmds) + 512 * SumBlocks(cmds))
  {
    hide EntryOffset, SumBlocks, Begin, OptionBits;
    BlockCountsCover(Commands(s.queue));
    CeilBounds(EntryOffset(|s.queue|));
  }

  lemma CeilBounds(v: nat)
    ensures 512 * (CeilDiv(v, 512) - 1) < v <= 512 * CeilDiv(v, 512)
  {
  }
}
