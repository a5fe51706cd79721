/**
 * The command package as a state machine on values: enqueue, send and clear as functions, the
 * invariant every reachable package keeps, and what follows from it. The Executor class is proved
 * to take exactly these steps.
 */
module Package {
  import opened Common
  import opened Bytes
  import opened Layout
  import opened Protocols
  import opened CycleTracker
  import opened Occurrences
  import opened PackageLayout
  import opened ResponseIndex

  /** A command in _cmd_list with the cycle indicator attached to it. */
  datatype Queued = Queued(cmd: Command, indicator: CycleIndicator)

  datatype State = State(
    queue: seq<Queued>,
    totalPayload: nat,
    totalEhs: nat,
    markTag: nat,
    taskTag: nat,
    rwManual: Option<bool>,
    pattern: Option<PatternMode>,
    activeTaskMgmt: bool,
    hasHpb: bool,
    hasReadBuffer: bool,
    isSent: bool)

  function Commands(queue: seq<Queued>): (cmds: seq<Command>)
    ensures |cmds| == |queue|
  {
    seq(|queue|, i requires 0 <= i < |queue| => queue[i].cmd)
  }

  function Keys(queue: seq<Queued>): (keys: seq<Key>)
    ensures |keys| == |queue|
  {
    seq(|queue|, i requires 0 <= i < |queue| => queue[i].cmd.KeyOf())
  }

  // ---------- _auto_tune_param ----------

  function TunedTag(c: Command, taskTag: nat): int
    requires c.Upiu?
  {
    if c.taskTag == -1 then (taskTag + 1) % 256 else c.taskTag
  }

  function NextTaskTag(c: Command, taskTag: nat): nat
    requires c.Upiu?
  {
    if c.taskTag == -1 then taskTag + 1 else taskTag
  }

  predicate TakesMarkTag(c: Command) {
    c.Upiu? && c.kind.Write? && !c.param.dataInOut && c.specificTag.None?
  }

  /** A manual read or write whose expected length is not a multiple of 4 KiB. */
  predicate ManualMisaligned(c: Command) {
    c.Upiu? && (c.kind.Write? || c.kind.Read? || c.kind.HpbRead?) && c.param.dataInOut && c.ExpectedDataLength() % 4096 != 0
  }

  function TunedParam(c: Command, markTag: nat): (p: Param)
    requires c.Upiu?
    ensures p.dataInOut == c.param.dataInOut && p.patternMode == c.param.patternMode
  {
    var p := c.param;
    var p1 :=
      if (c.kind.Write? || c.kind.Read? || c.kind.HpbRead?) && !p.dataInOut then
        if c.kind.Write? then
          p.(crcCompare := false, dataLength := 0,
             markTagOrCrc32 := if c.specificTag.None? then (markTag + 1) % 0x1_0000_0000 else c.specificTag.value)
        else p.(dataLength := 0)
      else if c.kind.Write? || c.kind.Read? || c.kind.HpbRead? || c.kind.ReadBuffer? || c.kind.OtherScsi? then
        p.(addTag := false, dataLength := AlignUp(c.ExpectedDataLength(), ALIGN_SIZE_512))
      else if c.kind.Descriptor? then
        p.(dataLength := AlignUp(c.DescriptorLength(), ALIGN_SIZE_512))
      else p;
    if c.kind.Read? && p.crcCompare then p1.(addTag := false) else p1
  }

  /** The command after tuning; the caller's own object is not touched. */
  function Tuned(c: Command, s: State): (r: Command)
    requires c.Upiu?
    ensures r.Upiu? && r.kind == c.kind && r.Ehs() == c.Ehs() && r.header == c.header && r.data == c.data
  {
    c.(taskTag := TunedTag(c, s.taskTag), param := TunedParam(c, s.markTag))
  }

  function ModeError(c: Command, rw: Option<bool>, pattern: Option<PatternMode>): Option<Error>
    requires c.Upiu?
  {
    if !c.IsReadWrite() then None
    else if rw.Some? && rw.value != c.param.dataInOut then Some(AutoAndManualMixed)
    else if pattern.Some? && pattern.value != c.param.patternMode then Some(PatternModeMixed)
    else None
  }

  /** The package's data direction mode after a command has been looked at; the first read or write sets it. */
  function RecordedRw(c: Command, rw: Option<bool>): Option<bool>
    requires c.Upiu?
  {
    if c.IsReadWrite() && rw.None? then Some(c.param.dataInOut) else rw
  }

  function RecordedPattern(c: Command, rw: Option<bool>, pattern: Option<PatternMode>): Option<PatternMode>
    requires c.Upiu?
  {
    if c.IsReadWrite() && pattern.None? && (rw.None? || rw.value == c.param.dataInOut) then Some(c.param.patternMode)
    else pattern
  }

  /** The first sanity check that fails, in the order the checks are made. */
  function TuneError(c: Command, s: State, testerVersion: int): Option<Error>
    requires c.Upiu?
  {
    if ManualMisaligned(c) then Some(ManualRwDataShallAlign4K)
    else if ModeError(c, s.rwManual, s.pattern).Some? then ModeError(c, s.rwManual, s.pattern)
    else if c.ehsLength != 0 && testerVersion < 7 then Some(EhsFeatureNotSupported)
    else if c.TotalEhsLength() * 32 != |c.Ehs()| then Some(EhsLengthMismatch)
    else None
  }

  /** What tuning does to the executor's own counters and modes: it happens even if a check fails. */
  function AfterTuning(c: Command, s: State): State
    requires c.Upiu?
  {
    var s1 := s.(taskTag := NextTaskTag(c, s.taskTag), markTag := if TakesMarkTag(c) then s.markTag + 1 else s.markTag);
    if ManualMisaligned(c) then s1
    else s1.(rwManual := RecordedRw(c, s.rwManual), pattern := RecordedPattern(c, s.rwManual, s.pattern))
  }

  // ---------- enqueue ----------

  /** EHS blocks as enqueue accounts for them: tester commands are not counted. */
  function AccountedEhs(c: Command): nat {
    if c.Upiu? then EhsBlocks(c) else 0
  }

  function SumAccountedEhs(cmds: seq<Command>): nat {
    if cmds == [] then 0 else SumAccountedEhs(cmds[..|cmds| - 1]) + AccountedEhs(cmds[|cmds| - 1])
  }

  /** The exception numbering raises for a command without a key; the command is in the list by then. */
  function NumberingError(c: Command): Error {
    if c.Upiu? then InvalidTasktagValue
    else if IsFuncType(c.functionCode) then TasktagShallNotBeNone
    else ValueError
  }

  function NextIndicator(queue: seq<Queued>, c: Command): CycleIndicator {
    IndicatorOf(c.KeyOf(), Count(Keys(queue), c.KeyOf()))
  }

  function Admit(s: State, c: Command): (State, Result<nat>) {
    var data, ehs := s.totalPayload + Blocks(c), s.totalEhs + AccountedEhs(c);
    if EarlyCheckIfFull(|s.queue| + 2, data, ehs) then (s, Err(CmdListIsFull))
    else
      (s.(queue := s.queue + [Queued(c, NextIndicator(s.queue, c))],
          totalPayload := data,
          totalEhs := ehs,
          activeTaskMgmt := s.activeTaskMgmt || (c.Upiu? && c.kind.TaskManagement?),
          hasHpb := s.hasHpb || (c.Upiu? && c.kind.HpbRead?),
          hasReadBuffer := s.hasReadBuffer || (c.Upiu? && c.kind.ReadBuffer?)),
       if c.KeyOf().NoKey? then Err(NumberingError(c)) else Ok(|s.queue|))
  }

  function Enqueue(s: State, c: Command, testerVersion: int): (State, Result<nat>) {
    if s.isSent then (s, Err(CmdListNotClear))
    else if c.Tester? then Admit(s, c)
    else
      var s1 := AfterTuning(c, s);
      var error := TuneError(c, s, testerVersion);
      if error.Some? then (s1, Err(error.value)) else Admit(s1, Tuned(c, s))
  }

  // ---------- send and clear ----------

  /** The module's initial state, with whatever the two tag counters have reached. */
  function Initial(markTag: nat, taskTag: nat): State {
    State([], 0, 0, markTag, taskTag, None, None, false, false, false, false)
  }

  function Cleared(s: State): State {
    Initial(s.markTag, s.taskTag)
  }

  function SendCheck(s: State, readHwCompare: bool): Option<Error> {
    if s.isSent then Some(CmdListNotClear)
    else if s.rwManual == Some(true) && readHwCompare then Some(HwCmpWithManualMode)
    else if s.hasHpb && readHwCompare then Some(HwCmpWithHpbRead)
    else if s.hasReadBuffer && readHwCompare then Some(HwCmpWithReadBuffer)
    else None
  }

  /**
   * The exception composing and pushing command k raises. There is no clause for entry or data
   * space, nor for a data-begin offset that was not set: those checks never fail.
   */
  function PushErrorAt(cmds: seq<Command>, k: nat): Option<Error>
    requires k < |cmds|
  {
    if ComposeError(cmds[k]).Some? then ComposeError(cmds[k])
    else if EhsStart(cmds, k) + AlignUp(|cmds[k].Ehs()|, ALIGN_EHS_UNIT) > EHS_BUF_SIZE then Some(BufIsFull)
    else if |cmds[k].data| > cmds[k].DataLength() then Some(PayloadSizeExceedsExpectation)
    else None
  }

  /** How many of the commands from k on are pushed before one fails. */
  function FirstFailure(cmds: seq<Command>, k: nat): (m: nat)
    requires k <= |cmds|
    ensures k <= m <= |cmds|
    ensures forall j :: k <= j < m ==> PushErrorAt(cmds, j).None?
    ensures m < |cmds| ==> PushErrorAt(cmds, m).Some?
    decreases |cmds| - k
  {
    if k == |cmds| || PushErrorAt(cmds, k).Some? then k else FirstFailure(cmds, k + 1)
  }

  /** The list after the offsets of the first m commands have been stored back. */
  function StoredBack(queue: seq<Queued>, m: nat): (r: seq<Queued>)
    ensures |r| == |queue|
  {
    var cmds := Commands(queue);
    seq(|queue|, i requires 0 <= i < |queue| =>
      if i < m then queue[i].(cmd := StoreBack(cmds[i], DataStart(cmds, i), EhsStart(cmds, i))) else queue[i])
  }

  function Submit(s: State, qdLimit: Option<int>): (State, Option<Error>) {
    var cmds := Commands(s.queue);
    var m := FirstFailure(cmds, 0);
    (s.(isSent := true, queue := StoredBack(s.queue, m)),
     if m < |cmds| then PushErrorAt(cmds, m)
     else if qdLimit.None? then Some(ShallSetQdLimit)
     else None)
  }

  /** What the tester hands back: buffers on success, or an exception after which they may still be parsed. */
  datatype Reply = Completed(info: seq<byte>, ehs: seq<byte>) | Failed(parse: bool, info: seq<byte>, ehs: seq<byte>)

  function Send(s: State, readHwCompare: bool, clearOnSuccess: bool, qdLimit: Option<int>, reply: Reply): (State, Result<()>) {
    var check := SendCheck(s, readHwCompare);
    if check.Some? then (s, Err(check.value))
    else
      var (s1, error) := Submit(s, qdLimit);
      if error.Some? then (s1, Err(error.value))
      else
        var parseError := ParseError(reply.info, |s.queue|);
        match reply
        case Completed(_, _) =>
          if clearOnSuccess then (Cleared(s1), Ok(()))
          else (s1, if parseError.Some? then Err(parseError.value) else Ok(()))
        case Failed(parse, _, _) =>
          (s1, Err(if parse && parseError.Some? then parseError.value else DllError))
  }

  // ---------- the package invariant ----------

  ghost predicate IndicatorsInOrder(queue: seq<Queued>) {
    forall i :: 0 <= i < |queue| ==> queue[i].indicator == IndicatorAt(Keys(queue), i)
  }

  /** All reads and writes share one data direction mode and one pattern mode, the recorded ones. */
  ghost predicate Uniform(s: State) {
    && (s.rwManual.None? <==> s.pattern.None?)
    && forall i :: 0 <= i < |s.queue| && s.queue[i].cmd.IsReadWrite() ==>
         s.rwManual == Some(s.queue[i].cmd.param.dataInOut) && s.pattern == Some(s.queue[i].cmd.param.patternMode)
  }

  ghost predicate Holds(queue: seq<Queued>, kind: UpiuKind) {
    exists i :: 0 <= i < |queue| && queue[i].cmd.Upiu? && queue[i].cmd.kind == kind
  }

  ghost predicate FlagsExact(s: State) {
    && (s.activeTaskMgmt <==> Holds(s.queue, TaskManagement))
    && (s.hasHpb <==> Holds(s.queue, HpbRead))
    && (s.hasReadBuffer <==> Holds(s.queue, ReadBuffer))
  }

  ghost predicate CommandsSound(queue: seq<Queued>) {
    forall i :: 0 <= i < |queue| ==>
      && WellFormed(queue[i].cmd)
      && (queue[i].cmd.Upiu? ==> |queue[i].cmd.Ehs()| == 32 * queue[i].cmd.TotalEhsLength())
  }

  /** The running totals are the sums over the list, and the list was admitted at them. */
  ghost predicate Accounted(s: State) {
    && s.totalPayload == SumBlocks(Commands(s.queue))
    && s.totalEhs == SumAccountedEhs(Commands(s.queue))
    && !EarlyCheckIfFull(|s.queue| + 1, s.totalPayload, s.totalEhs)
  }

  ghost predicate PackageOk(s: State) {
    && Accounted(s)
    && IndicatorsInOrder(s.queue)
    && Uniform(s)
    && FlagsExact(s)
    && CommandsSound(s.queue)
  }

  lemma AppendKeepsIndicators(queue: seq<Queued>, c: Command)
    requires IndicatorsInOrder(queue)
    ensures IndicatorsInOrder(queue + [Queued(c, NextIndicator(queue, c))])
    ensures Keys(queue + [Queued(c, NextIndicator(queue, c))]) == Keys(queue) + [c.KeyOf()]
  {
    var now := queue + [Queued(c, NextIndicator(queue, c))];
    assert Keys(now) == Keys(queue) + [c.KeyOf()];
    assert Keys(now)[..|queue|] == Keys(queue);
    forall i | 0 <= i < |queue|
      ensures now[i].indicator == IndicatorAt(Keys(now), i)
    {
      assert Keys(now)[..i] == Keys(queue)[..i];
    }
  }

  lemma AppendKeepsSums(queue: seq<Queued>, q: Queued)
    ensures SumBlocks(Commands(queue + [q])) == SumBlocks(Commands(queue)) + Blocks(q.cmd)
    ensures SumAccountedEhs(Commands(queue + [q])) == SumAccountedEhs(Commands(queue)) + AccountedEhs(q.cmd)
  {
    hide Blocks, AccountedEhs;
    assert Commands(queue + [q])[..|queue|] == Commands(queue);
  }

  lemma AppendKeepsFlags(queue: seq<Queued>, q: Queued, kind: UpiuKind)
    ensures Holds(queue + [q], kind) <==> Holds(queue, kind) || (q.cmd.Upiu? && q.cmd.kind == kind)
  {
    var now := queue + [q];
    if i :| 0 <= i < |queue| && queue[i].cmd.Upiu? && queue[i].cmd.kind == kind {
      assert now[i].cmd.kind == kind;
    }
    if q.cmd.Upiu? && q.cmd.kind == kind {
      assert now[|queue|].cmd.kind == kind;
    }
  }

  lemma AdmitKeepsPackageOk(s: State, c: Command)
    requires PackageOk(s) && WellFormed(c)
    requires c.Upiu? ==> |c.Ehs()| == 32 * c.TotalEhsLength()
    requires c.IsReadWrite() ==> s.rwManual == Some(c.param.dataInOut) && s.pattern == Some(c.param.patternMode)
    ensures PackageOk(Admit(s, c).0)
  {
    hide EarlyCheckIfFull, Blocks, AccountedEhs, NextIndicator, IndicatorsInOrder, Holds;
    var q := Queued(c, NextIndicator(s.queue, c));
    AppendKeepsIndicators(s.queue, c);
    AppendKeepsSums(s.queue, q);
    AppendKeepsFlags(s.queue, q, TaskManagement);
    AppendKeepsFlags(s.queue, q, HpbRead);
    AppendKeepsFlags(s.queue, q, ReadBuffer);
  }

  lemma TuningKeepsPackageOk(s: State, c: Command, testerVersion: int)
    requires PackageOk(s) && c.Upiu?
    ensures PackageOk(AfterTuning(c, s))
    ensures AfterTuning(c, s).queue == s.queue
    ensures TuneError(c, s, testerVersion).None? && c.IsReadWrite() ==>
      AfterTuning(c, s).rwManual == Some(c.param.dataInOut) && AfterTuning(c, s).pattern == Some(c.param.patternMode)
  {
    hide Accounted, IndicatorsInOrder, CommandsSound, Holds, ManualMisaligned;
    var s' := AfterTuning(c, s);
    assert Accounted(s') by {
      assert s'.queue == s.queue && s'.totalPayload == s.totalPayload && s'.totalEhs == s.totalEhs;
      AccountedFrame(s, s');
    }
  }

  lemma AccountedFrame(s: State, s': State)
    requires Accounted(s) && s'.queue == s.queue && s'.totalPayload == s.totalPayload && s'.totalEhs == s.totalEhs
    ensures Accounted(s')
  {
    hide EarlyCheckIfFull;
  }

  /** Every enqueue keeps the package sound, whether it returns or raises. */
  lemma EnqueueKeepsPackageOk(s: State, c: Command, testerVersion: int)
    requires PackageOk(s) && WellFormed(c)
    ensures PackageOk(Enqueue(s, c, testerVersion).0)
  {
    hide PackageOk, Admit, AfterTuning;
    if !s.isSent {
      if c.Tester? {
        AdmitKeepsPackageOk(s, c);
      } else {
        TuningKeepsPackageOk(s, c, testerVersion);
        if TuneError(c, s, testerVersion).None? {
          AdmitKeepsPackageOk(AfterTuning(c, s), Tuned(c, s));
        }
      }
    }
  }

  /** b is a up to the two offsets that send stores back. */
  predicate Alike(a: Command, b: Command) {
    a.Upiu? == b.Upiu? &&
    b == StoreBack(a, if b.Upiu? then b.param.dataAddressOffset else 0, if b.Upiu? then b.param.ehsDataAddress else 0)
  }

  ghost predicate AlikeQueues(a: seq<Queued>, b: seq<Queued>) {
    && |a| == |b|
    && forall i :: 0 <= i < |a| ==> Alike(a[i].cmd, b[i].cmd) && a[i].indicator == b[i].indicator
  }

  lemma StoredBackIsAlike(queue: seq<Queued>, m: nat)
    ensures AlikeQueues(queue, StoredBack(queue, m))
  {
  }

  lemma AlikeKeepsKeys(a: seq<Queued>, b: seq<Queued>)
    requires AlikeQueues(a, b)
    ensures Keys(a) == Keys(b)
  {
  }

  lemma {:induction false} AlikeKeepsSums(a: seq<Queued>, b: seq<Queued>)
    requires AlikeQueues(a, b)
    ensures SumBlocks(Commands(a)) == SumBlocks(Commands(b))
    ensures SumAccountedEhs(Commands(a)) == SumAccountedEhs(Commands(b))
  {
    if a != [] {
      var n := |a| - 1;
      AlikeKeepsSums(a[..n], b[..n]);
      assert Commands(a)[..n] == Commands(a[..n]) && Commands(b)[..n] == Commands(b[..n]);
      assert Alike(a[n].cmd, b[n].cmd);
    }
  }

  lemma AlikeKeepsFlags(a: seq<Queued>, b: seq<Queued>, kind: UpiuKind)
    requires AlikeQueues(a, b)
    ensures Holds(a, kind) <==> Holds(b, kind)
  {
    if i :| 0 <= i < |a| && a[i].cmd.Upiu? && a[i].cmd.kind == kind {
      assert b[i].cmd.kind == kind;
    }
    if i :| 0 <= i < |b| && b[i].cmd.Upiu? && b[i].cmd.kind == kind {
      assert a[i].cmd.kind == kind;
    }
  }

  lemma AlikeKeepsIndicators(a: seq<Queued>, b: seq<Queued>)
    requires AlikeQueues(a, b) && IndicatorsInOrder(a)
    ensures IndicatorsInOrder(b)
  {
    hide Alike, IndicatorAt;
    AlikeKeepsKeys(a, b);
  }

  lemma AlikeKeepsUniform(s: State, s': State)
    requires AlikeQueues(s.queue, s'.queue) && Uniform(s) && s'.rwManual == s.rwManual && s'.pattern == s.pattern
    ensures Uniform(s')
  {
    assert forall i :: 0 <= i < |s.queue| ==> Alike(s.queue[i].cmd, s'.queue[i].cmd);
  }

  lemma AlikeKeepsSound(a: seq<Queued>, b: seq<Queued>)
    requires AlikeQueues(a, b) && CommandsSound(a)
    ensures CommandsSound(b)
  {
    assert forall i :: 0 <= i < |a| ==> Alike(a[i].cmd, b[i].cmd);
  }

  lemma AlikeKeepsPackageOk(s: State, s': State)
    requires PackageOk(s) && AlikeQueues(s.queue, s'.queue)
    requires s' == s.(isSent := s'.isSent, queue := s'.queue)
    ensures PackageOk(s')
  {
    AlikeKeepsSums(s.queue, s'.queue);
    AlikeKeepsIndicators(s.queue, s'.queue);
    AlikeKeepsFlags(s.queue, s'.queue, TaskManagement);
    AlikeKeepsFlags(s.queue, s'.queue, HpbRead);
    AlikeKeepsFlags(s.queue, s'.queue, ReadBuffer);
    AlikeKeepsUniform(s, s');
    AlikeKeepsSound(s.queue, s'.queue);
    assert |s.queue| == |s'.queue|;
    hide AlikeQueues, IndicatorsInOrder, Uniform, CommandsSound, Holds, EarlyCheckIfFull;
  }

  lemma SubmitKeepsPackageOk(s: State, qdLimit: Option<int>)
    requires PackageOk(s)
    ensures PackageOk(Submit(s, qdLimit).0)
  {
    hide PackageOk, PushErrorAt, StoredBack, AlikeQueues;
    StoredBackIsAlike(s.queue, FirstFailure(Commands(s.queue), 0));
    AlikeKeepsPackageOk(s, Submit(s, qdLimit).0);
  }

  lemma ClearedIsOk(s: State)
    ensures PackageOk(Cleared(s))
  {
  }

  lemma SendKeepsPackageOk(s: State, readHwCompare: bool, clearOnSuccess: bool, qdLimit: Option<int>, reply: Reply)
    requires PackageOk(s)
    ensures PackageOk(Send(s, readHwCompare, clearOnSuccess, qdLimit, reply).0)
  {
    hide PackageOk, Submit, ParseError;
    SubmitKeepsPackageOk(s, qdLimit);
    ClearedIsOk(Submit(s, qdLimit).0);
  }
}
