/** What enqueue does to one command, field by field, and to the modes and mark tags of a package. */
module TuningProperties {
  import opened Common
  import opened Bytes
  import opened Layout
  import opened Protocols
  import opened CycleTracker
  import opened Occurrences
  import opened PackageLayout
  import opened Package
  import opened PackageProperties

  // ---------- the fields of one command ----------

  /** A write in automatic mode: the tester generates its data. */
  predicate AutoWrite(c: Command) {
    c.Upiu? && c.kind.Write? && !c.param.dataInOut
  }

  predicate ReadWriteOrHpb(c: Command) {
    c.Upiu? && (c.kind.Write? || c.kind.Read? || c.kind.HpbRead?)
  }

  /** A read, write or HPB read whose data the caller supplies or fetches. */
  predicate Manual(c: Command) {
    ReadWriteOrHpb(c) && c.param.dataInOut
  }

  /** Every field of a tuned command: what is replaced, by what, and that all others are as the caller gave them. */
  lemma TunedFields(c: Command, s: State)
    requires c.Upiu?
    ensures var r := Tuned(c, s);
      && r.taskTag == (if c.taskTag == -1 then (s.taskTag + 1) % 256 else c.taskTag)
      && r.param.crcCompare == (c.param.crcCompare && !AutoWrite(c))
      && r.param.markTagOrCrc32 == (if !AutoWrite(c) then c.param.markTagOrCrc32
                                    else if c.specificTag.None? then (s.markTag + 1) % 0x1_0000_0000 else c.specificTag.value)
      && r.param.addTag == (c.param.addTag && !Manual(c) && !c.kind.ReadBuffer? && !c.kind.OtherScsi?
                            && !(c.kind.Read? && c.param.crcCompare))
      && r == c.(taskTag := r.taskTag,
                 param := c.param.(crcCompare := r.param.crcCompare, markTagOrCrc32 := r.param.markTagOrCrc32,
                                   addTag := r.param.addTag, dataLength := r.param.dataLength))
  {
    hide AlignUp;
  }

  /** Where a returning enqueue puts the command, and what it returns. */
  lemma EnqueueAppends(s: State, c: Command, testerVersion: int)
    requires Enqueue(s, c, testerVersion).1.Ok?
    ensures var (s', r) := Enqueue(s, c, testerVersion);
      && r == Ok(|s.queue|) && |s'.queue| == |s.queue| + 1 && s'.queue[..|s.queue|] == s.queue
      && s'.queue[|s.queue|].cmd == (if c.Upiu? then Tuned(c, s) else c)
      && !s'.isSent
  {
    hide EarlyCheckIfFull, Blocks, AccountedEhs, NextIndicator, TunedParam, TuneError;
  }

  /** An indicator in the caller's terms: cycle, function code and tag of the command, -1 for a tester command's tag. */
  lemma IndicatorMeaning(s: State, i: nat)
    requires PackageOk(s) && i < |s.queue| && IsRealKey(s.queue[i].cmd.KeyOf())
    ensures var q := s.queue[i];
      var cycle := |EarlierEqual(Keys(s.queue), i)|;
      && q.indicator == (if q.cmd.Upiu? then CycleIndicator(cycle, 0, q.cmd.taskTag) else CycleIndicator(cycle, q.cmd.functionCode, -1))
      && forall j :: 0 <= j < i ==>
           (j in EarlierEqual(Keys(s.queue), i) <==>
              if q.cmd.Upiu? then s.queue[j].cmd.Upiu? && s.queue[j].cmd.taskTag == q.cmd.taskTag
              else s.queue[j].cmd.Tester? && s.queue[j].cmd.functionCode == q.cmd.functionCode)
  {
    hide Accounted, Uniform, FlagsExact, CommandsSound;
    CycleCountsEarlier(s, i);
    OccurrenceCountsEarlierEqual(Keys(s.queue), i);
    assert s.queue[i].indicator == IndicatorAt(Keys(s.queue), i);
  }

  // ---------- the checks of tuning ----------

  /** A manual transfer of an expected length that is not a whole number of 4 KiB. */
  predicate Misaligned(c: Command) {
    Manual(c) && FromBytes(c.header[12..16]) % 4096 != 0
  }

  predicate DataModeClash(c: Command, s: State) {
    c.IsReadWrite() && s.rwManual.Some? && s.rwManual.value != c.param.dataInOut
  }

  predicate PatternClash(c: Command, s: State) {
    c.IsReadWrite() && s.pattern.Some? && s.pattern.value != c.param.patternMode
  }

  /** The checks, each with its own condition and the ones made before it. */
  lemma TuneErrorExact(c: Command, s: State, testerVersion: int)
    requires c.Upiu?
    ensures var e := TuneError(c, s, testerVersion);
      var modes := DataModeClash(c, s) || PatternClash(c, s);
      var ehsLen := if c.ehsLength == 0 then 0 else |c.ehsBody|;
      && (e == Some(ManualRwDataShallAlign4K) <==> Misaligned(c))
      && (e == Some(AutoAndManualMixed) <==> !Misaligned(c) && DataModeClash(c, s))
      && (e == Some(PatternModeMixed) <==> !Misaligned(c) && !DataModeClash(c, s) && PatternClash(c, s))
      && (e == Some(EhsFeatureNotSupported) <==> !Misaligned(c) && !modes && c.ehsLength != 0 && testerVersion < 7)
      && (e == Some(EhsLengthMismatch) <==>
            !Misaligned(c) && !modes && !(c.ehsLength != 0 && testerVersion < 7) && 32 * (c.header[8] as int) != ehsLen)
      && (e == None <==>
            !Misaligned(c) && !modes && (c.ehsLength == 0 || testerVersion >= 7) && 32 * (c.header[8] as int) == ehsLen)
  {
    hide FromBytes;
  }

  // ---------- many enqueues ----------

  lemma EnqueueAllNext(s: State, cs: seq<Command>, version: int, i: nat)
    requires i < |cs|
    ensures EnqueueAll(s, cs[..i + 1], version) == Enqueue(EnqueueAll(s, cs[..i], version), cs[i], version).0
  {
    hide Enqueue;
    assert cs[..i + 1][..i] == cs[..i];
  }

  /** An enqueue into an unsent package leaves it unsent and moves the counters, whether it returns or not. */
  lemma EnqueueCounts(s: State, c: Command, version: int)
    requires !s.isSent
    ensures var s' := Enqueue(s, c, version).0;
      && !s'.isSent
      && s'.markTag == s.markTag + (if AutoWrite(c) && c.specificTag.None? then 1 else 0)
      && s'.taskTag == s.taskTag + (if c.Upiu? && c.taskTag == -1 then 1 else 0)
  {
    hide EarlyCheckIfFull, Blocks, AccountedEhs, NextIndicator, TunedParam, TunedTag, TuneError, ManualMisaligned;
  }

  /** How many automatic writes without a tag of their own there are. */
  function Untagged(cs: seq<Command>): nat {
    if cs == [] then 0
    else Untagged(cs[..|cs| - 1]) + if AutoWrite(cs[|cs| - 1]) && cs[|cs| - 1].specificTag.None? then 1 else 0
  }

  lemma {:induction false} MarkTagsCount(s: State, cs: seq<Command>, version: int)
    requires !s.isSent
    ensures !EnqueueAll(s, cs, version).isSent
    ensures EnqueueAll(s, cs, version).markTag == s.markTag + Untagged(cs)
  {
    hide Enqueue;
    if cs != [] {
      MarkTagsCount(s, cs[..|cs| - 1], version);
      EnqueueCounts(EnqueueAll(s, cs[..|cs| - 1], version), cs[|cs| - 1], version);
    }
  }

  /**
   * Mark tags: an automatic write that is queued carries its own tag if it has one, and otherwise the next of the
   * mark counter, which only such writes move, also those that were refused.
   */
  lemma MarkTagOfWrite(s: State, cs: seq<Command>, version: int, i: nat)
    requires !s.isSent && i < |cs| && AutoWrite(cs[i])
    requires Enqueue(EnqueueAll(s, cs[..i], version), cs[i], version).1.Ok?
    ensures var (s', r) := Enqueue(EnqueueAll(s, cs[..i], version), cs[i], version);
      && r.value < |s'.queue| && s'.queue[r.value].cmd.Upiu?
      && s'.queue[r.value].cmd.param.markTagOrCrc32 ==
           (if cs[i].specificTag.None? then (s.markTag + 1 + Untagged(cs[..i])) % 0x1_0000_0000 else cs[i].specificTag.value)
  {
    hide Enqueue, EnqueueAll, Tuned;
    var before := EnqueueAll(s, cs[..i], version);
    MarkTagsCount(s, cs[..i], version);
    EnqueueAppends(before, cs[i], version);
    TunedFields(cs[i], before);
  }

  /** With every enqueue returned, entry i of the list is command i as tuned when it was enqueued. */
  lemma {:induction false} QueueOfReturned(s: State, cs: seq<Command>, version: int, i: nat)
    requires s.queue == [] && AllReturned(s, cs, version) && i < |cs|
    ensures var q := EnqueueAll(s, cs, version).queue;
      && |q| == |cs|
      && q[i].cmd == if cs[i].Upiu? then Tuned(cs[i], EnqueueAll(s, cs[..i], version)) else cs[i]
  {
    hide Enqueue, AllReturned, Tuned;
    var n := |cs| - 1;
    AllReturnedPrefix(s, cs, version);
    var before := EnqueueAll(s, cs[..n], version);
    if n > 0 {
      QueueOfReturned(s, cs[..n], version, if i < n then i else 0);
    }
    if i < n {
      assert cs[..n][..i] == cs[..i];
    }
    EnqueueAppends(before, cs[n], version);
  }

  /** In a package whose enqueues all returned the automatic writes are marked consecutively from the counter on. */
  lemma AutoMarkTags(s: State, cs: seq<Command>, version: int, i: nat)
    requires s.queue == [] && !s.isSent && AllReturned(s, cs, version) && i < |cs| && AutoWrite(cs[i])
    ensures var q := EnqueueAll(s, cs, version).queue;
      && |q| == |cs| && q[i].cmd.Upiu? && !q[i].cmd.param.crcCompare
      && q[i].cmd.param.markTagOrCrc32 ==
           (if cs[i].specificTag.None? then (s.markTag + 1 + Untagged(cs[..i])) % 0x1_0000_0000 else cs[i].specificTag.value)
  {
    hide EnqueueAll, AllReturned, Tuned;
    QueueOfReturned(s, cs, version, i);
    MarkTagsCount(s, cs[..i], version);
    TunedFields(cs[i], EnqueueAll(s, cs[..i], version));
  }

  // ---------- the modes of a package ----------

  /** The first read or write, manual ones with misaligned data not counted. */
  function FirstReadWrite(cs: seq<Command>): Option<Command> {
    if cs == [] then None
    else
      var before, c := FirstReadWrite(cs[..|cs| - 1]), cs[|cs| - 1];
      if before.Some? then before else if c.IsReadWrite() && !Misaligned(c) then Some(c) else None
  }

  lemma EnqueueModes(s: State, c: Command, version: int)
    requires !s.isSent && (s.rwManual.None? <==> s.pattern.None?)
    ensures var s' := Enqueue(s, c, version).0;
      && !s'.isSent
      && if s.rwManual.None? && c.IsReadWrite() && !Misaligned(c)
         then s'.rwManual == Some(c.param.dataInOut) && s'.pattern == Some(c.param.patternMode)
         else s'.rwManual == s.rwManual && s'.pattern == s.pattern
  {
    hide EarlyCheckIfFull, Blocks, AccountedEhs, NextIndicator, TunedParam, TunedTag, TuneError, TakesMarkTag, FromBytes;
  }

  /** The modes of a package are those of its first read or write, whether that was queued or refused by a later check. */
  lemma {:induction false} ModesAreTheFirst(s: State, cs: seq<Command>, version: int)
    requires !s.isSent && s.rwManual.None? && s.pattern.None?
    ensures var s' := EnqueueAll(s, cs, version);
      && !s'.isSent
      && match FirstReadWrite(cs)
         case None => s'.rwManual.None? && s'.pattern.None?
         case Some(c) => c.Upiu? && s'.rwManual == Some(c.param.dataInOut) && s'.pattern == Some(c.param.patternMode)
  {
    hide Enqueue, Misaligned;
    if cs != [] {
      ModesAreTheFirst(s, cs[..|cs| - 1], version);
      EnqueueModes(EnqueueAll(s, cs[..|cs| - 1], version), cs[|cs| - 1], version);
    }
  }

  /** A read or write is refused for its modes exactly if they are not those of the package's first one. */
  lemma ModeErrorsExact(s: State, cs: seq<Command>, version: int, c: Command)
    requires !s.isSent && s.rwManual.None? && s.pattern.None?
    requires c.IsReadWrite() && !Misaligned(c)
    ensures var r := Enqueue(EnqueueAll(s, cs, version), c, version).1;
      var first := FirstReadWrite(cs);
      && (first.Some? ==> first.value.Upiu?)
      && (r == Err(AutoAndManualMixed) <==> first.Some? && c.param.dataInOut != first.value.param.dataInOut)
      && (r == Err(PatternModeMixed) <==>
            first.Some? && c.param.dataInOut == first.value.param.dataInOut && c.param.patternMode != first.value.param.patternMode)
  {
    hide EnqueueAll, FirstReadWrite, Misaligned, TuneError, Admit, AfterTuning, Tuned;
    var before := EnqueueAll(s, cs, version);
    ModesAreTheFirst(s, cs, version);
    TuneErrorExact(c, before, version);
    AdmitErrors(AfterTuning(c, before), Tuned(c, before));
  }

  lemma AdmitErrors(s: State, c: Command)
    ensures Admit(s, c).1.Err? ==> Admit(s, c).1.error in {CmdListIsFull, InvalidTasktagValue, TasktagShallNotBeNone, ValueError}
  {
    hide EarlyCheckIfFull, Blocks, AccountedEhs, NextIndicator;
  }
}
