/** What a caller gets back for a command, over whole runs and for any device. */
module Responses {
  import opened Common
  import opened Bytes
  import opened Layout
  import opened Protocols
  import opened Occurrences
  import opened CycleTracker
  import opened PackageLayout
  import opened ResponseIndex
  import opened Package
  import opened PackageProperties
  import opened Executor

  /** What is read from response slot j on behalf of command q. */
  function SlotResponse(buf: seq<byte>, ehsBuf: seq<byte>, j: nat, q: Queued): Result<Response> {
    Identify(Slice(buf, EntryOffset(j), EntryOffset(j) + ENTRY_SIZE), q.cmd, buf, ehsBuf)
  }

  lemma KeysRealOrNone(queue: seq<Queued>, i: nat)
    requires i < |queue|
    ensures IsRealKey(Keys(queue)[i]) || Keys(queue)[i].NoKey?
  {
  }

  /**
   * If the slots that answer commands sharing a key come in queue order without a gap, whatever happens
   * across keys and in slots that answer none, command i gets the response of its own slot, and
   * NOT_FOUND if no slot answers it.
   */
  lemma {:induction false} OwnResponse(queue: seq<Queued>, buf: seq<byte>, ehsBuf: seq<byte>, origin: seq<Option<nat>>, i: nat)
    requires IndicatorsInOrder(queue) && i < |queue|
    requires IsReordering(Keys(queue), ParsedKeys(buf, |queue|), origin)
    requires StablePerKey(Keys(queue), ParsedKeys(buf, |queue|), origin)
    ensures var r := Lookup(IndexOf(ParsedKeys(buf, |queue|)), buf, ehsBuf, queue[i]);
      && (forall j :: 0 <= j < |origin| && origin[j] == Some(i) ==> r == SlotResponse(buf, ehsBuf, j, queue[i]))
      && (Some(i) !in origin ==> r == Err(CycleIndicatorNotFound))
  {
    hide ParsedKeys, IndexOf, StablePerKey, IsReordering, Identify, EntryOffset, IndicatorAt, Slice;
    KeysRealOrNone(queue, i);
    StableImpliesFinds(Keys(queue), ParsedKeys(buf, |queue|), origin, i);
  }

  /** With dummies in the slots of aborted commands: NOT_FOUND for those, its own slot's response for every other. */
  lemma {:induction false} AbortedIsNotFound(queue: seq<Queued>, buf: seq<byte>, ehsBuf: seq<byte>, i: nat)
    requires IndicatorsInOrder(queue) && i < |queue|
    requires DummiesInPlace(Keys(queue), ParsedKeys(buf, |queue|))
    requires !AnsweredAfterAborted(Keys(queue), ParsedKeys(buf, |queue|))
    ensures Lookup(IndexOf(ParsedKeys(buf, |queue|)), buf, ehsBuf, queue[i]) ==
      if ParsedKeys(buf, |queue|)[i] == Keys(queue)[i] then SlotResponse(buf, ehsBuf, i, queue[i]) else Err(CycleIndicatorNotFound)
  {
    hide ParsedKeys, IndexOf, AnsweredAfterAborted, Identify, EntryOffset, IndicatorAt, Slice;
    KeysRealOrNone(queue, i);
    InPlaceIsFound(Keys(queue), ParsedKeys(buf, |queue|), i);
  }

  lemma SlotKind(buf: seq<byte>, j: nat, k: Key)
    requires SlotAt(buf, j) == Keyed(k)
    ensures EntryOffset(j) < |buf| && (buf[EntryOffset(j)] == 0xFF <==> k.TesterKey?)
  {
    hide EntryOffset;
  }

  lemma IdentifyKind(entry: seq<byte>, c: Command, buf: seq<byte>, ehsBuf: seq<byte>)
    requires |entry| > 0 && (entry[0] == 0xFF <==> c.Tester?)
    ensures Identify(entry, c, buf, ehsBuf) != Err(AttributeError)
  {
    hide Slice, IsFuncType;
  }

  /** A response found for a command is of the command's own kind: the parameter lookup cannot raise. */
  lemma {:induction false} ResponseKindMatches(queue: seq<Queued>, buf: seq<byte>, ehsBuf: seq<byte>, i: nat)
    requires IndicatorsInOrder(queue) && i < |queue|
    ensures Lookup(IndexOf(ParsedKeys(buf, |queue|)), buf, ehsBuf, queue[i]) != Err(AttributeError)
  {
    hide IndexOf, ParsedKeys, EntryOffset, Positions, SlotAt, Identify, Slice, Occurrence;
    var keys := ParsedKeys(buf, |queue|);
    var k, c := Keys(queue)[i], Occurrence(Keys(queue), i);
    KeysRealOrNone(queue, i);
    assert queue[i].indicator == IndicatorOf(k, c);
    hide IndicatorOf;
    IndexLookup(keys, k, c);
    if c < Count(keys, k) {
      var j := Positions(keys, k)[c];
      SlotKind(buf, j, k);
      FirstByte(buf, EntryOffset(j));
      IdentifyKind(Slice(buf, EntryOffset(j), EntryOffset(j) + ENTRY_SIZE), queue[i].cmd, buf, ehsBuf);
    }
  }

  /** The 72 bytes of an entry: what the buffer had, then zeros. */
  ghost predicate IsEntry(e: seq<byte>, entry: seq<byte>) {
    && |e| == 72
    && (forall m :: 0 <= m < |entry| && m < 72 ==> e[m] == entry[m])
    && (forall m :: |entry| <= m < 72 ==> e[m] == 0)
  }

  /**
   * What is made of a response entry: a UPIU response for the types NOP_IN, RSP, TM_RSP and QRY_RSP of a UPIU command,
   * a tester response for the type 0xFF with a function code, each carrying the entry's bytes; otherwise an exception.
   */
  lemma IdentifyExact(entry: seq<byte>, c: Command, buf: seq<byte>, ehsBuf: seq<byte>)
    requires 0 < |entry| <= 72
    ensures var r := Identify(entry, c, buf, ehsBuf);
      var upiu := entry[0] == 0x20 || entry[0] == 0x21 || entry[0] == 0x24 || entry[0] == 0x36;
      var tester := entry[0] == 0xFF && |entry| > 1 && TesterCode(entry[1]);
      && (r.Ok? && r.value.UpiuResponse? <==> upiu && c.Upiu?)
      && (r.Ok? && r.value.TesterResponse? <==> tester)
      && (r == Err(AttributeError) <==> upiu && c.Tester?)
      && (r == Err(UnidentifiedResponse) <==> !upiu && !tester)
      && (r.Ok? ==> IsEntry(r.value.entry, entry))
      && (r.Ok? && r.value.UpiuResponse? && c.header[8] == 0 ==> r.value.ehs == [])
  {
    hide Slice;
  }

  /** A Python list index: i counts from the front, or from the end if it is negative. */
  lemma PyIndexExact(i: int, n: nat, k: nat)
    ensures PyIndex(i, n) == Some(k) <==> k < n && (i == k || i == k - n)
  {
  }

  /** A slot that answers a tester command with a key reads as a tester response with the bytes of the slot. */
  lemma TesterSlot(buf: seq<byte>, ehsBuf: seq<byte>, j: nat, q: Queued)
    requires q.cmd.Tester? && SlotAt(buf, j) == Keyed(q.cmd.KeyOf()) && EntryOffset(j) + ENTRY_SIZE <= |buf|
    ensures SlotResponse(buf, ehsBuf, j, q) == Ok(TesterResponse(buf[EntryOffset(j)..EntryOffset(j) + ENTRY_SIZE]))
  {
    hide EntryOffset;
    var entry := buf[EntryOffset(j)..EntryOffset(j) + ENTRY_SIZE];
    assert entry[0] == buf[EntryOffset(j)] && entry[1] == buf[EntryOffset(j) + 1];
  }

  /** A tester command answered in slot j gets a tester response with the bytes of that slot. */
  lemma {:induction false} TesterAnswered(queue: seq<Queued>, buf: seq<byte>, ehsBuf: seq<byte>, origin: seq<Option<nat>>, i: nat, j: nat)
    requires IndicatorsInOrder(queue) && i < |queue| && queue[i].cmd.Tester?
    requires IsReordering(Keys(queue), ParsedKeys(buf, |queue|), origin)
    requires StablePerKey(Keys(queue), ParsedKeys(buf, |queue|), origin)
    requires j < |origin| && origin[j] == Some(i) && EntryOffset(j) + ENTRY_SIZE <= |buf|
    ensures Lookup(IndexOf(ParsedKeys(buf, |queue|)), buf, ehsBuf, queue[i])
         == Ok(TesterResponse(buf[EntryOffset(j)..EntryOffset(j) + ENTRY_SIZE]))
  {
    hide IndexOf, StablePerKey, EntryOffset, ParsedKeys, Lookup, SlotResponse, SlotAt, IndicatorsInOrder;
    OwnResponse(queue, buf, ehsBuf, origin, i);
    assert SlotAt(buf, j) == Keyed(Keys(queue)[i]);
    TesterSlot(buf, ehsBuf, j, queue[i]);
  }

  lemma FirstByte(buf: seq<byte>, off: nat)
    requires off < |buf|
    ensures |Slice(buf, off, off + ENTRY_SIZE)| > 0 && Slice(buf, off, off + ENTRY_SIZE)[0] == buf[off]
  {
  }

  /** The device left command i's payload and EHS extents as they were sent. */
  ghost predicate ExtentsKept(cmds: seq<Command>, i: nat, img: seq<byte>, ehs: seq<byte>, buf: seq<byte>, ehsBuf: seq<byte>)
    requires i < |cmds|
  {
    && Slice(buf, DataStart(cmds, i), DataStart(cmds, i + 1)) == Slice(img, DataStart(cmds, i), DataStart(cmds, i + 1))
    && Slice(ehsBuf, EhsStart(cmds, i), EhsStart(cmds, i + 1)) == Slice(ehs, EhsStart(cmds, i), EhsStart(cmds, i + 1))
  }

  /** Data and EHS of a UPIU response are then exactly what was queued, the data filled up to its length with 0xFF. */
  lemma PayloadRoundTrip(queue: seq<Queued>, i: nat, img: seq<byte>, ehs: seq<byte>, index: map<CycleIndicator, nat>,
                         buf: seq<byte>, ehsBuf: seq<byte>)
    requires i < |queue| && CommandsSound(queue)
    requires DataFits(Commands(queue)) && LaidOut(img, ehs, Commands(queue), |queue|)
    requires ExtentsKept(Commands(queue), i, img, ehs, buf, ehsBuf)
    ensures var r := Lookup(index, buf, ehsBuf, StoredBack(queue, |queue|)[i]);
      r.Ok? && r.value.UpiuResponse? ==>
        |queue[i].cmd.data| <= queue[i].cmd.DataLength()
        && r.value.data == ExpectedData(queue[i].cmd) && r.value.ehs == queue[i].cmd.Ehs()
  {
    hide DataFits, EntriesLaid, PayloadsLaid, RestBlank, EhsLaid, EhsFits, DataStart, EhsStart, Slice, IsFuncType, ComposeError;
    var cmds := Commands(queue);
    PayloadSurvives(img, ehs, cmds, i, buf);
    EhsSurvives(img, ehs, cmds, i, ehsBuf);
  }

  // ---------- the class, over runs ----------

  /** A call on the executor. */
  datatype Call =
    | CallEnqueue(cmd: Command)
    | CallSend(qd: int, clearOnSuccess: bool, readHwCompare: bool, skip: bool, timestamp: bool, response: bool,
               initial: set<nat>, reply: Reply)
    | CallReadResponse(index: int)
    | CallClear

  /** The state-machine step a call takes; reading changes nothing. */
  function StepOf(s: State, call: Call, qdLimit: Option<int>, testerVersion: int): State {
    match call
    case CallEnqueue(c) => Package.Enqueue(s, c, testerVersion).0
    case CallSend(_, clear, compare, _, _, _, _, reply) => Package.Send(s, compare, clear, qdLimit, reply).0
    case CallReadResponse(_) => s
    case CallClear => Cleared(s)
  }

  function RunOf(s: State, calls: seq<Call>, qdLimit: Option<int>, testerVersion: int): State {
    if calls == [] then s
    else StepOf(RunOf(s, calls[..|calls| - 1], qdLimit, testerVersion), calls[|calls| - 1], qdLimit, testerVersion)
  }

  /** What a call reports: the outcome of a send, nothing otherwise. */
  function ResultsOf(s: State, call: Call, qdLimit: Option<int>): seq<Result<()>> {
    match call
    case CallSend(_, clear, compare, _, _, _, _, reply) => [Package.Send(s, compare, clear, qdLimit, reply).1]
    case _ => []
  }

  function SendCount(calls: seq<Call>): nat {
    if calls == [] then 0 else SendCount(calls[..|calls| - 1]) + if calls[|calls| - 1].CallSend? then 1 else 0
  }

  /** The outcome of every send of a run, in order, each from the state the calls before it lead to. */
  function SendResults(s: State, calls: seq<Call>, qdLimit: Option<int>, testerVersion: int): (r: seq<Result<()>>)
    ensures |r| == SendCount(calls)
  {
    if calls == [] then []
    else
      var before, last := calls[..|calls| - 1], calls[|calls| - 1];
      SendResults(s, before, qdLimit, testerVersion) + ResultsOf(RunOf(s, before, qdLimit, testerVersion), last, qdLimit)
  }

  ghost predicate TesterEhsEmpty(calls: seq<Call>) {
    forall i :: 0 <= i < |calls| && calls[i].CallEnqueue? ==>
      WellFormed(calls[i].cmd) && (calls[i].cmd.Tester? ==> calls[i].cmd.Ehs() == [])
  }

  ghost predicate RoomFound(results: seq<Result<()>>) {
    forall i :: 0 <= i < |results| ==> results[i] != Err(BufIsFull) && results[i] != Err(PushCmdBeforeSetDataBeginOffset)
  }

  /**
   * Any interleaving of calls: the object stays valid, follows the state machine, reports the outcome of
   * every send, and none of them is BUF_IS_FULL or PUSH_CMD_BEFORE_SET_DATA_BEGIN_OFFSET.
   */
  method RunCalls(e: Executor, calls: seq<Call>) returns (sends: seq<Result<()>>)
    requires e.Valid() && NoTesterEhs(Commands(e.cmdList)) && TesterEhsEmpty(calls)
    modifies e, e.mgr, e.mgr.buffer, e.mgr.ehsBuffer, e.tracker
    ensures e.Valid() && e.Abs() == RunOf(old(e.Abs()), calls, e.qdLimit, e.testerVersion)
    ensures e.qdLimit == old(e.qdLimit) && e.testerVersion == old(e.testerVersion)
    ensures sends == SendResults(old(e.Abs()), calls, e.qdLimit, e.testerVersion) && |sends| == SendCount(calls)
    ensures RoomFound(sends)
  {
    hide Package.Enqueue, Package.Send, Cleared, NoTesterEhs, PackageOk, StepOf, ResultsOf;
    sends := [];
    ghost var s0 := e.Abs();
    for n := 0 to |calls|
      invariant e.Valid() && e.qdLimit == old(e.qdLimit) && e.testerVersion == old(e.testerVersion)
      invariant e.mgr.buffer == old(e.mgr.buffer) || fresh(e.mgr.buffer)
      invariant e.mgr.ehsBuffer == old(e.mgr.ehsBuffer) || fresh(e.mgr.ehsBuffer)
      invariant e.Abs() == RunOf(s0, calls[..n], e.qdLimit, e.testerVersion)
      invariant NoTesterEhs(Commands(e.cmdList))
      invariant sends == SendResults(s0, calls[..n], e.qdLimit, e.testerVersion) && RoomFound(sends)
    {
      assert calls[..n + 1][..n] == calls[..n];
      var r := Perform(e, calls[n]);
      sends := sends + r;
    }
    assert calls[..|calls|] == calls;
  }

  /** One call; the outcome of a send is reported. */
  method Perform(e: Executor, call: Call) returns (send: seq<Result<()>>)
    requires e.Valid() && NoTesterEhs(Commands(e.cmdList))
    requires call.CallEnqueue? ==> WellFormed(call.cmd) && (call.cmd.Tester? ==> call.cmd.Ehs() == [])
    modifies e, e.mgr, e.mgr.buffer, e.mgr.ehsBuffer, e.tracker
    ensures e.Valid() && e.qdLimit == old(e.qdLimit) && e.testerVersion == old(e.testerVersion)
    ensures e.mgr.buffer == old(e.mgr.buffer) || fresh(e.mgr.buffer)
    ensures e.mgr.ehsBuffer == old(e.mgr.ehsBuffer) || fresh(e.mgr.ehsBuffer)
    ensures e.Abs() == StepOf(old(e.Abs()), call, e.qdLimit, e.testerVersion)
    ensures NoTesterEhs(Commands(e.cmdList))
    ensures send == ResultsOf(old(e.Abs()), call, e.qdLimit) && RoomFound(send)
  {
    hide Package.Enqueue, Package.Send, NoTesterEhs, PackageOk, Parses, SendCheck, Submit, LaidOut, DataFits;
    ghost var s := e.Abs();
    send := [];
    match call {
      case CallEnqueue(c) =>
        EnqueueKeepsNoTesterEhs(s, c, e.testerVersion);
        var r := e.Enqueue(c);
      case CallSend(qd, clear, compare, skip, timestamp, response, initial, reply) =>
        SendKeepsNoTesterEhs(s, compare, clear, e.qdLimit, reply);
        SendOutcome(s, compare, clear, e.qdLimit, reply);
        var r, request := e.Send(qd, clear, compare, skip, timestamp, response, initial, reply);
        send := [r];
      case CallReadResponse(index) =>
        var r := e.ReadResponse(index);
      case CallClear =>
        e.Clear();
        NoneHasNoTesterEhs();
    }
  }

  lemma NoneHasNoTesterEhs()
    ensures NoTesterEhs(Commands([]))
  {
  }

  lemma SendOutcome(s: State, compare: bool, clear: bool, qd: Option<int>, reply: Reply)
    requires PackageOk(s) && NoTesterEhs(Commands(s.queue))
    ensures Package.Send(s, compare, clear, qd, reply).1 != Err(BufIsFull)
    ensures Package.Send(s, compare, clear, qd, reply).1 != Err(PushCmdBeforeSetDataBeginOffset)
  {
    hide FirstFailure, PushErrorAt, StoredBack, ParsedKeys, IndicatorsInOrder, Uniform, FlagsExact, CommandsSound, NoTesterEhs;
    var m := FirstFailure(Commands(s.queue), 0);
    ParseErrorIsParserError(reply.info, |s.queue|);
    if m < |s.queue| {
      AdmittedNeverFull(s, m);
      PushErrorKinds(Commands(s.queue), m);
    }
  }

  lemma PushErrorKinds(cmds: seq<Command>, k: nat)
    requires k < |cmds|
    ensures PushErrorAt(cmds, k) in {None, Some(StructError), Some(OverflowError), Some(BitstructError), Some(BufIsFull),
                                     Some(PayloadSizeExceedsExpectation)}
  {
    hide EhsStart, CeilDiv;
  }

  // ---------- end to end ----------

  /**
   * The reply to the package with these buffers answers command i in slot j with a UPIU response, and leaves
   * i's extents alone.
   */
  ghost predicate Answers(queue: seq<Queued>, img: seq<byte>, ehs: seq<byte>, totalEhs: nat, reply: Reply,
                          origin: seq<Option<nat>>, i: nat, j: nat)
  {
    && i < |queue| && queue[i].cmd.Upiu?
    && IsReordering(Keys(queue), ParsedKeys(reply.info, |queue|), origin)
    && StablePerKey(Keys(queue), ParsedKeys(reply.info, |queue|), origin)
    && j < |origin| && origin[j] == Some(i)
    && EntryOffset(j) < |reply.info| && ResponseType(reply.info[EntryOffset(j)])
    && ExtentsKept(Commands(queue), i, img, ehs, reply.info, if totalEhs > 0 then reply.ehs else ehs)
  }

  /** The response types the executor knows. */
  predicate ResponseType(t: byte) { t in {NOP_IN, RSP, TM_RSP, QRY_RSP} }

  ghost predicate StartsUpiu(queue: seq<Queued>, p: nat) {
    exists k :: 0 <= k < |queue| && queue[k].cmd.Upiu? && p == EntryOffset(k)
  }

  ghost function SlotStarting(queue: seq<Queued>, p: nat): (k: nat)
    requires StartsUpiu(queue, p)
    ensures k < |queue| && p == EntryOffset(k)
  {
    var k :| 0 <= k < |queue| && queue[k].cmd.Upiu? && p == EntryOffset(k);
    k
  }

  /** The image with the type byte of every UPIU entry turned into a response type. */
  ghost function Echo(img: seq<byte>, queue: seq<Queued>, types: seq<byte>): (info: seq<byte>)
    requires |types| == |queue|
    ensures |info| == |img|
  {
    seq(|img|, p requires 0 <= p < |img| => if StartsUpiu(queue, p) then types[SlotStarting(queue, p)] else img[p])
  }

  lemma EntryHead(c: Command, dataStart: nat, ehsStart: nat)
    requires WellFormed(c) && ComposeError(c).None?
    ensures var e := PatchedEntry(c, dataStart, ehsStart);
      if c.Upiu? then e[3] == c.taskTag else e[0] == 0xFF && e[1] == c.functionCode
  {
    hide ParamBytes, ToBytes;
    var e := EntryBytes(c);
    assert forall m :: 0 <= m < 4 ==> PatchedEntry(c, dataStart, ehsStart)[m] == e[m];
  }

  lemma NoOtherSlot(j: nat, k: nat, m: nat)
    requires 0 < m < ENTRY_SIZE
    ensures EntryOffset(j) + m != EntryOffset(k)
  {
    hide EntryOffset;
    if j < k {
      EntrySlotsDisjoint(j, k);
    } else if k < j {
      EntrySlotsDisjoint(k, j);
    }
  }

  lemma EchoedSlot(queue: seq<Queued>, img: seq<byte>, ehs: seq<byte>, types: seq<byte>, j: nat)
    requires j < |queue| == |types| && LaidOut(img, ehs, Commands(queue), |queue|) && DataFits(Commands(queue))
    requires IsRealKey(Keys(queue)[j]) && ResponseType(types[j])
    ensures EntryOffset(j) < |img|
    ensures SlotAt(Echo(img, queue, types), j) == Keyed(Keys(queue)[j])
    ensures queue[j].cmd.Upiu? ==> Echo(img, queue, types)[EntryOffset(j)] == types[j]
  {
    hide EntryOffset, PayloadsLaid, RestBlank, EhsLaid, EhsFits, DataStart, EhsStart, PatchedEntry, DataBegin;
    var cmds, at, info := Commands(queue), EntryOffset(j), Echo(img, queue, types);
    SlotsBelowData(|cmds|, j);
    RoomForSlots(cmds);
    var e := PatchedEntry(cmds[j], DataStart(cmds, j), EhsStart(cmds, j));
    assert Slice(img, at, at + ENTRY_SIZE) == e;
    assert img[at] == e[0] && img[at + 1] == e[1] && img[at + 3] == e[3];
    EntryHead(cmds[j], DataStart(cmds, j), EhsStart(cmds, j));
    forall k: nat
      ensures at + 1 != EntryOffset(k) && at + 3 != EntryOffset(k) && (at == EntryOffset(k) ==> j == k)
    {
      NoOtherSlot(j, k, 1);
      NoOtherSlot(j, k, 3);
      SlotsAreDistinct(j, k);
    }
    assert info[at + 1] == img[at + 1] && info[at + 3] == img[at + 3];
    assert info[at] == if queue[j].cmd.Upiu? then types[j] else img[at];
  }

  lemma RoomForSlots(cmds: seq<Command>)
    requires DataFits(cmds)
    ensures DataBegin(|cmds| + 1) <= BUF_SIZE
  {
    hide DataBegin;
  }

  lemma EchoKeepsExtent(queue: seq<Queued>, img: seq<byte>, types: seq<byte>, i: nat)
    requires i < |queue| == |types| && |img| == BUF_SIZE && DataFits(Commands(queue))
    ensures var cmds := Commands(queue);
      Slice(Echo(img, queue, types), DataStart(cmds, i), DataStart(cmds, i + 1)) == Slice(img, DataStart(cmds, i), DataStart(cmds, i + 1))
  {
    hide EntryOffset, DataBegin, DataStart;
    var cmds, info := Commands(queue), Echo(img, queue, types);
    ExtentsInOrder(cmds, i, |cmds|);
    forall p | DataStart(cmds, i) <= p < |img|
      ensures info[p] == img[p]
    {
      forall k: nat | k < |queue|
        ensures p != EntryOffset(k)
      {
        SlotsBelowData(|cmds|, k);
      }
    }
    assert DataStart(cmds, i + 1) <= |img|;
  }

  /** A tester that answers every command in place, with any response type each, and nothing more, gives a reply of this kind. */
  lemma EchoAnswers(queue: seq<Queued>, img: seq<byte>, ehs: seq<byte>, totalEhs: nat, types: seq<byte>, i: nat)
    requires LaidOut(img, ehs, Commands(queue), |queue|) && DataFits(Commands(queue))
    requires |types| == |queue| && forall j :: 0 <= j < |queue| ==> IsRealKey(Keys(queue)[j]) && ResponseType(types[j])
    requires i < |queue| && queue[i].cmd.Upiu?
    ensures Answers(queue, img, ehs, totalEhs, Completed(Echo(img, queue, types), ehs), seq(|queue|, j => Some(j)), i, i)
  {
    hide EntryOffset, DataBegin, DataStart, SlotAt, ParsedKeys, EntriesLaid, PayloadsLaid, RestBlank, EhsLaid, EhsFits, Echo;
    var info, n := Echo(img, queue, types), |queue|;
    forall j | 0 <= j < n
      ensures SlotAt(info, j) == Keyed(Keys(queue)[j])
    {
      EchoedSlot(queue, img, ehs, types, j);
    }
    ParseIsUnique(info, n, Keys(queue));
    EchoKeepsExtent(queue, img, types, i);
    EchoedSlot(queue, img, ehs, types, i);
  }

  lemma {:induction false} AnsweredLookup(queue: seq<Queued>, img: seq<byte>, ehs: seq<byte>, totalEhs: nat, reply: Reply,
                                          origin: seq<Option<nat>>, i: nat, j: nat)
    requires IndicatorsInOrder(queue) && CommandsSound(queue) && DataFits(Commands(queue))
    requires LaidOut(img, ehs, Commands(queue), |queue|) && Answers(queue, img, ehs, totalEhs, reply, origin, i, j)
    ensures var ehsBuf := if totalEhs > 0 then reply.ehs else ehs;
      var r := Lookup(IndexOf(ParsedKeys(reply.info, |queue|)), reply.info, ehsBuf, StoredBack(queue, |queue|)[i]);
      && |queue[i].cmd.data| <= queue[i].cmd.DataLength()
      && r.Ok? && r.value.UpiuResponse?
      && r.value.data == ExpectedData(queue[i].cmd) && r.value.ehs == queue[i].cmd.Ehs()
      && IsEntry(r.value.entry, Slice(reply.info, EntryOffset(j), EntryOffset(j) + ENTRY_SIZE))
  {
    hide ParsedKeys, IndexOf, StablePerKey, IsReordering, EntryOffset, IndicatorAt, LaidOut, ExtentsKept, DataFits, StoredBack, CommandsSound;
    var n := |queue|;
    var ehsBuf := if totalEhs > 0 then reply.ehs else ehs;
    var now := StoredBack(queue, n);
    StoredBackIsAlike(queue, n);
    AlikeKeepsKeys(queue, now);
    AlikeKeepsIndicators(queue, now);
    OwnResponse(now, reply.info, ehsBuf, origin, i);
    PayloadRoundTrip(queue, i, img, ehs, IndexOf(ParsedKeys(reply.info, n)), reply.info, ehsBuf);
    FirstByte(reply.info, EntryOffset(j));
    assert Alike(queue[i].cmd, now[i].cmd);
    PushableData(queue, img, ehs, i);
    IdentifyExact(Slice(reply.info, EntryOffset(j), EntryOffset(j) + ENTRY_SIZE), now[i].cmd, reply.info, ehsBuf);
  }

  lemma PushableData(queue: seq<Queued>, img: seq<byte>, ehs: seq<byte>, i: nat)
    requires LaidOut(img, ehs, Commands(queue), |queue|) && i < |queue|
    ensures |queue[i].cmd.data| <= queue[i].cmd.DataLength()
  {
    hide EntriesLaid, PayloadsLaid, RestBlank, EhsLaid, EhsFits, ComposeError, WellFormed;
    assert Commands(queue)[i] == queue[i].cmd;
  }

  /**
   * Send a package with any options and read command i's response, whether the tester succeeded or failed
   * with a reply that is still parsed: the caller gets back the data and EHS that were queued.
   */
  method SendAndReadBack(e: Executor, qd: int, clear: bool, compare: bool, skip: bool, timestamp: bool, response: bool,
                         initial: set<nat>, reply: Reply, i: nat, ghost img: seq<byte>, ghost ehs: seq<byte>,
                         ghost origin: seq<Option<nat>>, ghost j: nat)
    returns (sent: Result<()>, r: Result<Response>)
    requires e.Valid() && SendCheck(e.Abs(), compare).None? && Submit(e.Abs(), e.qdLimit).1.None?
    requires LaidOut(img, ehs, Commands(e.cmdList), |e.cmdList|)
    requires Parses(reply, clear) && Answers(e.cmdList, img, ehs, e.totalEhsIn96B, reply, origin, i, j)
    modifies e, e.mgr, e.mgr.buffer, e.mgr.ehsBuffer, e.tracker
    ensures sent == AfterReply(reply, old(|e.cmdList|))
    ensures var c := old(e.cmdList[i].cmd);
      && |c.data| <= c.DataLength()
      && r.Ok? && r.value.UpiuResponse? && r.value.data == ExpectedData(c) && r.value.ehs == c.Ehs()
      && IsEntry(r.value.entry, Slice(reply.info, EntryOffset(j), EntryOffset(j) + ENTRY_SIZE))
  {
    hide Answers, Submit, IndexOf, ParsedKeys, LaidOut, DataFits, StoredBack, Request, Package.Send, Lookup, Accounted,
         Uniform, FlagsExact, IndicatorsInOrder, CommandsSound, SendCheck, Parses, AfterReply;
    ghost var s := e.Abs();
    ParsedSend(s, compare, clear, e.qdLimit, reply);
    AnswersInRange(s.queue, img, ehs, s.totalEhs, reply, origin, i, j);
    var request;
    sent, request := e.Send(qd, clear, compare, skip, timestamp, response, initial, reply);
    ImageIsUnique(e.sentImage, img, e.sentEhs, ehs, Commands(s.queue));
    AnsweredLookup(s.queue, img, ehs, s.totalEhs, reply, origin, i, j);
    r := e.ReadResponse(i);
  }

  lemma AnswersInRange(queue: seq<Queued>, img: seq<byte>, ehs: seq<byte>, totalEhs: nat, reply: Reply,
                       origin: seq<Option<nat>>, i: nat, j: nat)
    requires Answers(queue, img, ehs, totalEhs, reply, origin, i, j)
    ensures i < |queue|
  {
  }

  lemma ParsedSend(s: State, compare: bool, clear: bool, qdLimit: Option<int>, reply: Reply)
    requires SendCheck(s, compare).None? && Submit(s, qdLimit).1.None? && Parses(reply, clear)
    ensures Package.Send(s, compare, clear, qdLimit, reply)
         == (s.(isSent := true, queue := StoredBack(s.queue, |s.queue|)), AfterReply(reply, |s.queue|))
  {
    hide StoredBack, PushErrorAt, ParseError;
  }
}
