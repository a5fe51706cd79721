/**
 * Finding the response of a command in a buffer whose responses may have been reordered.
 *
 * Commands and responses carry the same keys (task tag, or tester function). The index maps
 * (key, occurrence among the responses) to a slot; a command is looked up with its occurrence among
 * the commands.
 */
module ResponseIndex {
  import opened Common
  import opened Bytes
  import opened Layout
  import opened CycleTracker
  import opened Occurrences
  import Bits

  // ---------- parsing the response slots ----------

  datatype Slot = Keyed(key: Key) | End | Bad(error: Error)

  /** How slot cnt of a returned buffer is read. */
  function SlotAt(buf: seq<byte>, cnt: nat): Slot {
    var offset := EntryOffset(cnt);
    if offset >= |buf| then Bad(IndexError)
    else if buf[offset] == 0xFF then
      if offset + 1 >= |buf| then Bad(IndexError)
      else if !IsFuncType(buf[offset + 1]) then Bad(ValueError)
      else if buf[offset + 1] == CMD_UPIU then Bad(TasktagShallNotBeNone)
      else Keyed(TesterKey(buf[offset + 1]))
    else if buf[offset] / 32 % 2 != 0 then
      if offset + 3 >= |buf| then Bad(IndexError) else Keyed(UpiuKey(buf[offset + 3]))
    else End
  }

  lemma Bit5(x: nat)
    ensures Bits.BitAt(x, 5) <==> x / 32 % 2 == 1
  {
    assert Bits.BitAt(x, 5) == Bits.BitAt(x / 2, 4) == Bits.BitAt(x / 4, 3) == Bits.BitAt(x / 8, 2) == Bits.BitAt(x / 16, 1);
    assert Bits.BitAt(x / 16, 1) == Bits.BitAt(x / 32, 0);
  }

  /** The codes 0x01..0x0B, 0xFD and 0xFE are tester functions. */
  predicate TesterCode(f: byte) { 1 <= f <= 11 || f == 253 || f == 254 }

  /**
   * What a slot is, for every buffer: with bit 5 of its type set the response to a UPIU, identified by byte 3;
   * with type 0xFF a tester response, identified by byte 1, if that is a function code; otherwise the end.
   */
  lemma SlotExact(buf: seq<byte>, cnt: nat)
    requires EntryOffset(cnt) < |buf|
    ensures var off := EntryOffset(cnt);
      var slot, kind := SlotAt(buf, cnt), buf[off];
      && (kind != 255 && off + 3 < |buf| ==> (slot == Keyed(UpiuKey(buf[off + 3])) <==> Bits.BitAt(kind, 5)))
      && (kind != 255 ==> (slot == End <==> !Bits.BitAt(kind, 5)))
      && (kind == 255 && off + 1 < |buf| ==>
            && (slot == Keyed(TesterKey(buf[off + 1])) <==> TesterCode(buf[off + 1]))
            && (slot == Bad(TasktagShallNotBeNone) <==> buf[off + 1] == 0)
            && (slot == Bad(ValueError) <==> buf[off + 1] != 0 && !TesterCode(buf[off + 1])))
      && (slot == Bad(IndexError) <==> (kind == 255 && off + 1 >= |buf|) || (kind != 255 && Bits.BitAt(kind, 5) && off + 3 >= |buf|))
  {
    Bit5(buf[EntryOffset(cnt)]);
    hide EntryOffset, Bits.BitAt;
  }

  /** A slot past the end of the buffer cannot be read. */
  lemma SlotPastEnd(buf: seq<byte>, cnt: nat)
    ensures EntryOffset(cnt) >= |buf| ==> SlotAt(buf, cnt) == Bad(IndexError)
  {
  }

  /** keys are the keys of the leading slots, up to the first slot that has none. */
  ghost predicate IsParse(buf: seq<byte>, n: nat, keys: seq<Key>) {
    && |keys| <= n
    && (forall j :: 0 <= j < |keys| ==> SlotAt(buf, j) == Keyed(keys[j]) && IsRealKey(keys[j]))
    && (|keys| < n ==> !SlotAt(buf, |keys|).Keyed?)
  }

  function ParsedKeys(buf: seq<byte>, n: nat): (keys: seq<Key>)
    ensures IsParse(buf, n, keys)
  {
    if n == 0 then []
    else
      var before := ParsedKeys(buf, n - 1);
      var slot := SlotAt(buf, n - 1);
      if |before| == n - 1 && slot.Keyed? then before + [slot.key] else before
  }

  lemma ParseIsUnique(buf: seq<byte>, n: nat, keys: seq<Key>)
    requires IsParse(buf, n, keys)
    ensures keys == ParsedKeys(buf, n)
  {
    var p := ParsedKeys(buf, n);
    assert forall j :: 0 <= j < |keys| ==> Keyed(keys[j]) == SlotAt(buf, j) == Keyed(p[j]);
  }

  /** The exception parsing ends with, if the first unparsed slot raises one. */
  function ParseError(buf: seq<byte>, n: nat): Option<Error> {
    var m := |ParsedKeys(buf, n)|;
    if m < n && SlotAt(buf, m).Bad? then Some(SlotAt(buf, m).error) else None
  }

  /** keys are the keys of the slots read so far, none of which ended the parse. */
  ghost predicate ParsedSoFar(buf: seq<byte>, keys: seq<Key>) {
    forall j :: 0 <= j < |keys| ==> SlotAt(buf, j) == Keyed(keys[j]) && IsRealKey(keys[j])
  }

  lemma StartOfParse(buf: seq<byte>)
    ensures ParsedSoFar(buf, []) && IndexOf([]) == map[]
  {
  }

  lemma SlotKeyIsReal(buf: seq<byte>, cnt: nat)
    requires SlotAt(buf, cnt).Keyed?
    ensures IsRealKey(SlotAt(buf, cnt).key)
  {
    hide EntryOffset;
  }

  lemma ParseStep(buf: seq<byte>, keys: seq<Key>, k: Key)
    requires ParsedSoFar(buf, keys) && SlotAt(buf, |keys|) == Keyed(k)
    ensures ParsedSoFar(buf, keys + [k])
  {
    SlotKeyIsReal(buf, |keys|);
    hide EntryOffset, SlotAt, IsRealKey;
  }

  lemma IndexStep(keys: seq<Key>, k: Key)
    ensures IndexOf(keys + [k]) == IndexOf(keys)[IndicatorAt(keys + [k], |keys|) := EntryOffset(|keys|)]
  {
    hide EntryOffset, IndicatorAt;
    assert (keys + [k])[..|keys|] == keys;
  }

  lemma ParseStops(buf: seq<byte>, n: nat, keys: seq<Key>)
    requires ParsedSoFar(buf, keys) && |keys| <= n && (|keys| == n || !SlotAt(buf, |keys|).Keyed?)
    ensures ParsedKeys(buf, n) == keys
    ensures |keys| == n ==> ParseError(buf, n) == None
    ensures |keys| < n ==> ParseError(buf, n) == if SlotAt(buf, |keys|).Bad? then Some(SlotAt(buf, |keys|).error) else None
  {
    ParseIsUnique(buf, n, keys);
  }

  /** A slot the device left at its initial fill does not end the parse: 0xFF reads as a tester function. */
  lemma BlankSlotRaises(buf: seq<byte>, n: nat)
    requires |ParsedKeys(buf, n)| < n
    requires var off := EntryOffset(|ParsedKeys(buf, n)|); off + 1 < |buf| && buf[off] == 0xFF && buf[off + 1] == 0xFF
    ensures ParseError(buf, n) == Some(ValueError)
  {
  }

  // ---------- the index ----------

  /** The dictionary built from the response keys. */
  function IndexOf(keys: seq<Key>): (index: map<CycleIndicator, nat>) {
    if keys == [] then map[]
    else IndexOf(keys[..|keys| - 1])[IndicatorAt(keys, |keys| - 1) := EntryOffset(|keys| - 1)]
  }

  /** Occurrence c of a key is in the index exactly if there are more than c such responses, at that one's slot. */
  lemma {:induction false} IndexLookup(keys: seq<Key>, k: Key, c: nat)
    requires forall j :: 0 <= j < |keys| ==> IsRealKey(keys[j])
    requires IsRealKey(k) || k.NoKey?
    ensures IndicatorOf(k, c) in IndexOf(keys) <==> c < Count(keys, k)
    ensures c < Count(keys, k) ==> IndexOf(keys)[IndicatorOf(k, c)] == EntryOffset(Positions(keys, k)[c])
  {
    if keys != [] {
      var before, last := keys[..|keys| - 1], |keys| - 1;
      IndexLookup(before, k, c);
      if IndicatorAt(keys, last) == IndicatorOf(k, c) {
        IndicatorIsInjective(keys[last], Occurrence(keys, last), k, c);
        PositionOfOccurrence(keys, last);
      } else if keys[last] == k {
        assert Occurrence(keys, last) == Count(before, k) != c;
      }
    }
  }

  // ---------- matching under reordering ----------

  /**
   * What the response slots answer: slot j the command origin[j], which has the slot's key, or none. A
   * slot that answers none is unsolicited, or a dummy put in the place of an aborted command.
   */
  ghost predicate IsReordering(commands: seq<Key>, responses: seq<Key>, origin: seq<Option<nat>>) {
    && |origin| == |responses|
    && (forall j :: 0 <= j < |responses| ==>
          && IsRealKey(responses[j])
          && (origin[j].Some? ==> origin[j].value < |commands| && commands[origin[j].value] == responses[j]))
  }

  /**
   * Per key, the answers are a queue-order prefix of the commands with that key, and slots that answer
   * no command come after all commands with their key have been answered.
   */
  ghost predicate StablePerKey(commands: seq<Key>, responses: seq<Key>, origin: seq<Option<nat>>)
    requires |origin| == |responses|
  {
    forall k, c: nat :: c < Count(responses, k) ==> AnswersInTurn(commands, responses, origin, k, c)
  }

  /** The response that is occurrence c of its key answers the command that is. */
  ghost predicate AnswersInTurn(commands: seq<Key>, responses: seq<Key>, origin: seq<Option<nat>>, k: Key, c: nat)
    requires |origin| == |responses| && c < Count(responses, k)
  {
    origin[Positions(responses, k)[c]] == if c < Count(commands, k) then Some(Positions(commands, k)[c]) else None
  }

  /** Looking up command i finds exactly the slot that answers it, or nothing if none does. */
  ghost predicate FindsOwnResponse(commands: seq<Key>, responses: seq<Key>, origin: seq<Option<nat>>, i: nat)
    requires i < |commands| && |origin| == |responses|
  {
    var index := IndexOf(responses);
    var indicator := IndicatorAt(commands, i);
    && (indicator in index <==> Some(i) in origin)
    && (forall j :: 0 <= j < |origin| && origin[j] == Some(i) ==> indicator in index && index[indicator] == EntryOffset(j))
  }

  lemma StableImpliesFinds(commands: seq<Key>, responses: seq<Key>, origin: seq<Option<nat>>, i: nat)
    requires IsReordering(commands, responses, origin) && StablePerKey(commands, responses, origin)
    requires i < |commands| && (IsRealKey(commands[i]) || commands[i].NoKey?)
    ensures FindsOwnResponse(commands, responses, origin, i)
  {
    var k := commands[i];
    var c := Occurrence(commands, i);
    IndexLookup(responses, k, c);
    PositionOfOccurrence(commands, i);
    if c < Count(responses, k) {
      assert AnswersInTurn(commands, responses, origin, k, c);
      assert origin[Positions(responses, k)[c]] == Some(i);
    }
    forall j | 0 <= j < |origin| && origin[j] == Some(i)
      ensures c < Count(responses, k) && Positions(responses, k)[c] == j
    {
      PositionOfOccurrence(responses, j);
      var c' := Occurrence(responses, j);
      assert AnswersInTurn(commands, responses, origin, k, c');
      OccurrenceOfPosition(commands, k, c');
    }
  }

  /** If command i finds the slot that answers it, the two are the same occurrence of their key. */
  lemma OwnSlotHasSameOccurrence(commands: seq<Key>, responses: seq<Key>, origin: seq<Option<nat>>, i: nat, j: nat)
    requires IsReordering(commands, responses, origin) && i < |commands| && j < |responses| && origin[j] == Some(i)
    requires FindsOwnResponse(commands, responses, origin, i)
    ensures Occurrence(responses, j) == Occurrence(commands, i)
  {
    var k := responses[j];
    var c := Occurrence(commands, i);
    IndexLookup(responses, k, c);
    SlotsAreDistinct(Positions(responses, k)[c], j);
    OccurrenceOfPosition(responses, k, c);
  }

  /** If every command finds its own response, the responses of a key answer the commands of the key in turn. */
  lemma FindsImpliesInTurn(commands: seq<Key>, responses: seq<Key>, origin: seq<Option<nat>>, k: Key, c: nat)
    requires IsReordering(commands, responses, origin) && c < Count(responses, k)
    requires forall i :: 0 <= i < |commands| && IsRealKey(commands[i]) ==> FindsOwnResponse(commands, responses, origin, i)
    ensures AnswersInTurn(commands, responses, origin, k, c)
  {
    hide IndicatorAt, FindsOwnResponse;
    var j := Positions(responses, k)[c];
    assert IsRealKey(k);
    OccurrenceOfPosition(responses, k, c);
    if c < Count(commands, k) {
      OccurrenceOfPosition(commands, k, c);
      FoundSlotAnswers(commands, responses, origin, Positions(commands, k)[c], j);
    } else if origin[j].Some? {
      OwnSlotHasSameOccurrence(commands, responses, origin, origin[j].value, j);
      PositionOfOccurrence(commands, origin[j].value);
      assert false;
    }
  }

  /** A command that finds its own response is answered by the slot of the same occurrence, if there is one. */
  lemma FoundSlotAnswers(commands: seq<Key>, responses: seq<Key>, origin: seq<Option<nat>>, i: nat, j: nat)
    requires IsReordering(commands, responses, origin) && i < |commands| && j < |responses| && commands[i] == responses[j]
    requires FindsOwnResponse(commands, responses, origin, i)
    requires Occurrence(commands, i) == Occurrence(responses, j)
    ensures origin[j] == Some(i)
  {
    hide EntryOffset, IndexOf;
    PositionOfOccurrence(responses, j);
    IndexLookup(responses, responses[j], Occurrence(responses, j));
    var j' :| 0 <= j' < |origin| && origin[j'] == Some(i);
    SlotsAreDistinct(j, j');
  }

  lemma SlotsAreDistinct(j: nat, k: nat)
    ensures EntryOffset(j) == EntryOffset(k) ==> j == k
  {
    if j < k {
      EntrySlotsDisjoint(j, k);
    } else if k < j {
      EntrySlotsDisjoint(k, j);
    }
  }

  /**
   * Response matching, exactly: every command finds its own response, or none if it has none, for
   * just those returned slots that answer the commands sharing a key in queue order, with no gap.
   */
  lemma MatchingIsExact(commands: seq<Key>, responses: seq<Key>, origin: seq<Option<nat>>)
    requires IsReordering(commands, responses, origin)
    ensures StablePerKey(commands, responses, origin)
       <==> forall i :: 0 <= i < |commands| && IsRealKey(commands[i]) ==> FindsOwnResponse(commands, responses, origin, i)
  {
    hide FindsOwnResponse, AnswersInTurn;
    if StablePerKey(commands, responses, origin) {
      forall i | 0 <= i < |commands| && IsRealKey(commands[i])
        ensures FindsOwnResponse(commands, responses, origin, i)
      {
        StableImpliesFinds(commands, responses, origin, i);
      }
    }
    if forall i :: 0 <= i < |commands| && IsRealKey(commands[i]) ==> FindsOwnResponse(commands, responses, origin, i) {
      forall k, c: nat | c < Count(responses, k)
        ensures AnswersInTurn(commands, responses, origin, k, c)
      {
        FindsImpliesInTurn(commands, responses, origin, k, c);
      }
    }
  }

  // ---------- aborted commands ----------

  /**
   * A buffer in queue order in which a dummy response, of a key no command has, stands in the slot of
   * each aborted command.
   */
  ghost predicate DummiesInPlace(commands: seq<Key>, responses: seq<Key>) {
    && |responses| == |commands|
    && forall j :: 0 <= j < |responses| ==>
         && IsRealKey(responses[j])
         && (responses[j] != commands[j] ==> responses[j] !in commands)
  }

  /** Slot j answers command j, unless it holds a dummy. */
  function InPlace(commands: seq<Key>, responses: seq<Key>): (origin: seq<Option<nat>>)
    requires |responses| == |commands|
    ensures |origin| == |responses|
  {
    seq(|responses|, j requires 0 <= j < |responses| => if responses[j] == commands[j] then Some(j) else None)
  }

  /** An aborted command followed by an answered one with the same key. */
  ghost predicate AnsweredAfterAborted(commands: seq<Key>, responses: seq<Key>)
    requires |responses| == |commands|
  {
    exists a, b :: 0 <= a < b < |commands| && commands[a] == commands[b] && responses[a] != commands[a] && responses[b] == commands[b]
  }

  lemma AnsweredOccurrence(commands: seq<Key>, responses: seq<Key>, i: nat)
    requires DummiesInPlace(commands, responses) && i < |commands| && responses[i] == commands[i]
    ensures EarlierEqual(responses, i) <= EarlierEqual(commands, i)
    ensures Occurrence(responses, i) == Occurrence(commands, i) <==> EarlierEqual(responses, i) == EarlierEqual(commands, i)
  {
    OccurrenceCountsEarlierEqual(responses, i);
    OccurrenceCountsEarlierEqual(commands, i);
    hide Occurrence;
    var part, whole := EarlierEqual(responses, i), EarlierEqual(commands, i);
    forall j | j in part
      ensures j in whole
    {
      assert responses[j] in commands;
    }
    hide EarlierEqual, DummiesInPlace;
    SubsetOfSameSize(part, whole);
  }

  lemma SubsetOfSameSize(part: set<int>, whole: set<int>)
    requires part <= whole
    ensures |part| <= |whole| && (|part| == |whole| <==> part == whole)
  {
    assert whole == part + (whole - part);
  }

  /** Nothing is left to find for an aborted command none of whose namesakes was answered after it. */
  lemma AbortedOccurrence(commands: seq<Key>, responses: seq<Key>, i: nat)
    requires DummiesInPlace(commands, responses) && !AnsweredAfterAborted(commands, responses)
    requires i < |commands| && responses[i] != commands[i]
    ensures Count(responses, commands[i]) <= Occurrence(commands, i)
  {
    var k := commands[i];
    CountIsCardinality(responses, k);
    OccurrenceCountsEarlierEqual(commands, i);
    var answered, earlier := IndicesOf(responses, k), EarlierEqual(commands, i);
    SubsetOfSameSize(answered, earlier);
  }

  /**
   * Dummies in place of aborted commands: an aborted command gets NOT_FOUND and every other its own
   * response, just if no aborted command is followed by an answered one with its key.
   */
  lemma AbortedMatchingIsExact(commands: seq<Key>, responses: seq<Key>)
    requires DummiesInPlace(commands, responses)
    ensures IsReordering(commands, responses, InPlace(commands, responses))
    ensures !AnsweredAfterAborted(commands, responses)
       <==> forall i :: 0 <= i < |commands| && IsRealKey(commands[i]) ==> FindsInPlace(commands, responses, i)
  {
    hide FindsInPlace, AnsweredAfterAborted;
    if !AnsweredAfterAborted(commands, responses) {
      forall i | 0 <= i < |commands| && IsRealKey(commands[i])
        ensures FindsInPlace(commands, responses, i)
      {
        InPlaceIsFound(commands, responses, i);
      }
    }
    if AnsweredAfterAborted(commands, responses) {
      var b := MisfoundInPlace(commands, responses);
    }
  }

  /** Command i finds slot i, or nothing if it was aborted. */
  ghost predicate FindsInPlace(commands: seq<Key>, responses: seq<Key>, i: nat)
    requires i < |commands| && |responses| == |commands|
  {
    var index, indicator := IndexOf(responses), IndicatorAt(commands, i);
    if responses[i] == commands[i] then indicator in index && index[indicator] == EntryOffset(i) else indicator !in index
  }

  lemma InPlaceIsFound(commands: seq<Key>, responses: seq<Key>, i: nat)
    requires DummiesInPlace(commands, responses) && !AnsweredAfterAborted(commands, responses)
    requires i < |commands| && (IsRealKey(commands[i]) || commands[i].NoKey?)
    ensures FindsInPlace(commands, responses, i)
  {
    hide EntryOffset, IndexOf;
    IndexLookup(responses, commands[i], Occurrence(commands, i));
    if responses[i] == commands[i] {
      AnsweredOccurrence(commands, responses, i);
      assert EarlierEqual(responses, i) == EarlierEqual(commands, i);
      PositionOfOccurrence(responses, i);
    } else {
      AbortedOccurrence(commands, responses, i);
    }
  }

  lemma MisfoundInPlace(commands: seq<Key>, responses: seq<Key>) returns (b: nat)
    requires DummiesInPlace(commands, responses) && AnsweredAfterAborted(commands, responses)
    ensures b < |commands| && IsRealKey(commands[b]) && !FindsInPlace(commands, responses, b)
  {
    hide EntryOffset, IndexOf;
    var a: nat;
    a, b :| 0 <= a < b < |commands| && commands[a] == commands[b] && responses[a] != commands[a] && responses[b] == commands[b];
    AnsweredOccurrence(commands, responses, b);
    assert a in EarlierEqual(commands, b) && a !in EarlierEqual(responses, b);
    var k, c := commands[b], Occurrence(commands, b);
    IndexLookup(responses, k, c);
    if c < Count(responses, k) {
      OccurrenceOfPosition(responses, k, c);
      SlotsAreDistinct(Positions(responses, k)[c], b);
    }
  }

  /** Two commands with one tag, the first aborted: it is handed the second one's response, and the second gets NOT_FOUND. */
  lemma AbortedGetsLaterResponse(tag: byte)
    ensures var commands, responses := [UpiuKey(tag), UpiuKey(tag)], [TesterKey(DUMMY_RESPONSE_FOR_TASK_MGMT), UpiuKey(tag)];
      && DummiesInPlace(commands, responses)
      && IndicatorAt(commands, 0) in IndexOf(responses)
      && IndexOf(responses)[IndicatorAt(commands, 0)] == EntryOffset(1)
      && IndicatorAt(commands, 1) !in IndexOf(responses)
  {
    var k := UpiuKey(tag);
    var commands, responses := [k, k], [TesterKey(DUMMY_RESPONSE_FOR_TASK_MGMT), k];
    assert commands[..0] == [] && commands[..1] == [k] && [k][..0] == [];
    assert Occurrence(commands, 0) == 0 && Occurrence(commands, 1) == 1;
    assert responses[..1] == [responses[0]] && [responses[0]][..0] == [];
    assert Positions(responses, k) == [1];
    IndexLookup(responses, k, 0);
    IndexLookup(responses, k, 1);
  }
}
