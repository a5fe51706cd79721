/** Which occurrence of its value an element of a sequence is, and where a given occurrence sits. */
module Occurrences {

  /** The indices at which k occurs in s, in order. */
  function Positions<T(==)>(s: seq<T>, k: T): (p: seq<nat>)
    ensures forall c :: 0 <= c < |p| ==> p[c] < |s| && s[p[c]] == k
  {
    if s == [] then []
    else
      var before := Positions(s[..|s| - 1], k);
      if s[|s| - 1] == k then before + [|s| - 1] else before
  }

  function Count<T(==)>(s: seq<T>, k: T): nat {
    |Positions(s, k)|
  }

  /** How many earlier elements equal element i. */
  function Occurrence<T(==)>(s: seq<T>, i: nat): nat
    requires i < |s|
  {
    Count(s[..i], s[i])
  }

  lemma PositionOfOccurrence<T>(s: seq<T>, i: nat)
    requires i < |s|
    ensures Occurrence(s, i) < Count(s, s[i])
    ensures Positions(s, s[i])[Occurrence(s, i)] == i
  {
    var before := s[..|s| - 1];
    if i < |s| - 1 {
      PositionOfOccurrence(before, i);
      assert before[..i] == s[..i];
    }
  }

  lemma OccurrenceOfPosition<T>(s: seq<T>, k: T, c: nat)
    requires c < Count(s, k)
    ensures Occurrence(s, Positions(s, k)[c]) == c
  {
    var before := s[..|s| - 1];
    if c < Count(before, k) {
      OccurrenceOfPosition(before, k, c);
      var i := Positions(before, k)[c];
      assert before[..i] == s[..i];
    } else {
      assert s[|s| - 1] == k && Positions(s, k)[c] == |s| - 1;
    }
  }

  /** An element is identified by its value and its occurrence number. */
  lemma OccurrenceIsUnique<T>(s: seq<T>, i: nat, j: nat)
    requires i < |s| && j < |s| && s[i] == s[j] && Occurrence(s, i) == Occurrence(s, j)
    ensures i == j
  {
    PositionOfOccurrence(s, i);
    PositionOfOccurrence(s, j);
  }

  /** The set of indices at which k occurs in s. */
  function IndicesOf<T(==)>(s: seq<T>, k: T): set<int> {
    set j | 0 <= j < |s| && s[j] == k
  }

  lemma CountIsCardinality<T>(s: seq<T>, k: T)
    ensures Count(s, k) == |IndicesOf(s, k)|
  {
    if s == [] {
      assert IndicesOf(s, k) == {};
    } else {
      var n := |s| - 1;
      CountIsCardinality(s[..n], k);
      assert IndicesOf(s, k) == if s[n] == k then IndicesOf(s[..n], k) + {n} else IndicesOf(s[..n], k);
    }
  }

  /** The indices of the elements before i that equal element i. */
  function EarlierEqual<T(==)>(s: seq<T>, i: nat): set<int>
    requires i < |s|
  {
    set j | 0 <= j < i && s[j] == s[i]
  }

  /** The occurrence number is the number of earlier equal elements. */
  lemma OccurrenceCountsEarlierEqual<T>(s: seq<T>, i: nat)
    requires i < |s|
    ensures Occurrence(s, i) == |EarlierEqual(s, i)|
  {
    CountIsCardinality(s[..i], s[i]);
    assert IndicesOf(s[..i], s[i]) == EarlierEqual(s, i);
  }
}

/** The per-key counters that tell repeated uses of one tag or tester function apart. */
module CycleTracker {
  import opened Common
  import opened Bytes
  import opened Occurrences

  const CMD_UPIU: byte := 0x00
  const DUMMY_RESPONSE_FOR_PREFETCH_HPB_WRITE_BUFFER: byte := 0xFD
  const DUMMY_RESPONSE_FOR_TASK_MGMT: byte := 0xFE
  const FUNC_TYPE_COUNT: nat := 14

  /** The values of the enumeration CmdSeqFuncType. */
  predicate IsFuncType(code: byte) {
    code <= 0x0B || code == DUMMY_RESPONSE_FOR_PREFETCH_HPB_WRITE_BUFFER || code == DUMMY_RESPONSE_FOR_TASK_MGMT
  }

  type FuncType = f: int | 0 <= f <= 0x0B || f == 0xFD || f == 0xFE

  datatype CycleIndicator = CycleIndicator(cycle: int, funcType: FuncType, tasktag: int)

  /** What a command or response is told apart by; NoKey for a command whose numbering was refused. */
  datatype Key = UpiuKey(tag: byte) | TesterKey(func: byte) | NoKey

  predicate IsRealKey(k: Key) {
    match k
    case UpiuKey(_) => true
    case TesterKey(f) => IsFuncType(f) && f != CMD_UPIU
    case NoKey => false
  }

  /** The indicator of occurrence c of key k; an object that was never numbered has the default one. */
  function IndicatorOf(k: Key, c: nat): CycleIndicator {
    match k
    case UpiuKey(tag) => CycleIndicator(c, CMD_UPIU, tag)
    case TesterKey(f) => if IsFuncType(f) then CycleIndicator(c, f, -1) else CycleIndicator(-1, CMD_UPIU, -1)
    case NoKey => CycleIndicator(-1, CMD_UPIU, -1)
  }

  lemma IndicatorIsInjective(k: Key, c: nat, k': Key, c': nat)
    requires IsRealKey(k) && IndicatorOf(k, c) == IndicatorOf(k', c')
    requires IsRealKey(k') || k'.NoKey?
    ensures k == k' && c == c'
  {
    assert IndicatorOf(k, c).cycle >= 0;
  }

  /** The indicator of element i of a sequence of keys. */
  function IndicatorAt(keys: seq<Key>, i: nat): CycleIndicator
    requires i < |keys|
  {
    IndicatorOf(keys[i], Occurrence(keys, i))
  }

  /** Indicators within a package are pairwise distinct. */
  lemma IndicatorsAreDistinct(keys: seq<Key>, i: nat, j: nat)
    requires i < |keys| && j < |keys| && i != j
    requires IsRealKey(keys[i]) && (IsRealKey(keys[j]) || keys[j].NoKey?)
    ensures IndicatorAt(keys, i) != IndicatorAt(keys, j)
  {
    if IndicatorAt(keys, i) == IndicatorAt(keys, j) {
      IndicatorIsInjective(keys[i], Occurrence(keys, i), keys[j], Occurrence(keys, j));
      OccurrenceIsUnique(keys, i, j);
    }
  }

  /** The list index a tester function is counted at. */
  function FuncIndex(f: FuncType): (i: nat)
    ensures i < FUNC_TYPE_COUNT
  {
    if f == DUMMY_RESPONSE_FOR_PREFETCH_HPB_WRITE_BUFFER then FUNC_TYPE_COUNT - 2
    else if f == DUMMY_RESPONSE_FOR_TASK_MGMT then FUNC_TYPE_COUNT - 1
    else f
  }

  /** The key a pair of arguments counts under, or the exception the pair raises. */
  function KeyOfCall(func: FuncType, tasktag: Option<int>): Result<Key> {
    if func == CMD_UPIU then
      match tasktag
      case None => Err(TasktagShallNotBeNone)
      case Some(t) => if t > 255 || t < 0 then Err(InvalidTasktagValue) else Ok(UpiuKey(t))
    else if tasktag.Some? then Err(TasktagShallBeNone)
    else Ok(TesterKey(func))
  }

  /** A UPIU is counted under a tag in 0..255 and nothing else, a tester function under its code and without a tag. */
  lemma KeyOfCallExact(func: FuncType, tasktag: Option<int>)
    ensures var r := KeyOfCall(func, tasktag);
      && (r == Err(TasktagShallNotBeNone) <==> func == 0 && tasktag == None)
      && (r == Err(InvalidTasktagValue) <==> func == 0 && tasktag.Some? && !(0 <= tasktag.value <= 255))
      && (r == Err(TasktagShallBeNone) <==> func != 0 && tasktag.Some?)
      && (r.Ok? && func == 0 ==> r.value.UpiuKey? && Some(r.value.tag) == tasktag)
      && (r.Ok? && func != 0 ==> r.value == TesterKey(func))
      && (r.Err? ==> r.error in {TasktagShallNotBeNone, InvalidTasktagValue, TasktagShallBeNone})
  {
  }

  class CycleTracker {
    var tasktagCycle: seq<int>
    var cmdseqFuncCycle: seq<int>
    /** Every key counted since the last reset. */
    ghost var history: seq<Key>

    ghost predicate Valid()
      reads this
    {
      && |tasktagCycle| == 256
      && |cmdseqFuncCycle| == FUNC_TYPE_COUNT
      && (forall t: byte :: tasktagCycle[t] == Count(history, UpiuKey(t)) - 1)
      && (forall f: FuncType :: f != CMD_UPIU ==> cmdseqFuncCycle[FuncIndex(f)] == Count(history, TesterKey(f)) - 1)
    }

    constructor ()
      ensures Valid() && history == []
    {
      tasktagCycle := seq(256, _ => -1);
      cmdseqFuncCycle := seq(FUNC_TYPE_COUNT, _ => -1);
      history := [];
    }

    method Reset()
      modifies this
      ensures Valid() && history == []
    {
      tasktagCycle := seq(256, _ => -1);
      cmdseqFuncCycle := seq(FUNC_TYPE_COUNT, _ => -1);
      history := [];
    }

    method GetCycle(func: FuncType, tasktag: Option<int>) returns (r: Result<CycleIndicator>)
      requires Valid()
      ensures match KeyOfCall(func, tasktag)
              case Err(e) => r == Err(e)
              case Ok(k) =>
                && r.Ok? && r.value.funcType == func && r.value.cycle == Count(history, k) - 1
                && r.value.tasktag == if k.UpiuKey? then k.tag else -1
    {
      if func == CMD_UPIU {
        if tasktag.None? { return Err(TasktagShallNotBeNone); }
        if tasktag.value > 255 || tasktag.value < 0 { return Err(InvalidTasktagValue); }
        return Ok(CycleIndicator(tasktagCycle[tasktag.value], CMD_UPIU, tasktag.value));
      } else {
        if tasktag.Some? { return Err(TasktagShallBeNone); }
        if func == DUMMY_RESPONSE_FOR_PREFETCH_HPB_WRITE_BUFFER {
          return Ok(CycleIndicator(cmdseqFuncCycle[FUNC_TYPE_COUNT - 2], func, -1));
        } else if func == DUMMY_RESPONSE_FOR_TASK_MGMT {
          return Ok(CycleIndicator(cmdseqFuncCycle[FUNC_TYPE_COUNT - 1], func, -1));
        } else {
          return Ok(CycleIndicator(cmdseqFuncCycle[func], func, -1));
        }
      }
    }

    /** Count one more use; the indicator returned is that of this occurrence of the key. */
    method IncrementCycle(func: FuncType, tasktag: Option<int>) returns (r: Result<CycleIndicator>)
      requires Valid()
      modifies this
      ensures Valid()
      ensures match KeyOfCall(func, tasktag)
              case Err(e) => r == Err(e) && history == old(history)
              case Ok(k) =>
                && history == old(history) + [k]
                && r == Ok(IndicatorAt(history, |history| - 1))
    {
      ghost var was := history;
      if func == CMD_UPIU {
        if tasktag.None? { return Err(TasktagShallNotBeNone); }
        if tasktag.value > 255 || tasktag.value < 0 { return Err(InvalidTasktagValue); }
        tasktagCycle := tasktagCycle[tasktag.value := tasktagCycle[tasktag.value] + 1];
        history := history + [UpiuKey(tasktag.value)];
      } else {
        if tasktag.Some? { return Err(TasktagShallBeNone); }
        var at := if func == DUMMY_RESPONSE_FOR_PREFETCH_HPB_WRITE_BUFFER then FUNC_TYPE_COUNT - 2
                  else if func == DUMMY_RESPONSE_FOR_TASK_MGMT then FUNC_TYPE_COUNT - 1
                  else func;
        cmdseqFuncCycle := cmdseqFuncCycle[at := cmdseqFuncCycle[at] + 1];
        history := history + [TesterKey(func)];
      }
      assert history[..|history| - 1] == was;
      r := GetCycle(func, tasktag);
    }
  }
}
