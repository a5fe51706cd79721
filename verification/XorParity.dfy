/** XOR parity over pages of bytes. */
module XorParity {
  import opened Common
  import opened Sequences

  type Page = seq<bv8>

  /** The XOR of byte j over all pages. */
  function Column(pages: seq<Page>, j: nat): bv8
    requires forall p :: p in pages ==> j < |p|
  {
    if pages == [] then 0 else Column(pages[..|pages| - 1], j) ^ pages[|pages| - 1][j]
  }

  function Zeros(n: nat): (r: Page)
    ensures |r| == n
  {
    seq(n, _ => 0)
  }

  /** The number of bytes asked for: the length of the first page if none is given. */
  function CheckLen(pages: seq<Page>, checkLen: nat): Result<nat> {
    if checkLen != 0 then Ok(checkLen) else if pages == [] then Err(IndexError) else Ok(|pages[0]|)
  }

  /** The initial accumulator, cut to the length asked for; a missing or empty one counts as zeros. */
  function Start(initXor: Option<Page>, n: nat): Page {
    if initXor.None? || initXor.value == [] then Zeros(n)
    else initXor.value[..if n < |initXor.value| then n else |initXor.value|]
  }

  predicate LongEnough(pages: seq<Page>, n: nat) {
    forall p :: p in pages ==> n <= |p|
  }

  function Parity(pages: seq<Page>, start: Page): (r: Page)
    requires LongEnough(pages, |start|)
    ensures |r| == |start|
  {
    seq(|start|, j requires 0 <= j < |start| => start[j] ^ Column(pages, j))
  }

  /** Every column XORed on top of the accumulator, or IndexError if a page is too short. */
  function XorOf(pages: seq<Page>, initXor: Option<Page>, checkLen: nat): Result<Page> {
    match CheckLen(pages, checkLen)
    case Err(e) => Err(e)
    case Ok(n) =>
      var start := Start(initXor, n);
      if LongEnough(pages, |start|) then Ok(Parity(pages, start)) else Err(IndexError)
  }

  lemma NoPagesNoChange(start: Page)
    ensures Parity([], start) == start
  {
    forall j | 0 <= j < |start|
      ensures Parity([], start)[j] == start[j]
    {
      XorCancels(start[j], 0);
    }
  }

  /** XOR a page into the buffer; a short page is an IndexError part of the way through. */
  method XorInto(output: array<bv8>, temp: Page) returns (ok: bool)
    modifies output
    ensures ok <==> output.Length <= |temp|
    ensures ok ==> forall j :: 0 <= j < output.Length ==> output[j] == old(output[j]) ^ temp[j]
  {
    for i := 0 to output.Length
      invariant i <= |temp|
      invariant forall j :: 0 <= j < i ==> output[j] == old(output[j]) ^ temp[j]
      invariant forall j :: i <= j < output.Length ==> output[j] == old(output[j])
    {
      if i >= |temp| { return false; }
      output[i] := output[i] ^ temp[i];
    }
    return true;
  }

  /** Accumulate page by page in a buffer of its own. */
  method BytearrayXor(pages: seq<Page>, initXor: Option<Page>, checkLen: nat) returns (r: Result<Page>)
    ensures r == XorOf(pages, initXor, checkLen)
  {
    hide Column, Parity;
    var n := checkLen;
    if n == 0 {
      if pages == [] { return Err(IndexError); }
      n := |pages[0]|;
    }
    var start := Start(initXor, n);
    NoPagesNoChange(start);
    var output := new bv8[|start|](i requires 0 <= i < |start| => start[i]);
    for k := 0 to |pages|
      invariant LongEnough(pages[..k], |start|)
      invariant output[..] == Parity(pages[..k], start)
    {
      assert pages[k] in pages;
      var ok := XorInto(output, pages[k]);
      if !ok { return Err(IndexError); }
      ParityStep(pages, k, start);
    }
    assert pages[..|pages|] == pages;
    return Ok(output[..]);
  }

  lemma ParityStep(pages: seq<Page>, k: nat, start: Page)
    requires k < |pages| && LongEnough(pages[..k], |start|) && |start| <= |pages[k]|
    ensures LongEnough(pages[..k + 1], |start|)
    ensures forall j :: 0 <= j < |start| ==> Parity(pages[..k + 1], start)[j] == Parity(pages[..k], start)[j] ^ pages[k][j]
  {
    assert pages[..k + 1] == pages[..k] + [pages[k]];
    assert pages[..k + 1][..k] == pages[..k];
    forall j | 0 <= j < |start|
      ensures Parity(pages[..k + 1], start)[j] == Parity(pages[..k], start)[j] ^ pages[k][j]
    {
      XorAssociative(start[j], Column(pages[..k], j), pages[k][j]);
    }
  }

  lemma XorAssociative(a: bv8, b: bv8, c: bv8)
    ensures a ^ (b ^ c) == (a ^ b) ^ c
    ensures a ^ b == b ^ a
  {
  }

  /** The length of the result: what is asked for, or that of the first page, but no more than a nonempty initial value has. */
  function ResultLength(pages: seq<Page>, initXor: Option<Page>, checkLen: nat): nat
    requires checkLen != 0 || pages != []
  {
    var n := if checkLen != 0 then checkLen else |pages[0]|;
    if initXor.Some? && 0 < |initXor.value| < n then |initXor.value| else n
  }

  /** The call fails exactly for an empty list without a length and for a page shorter than the result. */
  lemma XorErrorExact(pages: seq<Page>, initXor: Option<Page>, checkLen: nat)
    ensures XorOf(pages, initXor, checkLen) == Err(IndexError) <==>
      (checkLen == 0 && pages == []) ||
      exists k :: 0 <= k < |pages| && |pages[k]| < ResultLength(pages, initXor, checkLen)
    ensures XorOf(pages, initXor, checkLen).Ok? ==> |XorOf(pages, initXor, checkLen).value| == ResultLength(pages, initXor, checkLen)
    ensures XorOf(pages, initXor, checkLen).Ok? || XorOf(pages, initXor, checkLen) == Err(IndexError)
  {
    hide Column;
    if checkLen != 0 || pages != [] {
      var m := ResultLength(pages, initXor, checkLen);
      assert |Start(initXor, CheckLen(pages, checkLen).value)| == m;
      if !LongEnough(pages, m) {
        var p :| p in pages && |p| < m;
        var k :| 0 <= k < |pages| && pages[k] == p;
      }
    }
  }

  /** Each byte of the result is that byte of the initial value, or zero without one, XORed with that of every page. */
  lemma XorBytes(pages: seq<Page>, initXor: Option<Page>, checkLen: nat, j: nat)
    requires XorOf(pages, initXor, checkLen).Ok? && j < |XorOf(pages, initXor, checkLen).value|
    ensures LongEnough(pages, j + 1)
    ensures XorOf(pages, initXor, checkLen).value[j] ==
      (if initXor.Some? && j < |initXor.value| then initXor.value[j] else 0) ^ Column(pages, j)
  {
    hide Column;
  }

  /** The XOR of no bytes is zero, and one more page changes a column by its byte. */
  lemma ColumnExact(pages: seq<Page>, page: Page, j: nat)
    requires LongEnough(pages, j + 1) && j < |page|
    ensures LongEnough(pages + [page], j + 1)
    ensures Column([], j) == 0 && Column(pages + [page], j) == Column(pages, j) ^ page[j]
  {
    assert (pages + [page])[..|pages|] == pages;
  }

  // ---------- the order of the pages does not matter ----------

  lemma {:induction false} ColumnConcat(a: seq<Page>, b: seq<Page>, j: nat)
    requires LongEnough(a, j + 1) && LongEnough(b, j + 1)
    ensures LongEnough(a + b, j + 1)
    ensures Column(a + b, j) == Column(a, j) ^ Column(b, j)
  {
    if b == [] {
      assert a + b == a;
    } else {
      var n := |b| - 1;
      assert (a + b)[..|a + b| - 1] == a + b[..n];
      ColumnConcat(a, b[..n], j);
      XorAssociative(Column(a, j), Column(b[..n], j), b[n][j]);
    }
  }

  /** Taking a page out of a column is XORing it in again. */
  lemma {:induction false} ColumnWithout(pages: seq<Page>, i: nat, j: nat)
    requires i < |pages| && LongEnough(pages, j + 1)
    ensures LongEnough(Without(pages, i), j + 1)
    ensures Column(pages, j) == Column(Without(pages, i), j) ^ pages[i][j]
  {
    var before, after := pages[..i], pages[i + 1..];
    assert pages == before + [pages[i]] + after;
    ColumnConcat(before, [pages[i]], j);
    ColumnConcat(before + [pages[i]], after, j);
    ColumnConcat(before, after, j);
    assert Column([pages[i]], j) == pages[i][j] by { assert [pages[i]][..0] == []; }
    XorSwap(Column(before, j), pages[i][j], Column(after, j));
  }

  lemma XorSwap(a: bv8, b: bv8, c: bv8)
    ensures (a ^ b) ^ c == (a ^ c) ^ b
  {
  }

  lemma {:induction false} ColumnOrderFree(a: seq<Page>, b: seq<Page>, j: nat)
    requires multiset(a) == multiset(b) && LongEnough(a, j + 1) && LongEnough(b, j + 1)
    ensures Column(a, j) == Column(b, j)
  {
    if a == [] {
      assert |b| == |multiset(b)| == |multiset(a)|;
    } else {
      var i := ReorderingWithoutLast(a, b);
      ColumnWithout(b, i, j);
      ColumnOrderFree(a[..|a| - 1], Without(b, i), j);
    }
  }

  lemma SamePages(a: seq<Page>, b: seq<Page>)
    requires multiset(a) == multiset(b)
    ensures forall p :: p in a <==> p in b
    ensures |a| == |b|
  {
    assert forall p :: p in a <==> p in multiset(a);
    assert forall p :: p in b <==> p in multiset(b);
    assert |a| == |multiset(a)| == |multiset(b)| == |b|;
  }

  lemma SameStartSameResult(a: seq<Page>, b: seq<Page>, start: Page)
    requires multiset(a) == multiset(b)
    ensures LongEnough(a, |start|) <==> LongEnough(b, |start|)
    ensures LongEnough(a, |start|) ==> Parity(a, start) == Parity(b, start)
  {
    hide Column;
    SamePages(a, b);
    if LongEnough(a, |start|) {
      forall j | 0 <= j < |start|
        ensures Parity(a, start)[j] == Parity(b, start)[j]
      {
        ColumnOrderFree(a, b, j);
      }
    }
  }

  /** With a length given, permuting the pages changes nothing, not even the error. */
  lemma PageOrderIsFree(a: seq<Page>, b: seq<Page>, initXor: Option<Page>, checkLen: nat)
    requires multiset(a) == multiset(b) && checkLen != 0
    ensures XorOf(a, initXor, checkLen) == XorOf(b, initXor, checkLen)
  {
    SameStartSameResult(a, b, Start(initXor, checkLen));
  }

  function Shorter(m: nat, n: nat): nat { if m < n then m else n }

  /**
   * With the length left to the first page, it changes nothing exactly if the two first pages ask for equally
   * long results, or some page is too short for either.
   */
  lemma PageOrderExact(a: seq<Page>, b: seq<Page>, initXor: Option<Page>)
    requires multiset(a) == multiset(b) && a != []
    ensures |a| == |b|
    ensures var m, n := |Start(initXor, |a[0]|)|, |Start(initXor, |b[0]|)|;
      XorOf(a, initXor, 0) == XorOf(b, initXor, 0) <==> m == n || exists p :: p in a && |p| < Shorter(m, n)
  {
    hide Parity;
    SamePages(a, b);
    var sa, sb := Start(initXor, |a[0]|), Start(initXor, |b[0]|);
    if |sa| == |sb| {
      StartsAgree(initXor, |a[0]|, |b[0]|);
    }
    SameStartSameResult(a, b, sa);
    SameStartSameResult(a, b, sb);
  }

  lemma StartsAgree(initXor: Option<Page>, m: nat, n: nat)
    requires |Start(initXor, m)| == |Start(initXor, n)|
    ensures Start(initXor, m) == Start(initXor, n)
  {
  }

  // ---------- accumulating in several calls ----------

  /** With a length given, XORing a + b is XORing b on top of the result for a. */
  lemma AccumulatesAcrossCalls(a: seq<Page>, b: seq<Page>, initXor: Option<Page>, checkLen: nat)
    requires checkLen != 0
    ensures var first := XorOf(a, initXor, checkLen);
      XorOf(a + b, initXor, checkLen) == if first.Ok? then XorOf(b, Some(first.value), checkLen) else first
  {
    hide Column;
    var start := Start(initXor, checkLen);
    var n := |start|;
    assert LongEnough(a + b, n) <==> LongEnough(a, n) && LongEnough(b, n) by {
      assert forall p :: p in a + b <==> p in a || p in b;
    }
    if LongEnough(a, n) && LongEnough(b, n) {
      var first := Parity(a, start);
      assert Start(Some(first), checkLen) == first;
      forall j | 0 <= j < n
        ensures Parity(a + b, start)[j] == Parity(b, first)[j]
      {
        ColumnConcat(a, b, j);
        XorAssociative(start[j], Column(a, j), Column(b, j));
      }
      assert Parity(a + b, start) == Parity(b, first);
    }
  }

  /** When the first call leaves the length to its first page, what splitting the pages over two calls costs. */
  predicate SplitAgrees(a: seq<Page>, b: seq<Page>, initXor: Option<Page>) {
    match XorOf(a, initXor, 0)
    case Err(_) => a != [] || XorOf(b, initXor, 0).Err?
    case Ok(first) =>
      && b != []
      && if first == [] then b[0] == [] else |first| <= |b[0]| || !LongEnough(b, |b[0]|)
  }

  /**
   * With no length given, two calls give what one does exactly if the second finds a page to take the
   * length from that is not shorter than the accumulator, or both fail.
   */
  lemma AccumulatesExact(a: seq<Page>, b: seq<Page>, initXor: Option<Page>)
    ensures var first := XorOf(a, initXor, 0);
      XorOf(a + b, initXor, 0) == (if first.Ok? then XorOf(b, Some(first.value), 0) else first)
      <==> SplitAgrees(a, b, initXor)
  {
    hide Column, Parity;
    if a == [] {
      assert a + b == b;
    } else {
      var n := |a[0]|;
      assert (a + b)[0] == a[0];
      var l := |Start(initXor, n)|;
      assert LongEnough(a + b, l) <==> LongEnough(a, l) && LongEnough(b, l) by {
        assert forall p :: p in a + b <==> p in a || p in b;
      }
      if b != [] {
        assert b[0] in b;
      }
      if n != 0 {
        AccumulatesAcrossCalls(a, b, initXor, n);
        assert XorOf(a, initXor, n) == XorOf(a, initXor, 0);
        assert XorOf(a + b, initXor, n) == XorOf(a + b, initXor, 0);
      }
    }
  }

  // ---------- recovery of a lost page ----------

  predicate EqualLengths(pages: seq<Page>, n: nat) {
    forall p :: p in pages ==> |p| == n
  }

  lemma XorCancels(a: bv8, b: bv8)
    ensures (a ^ b) ^ a == b
    ensures 0 ^ a == a
  {
  }

  /** Accumulating all pages but one from the parity gives the missing page, byte for byte. */
  lemma ParityRecovers(pages: seq<Page>, n: nat, i: nat)
    requires EqualLengths(pages, n) && i < |pages|
    ensures LongEnough(pages, |Zeros(n)|) && LongEnough(Without(pages, i), n)
    ensures Parity(Without(pages, i), Parity(pages, Zeros(n))) == pages[i]
  {
    hide Column;
    assert pages[i] in pages;
    assert forall p :: p in Without(pages, i) ==> p in pages;
    var parity := Parity(pages, Zeros(n));
    forall j | 0 <= j < n
      ensures Parity(Without(pages, i), parity)[j] == pages[i][j]
    {
      ColumnWithout(pages, i, j);
      XorCancels(Column(pages, j), 0);
      XorCancels(Column(Without(pages, i), j), pages[i][j]);
    }
  }

  /**
   * Recovery through the calls themselves: it works with the length left to the call or given, except that the
   * last of one page cannot be recovered with the length left to the call, for then no page is there to take it from.
   */
  lemma RecoveryExact(pages: seq<Page>, n: nat, i: nat, checkLen: nat)
    requires EqualLengths(pages, n) && i < |pages| && (checkLen == 0 || checkLen == n)
    ensures XorOf(pages, None, checkLen).Ok?
    ensures XorOf(Without(pages, i), Some(XorOf(pages, None, checkLen).value), checkLen) ==
      if checkLen == 0 && |pages| == 1 then Err(IndexError) else Ok(pages[i])
  {
    hide Column, Parity;
    assert pages[0] in pages && pages[i] in pages;
    ParityRecovers(pages, n, i);
    var parity := Parity(pages, Zeros(n));
    assert CheckLen(pages, checkLen) == Ok(n);
    assert XorOf(pages, None, checkLen) == Ok(parity);
    var rest := Without(pages, i);
    if rest != [] {
      assert rest[0] in pages;
    }
    if checkLen != 0 || |pages| != 1 {
      assert CheckLen(rest, checkLen) == Ok(n);
      assert Start(Some(parity), n) == parity;
    }
  }
}
