/** The retrieval tokenizer: separators to spaces, camel-case split, runs of [A-Za-z0-9], lower case. */
module Tokenizer {

  predicate IsLower(c: char) { 'a' <= c <= 'z' }

  predicate IsUpper(c: char) { 'A' <= c <= 'Z' }

  predicate IsDigit(c: char) { '0' <= c <= '9' }

  /** An ASCII letter or digit. */
  predicate IsAlnum(c: char) { IsLower(c) || IsUpper(c) || IsDigit(c) }

  /** A lower-case letter or digit followed by a capital. */
  predicate CamelBoundary(a: char, b: char) {
    (IsLower(a) || IsDigit(a)) && IsUpper(b)
  }

  function ToLower(c: char): char {
    if IsUpper(c) then (c as int + 32) as char else c
  }

  function Lower(s: string): (r: string)
    ensures |r| == |s|
  {
    seq(|s|, i requires 0 <= i < |s| => ToLower(s[i]))
  }

  function Replace(s: string, from: char, to: char): (r: string)
    ensures |r| == |s|
  {
    seq(|s|, i requires 0 <= i < |s| => if s[i] == from then to else s[i])
  }

  /** A space at every camel boundary. */
  function CamelSplit(s: string): string {
    if |s| < 2 then s
    else if CamelBoundary(s[0], s[1]) then [s[0], ' '] + CamelSplit(s[1..])
    else [s[0]] + CamelSplit(s[1..])
  }

  /** The length of the longest run of alphanumerics at the front. */
  function RunLength(s: string): (n: nat)
    ensures n <= |s|
    ensures forall i :: 0 <= i < n ==> IsAlnum(s[i])
    ensures n < |s| ==> !IsAlnum(s[n])
  {
    if s == "" || !IsAlnum(s[0]) then 0 else 1 + RunLength(s[1..])
  }

  /** The maximal runs of alphanumerics, left to right. */
  function Runs(s: string): seq<string> {
    if s == "" then []
    else if !IsAlnum(s[0]) then Runs(s[1..])
    else [s[..RunLength(s)]] + Runs(s[RunLength(s)..])
  }

  function LowerAll(words: seq<string>): (r: seq<string>)
    ensures |r| == |words|
  {
    seq(|words|, i requires 0 <= i < |words| => Lower(words[i]))
  }

  function Spaced(text: string): string {
    CamelSplit(Replace(Replace(text, '_', ' '), '-', ' '))
  }

  function Tokenize(text: string): seq<string> {
    LowerAll(Runs(Spaced(text)))
  }

  /** The words with a space between any two. */
  function Join(words: seq<string>): string {
    if words == [] then ""
    else if |words| == 1 then words[0]
    else words[0] + " " + Join(words[1..])
  }

  // ---------- how each stage treats a concatenation ----------

  /** A token ends between a and b. */
  predicate Separated(a: string, b: string) {
    a == "" || b == "" || !IsAlnum(a[|a| - 1]) || !IsAlnum(b[0])
  }

  lemma {:induction false} RunLengthIs(s: string, n: nat)
    requires n <= |s| && (forall i :: 0 <= i < n ==> IsAlnum(s[i])) && (n < |s| ==> !IsAlnum(s[n]))
    ensures RunLength(s) == n
  {
    if n > 0 {
      RunLengthIs(s[1..], n - 1);
    }
  }

  lemma RunsOfWord(w: string)
    requires w != "" && forall i :: 0 <= i < |w| ==> IsAlnum(w[i])
    ensures Runs(w) == [w]
  {
    RunLengthIs(w, |w|);
    assert w[..|w|] == w;
  }

  /** The first run of a, if it ends inside a or is separated from b, is the first run of a + b. */
  lemma {:induction false} FirstRun(a: string, b: string)
    requires a != "" && IsAlnum(a[0])
    requires RunLength(a) < |a| || b == "" || !IsAlnum(b[0])
    ensures var n := RunLength(a); n > 0 && Runs(a + b) == [a[..n]] + Runs(a[n..] + b)
  {
    var n := RunLength(a);
    RunLengthIs(a + b, n);
    assert (a + b)[..n] == a[..n] && (a + b)[n..] == a[n..] + b;
  }

  lemma SkipOne(a: string, b: string)
    requires a != "" && !IsAlnum(a[0])
    ensures Runs(a + b) == Runs(a[1..] + b)
  {
    assert (a + b)[1..] == a[1..] + b;
  }

  lemma {:induction false} RunsConcat(a: string, b: string)
    requires Separated(a, b)
    ensures Runs(a + b) == Runs(a) + Runs(b)
    decreases |a|
  {
    hide RunLength;
    if a == "" {
      assert a + b == b;
    } else if !IsAlnum(a[0]) {
      SkipOne(a, b);
      RunsConcat(a[1..], b);
    } else {
      var n := RunLength(a);
      FirstRun(a, b);
      RunsConcat(a[n..], b);
      assert Runs(a) == [a[..n]] + Runs(a[n..]);
    }
  }

  /** A run that reaches the end of a goes on into b. */
  lemma RunAcross(a: string, b: string)
    requires a != "" && RunLength(a) == |a| && b != "" && IsAlnum(b[0])
    ensures |Runs(a + b)| == |Runs(b)| && Runs(a) == [a]
  {
    var n, m := |a|, RunLength(b);
    RunLengthIs(a + b, n + m);
    assert (a + b)[n + m..] == b[m..];
    RunsOfWord(a);
  }

  /** Without a separation the last run of a and the first of b become one. */
  lemma {:induction false} RunsMerge(a: string, b: string)
    requires !Separated(a, b)
    ensures |Runs(a + b)| == |Runs(a)| + |Runs(b)| - 1
    decreases |a|
  {
    hide RunLength;
    if !IsAlnum(a[0]) {
      SkipOne(a, b);
      RunsMerge(a[1..], b);
    } else {
      var n := RunLength(a);
      if n < |a| {
        FirstRun(a, b);
        RunsMerge(a[n..], b);
        assert Runs(a) == [a[..n]] + Runs(a[n..]);
      } else {
        RunAcross(a, b);
      }
    }
  }

  /** What CamelSplit puts between a and b. */
  function Gap(a: string, b: string): string {
    if a != "" && b != "" && CamelBoundary(a[|a| - 1], b[0]) then " " else ""
  }

  lemma {:induction false} CamelSplitConcat(a: string, b: string)
    ensures CamelSplit(a + b) == CamelSplit(a) + Gap(a, b) + CamelSplit(b)
  {
    if a == "" {
      assert a + b == b;
    } else if b == "" {
      assert a + b == a;
    } else if |a| == 1 {
      assert (a + b)[1..] == b;
    } else {
      assert (a + b)[1..] == a[1..] + b;
      CamelSplitConcat(a[1..], b);
    }
  }

  lemma {:induction false} CamelSplitEnds(s: string)
    requires s != ""
    ensures var r := CamelSplit(s); r != "" && r[0] == s[0] && r[|r| - 1] == s[|s| - 1]
  {
    if |s| >= 2 {
      CamelSplitEnds(s[1..]);
    }
  }

  lemma {:induction false} SpacedConcat(a: string, b: string)
    ensures Spaced(a + b) == Spaced(a) + Gap(a, b) + Spaced(b)
  {
    var ra, rb := Replace(Replace(a, '_', ' '), '-', ' '), Replace(Replace(b, '_', ' '), '-', ' ');
    assert Replace(Replace(a + b, '_', ' '), '-', ' ') == ra + rb;
    CamelSplitConcat(ra, rb);
  }

  lemma {:induction false} SpacedSeparated(a: string, b: string)
    ensures Separated(Spaced(a), Spaced(b)) <==> Separated(a, b)
  {
    var ra, rb := Replace(Replace(a, '_', ' '), '-', ' '), Replace(Replace(b, '_', ' '), '-', ' ');
    if a != "" && b != "" {
      CamelSplitEnds(ra);
      CamelSplitEnds(rb);
    }
  }

  // ---------- the laws of the tokenizer ----------

  /** A token of a + b ends where a does. */
  predicate TokenBreak(a: string, b: string) {
    Separated(a, b) || CamelBoundary(a[|a| - 1], b[0])
  }

  lemma LowerAllConcat(v: seq<string>, w: seq<string>)
    ensures LowerAll(v + w) == LowerAll(v) + LowerAll(w)
  {
  }

  /** Tokenizing distributes over a concatenation exactly where no token straddles it. */
  lemma ConcatExact(a: string, b: string)
    ensures Tokenize(a + b) == Tokenize(a) + Tokenize(b) <==> TokenBreak(a, b)
    ensures !TokenBreak(a, b) ==> |Tokenize(a + b)| == |Tokenize(a)| + |Tokenize(b)| - 1
  {
    hide Runs, Spaced;
    SpacedConcat(a, b);
    SpacedSeparated(a, b);
    var sa, sb := Spaced(a), Spaced(b);
    LowerAllConcat(Runs(sa), Runs(sb));
    if Gap(a, b) == " " {
      RunsAcrossSpace(sa, sb);
    } else if Separated(a, b) {
      assert sa + "" + sb == sa + sb;
      RunsConcat(sa, sb);
    } else {
      assert sa + "" + sb == sa + sb;
      RunsMerge(sa, sb);
    }
  }

  lemma {:induction false} RunsAcrossSpace(a: string, b: string)
    ensures Runs(a + " " + b) == Runs(a) + Runs(b)
  {
    RunsConcat(a + " ", b);
    RunsConcat(a, " ");
    assert Runs(" ") == [];
  }

  /**
   * The joint of two texts, in character ranges: they are tokenized apart exactly if one of the two characters that
   * meet is no ASCII letter or digit, or a lower-case letter or digit meets a capital. Otherwise two tokens become one.
   */
  lemma JointExact(a: string, b: string)
    requires a != "" && b != ""
    ensures var x, y := a[|a| - 1], b[0];
      var inX := 'a' <= x <= 'z' || 'A' <= x <= 'Z' || '0' <= x <= '9';
      var inY := 'a' <= y <= 'z' || 'A' <= y <= 'Z' || '0' <= y <= '9';
      var camel := ('a' <= x <= 'z' || '0' <= x <= '9') && 'A' <= y <= 'Z';
      && (Tokenize(a + b) == Tokenize(a) + Tokenize(b) <==> !inX || !inY || camel)
      && (inX && inY && !camel ==> |Tokenize(a + b)| == |Tokenize(a)| + |Tokenize(b)| - 1)
  {
    hide Tokenize;
    ConcatExact(a, b);
  }

  /** Lower case moves a capital to the small letter at the same place of the alphabet, and nothing else. */
  lemma LowerExact(c: char)
    ensures 'A' <= c <= 'Z' ==> ToLower(c) as int == 'a' as int + (c as int - 'A' as int)
    ensures !('A' <= c <= 'Z') ==> ToLower(c) == c
  {
  }

  /** A word of one case, or capitals and then small letters or digits, is one token. */
  lemma PlainWord(w: string)
    requires w != "" && IsAlnum(w[0]) && forall i :: 0 < i < |w| ==> IsLower(w[i]) || IsDigit(w[i])
    ensures Tokenize(w) == [Lower(w)]
  {
    WordIsOneToken(w);
  }

  /** The documented examples: camel case, constant case, command punctuation. */
  lemma DocumentedExamples()
    ensures Tokenize("fWriteBoosterEnable") == ["f", "write", "booster", "enable"]
    ensures Tokenize("START_STOP_UNIT") == ["start", "stop", "unit"]
    ensures Tokenize("WRITE(10)") == ["write", "10"]
  {
    hide Tokenize;
    CamelExample();
    ConstantExample();
    CommandExample();
  }

  lemma CamelExample()
    ensures Tokenize("fWriteBoosterEnable") == ["f", "write", "booster", "enable"]
  {
    hide Tokenize, Lower;
    JointExact("f", "WriteBoosterEnable");
    JointExact("Write", "BoosterEnable");
    JointExact("Booster", "Enable");
    assert "f" + "WriteBoosterEnable" == "fWriteBoosterEnable";
    assert "Write" + "BoosterEnable" == "WriteBoosterEnable" && "Booster" + "Enable" == "BoosterEnable";
    CamelWords();
  }

  lemma CamelWords()
    ensures Tokenize("f") == ["f"] && Tokenize("Write") == ["write"]
    ensures Tokenize("Booster") == ["booster"] && Tokenize("Enable") == ["enable"]
  {
    hide Tokenize;
    PlainWord("f");
    PlainWord("Write");
    PlainWord("Booster");
    PlainWord("Enable");
    assert Lower("f") == "f" && Lower("Write") == "write" && Lower("Booster") == "booster" && Lower("Enable") == "enable";
  }

  lemma ConstantExample()
    ensures Tokenize("START_STOP_UNIT") == ["start", "stop", "unit"]
  {
    hide Tokenize;
    assert "START" + ['_'] + "STOP_UNIT" == "START_STOP_UNIT" && "STOP" + ['_'] + "UNIT" == "STOP_UNIT";
    SeparatorSplits("START", '_', "STOP_UNIT");
    SeparatorSplits("STOP", '_', "UNIT");
    WordIsOneToken("START");
    WordIsOneToken("STOP");
    WordIsOneToken("UNIT");
    assert Lower("START") == "start" && Lower("STOP") == "stop" && Lower("UNIT") == "unit";
  }

  lemma CommandExample()
    ensures Tokenize("WRITE(10)") == ["write", "10"]
  {
    hide Tokenize;
    assert "WRITE" + ['('] + "10)" == "WRITE(10)" && "10" + [')'] + "" == "10)";
    SeparatorSplits("WRITE", '(', "10)");
    SeparatorSplits("10", ')', "");
    WordIsOneToken("WRITE");
    WordIsOneToken("10");
    assert Lower("WRITE") == "write" && Lower("10") == "10";
    EmptyText();
  }

  lemma EmptyText()
    ensures Tokenize("") == []
  {
    assert Spaced("") == "";
    assert Runs("") == [];
  }

  /** Any character that is not alphanumeric separates: space, underscore, hyphen, punctuation. */
  lemma SeparatorSplits(a: string, c: char, b: string)
    requires !IsAlnum(c)
    ensures Tokenize(a + [c] + b) == Tokenize(a) + Tokenize(b)
  {
    hide Tokenize;
    ConcatExact(a + [c], b);
    ConcatExact(a, [c]);
    assert Tokenize([c]) == [] by { NoTokens(c); }
  }

  lemma NoTokens(c: char)
    requires !IsAlnum(c)
    ensures Tokenize([c]) == []
  {
    var d := Spaced([c]);
    assert |d| == 1 && !IsAlnum(d[0]);
    assert d[1..] == "";
    assert Runs(d) == Runs("") == [];
  }

  /** A token: not empty, lower-case letters and digits only. */
  predicate IsToken(w: string) {
    w != "" && forall i :: 0 <= i < |w| ==> IsLower(w[i]) || IsDigit(w[i])
  }

  lemma {:induction false} RunsAreWords(s: string, n: nat)
    requires n < |Runs(s)|
    ensures var w := Runs(s)[n]; w != "" && forall i :: 0 <= i < |w| ==> IsAlnum(w[i])
    decreases |s|
  {
    if !IsAlnum(s[0]) {
      RunsAreWords(s[1..], n);
    } else if n > 0 {
      RunsAreWords(s[RunLength(s)..], n - 1);
    }
  }

  lemma TokensAreTokens(text: string)
    ensures forall n :: 0 <= n < |Tokenize(text)| ==> IsToken(Tokenize(text)[n])
  {
    forall n | 0 <= n < |Tokenize(text)|
      ensures IsToken(Tokenize(text)[n])
    {
      RunsAreWords(Spaced(text), n);
    }
  }

  lemma {:induction false} CamelSplitOfWord(w: string)
    requires forall i :: 0 < i < |w| ==> !CamelBoundary(w[i - 1], w[i])
    ensures CamelSplit(w) == w
  {
    if |w| >= 2 {
      forall i | 0 < i < |w| - 1
        ensures !CamelBoundary(w[1..][i - 1], w[1..][i])
      {
        assert !CamelBoundary(w[i], w[i + 1]);
      }
      CamelSplitOfWord(w[1..]);
    }
  }

  /** A single word without an inner camel boundary is one token. */
  lemma WordIsOneToken(w: string)
    requires w != "" && forall i :: 0 <= i < |w| ==> IsAlnum(w[i])
    requires forall i :: 0 < i < |w| ==> !CamelBoundary(w[i - 1], w[i])
    ensures Tokenize(w) == [Lower(w)]
  {
    assert Replace(Replace(w, '_', ' '), '-', ' ') == w;
    CamelSplitOfWord(w);
    RunsOfWord(w);
  }

  lemma TokenIsItself(w: string)
    requires IsToken(w)
    ensures Tokenize(w) == [w]
  {
    WordIsOneToken(w);
    assert Lower(w) == w;
  }

  lemma {:induction false} JoinedTokens(words: seq<string>)
    requires forall n :: 0 <= n < |words| ==> IsToken(words[n])
    ensures Tokenize(Join(words)) == words
  {
    if |words| == 1 {
      TokenIsItself(words[0]);
    } else if words != [] {
      TokenIsItself(words[0]);
      JoinedTokens(words[1..]);
      SeparatorSplits(words[0], ' ', Join(words[1..]));
      assert words == [words[0]] + words[1..];
    }
  }

  /** Tokenizing is idempotent through joining with spaces. */
  lemma TokenizeJoinTokenize(text: string)
    ensures Tokenize(Join(Tokenize(text))) == Tokenize(text)
  {
    TokensAreTokens(text);
    JoinedTokens(Tokenize(text));
  }

  // ---------- no alphanumeric is lost, added or moved ----------

  function Alnums(s: string): string {
    if s == "" then "" else if IsAlnum(s[0]) then [s[0]] + Alnums(s[1..]) else Alnums(s[1..])
  }

  function Flatten(words: seq<string>): string {
    if words == [] then "" else words[0] + Flatten(words[1..])
  }

  lemma {:induction false} AlnumsConcat(a: string, b: string)
    ensures Alnums(a + b) == Alnums(a) + Alnums(b)
  {
    if a == "" {
      assert a + b == b;
    } else {
      assert (a + b)[1..] == a[1..] + b;
      AlnumsConcat(a[1..], b);
    }
  }

  lemma {:induction false} AlnumsOfWord(w: string)
    requires forall i :: 0 <= i < |w| ==> IsAlnum(w[i])
    ensures Alnums(w) == w
  {
    if w != "" {
      AlnumsOfWord(w[1..]);
    }
  }

  lemma {:induction false} RunsFlatten(s: string)
    ensures Flatten(Runs(s)) == Alnums(s)
    decreases |s|
  {
    if s != "" {
      if !IsAlnum(s[0]) {
        RunsFlatten(s[1..]);
      } else {
        var n := RunLength(s);
        RunsFlatten(s[n..]);
        assert s == s[..n] + s[n..];
        AlnumsConcat(s[..n], s[n..]);
        AlnumsOfWord(s[..n]);
      }
    }
  }

  lemma {:induction false} CamelSplitAlnums(s: string)
    ensures Alnums(CamelSplit(s)) == Alnums(s)
  {
    if |s| >= 2 {
      CamelSplitAlnums(s[1..]);
      var tail := CamelSplit(s[1..]);
      var head := if CamelBoundary(s[0], s[1]) then [s[0], ' '] else [s[0]];
      AlnumsConcat(head, tail);
      assert Alnums([' ']) == "";
      assert s == [s[0]] + s[1..];
      AlnumsConcat([s[0]], s[1..]);
    }
  }

  lemma {:induction false} ReplaceAlnums(s: string, from: char)
    requires !IsAlnum(from)
    ensures Alnums(Replace(s, from, ' ')) == Alnums(s)
  {
    if s != "" {
      assert Replace(s, from, ' ')[1..] == Replace(s[1..], from, ' ');
      ReplaceAlnums(s[1..], from);
    }
  }

  lemma {:induction false} FlattenLower(words: seq<string>)
    ensures Flatten(LowerAll(words)) == Lower(Flatten(words))
  {
    if words != [] {
      FlattenLower(words[1..]);
      assert LowerAll(words)[1..] == LowerAll(words[1..]);
    }
  }

  /** The tokens put end to end are the alphanumerics of the text, in order, in lower case. */
  lemma TokensConserveText(text: string)
    ensures Flatten(Tokenize(text)) == Lower(Alnums(text))
  {
    var one := Replace(text, '_', ' ');
    var two := Replace(one, '-', ' ');
    ReplaceAlnums(text, '_');
    ReplaceAlnums(one, '-');
    CamelSplitAlnums(two);
    RunsFlatten(CamelSplit(two));
    FlattenLower(Runs(CamelSplit(two)));
  }
}
