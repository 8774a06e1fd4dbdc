/** The letter-counting worker: a 26-node list used as a table indexed by letter. */
module Letters {
  import opened Basics
  import opened LinkedList

  const LETTER_COUNT_TARGET := 3
  const COUNT_LIMIT := 0x1_0000_0000  // counters are uint32_t

  /** `count_t` without its embedded node; the node's `container` leads here. */
  class Count {
    var count: nat
    const letter: char

    constructor (letter: char)
      ensures this.letter == letter && count == 0
    {
      this.letter, count := letter, 0;
    }
  }

  function Letter(i: nat): (c: char)
    requires i < 26
    ensures c as int == 65 + i
  {
    (65 + i) as char
  }

  /** The bytes that stand for letter `i`, in either case. */
  predicate IsLetter(b: byte, i: nat) {
    i < 26 && (b == 65 + i || b == 97 + i)
  }

  predicate IsAnyLetter(b: byte) {
    65 <= b <= 90 || 97 <= b <= 122
  }

  /** How often letter `i` occurs in the text, both cases together. */
  function Occurrences(text: seq<byte>, i: nat): (n: nat)
    ensures n <= |text|
  {
    if text == [] then 0
    else Occurrences(text[..|text| - 1], i) + if IsLetter(text[|text| - 1], i) then 1 else 0
  }

  function LetterTotal(text: seq<byte>): (r: nat) {
    if text == [] then 0
    else LetterTotal(text[..|text| - 1]) + if IsAnyLetter(text[|text| - 1]) then 1 else 0
  }

  /** `inchar &= ~0x20`. */
  function ClearBit5(b: byte): (r: byte) {
    if b / 32 % 2 == 1 then b - 32 else b
  }

  /** Clearing bit 5 lands in 'A'..'Z' for exactly the ASCII letters, and at the right one. */
  lemma FoldFindsLetter(b: byte)
    ensures 65 <= ClearBit5(b) <= 90 <==> IsAnyLetter(b)
    ensures forall i: nat :: IsLetter(b, i) <==> i < 26 && ClearBit5(b) == 65 + i
  {}

  function Sum(counts: seq<nat>): (r: nat) {
    if counts == [] then 0 else counts[0] + Sum(counts[1..])
  }

  function AllOccurrences(text: seq<byte>, from: nat): (r: seq<nat>)
    requires from <= 26
    decreases 26 - from
  {
    if from == 26 then [] else [Occurrences(text, from)] + AllOccurrences(text, from + 1)
  }

  lemma {:induction false} SumStep(text: seq<byte>, b: byte, from: nat)
    requires from <= 26
    ensures Sum(AllOccurrences(text + [b], from))
      == Sum(AllOccurrences(text, from)) + (if exists i: nat :: from <= i && IsLetter(b, i) then 1 else 0)
    decreases 26 - from
  {
    if from < 26 {
      SumStep(text, b, from + 1);
      assert (text + [b])[..|text|] == text;
      if IsLetter(b, from) {
        assert !exists i: nat :: from + 1 <= i && IsLetter(b, i);
      } else {
        assert (exists i: nat :: from <= i && IsLetter(b, i)) <==> (exists i: nat :: from + 1 <= i && IsLetter(b, i));
      }
    }
  }

  lemma {:induction false} NoLetters(from: nat)
    requires from <= 26
    ensures Sum(AllOccurrences([], from)) == 0
    decreases 26 - from
  {
    if from < 26 {
      NoLetters(from + 1);
    }
  }

  /** Every letter of the text is counted under exactly one index. */
  lemma {:induction false} CountsAddUp(text: seq<byte>)
    ensures Sum(AllOccurrences(text, 0)) == LetterTotal(text)
  {
    hide Sum, AllOccurrences;
    if text == [] {
      NoLetters(0);
    } else {
      var init, b := text[..|text| - 1], text[|text| - 1];
      CountsAddUp(init);
      SumStep(init, b, 0);
      assert init + [b] == text;
      if IsAnyLetter(b) {
        var i: nat := if b <= 90 then b - 65 else b - 97;
        assert IsLetter(b, i);
      }
    }
  }

  // ---------- the report ----------

  function ReportLine(i: nat): (line: string)
    requires i < 26
    ensures |line| > 8 && line[8] == Letter(i)
  {
    "Letter '" + [Letter(i)] + "' has exactly 3 occurances\n"
  }

  /** The lines for the letters from `i` on whose counter is at the target, alphabetically. */
  function Report(text: seq<byte>, i: nat): (r: seq<string>)
    requires i <= 26
    decreases 26 - i
  {
    if i == 26 then []
    else (if Occurrences(text, i) % COUNT_LIMIT == LETTER_COUNT_TARGET then [ReportLine(i)] else [])
         + Report(text, i + 1)
  }

  /** Where `c` or its lower-case form stands in a text. */
  ghost function Positions(text: seq<byte>, c: int): (r: set<nat>) {
    set k: nat | k < |text| && (text[k] == c || text[k] == c + 32)
  }

  lemma {:induction false} OccurrencesAreFound(text: seq<byte>, i: nat)
    requires i < 26
    ensures Occurrences(text, i) == |Positions(text, 65 + i)|
  {
    if text != [] {
      var n := |text| - 1;
      OccurrencesAreFound(text[..n], i);
      var front, all := Positions(text[..n], 65 + i), Positions(text, 65 + i);
      if IsLetter(text[n], i) {
        assert all == front + {n};
      } else {
        assert all == front;
      }
    }
  }

  lemma {:induction false} ReportAt(text: seq<byte>, from: nat, i: nat)
    requires from <= i < 26
    ensures ReportLine(i) in Report(text, from) <==> Occurrences(text, i) % COUNT_LIMIT == LETTER_COUNT_TARGET
    decreases 26 - from
  {
    hide Occurrences, ReportLine;
    if from < i {
      ReportAt(text, from + 1, i);
      assert ReportLine(from)[8] != ReportLine(i)[8];
    } else {
      ReportAfter(text, i + 1, i);
    }
  }

  lemma {:induction false} ReportAfter(text: seq<byte>, from: nat, i: nat)
    requires i < from <= 26
    ensures ReportLine(i) !in Report(text, from)
    decreases 26 - from
  {
    hide Occurrences, ReportLine;
    if from < 26 {
      ReportAfter(text, from + 1, i);
      assert ReportLine(from)[8] != ReportLine(i)[8];
    }
  }

  /** The report has no line of any other form. */
  lemma {:induction false} ReportForm(text: seq<byte>, from: nat)
    requires from <= 26
    ensures forall line :: line in Report(text, from) ==>
      |line| > 8 && 'A' <= line[8] <= 'Z' && line == "Letter '" + [line[8]] + "' has exactly 3 occurances\n"
    decreases 26 - from
  {
    hide Occurrences, ReportLine;
    if from < 26 {
      ReportForm(text, from + 1);
      LineNames(from);
      assert Named((65 + from) as char) == "Letter '" + [(65 + from) as char] + "' has exactly 3 occurances\n";
      hide Named;
    }
  }

  /** The report's line for a letter. */
  function Named(c: char): (line: string)
    ensures |line| > 8 && line[8] == c
  {
    "Letter '" + [c] + "' has exactly 3 occurances\n"
  }

  lemma LineNames(i: nat)
    requires i < 26
    ensures ReportLine(i) == Named((65 + i) as char)
  {}

  lemma NamedAt(text: seq<byte>, c: char)
    requires 'A' <= c <= 'Z'
    ensures Named(c) in Report(text, 0) <==> |Positions(text, c as int)| % COUNT_LIMIT == LETTER_COUNT_TARGET
  {
    hide Report, Occurrences, Positions, Named, ReportLine;
    var i := c as int - 65;
    LineNames(i);
    OccurrencesAreFound(text, i);
    ReportAt(text, 0, i);
  }

  lemma PositionsBound(text: seq<byte>, c: int)
    requires 65 <= c <= 90
    ensures |Positions(text, c)| <= |text|
  {
    OccurrencesAreFound(text, c - 65);
    hide Positions, Occurrences;
  }

  /** For every input the report has a line for the letter `c` exactly when the bytes for `c` or its lower-case form
      number three modulo 2^32; below 2^32 bytes that is exactly three. */
  lemma ReportExact(text: seq<byte>, c: char)
    requires 'A' <= c <= 'Z'
    ensures var found := |set k: nat | k < |text| && (text[k] == c as int || text[k] == c as int + 32)|;
      && ("Letter '" + [c] + "' has exactly 3 occurances\n" in Report(text, 0) <==> found % 0x1_0000_0000 == 3)
      && (|text| < 0x1_0000_0000 ==> (found % 0x1_0000_0000 == 3 <==> found == 3))
  {
    hide Positions, Report, Named;
    NamedAt(text, c);
    PositionsBound(text, c as int);
    PositionsAre(text, c as int);
    NamedIs(c);
    SmallRest(|Positions(text, c as int)|);
  }

  lemma PositionsAre(text: seq<byte>, c: int)
    ensures Positions(text, c) == set k: nat | k < |text| && (text[k] == c || text[k] == c + 32)
  {}

  lemma NamedIs(c: char)
    ensures Named(c) == "Letter '" + [c] + "' has exactly 3 occurances\n"
  {}

  lemma SmallRest(n: nat)
    ensures n < 0x1_0000_0000 ==> n % 0x1_0000_0000 == n
  {}

  /** Lines whose letters are strictly increasing and start no earlier than `lo`. */
  ghost predicate Alphabetical(lines: seq<string>, lo: char) {
    && (forall k :: 0 <= k < |lines| ==> |lines[k]| > 8 && lines[k][8] >= lo)
    && (forall k, l :: 0 <= k < l < |lines| ==> lines[k][8] < lines[l][8])
  }

  lemma AlphabeticalCons(line: string, lines: seq<string>, lo: char)
    requires lo < 'z' && Alphabetical(lines, lo + 1 as char) && |line| > 8 && line[8] == lo
    ensures Alphabetical([line] + lines, lo) && Alphabetical(lines, lo)
  {}

  /** The report is in alphabetical order and names no letter twice. */
  lemma {:induction false} ReportSorted(text: seq<byte>, from: nat)
    requires from <= 26
    ensures Alphabetical(Report(text, from), (65 + from) as char)
    decreases 26 - from
  {
    assert Alphabetical([], (65 + from) as char);
    hide Occurrences, ReportLine, Alphabetical;
    if from < 26 {
      ReportSorted(text, from + 1);
      AlphabeticalCons(ReportLine(from), Report(text, from + 1), Letter(from));
      assert [] + Report(text, from + 1) == Report(text, from + 1);
    }
  }

  // ---------- the worker ----------

  ghost predicate Table(s: seq<Node<Count>>, first: nat)
    reads s
  {
    && first <= 26 && |s| == 26 - first && IsList(s)
    && (forall k :: 0 <= k < |s| ==> s[k].container.letter == Letter(first + k))
    && (forall k, l :: 0 <= k < l < |s| ==> s[k].container != s[l].container)
  }

  ghost predicate Counted(s: seq<Node<Count>>, text: seq<byte>)
    reads set n | n in s :: n.container
  {
    |s| == 26 && forall k :: 0 <= k < 26 ==> s[k].container.count == Occurrences(text, k) % COUNT_LIMIT
  }

  ghost function CounterSum(s: seq<Node<Count>>, from: nat): (r: nat)
    requires |s| == 26 && from <= 26
    reads set n | n in s :: n.container
    decreases 26 - from
  {
    if from == 26 then 0 else s[from].container.count + CounterSum(s, from + 1)
  }

  lemma {:induction false} CounterSumIs(s: seq<Node<Count>>, text: seq<byte>, from: nat)
    requires Counted(s, text) && |text| < COUNT_LIMIT && from <= 26
    ensures CounterSum(s, from) == Sum(AllOccurrences(text, from))
    decreases 26 - from
  {
    if from < 26 {
      CounterSumIs(s, text, from + 1);
    }
  }

  /** For inputs below 2^32 bytes no counter has wrapped: together they hold the number of ASCII letters. */
  lemma CountersSumToLetters(s: seq<Node<Count>>, text: seq<byte>)
    requires Counted(s, text) && |text| < COUNT_LIMIT
    ensures CounterSum(s, 0) == LetterTotal(text)
    ensures forall k :: 0 <= k < 26 ==> s[k].container.count == Occurrences(text, k)
  {
    CounterSumIs(s, text, 0);
    CountsAddUp(text);
  }

  /** Builds the list 'A'..'Z' back to front with zero counters. */
  method BuildTable() returns (head: Node?<Count>, ghost s: seq<Node<Count>>)
    ensures Table(s, 0) && head == At(s, 0)
    ensures Counted(s, [])
    ensures |s| == 26 && forall k :: 0 <= k < 26 ==>
      s[k].container.letter as int == 65 + k && s[k].container.count == 0
    ensures forall n :: n in s ==> fresh(n) && fresh(n.container)
  {
    head, s := null, [];
    var ch := 26;
    while ch > 0
      invariant 0 <= ch <= 26 && Table(s, ch) && head == At(s, 0)
      invariant forall n :: n in s ==> fresh(n) && fresh(n.container) && n.container.count == 0
    {
      ch := ch - 1;
      var count := new Count(Letter(ch));
      var node := new Node(count);
      head := InsertAtBeginning(head, node, s);
      s := [node] + s;
    }
  }

  /** One byte of input: a letter's counter is reached through the list and incremented. */
  method CountByte(head: Node?<Count>, b: byte, ghost text: seq<byte>, ghost s: seq<Node<Count>>)
    requires Table(s, 0) && head == At(s, 0) && Counted(s, text)
    modifies set n | n in s :: n.container
    ensures Table(s, 0) && Counted(s, text + [b])
  {
    FoldFindsLetter(b);
    assert (text + [b])[..|text|] == text;
    var inchar := ClearBit5(b);
    if 65 <= inchar <= 90 {
      var node := GetOffset(head, (inchar - 65) as int32, s, 0);
      assert node == s[inchar - 65];
      assert (node.container.count + 1) % COUNT_LIMIT == (Occurrences(text, inchar - 65) + 1) % COUNT_LIMIT;
      var count := node.container;
      count.count := (count.count + 1) % COUNT_LIMIT;
    }
  }

  /** Reads the text to its end. */
  method CountLetters(head: Node?<Count>, text: seq<byte>, ghost s: seq<Node<Count>>)
    requires Table(s, 0) && head == At(s, 0) && Counted(s, [])
    modifies set n | n in s :: n.container
    ensures Table(s, 0) && Counted(s, text)
  {
    for n := 0 to |text|
      invariant Table(s, 0) && Counted(s, text[..n])
    {
      CountByte(head, text[n], text[..n], s);
      assert text[..n + 1] == text[..n] + [text[n]];
    }
    assert text[..|text|] == text;
  }

  lemma ReportStep(text: seq<byte>, i: nat, logged: seq<string>)
    requires i < 26
    ensures logged + Report(text, i) ==
      (if Occurrences(text, i) % COUNT_LIMIT == LETTER_COUNT_TARGET then logged + [ReportLine(i)] else logged)
      + Report(text, i + 1)
  {
    hide Occurrences, ReportLine;
  }

  /** Walks the list and reports the counters that are at the target. */
  method ReportMatches(first: Node?<Count>, ghost text: seq<byte>, ghost s: seq<Node<Count>>)
    returns (logged: seq<string>)
    requires Table(s, 0) && first == At(s, 0) && Counted(s, text)
    ensures logged == Report(text, 0)
  {
    logged := [];
    var head := first;
    ghost var i := 0;
    while head != null
      invariant 0 <= i <= 26 && head == At(s, i)
      invariant Report(text, 0) == logged + Report(text, i)
      decreases 26 - i
    {
      var count := head.container;
      if count.count == LETTER_COUNT_TARGET {
        var line := "Letter '" + [count.letter] + "' has exactly 3 occurances\n";
        assert line == ReportLine(i);
        ReportStep(text, i, logged);
        logged := logged + [line];
      } else {
        ReportStep(text, i, logged);
      }
      head := head.next;
      i := i + 1;
    }
  }

  /** `letter_counter`: the messages logged for the given file contents, None standing for a failed open. */
  method LetterCounter(file: Option<seq<byte>>) returns (logged: seq<string>, ghost s: seq<Node<Count>>)
    ensures file.None? ==> logged == ["Failed to open file: 'Valentinesday.txt'\n"]
    ensures file.Some? ==> Table(s, 0) && Counted(s, file.value)
    ensures file.Some? ==>
      logged == ["Successfully opened file: 'Valentinesday.txt'\n", "Letter counting complete\n"]
        + Report(file.value, 0)
    ensures file.Some? ==> |s| == 26 && forall k: int :: 0 <= k < 26 ==>
      && s[k].container.letter as int == 65 + k
      && s[k].container.count ==
           |set p: nat | p < |file.value| && (file.value[p] == 65 + k || file.value[p] == 97 + k)| % 0x1_0000_0000
    ensures file.Some? ==> forall c: char :: 'A' <= c <= 'Z' ==>
      ("Letter '" + [c] + "' has exactly 3 occurances\n" in logged[2..] <==>
       |set p: nat | p < |file.value| && (file.value[p] == c as int || file.value[p] == c as int + 32)|
         % 0x1_0000_0000 == 3)
  {
    hide Report, Table, Counted;
    if file.None? {
      return ["Failed to open file: 'Valentinesday.txt'\n"], [];
    }
    logged := ["Successfully opened file: 'Valentinesday.txt'\n"];
    var head: Node?<Count>;
    head, s := BuildTable();
    CountLetters(head, file.value, s);
    logged := logged + ["Letter counting complete\n"];
    var lines := ReportMatches(head, file.value, s);
    logged := logged + lines;
    CountsFound(s, file.value);
    assert logged[2..] == lines;
    LinesFound(file.value);
  }

  lemma LinesFound(text: seq<byte>)
    ensures forall c: char :: 'A' <= c <= 'Z' ==>
      ("Letter '" + [c] + "' has exactly 3 occurances\n" in Report(text, 0) <==>
       |set p: nat | p < |text| && (text[p] == c as int || text[p] == c as int + 32)| % 0x1_0000_0000 == 3)
  {
    hide Report;
    forall c: char | 'A' <= c <= 'Z'
      ensures "Letter '" + [c] + "' has exactly 3 occurances\n" in Report(text, 0) <==>
        |set p: nat | p < |text| && (text[p] == c as int || text[p] == c as int + 32)| % 0x1_0000_0000 == 3
    {
      ReportExact(text, c);
    }
  }

  /** The counters in terms of the input alone. */
  lemma CountsFound(s: seq<Node<Count>>, text: seq<byte>)
    requires Table(s, 0) && Counted(s, text)
    ensures |s| == 26 && forall k: int :: 0 <= k < 26 ==>
      && s[k].container.letter as int == 65 + k
      && s[k].container.count ==
           |set p: nat | p < |text| && (text[p] == 65 + k || text[p] == 97 + k)| % 0x1_0000_0000
  {
    forall k | 0 <= k < 26
      ensures s[k].container.count ==
        |set p: nat | p < |text| && (text[p] == 65 + k || text[p] == 97 + k)| % 0x1_0000_0000
    {
      OccurrencesAreFound(text, k);
      assert Positions(text, 65 + k) == set p: nat | p < |text| && (text[p] == 65 + k || text[p] == 97 + k);
    }
  }
}
