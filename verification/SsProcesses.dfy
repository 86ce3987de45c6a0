/** Reading the process names at the end of a line of `ss` output, such as
    users:(("httpd",pid=4969,fd=53),("httpd",pid=3328,fd=53)). */
module SsProcesses {
  import opened Prelude

  type Names = seq<string>

  /** IndexError is the only exception. */
  datatype Error = IndexError

  // ---------------------------------------------------------------- the parser

  /** The position of the next quote, or the end. */
  function NextQuote(s: string, i: nat): (j: nat)
    requires i <= |s|
    ensures i <= j <= |s| && '"' !in s[i..j] && (j < |s| ==> s[j] == '"')
    decreases |s| - i
  {
    if i == |s| || s[i] == '"' then i
    else
      var j := NextQuote(s, i + 1);
      assert s[i..j] == [s[i]] + s[i + 1..j];
      j
  }

  /** Python's `s.split('"', 2)[1]`. */
  function SecondPiece(s: string): Outcome<string, Error> {
    var i := NextQuote(s, 0);
    if i == |s| then Raise(IndexError) else Ok(s[i + 1..NextQuote(s, i + 1)])
  }

  /** What the function computes; `pops` is whether the branch that closes the outermost
      parenthesis removes it from the stack, which the code does not do. */
  function Parse(s: string, pops: bool): Outcome<Names, Error>
    decreases |s|, |s| + 1
  {
    ScanFrom(s, pops, 0, [], [], false)
  }

  /** The rest of the loop, from symbol `i` on. */
  function ScanFrom(s: string, pops: bool, i: nat, stack: seq<nat>, list: Names, nested: bool): Outcome<Names, Error>
    requires i <= |s| && forall k :: 0 <= k < |stack| ==> stack[k] < i
    decreases |s|, |s| - i
  {
    if i == |s| then
      if nested then Ok(list)
      else
        match SecondPiece(s)
        case Raise(e) => Raise(e)
        case Ok(name) => Ok(list + [name])
    else if s[i] == '(' then ScanFrom(s, pops, i + 1, stack + [i], list, true)
    else if s[i] == ')' then
      if |stack| == 1 then
        match Parse(s[stack[0] + 1..i], pops)
        case Raise(e) => Raise(e)
        case Ok(inner) => ScanFrom(s, pops, i + 1, if pops then [] else stack, list + inner, nested)
      else if stack == [] then Raise(IndexError)
      else ScanFrom(s, pops, i + 1, stack[..|stack| - 1], list, nested)
    else ScanFrom(s, pops, i + 1, stack, list, nested)
  }

  /** The loop over the symbols, as it is written. */
  method GetProcesses(processes: string) returns (r: Outcome<Names, Error>)
    ensures r == Parse(processes, false)
    decreases |processes|
  {
    var stack: seq<nat> := [];
    var processList: Names := [];
    var nested := false;
    for idx := 0 to |processes|
      invariant forall k :: 0 <= k < |stack| ==> stack[k] < idx
      invariant Parse(processes, false) == ScanFrom(processes, false, idx, stack, processList, nested)
    {
      var symbol := processes[idx];
      if symbol == '(' {
        stack := stack + [idx];
        nested := true;
      } else if symbol == ')' && |stack| == 1 {
        var inner := GetProcesses(processes[stack[0] + 1..idx]);
        if inner.Raise? { return inner; }
        processList := processList + inner.value;
      } else if symbol == ')' {
        if stack == [] { return Raise(IndexError); }
        stack := stack[..|stack| - 1];
      }
    }
    if !nested {
      var name := SecondPiece(processes);
      if name.Raise? { return Raise(name.error); }
      processList := processList + [name.value];
    }
    r := Ok(processList);
  }

  // ---------------------------------------------------------------- the documented form

  /** One process; `rest` is what follows its name, such as ,pid=4969,fd=53. */
  datatype Process = Process(name: string, rest: string)

  predicate NoParentheses(s: string) {
    '(' !in s && ')' !in s
  }

  ghost predicate Printable(p: Process) {
    NoParentheses(p.name) && NoParentheses(p.rest) && '"' !in p.name
  }

  function Quoted(p: Process): string {
    "\"" + p.name + "\"" + p.rest
  }

  function PrintOne(p: Process): string {
    "(" + Quoted(p) + ")"
  }

  function PrintAll(ps: seq<Process>): string {
    if ps == [] then ""
    else if |ps| == 1 then PrintOne(ps[0])
    else PrintOne(ps[0]) + "," + PrintAll(ps[1..])
  }

  function Print(ps: seq<Process>): string {
    "users:(" + PrintAll(ps) + ")"
  }

  function NamesOf(ps: seq<Process>): Names {
    seq(|ps|, i requires 0 <= i < |ps| => ps[i].name)
  }

  ghost predicate AllPrintable(ps: seq<Process>) {
    forall i :: 0 <= i < |ps| ==> Printable(ps[i])
  }

  // ---------------------------------------------------------------- scanning pieces

  /** `x` stands in `s` at position `i`. */
  predicate At(s: string, i: nat, x: string) {
    i + |x| <= |s| && s[i..i + |x|] == x
  }

  lemma AtSplits(s: string, i: nat, x: string, y: string)
    requires At(s, i, x + y)
    ensures At(s, i, x) && At(s, i + |x|, y)
  {
    assert s[i..i + |x|] == (x + y)[..|x|] == x;
    assert s[i + |x|..i + |x| + |y|] == (x + y)[|x|..] == y;
  }

  lemma {:induction false} SkipPlain(s: string, pops: bool, i: nat, x: string, stack: seq<nat>, list: Names, nested: bool)
    requires At(s, i, x) && NoParentheses(x) && forall k :: 0 <= k < |stack| ==> stack[k] < i
    ensures ScanFrom(s, pops, i, stack, list, nested) == ScanFrom(s, pops, i + |x|, stack, list, nested)
    decreases |x|
  {
    if x == "" {
    } else {
      assert s[i..i + |x|][0] == x[0] && s[i] == x[0];
      assert x == [x[0]] + x[1..];
      AtSplits(s, i, [x[0]], x[1..]);
      assert x[0] in x;
      SkipPlain(s, pops, i + 1, x[1..], stack, list, nested);
    }
  }

  lemma QuotedIsPlain(p: Process)
    requires Printable(p)
    ensures NoParentheses(Quoted(p))
  {
  }

  lemma NextQuoteIs(s: string, i: nat, end: nat)
    requires i <= end < |s| && s[end] == '"' && '"' !in s[i..end]
    ensures NextQuote(s, i) == end
    decreases end - i
  {
  }

  /** Inside the innermost parentheses the name is found. */
  lemma ParseQuoted(p: Process, pops: bool)
    requires Printable(p)
    ensures Parse(Quoted(p), pops) == Ok([p.name])
  {
    var s := Quoted(p);
    QuotedIsPlain(p);
    assert s[0..0 + |s|] == s;
    SkipPlain(s, pops, 0, s, [], [], false);
    assert s[0] == '"' && NextQuote(s, 0) == 0;
    var end := 1 + |p.name|;
    assert s[1..end] == p.name && s[end] == '"';
    NextQuoteIs(s, 1, end);
    assert [] + [p.name] == [p.name];
  }

  // ---------------------------------------------------------------- texts in any other form

  lemma PlainIsSecondPiece(s: string, pops: bool)
    requires NoParentheses(s)
    ensures Parse(s, pops) == match SecondPiece(s) case Raise(e) => Raise(e) case Ok(name) => Ok([name])
  {
    assert s[0..0 + |s|] == s;
    SkipPlain(s, pops, 0, s, [], [], false);
    assert SecondPiece(s).Ok? ==> [] + [SecondPiece(s).value] == [SecondPiece(s).value];
  }

  /** What is between the first quote and the second one or the end. */
  lemma SecondPieceIs(before: string, name: string, after: string)
    requires '"' !in before && '"' !in name && (after != "" ==> after[0] == '"')
    ensures SecondPiece(before + "\"" + name + after) == Ok(name)
  {
    var s := before + "\"" + name + after;
    var start := |before| + 1;
    assert s[0..|before|] == before && s[|before|] == '"';
    NextQuoteIs(s, 0, |before|);
    assert s[start..start + |name|] == name;
    if after == "" {
      assert NextQuote(s, start) == |s|;
    } else {
      assert s[start + |name|] == after[0];
      NextQuoteIs(s, start, start + |name|);
    }
  }

  /** Without parentheses, that is the name; without a quote there is none. */
  lemma PlainText(before: string, name: string, after: string, pops: bool)
    requires NoParentheses(before) && NoParentheses(name) && NoParentheses(after)
    requires '"' !in before && '"' !in name && (after != "" ==> after[0] == '"')
    ensures Parse(before, pops) == Raise(IndexError)
    ensures Parse(before + "\"" + name + after, pops) == Ok([name])
  {
    PlainIsSecondPiece(before, pops);
    PlainIsSecondPiece(before + "\"" + name + after, pops);
    SecondPieceIs(before, name, after);
  }

  /** A parenthesis that closes nothing raises. */
  lemma UnmatchedRaises(before: string, after: string, pops: bool)
    requires NoParentheses(before)
    ensures Parse(before + ")" + after, pops) == Raise(IndexError)
  {
    var s := before + ")" + after;
    assert s[0..0 + |before|] == before && s[|before|] == ')';
    SkipPlain(s, pops, 0, before, [], [], false);
  }

  /** One that is not closed finds nothing. */
  lemma UnclosedFindsNothing(before: string, after: string, pops: bool)
    requires NoParentheses(before) && NoParentheses(after)
    ensures Parse(before + "(" + after, pops) == Ok([])
  {
    var s := before + "(" + after;
    var i := |before|;
    assert s[0..0 + i] == before && s[i] == '(' && s[i + 1..i + 1 + |after|] == after;
    SkipPlain(s, pops, 0, before, [], [], false);
    SkipPlain(s, pops, i + 1, after, [] + [i], [], true);
  }

  // ---------------------------------------------------------------- names with parentheses

  /** A process whose name has something in parentheses, such as (sd-pam). */
  function Parenthesized(before: string, inside: string, after: string, rest: string): Process {
    Process(before + "(" + inside + ")" + after, rest)
  }

  function Nested(head: string, inside: string, tail: string): string {
    head + ("(" + (inside + (")" + tail)))
  }

  ghost predicate NestedParts(text: string, head: string, inside: string, tail: string) {
    text == Nested(head, inside, tail) && NoParentheses(head) && NoParentheses(inside) && NoParentheses(tail)
    && '"' !in inside
  }

  /** Something in parentheses between two plain texts, without a quote in it. */
  ghost predicate IsNested(text: string) {
    exists head, inside, tail :: NestedParts(text, head, inside, tail)
  }

  lemma QuotedIsNested(before: string, inside: string, after: string, rest: string)
    requires NoParentheses(before + inside + after + rest) && '"' !in inside
    ensures IsNested(Quoted(Parenthesized(before, inside, after, rest)))
  {
    var head, tail := "\"" + before, after + "\"" + rest;
    forall c | c in head || c in inside || c in tail
      ensures c != '(' && c != ')'
    {
      assert c == '"' || c in before + inside + after + rest;
    }
    assert NestedParts(Quoted(Parenthesized(before, inside, after, rest)), head, inside, tail);
  }

  lemma Open(s: string, pops: bool, i: nat, stack: seq<nat>, list: Names, nested: bool)
    requires At(s, i, "(") && forall k :: 0 <= k < |stack| ==> stack[k] < i
    ensures ScanFrom(s, pops, i, stack, list, nested) == ScanFrom(s, pops, i + 1, stack + [i], list, true)
  {
    assert s[i] == s[i..i + 1][0] == '(';
  }

  lemma CloseInner(s: string, pops: bool, i: nat, stack: seq<nat>, top: nat, list: Names)
    requires At(s, i, ")") && stack != [] && top < i && forall k :: 0 <= k < |stack| ==> stack[k] < i
    ensures ScanFrom(s, pops, i, stack + [top], list, true) == ScanFrom(s, pops, i + 1, stack, list, true)
  {
    assert s[i] == s[i..i + 1][0] == ')';
    assert (stack + [top])[..|stack|] == stack;
  }

  lemma CloseRaising(s: string, pops: bool, i: nat, top: nat, list: Names, inner: string)
    requires At(s, i, ")") && top < i && s[top + 1..i] == inner && Parse(inner, pops) == Raise(IndexError)
    ensures ScanFrom(s, pops, i, [top], list, true) == Raise(IndexError)
  {
    assert s[i] == s[i..i + 1][0] == ')';
  }

  lemma NestedPieces(s: string, i: nat, head: string, inside: string, tail: string)
    requires At(s, i, Nested(head, inside, tail))
    ensures var j := i + |head|;
            var k := j + 1 + |inside|;
            && At(s, i, head) && At(s, j, "(") && At(s, j + 1, inside) && At(s, k, ")") && At(s, k + 1, tail)
            && k + 1 + |tail| == i + |Nested(head, inside, tail)|
  {
    AtSplits(s, i, head, "(" + (inside + (")" + tail)));
    AtSplits(s, i + |head|, "(", inside + (")" + tail));
    AtSplits(s, i + |head| + 1, inside, ")" + tail);
    AtSplits(s, i + |head| + 1 + |inside|, ")", tail);
  }

  /** Inside other parentheses, the ones in a name make no difference. */
  lemma ScanNested(s: string, pops: bool, i: nat, text: string, stack: seq<nat>, list: Names)
    requires At(s, i, text) && IsNested(text)
    requires stack != [] && forall k :: 0 <= k < |stack| ==> stack[k] < i
    ensures ScanFrom(s, pops, i, stack, list, true) == ScanFrom(s, pops, i + |text|, stack, list, true)
  {
    var head, inside, tail :| NestedParts(text, head, inside, tail);
    NestedPieces(s, i, head, inside, tail);
    SkipPlain(s, pops, i, head, stack, list, true);
    ScanPair(s, pops, i + |head|, inside, stack, list);
    SkipPlain(s, pops, i + |head| + 2 + |inside|, tail, stack, list, true);
  }

  lemma ScanPair(s: string, pops: bool, i: nat, inside: string, stack: seq<nat>, list: Names)
    requires At(s, i, "(") && At(s, i + 1, inside) && At(s, i + 1 + |inside|, ")") && NoParentheses(inside)
    requires stack != [] && forall k :: 0 <= k < |stack| ==> stack[k] < i
    ensures ScanFrom(s, pops, i, stack, list, true) == ScanFrom(s, pops, i + 2 + |inside|, stack, list, true)
  {
    Open(s, pops, i, stack, list, true);
    SkipPlain(s, pops, i + 1, inside, stack + [i], list, true);
    CloseInner(s, pops, i + 1 + |inside|, stack, i, list);
  }

  /** What is quoted is plain, or has something in parentheses in its name. */
  ghost predicate Balanced(p: Process) {
    NoParentheses(Quoted(p)) || IsNested(Quoted(p))
  }

  ghost predicate AllBalanced(ps: seq<Process>) {
    forall i :: 0 <= i < |ps| ==> Balanced(ps[i])
  }

  lemma PrintableIsBalanced(ps: seq<Process>)
    requires AllPrintable(ps)
    ensures AllBalanced(ps)
  {
    forall i | 0 <= i < |ps|
      ensures Balanced(ps[i])
    {
      QuotedIsPlain(ps[i]);
    }
  }

  // ---------------------------------------------------------------- scanning lists

  /** Up to the parenthesis that closes a process. */
  lemma ScanUpToClosing(s: string, pops: bool, i: nat, p: Process, stack: seq<nat>, list: Names, nested: bool)
    requires At(s, i, PrintOne(p)) && Balanced(p) && forall k :: 0 <= k < |stack| ==> stack[k] < i
    ensures var closing := i + 1 + |Quoted(p)|;
            && At(s, closing, ")") && s[i + 1..closing] == Quoted(p)
            && ScanFrom(s, pops, i, stack, list, nested) == ScanFrom(s, pops, closing, stack + [i], list, true)
  {
    AtSplits(s, i, "(" + Quoted(p), ")");
    AtSplits(s, i, "(", Quoted(p));
    Open(s, pops, i, stack, list, nested);
    if NoParentheses(Quoted(p)) {
      SkipPlain(s, pops, i + 1, Quoted(p), stack + [i], list, true);
    } else {
      ScanNested(s, pops, i + 1, Quoted(p), stack + [i], list);
    }
  }

  /** A process inside other parentheses leaves the stack and the list as they were. */
  lemma ScanInner(s: string, pops: bool, i: nat, p: Process, stack: seq<nat>, list: Names, nested: bool)
    requires At(s, i, PrintOne(p)) && Balanced(p)
    requires stack != [] && forall k :: 0 <= k < |stack| ==> stack[k] < i
    ensures ScanFrom(s, pops, i, stack, list, nested) == ScanFrom(s, pops, i + |PrintOne(p)|, stack, list, true)
  {
    ScanUpToClosing(s, pops, i, p, stack, list, nested);
    CloseInner(s, pops, i + 1 + |Quoted(p)|, stack, i, list);
  }

  /** A process outside of other parentheses adds its name to the list; its parenthesis
      stays on the stack unless the closing one removes it. */
  lemma ScanOuter(s: string, pops: bool, i: nat, p: Process, list: Names, nested: bool)
    requires At(s, i, PrintOne(p)) && Printable(p)
    ensures ScanFrom(s, pops, i, [], list, nested)
            == ScanFrom(s, pops, i + |PrintOne(p)|, if pops then [] else [i], list + [p.name], true)
  {
    QuotedIsPlain(p);
    ScanUpToClosing(s, pops, i, p, [], list, nested);
    assert [] + [i] == [i];
    var end := i + 1 + |Quoted(p)|;
    assert s[end] == s[end..end + 1][0] == ')';
    ParseQuoted(p, pops);
  }

  lemma PrintAllSplits(s: string, i: nat, ps: seq<Process>)
    requires |ps| > 1 && At(s, i, PrintAll(ps))
    ensures At(s, i, PrintOne(ps[0])) && At(s, i + |PrintOne(ps[0])|, ",")
    ensures At(s, i + |PrintOne(ps[0])| + 1, PrintAll(ps[1..]))
  {
    AtSplits(s, i, PrintOne(ps[0]) + ",", PrintAll(ps[1..]));
    AtSplits(s, i, PrintOne(ps[0]), ",");
  }

  lemma {:induction false} ScanAllInner(s: string, pops: bool, i: nat, ps: seq<Process>, stack: seq<nat>, list: Names)
    requires At(s, i, PrintAll(ps)) && AllBalanced(ps)
    requires stack != [] && forall k :: 0 <= k < |stack| ==> stack[k] < i
    ensures ScanFrom(s, pops, i, stack, list, true) == ScanFrom(s, pops, i + |PrintAll(ps)|, stack, list, true)
    decreases |ps|
  {
    if |ps| == 1 {
      ScanInner(s, pops, i, ps[0], stack, list, true);
    } else if |ps| > 1 {
      PrintAllSplits(s, i, ps);
      ScanInner(s, pops, i, ps[0], stack, list, true);
      var j := i + |PrintOne(ps[0])|;
      SkipPlain(s, pops, j, ",", stack, list, true);
      ScanAllInner(s, pops, j + 1, ps[1..], stack, list);
    }
  }

  /** With the pop every process outside of other parentheses adds its name. */
  lemma {:induction false} ScanAllOuterPopping(s: string, i: nat, ps: seq<Process>, list: Names, nested: bool)
    requires At(s, i, PrintAll(ps)) && AllPrintable(ps) && ps != []
    ensures ScanFrom(s, true, i, [], list, nested)
            == ScanFrom(s, true, i + |PrintAll(ps)|, [], list + NamesOf(ps), true)
    decreases |ps|
  {
    if |ps| == 1 {
      ScanOuter(s, true, i, ps[0], list, nested);
      assert NamesOf(ps) == [ps[0].name];
    } else {
      PrintAllSplits(s, i, ps);
      ScanOuter(s, true, i, ps[0], list, nested);
      var j := i + |PrintOne(ps[0])|;
      SkipPlain(s, true, j, ",", [], list + [ps[0].name], true);
      ScanAllOuterPopping(s, j + 1, ps[1..], list + [ps[0].name], true);
      assert list + [ps[0].name] + NamesOf(ps[1..]) == list + NamesOf(ps);
    }
  }

  lemma ParsePrintAllPopping(s: string, ps: seq<Process>)
    requires AllPrintable(ps) && ps != [] && s == PrintAll(ps)
    ensures Parse(s, true) == Ok(NamesOf(ps))
  {
    assert s[0..0 + |s|] == s;
    ScanAllOuterPopping(s, 0, ps, [], false);
    assert [] + NamesOf(ps) == NamesOf(ps);
  }

  lemma ParsePrintAllAsWritten(s: string, ps: seq<Process>)
    requires ps != [] && Printable(ps[0]) && AllBalanced(ps[1..]) && s == PrintAll(ps)
    ensures Parse(s, false) == Ok([ps[0].name])
  {
    assert s[0..0 + |s|] == s;
    assert [] + [ps[0].name] == [ps[0].name];
    if |ps| == 1 {
      ScanOuter(s, false, 0, ps[0], [], false);
    } else {
      PrintAllSplits(s, 0, ps);
      ScanOuter(s, false, 0, ps[0], [], false);
      ScanRest(s, |PrintOne(ps[0])|, ps[1..], [0], [ps[0].name]);
    }
  }

  lemma ScanRest(s: string, i: nat, ps: seq<Process>, stack: seq<nat>, list: Names)
    requires At(s, i, ",") && At(s, i + 1, PrintAll(ps)) && AllBalanced(ps)
    requires stack != [] && forall k :: 0 <= k < |stack| ==> stack[k] < i
    ensures ScanFrom(s, false, i, stack, list, true) == ScanFrom(s, false, i + 1 + |PrintAll(ps)|, stack, list, true)
  {
    SkipPlain(s, false, i, ",", stack, list, true);
    ScanAllInner(s, false, i + 1, ps, stack, list);
  }

  /** Up to the opening parenthesis of the list nothing is found. */
  lemma ScanHeader(s: string, pops: bool)
    requires At(s, 0, "users:(")
    ensures Parse(s, pops) == ScanFrom(s, pops, 7, [6], [], true)
  {
    AtSplits(s, 0, "users:", "(");
    SkipPlain(s, pops, 0, "users:", [], [], false);
    assert s[6] == s[6..7][0] == '(';
    assert [] + [6] == [6];
  }

  /** What follows the last process is the end of the list, whose content is then parsed. */
  lemma ScanFooter(s: string, pops: bool, inner: string)
    requires |s| == 8 + |inner| && At(s, 7, inner) && s[7 + |inner|] == ')'
    ensures ScanFrom(s, pops, 7 + |inner|, [6], [], true) == Parse(inner, pops)
  {
    assert s[7..7 + |inner|] == inner;
    if Parse(inner, pops).Ok? {
      assert [] + Parse(inner, pops).value == Parse(inner, pops).value;
    }
  }

  /** A printed list is scanned as a whole, and then what is in it is parsed. */
  lemma ParseList(ps: seq<Process>, pops: bool)
    requires AllBalanced(ps)
    ensures Parse(Print(ps), pops) == Parse(PrintAll(ps), pops)
  {
    var s, inner := Print(ps), PrintAll(ps);
    assert s[0..0 + |s|] == s;
    AtSplits(s, 0, "users:(" + inner, ")");
    AtSplits(s, 0, "users:(", inner);
    ScanHeader(s, pops);
    ScanAllInner(s, pops, 7, ps, [6], []);
    assert s[7 + |inner|] == s[7 + |inner|..8 + |inner|][0] == ')';
    ScanFooter(s, pops, inner);
  }

  /** As written, only the first name of the documented form is found, also when others have
      parentheses in them. */
  lemma FirstNameIsFound(ps: seq<Process>)
    requires ps != [] && Printable(ps[0]) && AllBalanced(ps[1..])
    ensures Parse(Print(ps), false) == Ok([ps[0].name])
  {
    QuotedIsPlain(ps[0]);
    assert AllBalanced(ps) by {
      forall i | 0 <= i < |ps|
        ensures Balanced(ps[i])
      {
        assert i > 0 ==> ps[i] == ps[1..][i - 1];
      }
    }
    ParseList(ps, false);
    ParsePrintAllAsWritten(PrintAll(ps), ps);
  }

  /** With the pop it would be all of them in order. */
  lemma ParsePrinted(ps: seq<Process>, pops: bool)
    requires AllPrintable(ps) && ps != []
    ensures Parse(Print(ps), pops) == Ok(if pops then NamesOf(ps) else [ps[0].name])
  {
    PrintableIsBalanced(ps);
    if pops {
      ParseList(ps, pops);
      ParsePrintAllPopping(PrintAll(ps), ps);
    } else {
      FirstNameIsFound(ps);
    }
  }

  lemma NoProcessRaises()
    ensures Parse(Print([]), false) == Raise(IndexError)
  {
  }

  // ---------------------------------------------------------------- a first name with parentheses

  lemma NothingQuotedRaises(s: string, pops: bool)
    requires NoParentheses(s) && '"' !in s
    ensures Parse(s, pops) == Raise(IndexError)
  {
    assert s[0..0 + |s|] == s;
    SkipPlain(s, pops, 0, s, [], [], false);
    NoQuote(s, 0);
  }

  lemma {:induction false} NoQuote(s: string, i: nat)
    requires i <= |s| && '"' !in s
    ensures NextQuote(s, i) == |s|
    decreases |s| - i
  {
    if i == |s| {
    } else {
      assert s[i] in s;
      NoQuote(s, i + 1);
    }
  }

  /** Where the name itself is parsed, its parentheses are taken for those of a process
      without a name. */
  lemma NestedRaises(text: string, pops: bool)
    requires IsNested(text)
    ensures Parse(text, pops) == Raise(IndexError)
  {
    var head, inside, tail :| NestedParts(text, head, inside, tail);
    assert text[0..0 + |text|] == text;
    NestedPieces(text, 0, head, inside, tail);
    ScanToPair(text, pops, head);
    ScanPairRaising(text, pops, |head|, inside);
  }

  lemma ScanToPair(text: string, pops: bool, head: string)
    requires At(text, 0, head) && At(text, |head|, "(") && NoParentheses(head)
    ensures Parse(text, pops) == ScanFrom(text, pops, |head| + 1, [|head|], [], true)
  {
    SkipPlain(text, pops, 0, head, [], [], false);
    Open(text, pops, |head|, [], [], false);
    assert [] + [|head|] == [|head|];
  }

  lemma ScanPairRaising(s: string, pops: bool, i: nat, inside: string)
    requires At(s, i + 1, inside) && At(s, i + 1 + |inside|, ")") && NoParentheses(inside) && '"' !in inside
    ensures ScanFrom(s, pops, i + 1, [i], [], true) == Raise(IndexError)
  {
    SkipPlain(s, pops, i + 1, inside, [i], [], true);
    NothingQuotedRaises(inside, pops);
    CloseRaising(s, pops, i + 1 + |inside|, i, [], inside);
  }

  /** A list whose first name has something in parentheses, like that of (sd-pam), raises,
      with the pop or without it. */
  lemma ParenthesizedFirstRaises(ps: seq<Process>, pops: bool)
    requires ps != [] && AllBalanced(ps) && IsNested(Quoted(ps[0]))
    ensures Parse(Print(ps), pops) == Raise(IndexError)
  {
    var inner, text := PrintAll(ps), Quoted(ps[0]);
    ParseList(ps, pops);
    assert inner[0..0 + |inner|] == inner;
    if |ps| > 1 { PrintAllSplits(inner, 0, ps); }
    ScanUpToClosing(inner, pops, 0, ps[0], [], [], false);
    assert [] + [0] == [0];
    NestedRaises(text, pops);
    CloseRaising(inner, pops, 1 + |text|, 0, [], text);
  }

  /** The round trip that is documented: it holds exactly for a single process without
      parentheses in its name. */
  lemma RoundTripIffSingle(ps: seq<Process>)
    requires forall i :: 0 <= i < |ps| ==> Printable(ps[i]) || IsNested(Quoted(ps[i]))
    ensures Parse(Print(ps), false) == Ok(NamesOf(ps)) <==> |ps| == 1 && Printable(ps[0])
  {
    forall i | 0 <= i < |ps|
      ensures Balanced(ps[i])
    {
      if Printable(ps[i]) { QuotedIsPlain(ps[i]); }
    }
    if ps == [] {
      NoProcessRaises();
    } else if Printable(ps[0]) {
      FirstNameIsFound(ps);
      assert |NamesOf(ps)| == |ps|;
      if |ps| == 1 { assert NamesOf(ps) == [ps[0].name]; }
    } else {
      ParenthesizedFirstRaises(ps, false);
    }
  }
}
