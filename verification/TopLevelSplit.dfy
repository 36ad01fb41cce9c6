/** The parsing core of scrapers/grab_cmd.py: splitting text at top-level separators, and walking a syntax tree. */
module TopLevelSplit {

  // Where the scan is: bracket depth, inside quotes, just after a backslash.
  datatype Mode = Mode(depth: nat, quote: bool, escaped: bool)

  const NEUTRAL := Mode(0, false, false)

  predicate IsOpener(ch: char) { ch == '<' || ch == '(' || ch == '[' || ch == '{' }

  predicate IsCloser(ch: char) { ch == '>' || ch == ')' || ch == ']' || ch == '}' }

  // The separator test, reached only where the character is not consumed by a bracket.
  predicate SplitsAt(m: Mode, ch: char, sep: char) {
    m == NEUTRAL && ch != '\\' && ch != '"' && !IsOpener(ch) && ch == sep
  }

  // A separator that can split at all.
  predicate IsOrdinary(sep: char) {
    sep != '\\' && sep != '"' && !IsOpener(sep)
  }

  function Next(m: Mode, ch: char): Mode {
    if m.escaped then m.(escaped := false)
    else if ch == '\\' then m.(escaped := true)
    else if ch == '"' then m.(quote := !m.quote)
    else if m.quote then m
    else if IsOpener(ch) then m.(depth := m.depth + 1)
    else if IsCloser(ch) && m.depth > 0 then m.(depth := m.depth - 1)
    else m
  }

  function Scan(m: Mode, text: string): Mode
    decreases |text|
  {
    if text == "" then m else Scan(Next(m, text[0]), text[1..])
  }

  // The parts of the rest of a text, `current` being what the open part has so far.
  function PartsFrom(m: Mode, current: string, text: string, sep: char): (parts: seq<string>)
    ensures |parts| > 0
    decreases |text|
  {
    if text == "" then [current]
    else if SplitsAt(m, text[0], sep) then [current] + PartsFrom(NEUTRAL, "", text[1..], sep)
    else PartsFrom(Next(m, text[0]), current + [text[0]], text[1..], sep)
  }

  function Split(text: string, sep: char): seq<string> {
    PartsFrom(NEUTRAL, "", text, sep)
  }

  function Join(parts: seq<string>, sep: char): string {
    if parts == [] then "" else if |parts| == 1 then parts[0] else parts[0] + [sep] + Join(parts[1..], sep)
  }

  // _split_top_level
  method SplitTopLevel(text: string, sep: char) returns (parts: seq<string>)
    ensures parts == Split(text, sep)
  {
    parts := [];
    var current := "";
    var depth, quote, escaped := 0, false, false;
    for i := 0 to |text|
      invariant depth >= 0
      invariant parts + PartsFrom(Mode(depth, quote, escaped), current, text[i..], sep) == Split(text, sep)
    {
      var ch := text[i];
      ghost var m, before, oldParts := Mode(depth, quote, escaped), current, parts;
      assert text[i..][0] == ch && text[i..][1..] == text[i + 1..];
      if escaped {
        current := current + [ch];
        escaped := false;
        continue;
      }
      if ch == '\\' {
        current := current + [ch];
        escaped := true;
        continue;
      }
      if ch == '"' {
        current := current + [ch];
        quote := !quote;
        continue;
      }
      if !quote {
        if IsOpener(ch) {
          depth := depth + 1;
        } else if IsCloser(ch) && depth > 0 {
          depth := depth - 1;
        } else if ch == sep && depth == 0 {
          assert SplitsAt(m, ch, sep);
          assert oldParts + ([before] + PartsFrom(NEUTRAL, "", text[i + 1..], sep)) == oldParts + [before] + PartsFrom(NEUTRAL, "", text[i + 1..], sep);
          parts := parts + [current];
          current := "";
          continue;
        }
      }
      current := current + [ch];
    }
    assert text[|text|..] == "";
    parts := parts + [current];
  }

  // ----- Joining undoes splitting -----

  lemma {:induction false} JoinParts(m: Mode, current: string, text: string, sep: char)
    ensures Join(PartsFrom(m, current, text, sep), sep) == current + text
    decreases |text|
  {
    if text == "" {
      assert current + text == current;
    } else if SplitsAt(m, text[0], sep) {
      JoinParts(NEUTRAL, "", text[1..], sep);
      var rest := PartsFrom(NEUTRAL, "", text[1..], sep);
      assert ([current] + rest)[1..] == rest;
      assert current + [sep] + ("" + text[1..]) == current + text;
    } else {
      JoinParts(Next(m, text[0]), current + [text[0]], text[1..], sep);
      assert current + [text[0]] + text[1..] == current + text;
    }
  }

  lemma JoinUndoesSplit(text: string, sep: char)
    ensures Join(Split(text, sep), sep) == text
  {
    JoinParts(NEUTRAL, "", text, sep);
  }

  // ----- What the parts are -----

  // Scanned from the start, the text meets no separator.
  ghost predicate Whole(text: string, sep: char) {
    forall k | 0 <= k < |text| :: !SplitsAt(Scan(NEUTRAL, text[..k]), text[k], sep)
  }

  lemma {:induction false} ScanJoin(m: Mode, x: string, y: string)
    ensures Scan(m, x + y) == Scan(Scan(m, x), y)
    decreases |x|
  {
    if x == "" {
      assert x + y == y;
    } else {
      assert (x + y)[0] == x[0] && (x + y)[1..] == x[1..] + y;
      ScanJoin(Next(m, x[0]), x[1..], y);
    }
  }

  lemma ScanOne(m: Mode, ch: char)
    ensures Scan(m, [ch]) == Next(m, ch)
  {
    assert [ch][1..] == "";
  }

  // Extending an open part by a character that does not split.
  lemma WholeMore(current: string, ch: char, sep: char)
    requires Whole(current, sep) && !SplitsAt(Scan(NEUTRAL, current), ch, sep)
    ensures Whole(current + [ch], sep) && Scan(NEUTRAL, current + [ch]) == Next(Scan(NEUTRAL, current), ch)
  {
    ScanJoin(NEUTRAL, current, [ch]);
    ScanOne(Scan(NEUTRAL, current), ch);
    var x := current + [ch];
    forall k | 0 <= k < |x| ensures !SplitsAt(Scan(NEUTRAL, x[..k]), x[k], sep) {
      assert x[..k] == current[..k];
      if k == |current| { assert current[..k] == current; }
    }
  }

  // Every part is whole, and every part but the last ends outside quotes, escapes and brackets.
  ghost predicate Proper(parts: seq<string>, sep: char) {
    && (forall k | 0 <= k < |parts| :: Whole(parts[k], sep))
    && (forall k | 0 <= k < |parts| - 1 :: Scan(NEUTRAL, parts[k]) == NEUTRAL)
  }

  lemma {:induction false} PartsAreProper(m: Mode, current: string, text: string, sep: char)
    requires Whole(current, sep) && Scan(NEUTRAL, current) == m
    ensures Proper(PartsFrom(m, current, text, sep), sep)
    decreases |text|
  {
    hide SplitsAt, Next, Whole, Scan;
    if text == "" {
    } else if SplitsAt(m, text[0], sep) {
      assert m == NEUTRAL by { OnlyNeutralSplits(m, text[0], sep); }
      EmptyIsWhole(sep);
      PartsAreProper(NEUTRAL, "", text[1..], sep);
    } else {
      WholeMore(current, text[0], sep);
      PartsAreProper(Next(m, text[0]), current + [text[0]], text[1..], sep);
    }
  }

  lemma OnlyNeutralSplits(m: Mode, ch: char, sep: char)
    requires SplitsAt(m, ch, sep)
    ensures m == NEUTRAL && ch == sep && IsOrdinary(sep)
  {
  }

  lemma EmptyIsWhole(sep: char)
    ensures Whole("", sep) && Scan(NEUTRAL, "") == NEUTRAL
  {
  }

  // Scanning a whole text keeps it in one part, up to what follows it.
  lemma {:induction false} WholePrefix(p: string, k: nat, rest: string, sep: char)
    requires k <= |p| && Whole(p, sep)
    ensures PartsFrom(Scan(NEUTRAL, p[..k]), p[..k], p[k..] + rest, sep) == PartsFrom(Scan(NEUTRAL, p), p, rest, sep)
    decreases |p| - k
  {
    if k == |p| {
      assert p[..k] == p && p[k..] + rest == rest;
    } else {
      var text := p[k..] + rest;
      assert text[0] == p[k] && text[1..] == p[k + 1..] + rest && p[..k + 1] == p[..k] + [p[k]];
      ScanJoin(NEUTRAL, p[..k], [p[k]]);
      ScanOne(Scan(NEUTRAL, p[..k]), p[k]);
      WholePrefix(p, k + 1, rest, sep);
    }
  }

  lemma WholeMeansAlone(p: string, sep: char)
    requires Whole(p, sep)
    ensures Split(p, sep) == [p]
  {
    WholePrefix(p, 0, "", sep);
    assert p[..0] == "" && p[0..] + "" == p;
  }

  lemma AloneMeansWhole(p: string, sep: char)
    requires Split(p, sep) == [p]
    ensures Whole(p, sep)
  {
    EmptyIsWhole(sep);
    PartsAreProper(NEUTRAL, "", p, sep);
    assert Whole(Split(p, sep)[0], sep);
  }

  // Splitting a part again returns it alone.
  lemma PartsSplitAlone(text: string, sep: char, k: nat)
    requires k < |Split(text, sep)|
    ensures Split(Split(text, sep)[k], sep) == [Split(text, sep)[k]]
  {
    EmptyIsWhole(sep);
    PartsAreProper(NEUTRAL, "", text, sep);
    WholeMeansAlone(Split(text, sep)[k], sep);
  }

  lemma {:induction false} ProperJoins(parts: seq<string>, sep: char)
    requires |parts| > 0 && Proper(parts, sep) && (IsOrdinary(sep) || |parts| == 1)
    ensures Split(Join(parts, sep), sep) == parts
  {
    hide Whole, Scan;
    if |parts| == 1 {
      WholeMeansAlone(parts[0], sep);
    } else {
      var rest := Join(parts[1..], sep);
      ProperJoins(parts[1..], sep);
      WholePrefix(parts[0], 0, [sep] + rest, sep);
      EmptyIsWhole(sep);
      assert parts[0][..0] == "" && parts[0][0..] + ([sep] + rest) == Join(parts, sep);
      assert ([sep] + rest)[0] == sep && ([sep] + rest)[1..] == rest;
      assert Scan(NEUTRAL, parts[0]) == NEUTRAL;
      assert PartsFrom(NEUTRAL, parts[0], [sep] + rest, sep) == [parts[0]] + PartsFrom(NEUTRAL, "", rest, sep);
      assert parts == [parts[0]] + parts[1..];
    }
  }

  // Splitting undoes joining exactly when every part splits alone, every part but the last ends neutral,
  // and the separator can split at all (or there is nothing to separate).
  lemma SplitUndoesJoin(parts: seq<string>, sep: char)
    requires |parts| > 0
    ensures Split(Join(parts, sep), sep) == parts <==>
            (forall k | 0 <= k < |parts| :: Split(parts[k], sep) == [parts[k]]) &&
            (forall k | 0 <= k < |parts| - 1 :: Scan(NEUTRAL, parts[k]) == NEUTRAL) && (IsOrdinary(sep) || |parts| == 1)
  {
    hide Scan, Whole;
    if Split(Join(parts, sep), sep) == parts {
      EmptyIsWhole(sep);
      PartsAreProper(NEUTRAL, "", Join(parts, sep), sep);
      forall k | 0 <= k < |parts| ensures Split(parts[k], sep) == [parts[k]] { WholeMeansAlone(parts[k], sep); }
      if !IsOrdinary(sep) { NeverSplits(NEUTRAL, "", Join(parts, sep), sep); }
    }
    if (forall k | 0 <= k < |parts| :: Split(parts[k], sep) == [parts[k]]) &&
       (forall k | 0 <= k < |parts| - 1 :: Scan(NEUTRAL, parts[k]) == NEUTRAL) && (IsOrdinary(sep) || |parts| == 1) {
      forall k | 0 <= k < |parts| ensures Whole(parts[k], sep) { AloneMeansWhole(parts[k], sep); }
      ProperJoins(parts, sep);
    }
  }

  lemma {:induction false} NeverSplits(m: Mode, current: string, text: string, sep: char)
    requires !IsOrdinary(sep)
    ensures |PartsFrom(m, current, text, sep)| == 1
    decreases |text|
  {
    if text != "" { NeverSplits(Next(m, text[0]), current + [text[0]], text[1..], sep); }
  }

  // ----- The tree walk -----

  datatype Tree = Node(id: nat, children: seq<Tree>)

  function Preorder(t: Tree): seq<nat> {
    [t.id] + PreorderAll(t.children)
  }

  function PreorderAll(ts: seq<Tree>): seq<nat> {
    if ts == [] then [] else Preorder(ts[0]) + PreorderAll(ts[1..])
  }

  function Count(ts: seq<Tree>): nat {
    if ts == [] then 0 else 1 + Count(ts[0].children) + Count(ts[1..])
  }

  // A stack is popped from its end.
  function OnStack(stack: seq<Tree>): seq<nat> {
    if stack == [] then [] else Preorder(stack[|stack| - 1]) + OnStack(stack[..|stack| - 1])
  }

  function Reversed(ts: seq<Tree>): (r: seq<Tree>)
    ensures |r| == |ts|
  {
    if ts == [] then [] else Reversed(ts[1..]) + [ts[0]]
  }

  lemma OnTop(stack: seq<Tree>, t: Tree)
    ensures OnStack(stack + [t]) == Preorder(t) + OnStack(stack)
  {
    hide Preorder;
    assert (stack + [t])[..|stack|] == stack;
  }

  lemma {:induction false} PushedChildren(stack: seq<Tree>, ts: seq<Tree>)
    ensures OnStack(stack + Reversed(ts)) == PreorderAll(ts) + OnStack(stack)
  {
    hide Preorder, OnStack;
    if ts == [] {
      assert stack + Reversed(ts) == stack;
    } else {
      PushedChildren(stack, ts[1..]);
      OnTop(stack + Reversed(ts[1..]), ts[0]);
      assert stack + Reversed(ts) == stack + Reversed(ts[1..]) + [ts[0]];
    }
  }

  lemma {:induction false} PushedCount(stack: seq<Tree>, ts: seq<Tree>)
    ensures Count(stack + Reversed(ts)) == Count(stack) + Count(ts)
  {
    if ts == [] {
      assert stack + Reversed(ts) == stack;
    } else {
      PushedCount(stack, ts[1..]);
      CountSnoc(stack + Reversed(ts[1..]), ts[0]);
      assert stack + Reversed(ts) == stack + Reversed(ts[1..]) + [ts[0]];
    }
  }

  lemma {:induction false} CountSnoc(ts: seq<Tree>, t: Tree)
    ensures Count(ts + [t]) == Count(ts) + 1 + Count(t.children)
  {
    if ts == [] {
      assert Count([t]) == 1 + Count(t.children) + Count([]);
    } else {
      assert (ts + [t])[1..] == ts[1..] + [t];
      CountSnoc(ts[1..], t);
    }
  }

  // _walk
  method Walk(root: Tree) returns (visited: seq<nat>)
    ensures visited == Preorder(root)
  {
    hide Preorder, OnStack, Count, Reversed;
    var stack := [root];
    visited := [];
    OnTop([], root);
    assert [] + [root] == stack;
    EmptyStack();
    while stack != []
      invariant visited + OnStack(stack) == Preorder(root)
      decreases Count(stack)
    {
      var n := |stack| - 1;
      var current, rest := stack[n], stack[..n];
      assert stack == rest + [current];
      CountSnoc(rest, current);
      OnTop(rest, current);
      PushedCount(rest, current.children);
      PushedChildren(rest, current.children);
      PreorderOf(current);
      assert visited + ([current.id] + PreorderAll(current.children) + OnStack(rest)) == visited + [current.id] + (PreorderAll(current.children) + OnStack(rest));
      visited := visited + [current.id];
      stack := rest + Reversed(current.children);
    }
    EmptyStack();
  }

  lemma EmptyStack()
    ensures OnStack([]) == []
  {
  }

  lemma PreorderOf(t: Tree)
    ensures Preorder(t) == [t.id] + PreorderAll(t.children)
  {
  }
}
