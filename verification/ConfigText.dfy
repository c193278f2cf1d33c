/** Config text: its lines under either line ending, and the replacing of one of them. */
module ConfigTexts {
  import opened Texts

  // ---------- line endings ----------

  /** Some carriage return is right before a line feed. */
  predicate HasCRLF(s: string) {
    exists i :: 0 <= i < |s| - 1 && s[i] == '\r' && s[i + 1] == '\n'
  }

  predicate StartsCRLF(s: string) {
    |s| > 1 && s[0] == '\r' && s[1] == '\n'
  }

  /** Each carriage return right before a line feed is dropped. */
  function ToLF(s: string): string {
    if s == "" then ""
    else if StartsCRLF(s) then "\n" + ToLF(s[2..])
    else [s[0]] + ToLF(s[1..])
  }

  function ToCRLF(s: string): string {
    if s == "" then ""
    else CharToCRLF(s[0]) + ToCRLF(s[1..])
  }

  predicate EndsWithReturn(s: string) {
    s != "" && s[|s| - 1] == '\r'
  }

  lemma {:induction false} ToLFKeeps(s: string)
    requires !HasCRLF(s)
    ensures ToLF(s) == s
  {
    if s != "" {
      StartHas(s);
      TailHasNone(s);
      ToLFKeeps(s[1..]);
    }
  }

  lemma StartHas(s: string)
    ensures StartsCRLF(s) ==> HasCRLF(s)
  {
  }

  lemma TailHasNone(s: string)
    requires s != "" && !HasCRLF(s)
    ensures !HasCRLF(s[1..])
  {
  }

  /** Line feeds survive being written with carriage returns and read back. */
  lemma {:induction false} LineFeedsRoundTrip(s: string)
    ensures ToLF(ToCRLF(s)) == s
  {
    if s != "" {
      var rest := ToCRLF(s[1..]);
      LineFeedsRoundTrip(s[1..]);
      if s[0] == '\n' {
        assert ToCRLF(s)[2..] == rest;
      } else {
        assert ToCRLF(s)[1..] == rest;
        assert rest == "" || rest[0] != '\n';
      }
    }
  }

  function CharToCRLF(c: char): string {
    if c == '\n' then "\r\n" else [c]
  }

  lemma {:induction false} ToCRLFAppend(a: string, b: string)
    ensures ToCRLF(a + b) == ToCRLF(a) + ToCRLF(b)
  {
    if a == "" {
      assert a + b == b;
    } else {
      ToCRLFAppend(a[1..], b);
      assert (a + b)[1..] == a[1..] + b;
      Regroup(CharToCRLF(a[0]), ToCRLF(a[1..]), ToCRLF(b));
    }
  }

  lemma {:induction false} ToCRLFKeeps(s: string)
    ensures |ToCRLF(s)| >= |s|
    ensures '\n' !in s ==> ToCRLF(s) == s
    ensures '\n' in s ==> |ToCRLF(s)| > |s|
  {
    if s != "" {
      assert s == [s[0]] + s[1..];
      ToCRLFKeeps(s[1..]);
    }
  }

  lemma StartsAppend(a: string, b: string)
    requires a != ""
    ensures StartsCRLF(a + b) <==> StartsCRLF(a) || (a == "\r" && b != "" && b[0] == '\n')
  {
  }

  /** The front of a text without such line endings stays, unless one is made where it ends. */
  lemma {:induction false} ToLFAppend(a: string, b: string)
    requires !HasCRLF(a) && !(EndsWithReturn(a) && b != "" && b[0] == '\n')
    ensures ToLF(a + b) == a + ToLF(b)
  {
    if a == "" {
      assert a + b == b;
    } else {
      TailHasNone(a);
      StartHas(a);
      StartsAppend(a, b);
      ToLFAppend(a[1..], b);
      assert (a + b)[1..] == a[1..] + b;
      Regroup([a[0]], a[1..], ToLF(b));
    }
  }

  /** Where two texts meet at a line feed, only the end of the first can make a new line ending. */
  lemma CRLFAtLineFeed(a: string, b: string)
    ensures HasCRLF(a + ("\n" + b)) <==> HasCRLF(a) || EndsWithReturn(a) || HasCRLF(b)
  {
    var s := a + ("\n" + b);
    var n := |a|;
    assert s[n] == '\n' && forall i :: n < i < |s| ==> s[i] == b[i - n - 1];
    assert forall i :: 0 <= i < n ==> s[i] == a[i];
    if HasCRLF(s) {
      var i :| 0 <= i < |s| - 1 && s[i] == '\r' && s[i + 1] == '\n';
      if i > n {
        assert b[i - n - 1] == '\r' && b[i - n - 1 + 1] == '\n';
      }
    }
    if HasCRLF(a) {
      var i :| 0 <= i < |a| - 1 && a[i] == '\r' && a[i + 1] == '\n';
      assert s[i] == '\r' && s[i + 1] == '\n';
    }
    if EndsWithReturn(a) {
      assert s[n - 1] == '\r' && s[n - 1 + 1] == '\n';
    }
    if HasCRLF(b) {
      var i :| 0 <= i < |b| - 1 && b[i] == '\r' && b[i + 1] == '\n';
      assert s[n + 1 + i] == '\r' && s[n + 1 + i + 1] == '\n';
    }
  }

  // ---------- lines ----------

  /** Lines hold no line feed, there is at least one. */
  predicate AreLines(lines: seq<string>) {
    lines != [] && forall i :: 0 <= i < |lines| ==> '\n' !in lines[i]
  }

  function LinesOf(text: string): (lines: seq<string>)
    ensures lines != []
  {
    Split(ToLF(text), '\n')
  }

  lemma SplitIsLines(text: string)
    ensures AreLines(Split(text, '\n'))
  {
  }

  /** Each line but the last with a carriage return behind it. */
  function WithReturns(lines: seq<string>): (r: seq<string>)
    ensures |r| == |lines|
  {
    seq(|lines|, i requires 0 <= i < |lines| => if i < |lines| - 1 then lines[i] + "\r" else lines[i])
  }

  lemma {:induction false} ReturnsInJoin(lines: seq<string>)
    requires AreLines(lines)
    ensures ToCRLF(Join(lines, '\n')) == Join(WithReturns(lines), '\n')
  {
    ToCRLFKeeps(lines[0]);
    if |lines| > 1 {
      var rest := Join(lines[1..], '\n');
      ReturnsInJoin(lines[1..]);
      assert WithReturns(lines)[1..] == WithReturns(lines[1..]);
      ToCRLFAppend(lines[0] + "\n", rest);
      ToCRLFAppend(lines[0], "\n");
      assert ToCRLF("\n") == "\r\n";
      assert lines[0] + "\r\n" == (lines[0] + "\r") + "\n";
    }
  }

  lemma WithReturnsAreLines(lines: seq<string>)
    requires AreLines(lines)
    ensures AreLines(WithReturns(lines))
  {
  }

  predicate SomeReturn(lines: seq<string>) {
    exists i :: 0 <= i < |lines| - 1 && EndsWithReturn(lines[i])
  }

  /** A joined text has carriage returns before line feeds iff some line but the last ends with one. */
  lemma {:induction false} CRLFInJoin(lines: seq<string>)
    requires AreLines(lines)
    ensures HasCRLF(Join(lines, '\n')) <==> SomeReturn(lines)
  {
    if |lines| == 1 {
      NoFeedNoCRLF(lines[0]);
    } else {
      var rest := lines[1..];
      CRLFInJoin(rest);
      NoFeedNoCRLF(lines[0]);
      CRLFAtLineFeed(lines[0], Join(rest, '\n'));
      assert Join(lines, '\n') == lines[0] + ("\n" + Join(rest, '\n'));
      if i :| 0 <= i < |lines| - 1 && EndsWithReturn(lines[i]) {
        assert i == 0 || EndsWithReturn(rest[i - 1]);
      }
      if i :| 0 <= i < |rest| - 1 && EndsWithReturn(rest[i]) {
        assert EndsWithReturn(lines[i + 1]);
      }
    }
  }

  lemma NoFeedNoCRLF(s: string)
    requires '\n' !in s
    ensures !HasCRLF(s)
  {
  }

  // ---------- replacing a line ----------

  /** The first matching line replaced, or a line added behind the last that is not empty. */
  function Edited(lines: seq<string>, target: string, matches: string -> bool): (r: seq<string>)
    requires lines != []
    ensures r != []
  {
    var k, last := FirstWhere(lines, matches), |lines| - 1;
    if k < |lines| then lines[k := target]
    else if lines[last] == "" then lines[last := target] + [""]
    else lines + [target]
  }

  /** The text with that line replaced, under the line ending it uses. */
  function Rewritten(text: string, target: string, matches: string -> bool): string {
    var body := Join(Edited(LinesOf(text), target, matches), '\n');
    if HasCRLF(text) then ToCRLF(body) else body
  }

  method EditLines(whole: seq<string>, target: string, matches: string -> bool) returns (lines: seq<string>)
    requires whole != []
    ensures lines == Edited(whole, target, matches)
  {
    lines := whole;
    var found := false;
    for i := 0 to |whole|
      invariant lines == whole && !found
      invariant forall j :: 0 <= j < i ==> !matches(whole[j])
    {
      if matches(lines[i]) {
        FirstWhereIs(whole, matches, i);
        lines := lines[i := target];
        found := true;
        break;
      }
    }
    if !found {
      FirstWhereIs(whole, matches, |whole|);
      var n := |lines|;
      if lines[n - 1] == "" {
        lines := lines[n - 1 := target];
        lines := lines + [""];
      } else {
        lines := lines + [target];
      }
    }
  }

  // ---------- what is kept ----------

  /** A line of its own that is found again. */
  ghost predicate IsTarget(target: string, matches: string -> bool) {
    matches(target) && '\n' !in target && !EndsWithReturn(target)
  }

  ghost predicate IgnoresReturn(matches: string -> bool) {
    forall line :: matches(line + "\r") <==> matches(line)
  }

  /** Editing leaves one line, the first that matches, and every other line as it was. */
  lemma EditedFirst(lines: seq<string>, target: string, matches: string -> bool)
    requires AreLines(lines) && IsTarget(target, matches)
    ensures var r := Edited(lines, target, matches);
            var k := FirstWhere(r, matches);
            && AreLines(r) && k < |r| && r[k] == target
            && r[..k] == lines[..k]
            && (FirstWhere(lines, matches) < |lines| ==> k == FirstWhere(lines, matches) && r[k + 1..] == lines[k + 1..])
            && (FirstWhere(lines, matches) == |lines| ==>
                  if lines[|lines| - 1] == "" then k == |lines| - 1 && r[k + 1..] == [""] else k == |lines| && r[k + 1..] == [])
            && Edited(r, target, matches) == r
  {
    var r, k := Edited(lines, target, matches), FirstWhere(lines, matches);
    if k < |lines| {
      FirstWhereIs(r, matches, k);
    } else if lines[|lines| - 1] == "" {
      FirstWhereIs(r, matches, |lines| - 1);
    } else {
      FirstWhereIs(r, matches, |lines|);
    }
  }

  lemma ReturnsHideNothing(lines: seq<string>, matches: string -> bool)
    requires IgnoresReturn(matches)
    ensures FirstWhere(WithReturns(lines), matches) == FirstWhere(lines, matches)
  {
    var k := FirstWhere(lines, matches);
    assert forall i :: 0 <= i < |lines| ==> (matches(WithReturns(lines)[i]) <==> matches(lines[i]));
    FirstWhereIs(WithReturns(lines), matches, k);
  }

  /** The lines of a rewritten text, cut at line feeds only. */
  lemma SplitRewritten(text: string, target: string, matches: string -> bool)
    requires IsTarget(target, matches)
    ensures var edited := Edited(LinesOf(text), target, matches);
            Split(Rewritten(text, target, matches), '\n') == if HasCRLF(text) then WithReturns(edited) else edited
  {
    var edited := Edited(LinesOf(text), target, matches);
    SplitIsLines(ToLF(text));
    EditedFirst(LinesOf(text), target, matches);
    if HasCRLF(text) {
      ReturnsInJoin(edited);
      WithReturnsAreLines(edited);
      SplitJoin(WithReturns(edited), '\n');
    } else {
      SplitJoin(edited, '\n');
    }
  }

  // ---------- the one text whose lines are not kept ----------

  /** No line matches, no line feed has a carriage return before it, and the text ends with one. */
  predicate Merges(text: string, matches: string -> bool) {
    && FirstWhere(LinesOf(text), matches) == |LinesOf(text)|
    && !HasCRLF(text) && EndsWithReturn(text)
  }

  lemma {:induction false} LastOfJoin(lines: seq<string>)
    requires AreLines(lines)
    ensures EndsWithReturn(Join(lines, '\n')) <==> EndsWithReturn(lines[|lines| - 1])
  {
    if |lines| > 1 {
      LastOfJoin(lines[1..]);
      EndOfAppend(lines[0] + ['\n'], Join(lines[1..], '\n'));
    }
  }

  lemma EndOfAppend(a: string, b: string)
    requires a != "" && a[|a| - 1] == '\n'
    ensures EndsWithReturn(a + b) <==> EndsWithReturn(b)
  {
  }

  lemma ReplacedReturns(lines: seq<string>, target: string, k: nat)
    requires AreLines(lines) && '\n' !in target && k < |lines| && !EndsWithReturn(target) && !SomeReturn(lines)
    ensures AreLines(lines[k := target]) && !SomeReturn(lines[k := target])
  {
  }

  lemma LongerReturns(lines: seq<string>, target: string)
    requires AreLines(lines) && '\n' !in target && !SomeReturn(lines)
    ensures AreLines(lines + [target])
    ensures SomeReturn(lines + [target]) <==> EndsWithReturn(lines[|lines| - 1])
  {
    var longer := lines + [target];
    assert longer[|lines| - 1] == lines[|lines| - 1];
    assert forall i :: 0 <= i < |lines| - 1 ==> longer[i] == lines[i];
  }

  lemma SomeReturnEdited(lines: seq<string>, target: string, matches: string -> bool)
    requires AreLines(lines) && !SomeReturn(lines) && '\n' !in target && !EndsWithReturn(target)
    ensures AreLines(Edited(lines, target, matches))
    ensures SomeReturn(Edited(lines, target, matches))
            <==> FirstWhere(lines, matches) == |lines| && EndsWithReturn(lines[|lines| - 1])
  {
    var k, last := FirstWhere(lines, matches), |lines| - 1;
    if k < |lines| {
      ReplacedReturns(lines, target, k);
    } else if lines[last] == "" {
      ReplacedReturns(lines, target, last);
      LongerReturns(lines[last := target], "");
    } else {
      LongerReturns(lines, target);
    }
  }

  lemma EditedReturns(lines: seq<string>, target: string, matches: string -> bool)
    requires AreLines(lines) && !HasCRLF(Join(lines, '\n')) && IsTarget(target, matches)
    ensures HasCRLF(Join(Edited(lines, target, matches), '\n'))
            <==> FirstWhere(lines, matches) == |lines| && EndsWithReturn(lines[|lines| - 1])
  {
    CRLFInJoin(lines);
    SomeReturnEdited(lines, target, matches);
    CRLFInJoin(Edited(lines, target, matches));
  }

  /** Without carriage returns before line feeds, only a merging text gets one. */
  lemma BodyCRLF(text: string, target: string, matches: string -> bool)
    requires !HasCRLF(text) && IsTarget(target, matches)
    ensures HasCRLF(Rewritten(text, target, matches)) <==> Merges(text, matches)
  {
    ToLFKeeps(text);
    SplitIsLines(text);
    JoinSplit(text, '\n');
    LastOfJoin(LinesOf(text));
    EditedReturns(LinesOf(text), target, matches);
  }

  lemma MergedText(text: string, target: string, matches: string -> bool)
    requires Merges(text, matches)
    ensures Edited(LinesOf(text), target, matches) == LinesOf(text) + [target]
    ensures Rewritten(text, target, matches) == text[..|text| - 1] + ("\r\n" + target)
  {
    ToLFKeeps(text);
    SplitIsLines(text);
    JoinSplit(text, '\n');
    LastOfJoin(LinesOf(text));
    JoinAppend(LinesOf(text), target, '\n');
    ReturnAndFeed(text, target);
  }

  lemma ReturnAndFeed(text: string, target: string)
    requires EndsWithReturn(text)
    ensures text + "\n" + target == text[..|text| - 1] + ("\r\n" + target)
  {
  }

  lemma MergedToLF(front: string, target: string)
    requires !HasCRLF(front) && '\n' !in target
    ensures ToLF(front + ("\r\n" + target)) == front + "\n" + target
  {
    var rest := "\r\n" + target;
    ToLFAppend(front, rest);
    NoFeedNoCRLF(target);
    ToLFKeeps(target);
    Cut("\r\n", target);
    Regroup(front, "\n", target);
  }

  /** A merging text: its last line loses the carriage return when the new line is put behind it. */
  lemma MergedLines(text: string, target: string, matches: string -> bool)
    requires Merges(text, matches) && IsTarget(target, matches)
    ensures LinesOf(Rewritten(text, target, matches)) == Split(text[..|text| - 1], '\n') + [target]
  {
    MergedText(text, target, matches);
    FrontHasNone(text);
    MergedToLF(text[..|text| - 1], target);
    SplitLast(text[..|text| - 1], target, '\n');
  }

  lemma FrontHasNone(text: string)
    requires text != "" && !HasCRLF(text)
    ensures !HasCRLF(text[..|text| - 1])
  {
  }

  /** The lines of the result are the lines, edited, under either line ending, unless the text merges. */
  lemma LinesKept(text: string, target: string, matches: string -> bool)
    requires IsTarget(target, matches)
    ensures LinesOf(Rewritten(text, target, matches)) == Edited(LinesOf(text), target, matches) <==> !Merges(text, matches)
  {
    var edited := Edited(LinesOf(text), target, matches);
    SplitIsLines(ToLF(text));
    EditedFirst(LinesOf(text), target, matches);
    SplitJoin(edited, '\n');
    if HasCRLF(text) {
      LineFeedsRoundTrip(Join(edited, '\n'));
    } else if Merges(text, matches) {
      MergedText(text, target, matches);
      MergedLines(text, target, matches);
      LastLineLonger(text);
    } else {
      BodyCRLF(text, target, matches);
      ToLFKeeps(Rewritten(text, target, matches));
    }
  }

  /** Of a text that ends with a carriage return, only the last line has it. */
  lemma LastLineLonger(text: string)
    requires !HasCRLF(text) && EndsWithReturn(text)
    ensures var (lines, short) := (LinesOf(text), Split(text[..|text| - 1], '\n'));
            var n := |short| - 1;
            lines == short[n := short[n] + "\r"] && lines[n] != short[n]
  {
    ToLFKeeps(text);
    LastLine(text[..|text| - 1]);
    assert text == text[..|text| - 1] + "\r";
  }

  lemma LastLine(front: string)
    ensures var (lines, short) := (Split(front + "\r", '\n'), Split(front, '\n'));
            var n := |short| - 1;
            lines == short[n := short[n] + "\r"] && lines[n] != short[n]
  {
    SplitExtend(front, '\r', '\n');
  }

  // ---------- rewriting twice ----------

  lemma {:induction false} FeedsInJoin(lines: seq<string>)
    requires |lines| > 1
    ensures '\n' in Join(lines, '\n')
  {
  }

  lemma {:induction false} ReturnsWritten(s: string)
    requires '\n' in s
    ensures HasCRLF(ToCRLF(s))
  {
    if s[0] == '\n' {
      StartHas(ToCRLF(s));
    } else {
      assert s == [s[0]] + s[1..];
      ReturnsWritten(s[1..]);
      var t := ToCRLF(s[1..]);
      var i :| 0 <= i < |t| - 1 && t[i] == '\r' && t[i + 1] == '\n';
      assert ToCRLF(s)[i + 1] == '\r' && ToCRLF(s)[i + 1 + 1] == '\n';
    }
  }

  lemma {:induction false} FeedsStay(s: string)
    requires HasCRLF(s)
    ensures '\n' in ToLF(s)
    decreases |s|
  {
    if !StartsCRLF(s) {
      var i :| 0 <= i < |s| - 1 && s[i] == '\r' && s[i + 1] == '\n';
      assert s[1..][i - 1] == '\r' && s[1..][i - 1 + 1] == '\n';
      FeedsStay(s[1..]);
    }
  }

  /** A text with carriage returns before its line feeds keeps having them. */
  lemma StaysCRLF(text: string, target: string, matches: string -> bool)
    requires HasCRLF(text)
    ensures HasCRLF(Rewritten(text, target, matches))
  {
    var lines := LinesOf(text);
    FeedsStay(text);
    if |lines| == 1 {
      JoinSplit(ToLF(text), '\n');
      SplitIsLines(ToLF(text));
    }
    FeedsInJoin(Edited(lines, target, matches));
    ReturnsWritten(Join(Edited(lines, target, matches), '\n'));
  }

  lemma NoMatchWithout(short: seq<string>, matches: string -> bool)
    requires short != [] && IgnoresReturn(matches)
    requires var n := |short| - 1; FirstWhere(short[n := short[n] + "\r"], matches) == |short|
    ensures forall i :: 0 <= i < |short| ==> !matches(short[i])
  {
    var n := |short| - 1;
    var lines := short[n := short[n] + "\r"];
    forall i | 0 <= i < |short|
      ensures !matches(short[i])
    {
      assert !matches(lines[i]);
    }
  }

  lemma MergedNoMatch(text: string, target: string, matches: string -> bool)
    requires Merges(text, matches) && IsTarget(target, matches) && IgnoresReturn(matches)
    ensures var lines := Split(text[..|text| - 1], '\n') + [target]; Edited(lines, target, matches) == lines
  {
    var short := Split(text[..|text| - 1], '\n');
    LastLineLonger(text);
    NoMatchWithout(short, matches);
    FirstWhereIs(short + [target], matches, |short|);
  }

  /** A merging text is rewritten again with a carriage return before every line feed. */
  lemma MergedTwice(text: string, target: string, matches: string -> bool)
    requires Merges(text, matches) && IsTarget(target, matches) && IgnoresReturn(matches)
    ensures Rewritten(Rewritten(text, target, matches), target, matches)
            == ToCRLF(text[..|text| - 1] + "\n" + target)
  {
    var front := text[..|text| - 1];
    BodyCRLF(text, target, matches);
    MergedLines(text, target, matches);
    MergedNoMatch(text, target, matches);
    JoinSplit(front, '\n');
    JoinAppend(Split(front, '\n'), target, '\n');
  }

  lemma MergedChanges(front: string, target: string)
    requires '\n' !in target
    ensures ToCRLF(front + "\n" + target) == front + ("\r\n" + target) <==> '\n' !in front
  {
    ToCRLFAppend(front + "\n", target);
    ToCRLFAppend(front, "\n");
    ToCRLFKeeps(front);
    ToCRLFKeeps(target);
    assert ToCRLF("\n") == "\r\n";
    Regroup(front, "\r\n", target);
  }

  /** Rewriting again changes nothing, unless the text merges and has a line feed. */
  lemma RewrittenTwice(text: string, target: string, matches: string -> bool)
    requires IsTarget(target, matches) && IgnoresReturn(matches)
    ensures Rewritten(Rewritten(text, target, matches), target, matches) == Rewritten(text, target, matches)
            <==> !(Merges(text, matches) && '\n' in text)
  {
    if Merges(text, matches) {
      MergedTwice(text, target, matches);
      MergedText(text, target, matches);
      MergedChanges(text[..|text| - 1], target);
      assert text == text[..|text| - 1] + "\r";
    } else {
      SplitIsLines(ToLF(text));
      LinesKept(text, target, matches);
      EditedFirst(LinesOf(text), target, matches);
      if HasCRLF(text) {
        StaysCRLF(text, target, matches);
      } else {
        BodyCRLF(text, target, matches);
      }
    }
  }

  // ---------- line endings that are kept ----------

  /** Some line feed has no carriage return before it. */
  predicate HasLoneLF(s: string) {
    exists i :: 0 <= i < |s| && s[i] == '\n' && (i == 0 || s[i - 1] != '\r')
  }

  /** Where two texts meet at a line feed, the end of the first says whether it is a lone one. */
  lemma LoneAtLineFeed(a: string, b: string)
    ensures HasLoneLF(a + ("\n" + b)) <==> HasLoneLF(a) || !EndsWithReturn(a) || HasLoneLF(b)
  {
    var s := a + ("\n" + b);
    var n := |a|;
    assert s[n] == '\n' && forall i :: n < i < |s| ==> s[i] == b[i - n - 1];
    assert forall i :: 0 <= i < n ==> s[i] == a[i];
    if HasLoneLF(s) {
      var i :| 0 <= i < |s| && s[i] == '\n' && (i == 0 || s[i - 1] != '\r');
      if i > n {
        assert b[i - n - 1] == '\n';
      }
    }
    if HasLoneLF(a) {
      var i :| 0 <= i < |a| && a[i] == '\n' && (i == 0 || a[i - 1] != '\r');
      assert s[i] == '\n';
    }
    if HasLoneLF(b) {
      var i :| 0 <= i < |b| && b[i] == '\n' && (i == 0 || b[i - 1] != '\r');
      assert s[n + 1 + i] == '\n' && s[n + 1 + i - 1] != '\r';
    }
  }

  /** A joined text has a lone line feed iff some line but the last does not end with a carriage return. */
  lemma {:induction false} LoneInJoin(lines: seq<string>)
    requires AreLines(lines)
    ensures HasLoneLF(Join(lines, '\n')) <==> exists i :: 0 <= i < |lines| - 1 && !EndsWithReturn(lines[i])
  {
    if |lines| > 1 {
      var rest := lines[1..];
      LoneInJoin(rest);
      LoneAtLineFeed(lines[0], Join(rest, '\n'));
      assert Join(lines, '\n') == lines[0] + ("\n" + Join(rest, '\n'));
      if i :| 0 <= i < |lines| - 1 && !EndsWithReturn(lines[i]) {
        assert i == 0 || !EndsWithReturn(rest[i - 1]);
      }
      if i :| 0 <= i < |rest| - 1 && !EndsWithReturn(rest[i]) {
        assert !EndsWithReturn(lines[i + 1]);
      }
    }
  }

  /** What is written with carriage returns has no lone line feed. */
  lemma WrittenHasNoLone(lines: seq<string>)
    requires AreLines(lines)
    ensures !HasLoneLF(ToCRLF(Join(lines, '\n')))
  {
    ReturnsInJoin(lines);
    WithReturnsAreLines(lines);
    LoneInJoin(WithReturns(lines));
    assert forall i :: 0 <= i < |lines| - 1 ==> WithReturns(lines)[i] == lines[i] + "\r";
  }

  /** A text without lone line feeds is its lines, written with carriage returns. */
  lemma {:induction false} NoLoneRoundTrip(s: string)
    requires !HasLoneLF(s)
    ensures ToCRLF(ToLF(s)) == s
    decreases |s|
  {
    if s != "" {
      assert s[0] != '\n';
      if StartsCRLF(s) {
        NoLoneTail(s, 2);
        NoLoneRoundTrip(s[2..]);
        assert ToCRLF("\n" + ToLF(s[2..])) == "\r\n" + ToCRLF(ToLF(s[2..]));
      } else {
        NoLoneTail(s, 1);
        NoLoneRoundTrip(s[1..]);
        assert ToCRLF([s[0]] + ToLF(s[1..])) == [s[0]] + ToCRLF(ToLF(s[1..]));
      }
    }
  }

  lemma NoLoneTail(s: string, k: nat)
    requires !HasLoneLF(s) && k <= |s| && (k < |s| ==> s[k] != '\n')
    ensures !HasLoneLF(s[k..])
  {
  }

  /** A line put behind a text, under its line ending. */
  function Behind(text: string, open: bool, ending: string, target: string): string {
    if open then text + ending + target else text + target + ending
  }

  /** The text with the first matching line replaced where it stands, or a line put behind; every line ending stays. */
  function InPlace(text: string, target: string, matches: string -> bool): string {
    var raw := Split(text, '\n');
    var k, last := FirstWhere(raw, matches), |raw| - 1;
    var ending := if HasCRLF(text) then "\r\n" else "\n";
    if k < last && EndsWithReturn(raw[k]) then Join(raw[k := target + "\r"], '\n')
    else if k <= last then Join(raw[k := target], '\n')
    else Behind(text, raw[last] != "", ending, target)
  }

  lemma EmptyBehind(a: string, b: string, c: string)
    ensures "" + b == b && a + b + c + "" == a + (b + c) && a + b + c == a + (b + c)
  {
  }

  lemma ClosedLast(lines: seq<string>, target: string)
    requires lines != [] && lines[|lines| - 1] == ""
    ensures Join(lines[|lines| - 1 := target] + [""], '\n') == Join(lines, '\n') + (target + "\n")
  {
    EmptyBehind(Join(lines, '\n'), target, "\n");
    JoinExtend(lines, target, '\n');
    JoinAppend(lines[|lines| - 1 := target], "", '\n');
  }

  lemma OpenLast(lines: seq<string>, target: string)
    requires lines != []
    ensures Join(lines + [target], '\n') == Join(lines, '\n') + ("\n" + target)
  {
    EmptyBehind(Join(lines, '\n'), "\n", target);
    JoinAppend(lines, target, '\n');
  }

  /** What is put behind the text, when no line matches. */
  lemma PutBehind(lines: seq<string>, target: string, matches: string -> bool)
    requires lines != [] && FirstWhere(lines, matches) == |lines|
    ensures Join(Edited(lines, target, matches), '\n')
            == Join(lines, '\n') + if lines[|lines| - 1] == "" then target + "\n" else "\n" + target
  {
    if lines[|lines| - 1] == "" {
      ClosedLast(lines, target);
    } else {
      OpenLast(lines, target);
    }
  }

  lemma NoReturnToKeep(lines: seq<string>, k: nat)
    requires AreLines(lines) && !HasCRLF(Join(lines, '\n'))
    ensures k < |lines| - 1 ==> !EndsWithReturn(lines[k])
  {
    CRLFInJoin(lines);
  }

  lemma KeptWithoutCRLF(text: string, target: string, matches: string -> bool)
    requires !HasCRLF(text)
    ensures Rewritten(text, target, matches) == InPlace(text, target, matches)
  {
    var lines := Split(text, '\n');
    ToLFKeeps(text);
    SplitIsLines(text);
    JoinSplit(text, '\n');
    NoReturnToKeep(lines, FirstWhere(lines, matches));
    if FirstWhere(lines, matches) == |lines| {
      PutBehind(lines, target, matches);
      EmptyBehind(text, target, "\n");
      EmptyBehind(text, "\n", target);
    }
  }

  /** A text without lone line feeds is its lines, each but the last with a carriage return. */
  lemma RawLines(text: string)
    requires !HasLoneLF(text)
    ensures Split(text, '\n') == WithReturns(LinesOf(text)) && ToCRLF(Join(LinesOf(text), '\n')) == text
  {
    var lines := LinesOf(text);
    NoLoneRoundTrip(text);
    SplitIsLines(ToLF(text));
    JoinSplit(ToLF(text), '\n');
    ReturnsInJoin(lines);
    WithReturnsAreLines(lines);
    SplitJoin(WithReturns(lines), '\n');
  }

  lemma ReplacedLine(lines: seq<string>, k: nat, target: string)
    requires k < |lines|
    ensures WithReturns(lines[k := target])
            == WithReturns(lines)[k := if k < |lines| - 1 then target + "\r" else target]
    ensures k < |lines| - 1 ==> EndsWithReturn(WithReturns(lines)[k])
  {
  }

  lemma KeptFound(text: string, target: string, matches: string -> bool)
    requires HasCRLF(text) && !HasLoneLF(text) && IsTarget(target, matches) && IgnoresReturn(matches)
    requires FirstWhere(LinesOf(text), matches) < |LinesOf(text)|
    ensures Rewritten(text, target, matches) == InPlace(text, target, matches)
  {
    var lines := LinesOf(text);
    var k := FirstWhere(lines, matches);
    RawLines(text);
    ReturnsHideNothing(lines, matches);
    SplitIsLines(ToLF(text));
    ReturnsInJoin(lines[k := target]);
    ReplacedLine(lines, k, target);
  }

  lemma WrittenBehind(text: string, target: string)
    requires ToCRLF(target) == target
    ensures ToCRLF(text + (target + "\n")) == ToCRLF(text) + target + "\r\n"
    ensures ToCRLF(text + ("\n" + target)) == ToCRLF(text) + "\r\n" + target
  {
    assert ToCRLF("\n") == "\r\n";
    ToCRLFAppend(target, "\n");
    ToCRLFAppend("\n", target);
    ToCRLFAppend(text, target + "\n");
    ToCRLFAppend(text, "\n" + target);
    Regroup(ToCRLF(text), target, "\r\n");
    Regroup(ToCRLF(text), "\r\n", target);
  }

  lemma RewrittenBehind(text: string, target: string, matches: string -> bool)
    requires HasCRLF(text) && '\n' !in target && ToCRLF(Join(LinesOf(text), '\n')) == text
    requires FirstWhere(LinesOf(text), matches) == |LinesOf(text)|
    ensures Rewritten(text, target, matches)
            == Behind(text, LinesOf(text)[|LinesOf(text)| - 1] != "", "\r\n", target)
  {
    PutBehind(LinesOf(text), target, matches);
    ToCRLFKeeps(target);
    WrittenBehind(Join(LinesOf(text), '\n'), target);
  }

  lemma KeptBehind(text: string, target: string, matches: string -> bool)
    requires HasCRLF(text) && !HasLoneLF(text) && IsTarget(target, matches) && IgnoresReturn(matches)
    requires FirstWhere(LinesOf(text), matches) == |LinesOf(text)|
    ensures Rewritten(text, target, matches) == InPlace(text, target, matches)
  {
    RawLines(text);
    ReturnsHideNothing(LinesOf(text), matches);
    RewrittenBehind(text, target, matches);
  }

  lemma LonePrefix(a: string, b: string)
    requires HasLoneLF(a)
    ensures HasLoneLF(a + b)
  {
    var i :| 0 <= i < |a| && a[i] == '\n' && (i == 0 || a[i - 1] != '\r');
    assert (a + b)[i] == '\n' && (i == 0 || (a + b)[i - 1] == a[i - 1]);
  }

  /** Replacing a line where it stands leaves a lone line feed lone. */
  lemma LoneStays(text: string, target: string, matches: string -> bool)
    requires HasLoneLF(text) && IsTarget(target, matches)
    ensures HasLoneLF(InPlace(text, target, matches))
  {
    var raw := Split(text, '\n');
    var k, last := FirstWhere(raw, matches), |raw| - 1;
    var ending := if HasCRLF(text) then "\r\n" else "\n";
    SplitIsLines(text);
    JoinSplit(text, '\n');
    LoneInJoin(raw);
    var i :| 0 <= i < last && !EndsWithReturn(raw[i]);
    if k <= last {
      var line := if k < last && EndsWithReturn(raw[k]) then target + "\r" else target;
      LoneInJoin(raw[k := line]);
      assert !EndsWithReturn(raw[k := line][i]);
    } else {
      LonePrefix(text, target + ending);
      LonePrefix(text, ending + target);
      Regroup(text, target, ending);
      Regroup(text, ending, target);
    }
  }

  /** The text is edited in place, every line ending kept, iff no lone line feed stands beside a CRLF. */
  lemma EndingsKeptIff(text: string, target: string, matches: string -> bool)
    requires IsTarget(target, matches) && IgnoresReturn(matches)
    ensures Rewritten(text, target, matches) == InPlace(text, target, matches) <==> !(HasCRLF(text) && HasLoneLF(text))
  {
    if !HasCRLF(text) {
      KeptWithoutCRLF(text, target, matches);
    } else if HasLoneLF(text) {
      LoneStays(text, target, matches);
      SplitIsLines(ToLF(text));
      EditedFirst(LinesOf(text), target, matches);
      WrittenHasNoLone(Edited(LinesOf(text), target, matches));
    } else if FirstWhere(LinesOf(text), matches) < |LinesOf(text)| {
      KeptFound(text, target, matches);
    } else {
      KeptBehind(text, target, matches);
    }
  }
}
