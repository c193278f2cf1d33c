/** The portal line of Config.wtf: the pattern that recognises it. */
module PortalLines {
  import opened Wrappers
  import opened Texts

  /** The white space of the pattern: tab, line feed, form feed, carriage return, space. */
  predicate IsSpace(c: char) {
    c in {'\t', '\n', '\U{c}', '\r', ' '}
  }

  predicate AllSpace(s: string) {
    forall i :: 0 <= i < |s| ==> IsSpace(s[i])
  }

  /** Case folding as far as the pattern's words need it; the long s folds to s. */
  function Fold(c: char): char {
    if 'A' <= c <= 'Z' then c - 'A' + 'a'
    else if c == '\U{17f}' then 's'
    else c
  }

  predicate FoldsTo(s: string, word: string) {
    |s| == |word| && forall i :: 0 <= i < |s| ==> Fold(s[i]) == word[i]
  }

  const SET: string := "set"
  const PORTAL: string := "portal"
  const QUOTE: char := '"'

  function SpaceRun(s: string): (n: nat)
    ensures n <= |s| && AllSpace(s[..n])
    ensures n < |s| ==> !IsSpace(s[n])
  {
    if s == "" || !IsSpace(s[0]) then 0 else 1 + SpaceRun(s[1..])
  }

  lemma {:induction false} SpaceRunIs(spaces: string, rest: string)
    requires AllSpace(spaces) && (rest == "" || !IsSpace(rest[0]))
    ensures SpaceRun(spaces + rest) == |spaces|
  {
    if spaces == "" {
      assert spaces + rest == rest;
    } else {
      assert (spaces + rest)[1..] == spaces[1..] + rest;
      SpaceRunIs(spaces[1..], rest);
    }
  }

  // ---------- the value: white space, a quoted value, white space ----------

  datatype Value = Value(space: string, value: string, trail: string) {
    function Text(): string {
      space + Quoted(value, trail)
    }

    predicate Valid() {
      AllSpace(space) && space != "" && QUOTE !in value && AllSpace(trail)
    }
  }

  function Quoted(value: string, trail: string): string {
    [QUOTE] + (value + ([QUOTE] + trail))
  }

  function MatchQuoted(s: string): Option<(string, string)> {
    if s == "" || s[0] != QUOTE then None
    else
      var i := IndexOf(s[1..], QUOTE);
      if i == |s[1..]| || !AllSpace(s[1..][i + 1..]) then None
      else Some((s[1..][..i], s[1..][i + 1..]))
  }

  function MatchValue(s: string): Option<Value> {
    var n := SpaceRun(s);
    var quoted := MatchQuoted(s[n..]);
    if n == 0 || quoted.None? then None else Some(Value(s[..n], quoted.value.0, quoted.value.1))
  }

  lemma QuotedIsComplete(value: string, trail: string)
    requires QUOTE !in value && AllSpace(trail)
    ensures MatchQuoted(Quoted(value, trail)) == Some((value, trail))
  {
    var t := value + ([QUOTE] + trail);
    Cut([QUOTE], t);
    IndexOfAppend(value, [QUOTE] + trail, QUOTE);
    AfterQuote(value, trail);
  }

  lemma AfterQuote(value: string, trail: string)
    ensures var t := value + ([QUOTE] + trail); t[..|value|] == value && t[|value| + 1..] == trail
  {
  }

  lemma ValueIsSound(s: string)
    requires MatchValue(s).Some?
    ensures MatchValue(s).value.Valid() && MatchValue(s).value.Text() == s
  {
  }

  lemma ValueIsComplete(v: Value)
    requires v.Valid()
    ensures MatchValue(v.Text()) == Some(v)
  {
    SpaceRunIs(v.space, Quoted(v.value, v.trail));
    Cut(v.space, Quoted(v.value, v.trail));
    QuotedIsComplete(v.value, v.trail);
  }

  // ---------- a word behind white space ----------

  function MatchWord(s: string, word: string): Option<(string, string, string)> {
    var n := SpaceRun(s);
    if |s| - n < |word| || !FoldsTo(s[n..][..|word|], word) then None
    else Some((s[..n], s[n..][..|word|], s[n..][|word|..]))
  }

  lemma WordIsSound(s: string, word: string)
    requires MatchWord(s, word).Some?
    ensures var (spaces, found, rest) := MatchWord(s, word).value;
            s == spaces + (found + rest) && AllSpace(spaces) && FoldsTo(found, word)
  {
  }

  lemma WordIsComplete(spaces: string, found: string, rest: string, word: string)
    requires AllSpace(spaces) && FoldsTo(found, word) && word in {SET, PORTAL}
    ensures MatchWord(spaces + (found + rest), word) == Some((spaces, found, rest))
  {
    assert Fold(found[0]) == word[0];
    SpaceRunIs(spaces, found + rest);
    Cut(spaces, found + rest);
    Cut(found, rest);
  }

  // ---------- the line: white space, SET, white space, portal, the value ----------

  datatype Setting = Setting(gap: string, word: string, value: Value) {
    function Text(): string {
      gap + (word + value.Text())
    }

    predicate Valid() {
      AllSpace(gap) && gap != "" && FoldsTo(word, PORTAL) && value.Valid()
    }
  }

  datatype PortalLine = PortalLine(indent: string, word: string, setting: Setting) {
    function Text(): string {
      indent + (word + setting.Text())
    }

    predicate Valid() {
      AllSpace(indent) && FoldsTo(word, SET) && setting.Valid()
    }

    function Address(): string {
      setting.value.value
    }
  }

  function MatchSetting(s: string): Option<Setting> {
    var word := MatchWord(s, PORTAL);
    if word.None? || word.value.0 == "" then None
    else
      var value := MatchValue(word.value.2);
      if value.None? then None else Some(Setting(word.value.0, word.value.1, value.value))
  }

  function MatchPortal(line: string): Option<PortalLine> {
    var word := MatchWord(line, SET);
    if word.None? then None
    else
      var setting := MatchSetting(word.value.2);
      if setting.None? then None else Some(PortalLine(word.value.0, word.value.1, setting.value))
  }

  predicate IsPortal(line: string) {
    MatchPortal(line).Some?
  }

  lemma SettingIsSound(s: string)
    requires MatchSetting(s).Some?
    ensures MatchSetting(s).value.Valid() && MatchSetting(s).value.Text() == s
  {
    WordIsSound(s, PORTAL);
    ValueIsSound(MatchWord(s, PORTAL).value.2);
  }

  lemma SettingIsComplete(s: Setting)
    requires s.Valid()
    ensures MatchSetting(s.Text()) == Some(s)
  {
    WordIsComplete(s.gap, s.word, s.value.Text(), PORTAL);
    ValueIsComplete(s.value);
  }

  /** What is matched has the shape of the pattern. */
  lemma MatchIsSound(line: string, p: PortalLine)
    requires MatchPortal(line) == Some(p)
    ensures p.Valid() && p.Text() == line
  {
    WordIsSound(line, SET);
    SettingIsSound(MatchWord(line, SET).value.2);
  }

  /** Every line of that shape is matched, and taken apart in only one way. */
  lemma MatchIsComplete(p: PortalLine)
    requires p.Valid()
    ensures MatchPortal(p.Text()) == Some(p)
  {
    WordIsComplete(p.indent, p.word, p.setting.Text(), SET);
    SettingIsComplete(p.setting);
  }

  // ---------- what a line means ----------

  function WithTrail(p: PortalLine, trail: string): PortalLine {
    p.(setting := p.setting.(value := p.setting.value.(trail := trail)))
  }

  function Front(p: PortalLine): string {
    p.indent + (p.word + (p.setting.gap + (p.setting.word + p.setting.value.space)))
  }

  /** The line up to its second quote. */
  function Stem(p: PortalLine): string {
    Front(p) + [QUOTE] + p.Address() + [QUOTE]
  }

  lemma TextInParts(p: PortalLine)
    ensures p.Text() == Front(p) + [QUOTE] + (p.Address() + [QUOTE] + p.setting.value.trail)
  {
  }

  lemma StemAndTrail(p: PortalLine, trail: string)
    ensures WithTrail(p, trail).Text() == Stem(p) + trail
  {
  }

  lemma StemIs(p: PortalLine, line: string)
    requires p.Text() == line
    ensures line == Stem(p) + p.setting.value.trail
  {
  }

  lemma OtherTrail(p: PortalLine, trail: string)
    requires p.Valid() && AllSpace(trail)
    ensures IsPortal(Stem(p) + trail) && MatchPortal(Stem(p) + trail).value.Address() == p.Address()
  {
    StemAndTrail(p, trail);
    MatchIsComplete(WithTrail(p, trail));
  }

  lemma SpaceAppend(trail: string, c: char)
    requires AllSpace(trail) && IsSpace(c)
    ensures AllSpace(trail + [c])
  {
  }

  /** A carriage return at the end of a line makes no difference. */
  lemma ReturnIgnored(line: string)
    ensures IsPortal(line + "\r") <==> IsPortal(line)
    ensures IsPortal(line) ==> MatchPortal(line + "\r").value.Address() == MatchPortal(line).value.Address()
  {
    if IsPortal(line) {
      ReturnAdded(line);
    }
    if IsPortal(line + "\r") {
      ReturnDropped(line);
    }
  }

  lemma ReturnAdded(line: string)
    requires IsPortal(line)
    ensures IsPortal(line + "\r") && MatchPortal(line + "\r").value.Address() == MatchPortal(line).value.Address()
  {
    var p := MatchPortal(line).value;
    var trail := p.setting.value.trail;
    MatchIsSound(line, p);
    StemAndTrail(p, trail);
    StemIs(p, line);
    SpaceAppend(trail, '\r');
    Regroup(Stem(p), trail, "\r");
    OtherTrail(p, trail + "\r");
  }

  lemma ReturnDropped(line: string)
    requires IsPortal(line + "\r")
    ensures IsPortal(line)
  {
    var p := MatchPortal(line + "\r").value;
    var trail := p.setting.value.trail;
    MatchIsSound(line + "\r", p);
    StemAndTrail(p, trail);
    var n := LastOfTrail(line, Front(p) + [QUOTE] + p.Address(), trail);
    OtherTrail(p, trail[..n]);
  }

  lemma LastOfTrail(line: string, front: string, trail: string) returns (n: nat)
    requires line + "\r" == front + [QUOTE] + trail
    ensures n < |trail| && line == front + [QUOTE] + trail[..n]
  {
    assert (line + "\r")[|line|] == '\r';
    n := |trail| - 1;
    assert line == (line + "\r")[..|line|];
  }

  lemma ThreeParts(a: string, b: string, c: string)
    requires QUOTE !in a && QUOTE !in b && QUOTE !in c
    ensures Split(a + [QUOTE] + (b + [QUOTE] + c), QUOTE) == [a, b, c]
  {
    SplitFirst(a, b + [QUOTE] + c, QUOTE);
    SplitFirst(b, c, QUOTE);
    IndexOfNone(c, QUOTE);
  }

  /** Cutting a portal line at its quotes gives three parts, the address in the middle. */
  lemma PartsOfPortal(line: string, p: PortalLine)
    requires MatchPortal(line) == Some(p)
    ensures Split(line, QUOTE) == [Front(p), p.Address(), p.setting.value.trail]
  {
    MatchIsSound(line, p);
    PartsOfText(p);
  }

  lemma PartsOfText(p: PortalLine)
    requires p.Valid()
    ensures Split(p.Text(), QUOTE) == [Front(p), p.Address(), p.setting.value.trail]
  {
    TextInParts(p);
    NoQuoteInFront(p);
    NoQuoteInSpace(p.setting.value.trail);
    ThreeParts(Front(p), p.Address(), p.setting.value.trail);
  }

  lemma NoQuoteInSpace(s: string)
    requires AllSpace(s)
    ensures QUOTE !in s
  {
  }

  lemma NoQuoteInFront(p: PortalLine)
    requires p.Valid()
    ensures QUOTE !in Front(p)
  {
  }
}
