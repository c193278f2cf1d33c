/** Pointing Config.wtf at the local proxy, and checking that it does. */
module Portals {
  import opened Wrappers
  import opened Texts
  import opened ConfigTexts
  import opened PortalLines

  const LOCAL_PROXY: string := "127.0.0.1:7000"
  const HOST: string := "127.0.0.1:"

  function Digits(n: nat): (s: string)
    ensures s != "" && forall i :: 0 <= i < |s| ==> '0' <= s[i] <= '9'
  {
    var digit := ['0' + (n % 10) as char];
    if n < 10 then digit else Digits(n / 10) + digit
  }

  function Decimal(n: int): string {
    if n < 0 then "-" + Digits(-n) else Digits(n)
  }

  function Target(port: int): string {
    SettingFor(HOST + Decimal(port))
  }

  function SettingFor(address: string): string {
    "SET portal \"" + address + "\""
  }

  predicate PointsAt(line: string, address: string) {
    var parts := Split(line, QUOTE);
    |parts| >= 3 && parts[1] == address
  }

  /** The first portal line of a text names the local proxy. */
  predicate LocalProxy(text: string) {
    var lines := Split(text, '\n');
    var k := FirstWhere(lines, IsPortal);
    k < |lines| && PointsAt(lines[k], LOCAL_PROXY)
  }

  method SetPortal(data: string, port: int) returns (body: string)
    ensures body == Rewritten(data, Target(port), IsPortal)
  {
    var useCRLF := HasCRLF(data);
    var text := ToLF(data);
    var lines := Split(text, '\n');
    var target := Target(port);
    lines := EditLines(lines, target, IsPortal);
    body := Join(lines, '\n');
    if useCRLF {
      body := ToCRLF(body);
    }
  }

  method UsesLocalProxyPortal(wtf: string) returns (uses: bool)
    ensures uses == LocalProxy(wtf)
  {
    var lines := Split(wtf, '\n');
    uses := FirstPointsAt(lines, IsPortal);
  }

  /** The search, for any pattern. The address has no letters, so folding its case changes nothing. */
  method FirstPointsAt(lines: seq<string>, matches: string -> bool) returns (uses: bool)
    ensures uses == var k := FirstWhere(lines, matches); k < |lines| && PointsAt(lines[k], LOCAL_PROXY)
  {
    for i := 0 to |lines|
      invariant forall j :: 0 <= j < i ==> !matches(lines[j])
    {
      if matches(lines[i]) {
        FirstWhereIs(lines, matches, i);
        var parts := Split(lines[i], QUOTE);
        return |parts| >= 3 && parts[1] == LOCAL_PROXY;
      }
    }
    FirstWhereIs(lines, matches, |lines|);
    return false;
  }

  // ---------- the line that is written ----------

  function Number(s: string): nat
    requires forall i :: 0 <= i < |s| ==> '0' <= s[i] <= '9'
  {
    if s == "" then 0 else 10 * Number(s[..|s| - 1]) + (s[|s| - 1] - '0') as nat
  }

  lemma {:induction false} DigitsRoundTrip(n: nat)
    ensures Number(Digits(n)) == n
  {
    if n >= 10 {
      DigitsRoundTrip(n / 10);
      assert Digits(n)[..|Digits(n)| - 1] == Digits(n / 10);
    }
  }

  /** Ports are told apart by their decimal form. */
  lemma DecimalInjective(a: int, b: int)
    ensures Decimal(a) == Decimal(b) <==> a == b
  {
    DigitsRoundTrip(if a < 0 then -a else a);
    DigitsRoundTrip(if b < 0 then -b else b);
    assert a < 0 ==> Decimal(a)[0] == '-' && Decimal(a)[1..] == Digits(-a);
    assert b < 0 ==> Decimal(b)[0] == '-' && Decimal(b)[1..] == Digits(-b);
  }

  lemma Port7000()
    ensures LOCAL_PROXY == HOST + Decimal(7000)
  {
  }

  function LineFor(address: string): PortalLine {
    PortalLine("", "SET", Setting(" ", "portal", Value(" ", address, "")))
  }

  lemma LineForText(address: string)
    ensures LineFor(address).Text() == SettingFor(address)
  {
  }

  lemma LineForValid(address: string)
    requires QUOTE !in address
    ensures LineFor(address).Valid()
  {
  }

  /** The line that is written is a portal line with that address. */
  lemma SettingIsPortal(address: string)
    requires QUOTE !in address
    ensures MatchPortal(SettingFor(address)) == Some(LineFor(address))
  {
    LineForText(address);
    LineForValid(address);
    MatchIsComplete(LineFor(address));
  }

  lemma SettingIsLine(address: string)
    requires '\n' !in address
    ensures '\n' !in SettingFor(address) && !EndsWithReturn(SettingFor(address))
  {
  }

  lemma TargetIsPortal(port: int)
    ensures MatchPortal(Target(port)) == Some(LineFor(HOST + Decimal(port)))
    ensures IsTarget(Target(port), IsPortal)
  {
    AddressIsPlain(port);
    SettingIsPortal(HOST + Decimal(port));
    SettingIsLine(HOST + Decimal(port));
  }

  lemma AddressIsPlain(port: int)
    ensures QUOTE !in HOST + Decimal(port) && '\n' !in HOST + Decimal(port)
  {
  }

  lemma PortalIgnoresReturn()
    ensures IgnoresReturn(IsPortal)
  {
    forall line: string
      ensures IsPortal(line + "\r") <==> IsPortal(line)
    {
      ReturnIgnored(line);
    }
  }

  lemma AddressIsLocal(port: int)
    ensures HOST + Decimal(port) == LOCAL_PROXY <==> port == 7000
  {
    Port7000();
    DecimalInjective(port, 7000);
    Cut(HOST, Decimal(port));
    Cut(HOST, Decimal(7000));
  }

  lemma PointsAtMiddle(line: string, front: string, middle: string, back: string, address: string)
    requires Split(line, QUOTE) == [front, middle, back]
    ensures PointsAt(line, address) <==> middle == address
  {
  }

  lemma PointsAtAddress(line: string, address: string)
    requires IsPortal(line)
    ensures PointsAt(line, address) <==> MatchPortal(line).value.Address() == address
  {
    var p := MatchPortal(line).value;
    PartsOfPortal(line, p);
    PointsAtMiddle(line, Front(p), p.Address(), p.setting.value.trail, address);
  }

  lemma TargetPointsAt(port: int)
    ensures PointsAt(Target(port), LOCAL_PROXY) <==> port == 7000
    ensures PointsAt(Target(port) + "\r", LOCAL_PROXY) <==> port == 7000
  {
    TargetIsPortal(port);
    ReturnIgnored(Target(port));
    PointsAtAddress(Target(port), LOCAL_PROXY);
    PointsAtAddress(Target(port) + "\r", LOCAL_PROXY);
    AddressIsLocal(port);
  }

  // ---------- the main results ----------

  /** After the rewriting the check holds exactly for the port it looks for, whatever the text was. */
  lemma RewrittenIsLocal(text: string, port: int)
    ensures LocalProxy(Rewritten(text, Target(port), IsPortal)) <==> port == 7000
  {
    var edited := Edited(LinesOf(text), Target(port), IsPortal);
    TargetIsPortal(port);
    PortalIgnoresReturn();
    SplitRewritten(text, Target(port), IsPortal);
    SplitIsLines(ToLF(text));
    EditedFirst(LinesOf(text), Target(port), IsPortal);
    ReturnsHideNothing(edited, IsPortal);
    TargetPointsAt(port);
  }

  /** The text is edited in place, every line ending kept, unless it has a lone line feed beside a CRLF. */
  lemma EndingsKept(text: string, port: int)
    ensures Rewritten(text, Target(port), IsPortal) == InPlace(text, Target(port), IsPortal)
            <==> !(HasCRLF(text) && HasLoneLF(text))
  {
    TargetIsPortal(port);
    PortalIgnoresReturn();
    EndingsKeptIff(text, Target(port), IsPortal);
  }

  /** Line endings aside, every other line is kept in order, unless the text merges. */
  lemma OtherLinesKept(text: string, port: int)
    ensures LinesOf(Rewritten(text, Target(port), IsPortal)) == Edited(LinesOf(text), Target(port), IsPortal)
            <==> !Merges(text, IsPortal)
  {
    TargetIsPortal(port);
    LinesKept(text, Target(port), IsPortal);
  }

  /** Setting the portal twice is setting it once, unless the text merges and has a line feed. */
  lemma SetTwice(text: string, port: int)
    ensures var once := Rewritten(text, Target(port), IsPortal);
            Rewritten(once, Target(port), IsPortal) == once <==> !(Merges(text, IsPortal) && '\n' in text)
  {
    TargetIsPortal(port);
    PortalIgnoresReturn();
    RewrittenTwice(text, Target(port), IsPortal);
  }

  /** Two lines, the last with a lone carriage return: the second rewriting changes the first line ending. */
  lemma NotAlwaysOnce(port: int)
    ensures var once := Rewritten("a\nb\r", Target(port), IsPortal); Rewritten(once, Target(port), IsPortal) != once
  {
    TwoLines("a\nb\r");
    TwoLinesMerge("a\nb\r");
    SetTwice("a\nb\r", port);
  }

  lemma TwoLines(text: string)
    requires text == "a\nb\r"
    ensures !HasCRLF(text) && EndsWithReturn(text) && '\n' in text && LinesOf(text) == ["a", "b\r"]
  {
    assert text[1] == '\n';
    ToLFKeeps(text);
    assert text == "a" + ['\n'] + "b\r";
    SplitLast("a", "b\r", '\n');
    IndexOfNone("a", '\n');
  }

  lemma TwoLinesMerge(text: string)
    requires !HasCRLF(text) && EndsWithReturn(text) && LinesOf(text) == ["a", "b\r"]
    ensures Merges(text, IsPortal)
  {
  }
}
