/** Portal lines and the check for the local proxy, character by character. */
module PortalShapes {
  import opened Wrappers
  import opened Texts
  import opened ConfigTexts
  import opened PortalLines
  import opened Portals

  // ---------- the shape of a portal line ----------

  predicate Blank(s: string) {
    forall i :: 0 <= i < |s| ==> s[i] in {'\t', '\n', '\U{c}', '\r', ' '}
  }

  predicate SaysSet(w: string) {
    |w| == 3 && w[0] in {'s', 'S', '\U{17f}'} && w[1] in {'e', 'E'} && w[2] in {'t', 'T'}
  }

  predicate SaysPortal(w: string) {
    && |w| == 6 && w[0] in {'p', 'P'} && w[1] in {'o', 'O'} && w[2] in {'r', 'R'} && w[3] in {'t', 'T'}
    && w[4] in {'a', 'A'} && w[5] in {'l', 'L'}
  }

  /** What is around the address, which has no quote in it. */
  datatype Shape = Shape(indent: string, set_: string, gap: string, portal: string, space: string, trail: string)

  predicate Fits(s: Shape, address: string, line: string) {
    && Blank(s.indent) && SaysSet(s.set_) && Blank(s.gap) && s.gap != "" && SaysPortal(s.portal)
    && Blank(s.space) && s.space != "" && Blank(s.trail) && '"' !in address
    && line == s.indent + (s.set_ + (s.gap + (s.portal + (s.space + (['"'] + (address + (['"'] + s.trail)))))))
  }

  ghost predicate SetsPortal(line: string, address: string) {
    exists s :: Fits(s, address, line)
  }

  lemma BlankIsSpace(s: string)
    ensures Blank(s) <==> AllSpace(s)
  {
  }

  lemma SetLetters(w: string)
    ensures SaysSet(w) <==> FoldsTo(w, SET)
  {
  }

  lemma FoldedLetter(c: char, letter: char)
    requires letter in {'p', 'o', 'r', 't', 'a', 'l'}
    ensures Fold(c) == letter <==> c == letter || c == letter - 'a' + 'A'
  {
  }

  lemma PortalLetters(w: string)
    ensures SaysPortal(w) <==> FoldsTo(w, PORTAL)
  {
    if |w| == 6 {
      assert PORTAL[0] == 'p' && PORTAL[1] == 'o' && PORTAL[2] == 'r' && PORTAL[3] == 't' && PORTAL[4] == 'a' && PORTAL[5] == 'l';
      forall i | 0 <= i < 6
        ensures Fold(w[i]) == PORTAL[i] <==> w[i] == PORTAL[i] || w[i] == PORTAL[i] - 'a' + 'A'
      {
        FoldedLetter(w[i], PORTAL[i]);
      }
    }
  }

  function LineOf(s: Shape, address: string): PortalLine {
    PortalLine(s.indent, s.set_, Setting(s.gap, s.portal, Value(s.space, address, s.trail)))
  }

  function ShapeOf(p: PortalLine): Shape {
    Shape(p.indent, p.word, p.setting.gap, p.setting.word, p.setting.value.space, p.setting.value.trail)
  }

  lemma FitsIs(s: Shape, address: string, line: string)
    ensures Fits(s, address, line) <==> LineOf(s, address).Valid() && LineOf(s, address).Text() == line
  {
    BlankIsSpace(s.indent);
    BlankIsSpace(s.gap);
    BlankIsSpace(s.space);
    BlankIsSpace(s.trail);
    SetLetters(s.set_);
    PortalLetters(s.portal);
  }

  /** A line is a portal line with some address exactly when it has that shape around it. */
  lemma PortalMeaning(line: string, address: string)
    ensures IsPortal(line) && MatchPortal(line).value.Address() == address <==> SetsPortal(line, address)
  {
    if s :| Fits(s, address, line) {
      FitsIs(s, address, line);
      MatchIsComplete(LineOf(s, address));
    }
    if IsPortal(line) && MatchPortal(line).value.Address() == address {
      var p := MatchPortal(line).value;
      MatchIsSound(line, p);
      assert LineOf(ShapeOf(p), address) == p;
      FitsIs(ShapeOf(p), address, line);
    }
  }

  // ---------- the check ----------

  ghost predicate AnyPortal(line: string) {
    exists address :: SetsPortal(line, address)
  }

  lemma AnyPortalIs(line: string)
    ensures AnyPortal(line) <==> IsPortal(line)
  {
    if address :| SetsPortal(line, address) {
      PortalMeaning(line, address);
    }
    if IsPortal(line) {
      PortalMeaning(line, MatchPortal(line).value.Address());
    }
  }

  /** The text names the local proxy: its first portal line has that address. */
  ghost predicate NamesLocalProxy(lines: seq<string>) {
    exists k :: 0 <= k < |lines| && SetsPortal(lines[k], "127.0.0.1:7000") && forall j :: 0 <= j < k ==> !AnyPortal(lines[j])
  }

  predicate FirstLocal(lines: seq<string>) {
    var k := FirstWhere(lines, IsPortal);
    k < |lines| && PointsAt(lines[k], LOCAL_PROXY)
  }

  lemma LocalIsFirst(lines: seq<string>, k: nat)
    requires k < |lines| && SetsPortal(lines[k], "127.0.0.1:7000")
    requires forall j :: 0 <= j < k ==> !IsPortal(lines[j])
    ensures FirstLocal(lines)
  {
    PortalMeaning(lines[k], LOCAL_PROXY);
    FirstWhereIs(lines, IsPortal, k);
    PointsAtAddress(lines[k], LOCAL_PROXY);
  }

  lemma FirstIsLocal(lines: seq<string>) returns (k: nat)
    requires FirstLocal(lines)
    ensures k < |lines| && SetsPortal(lines[k], "127.0.0.1:7000") && forall j :: 0 <= j < k ==> !IsPortal(lines[j])
  {
    k := FirstWhere(lines, IsPortal);
    PointsAtAddress(lines[k], LOCAL_PROXY);
    PortalMeaning(lines[k], LOCAL_PROXY);
  }

  lemma NamedIsLocal(lines: seq<string>)
    requires NamesLocalProxy(lines)
    ensures FirstLocal(lines)
  {
    var k :| 0 <= k < |lines| && SetsPortal(lines[k], "127.0.0.1:7000") && forall j :: 0 <= j < k ==> !AnyPortal(lines[j]);
    forall j | 0 <= j < k
      ensures !IsPortal(lines[j])
    {
      AnyPortalIs(lines[j]);
    }
    LocalIsFirst(lines, k);
  }

  lemma LocalIsNamed(lines: seq<string>)
    requires FirstLocal(lines)
    ensures NamesLocalProxy(lines)
  {
    var k := FirstIsLocal(lines);
    forall j | 0 <= j < k
      ensures !AnyPortal(lines[j])
    {
      AnyPortalIs(lines[j]);
    }
  }

  /** For any text: one without a portal line does not, and later portal lines do not count. */
  lemma LocalProxyMeaning(text: string)
    ensures LocalProxy(text) <==> NamesLocalProxy(Split(text, '\n'))
  {
    var lines := Split(text, '\n');
    if NamesLocalProxy(lines) {
      NamedIsLocal(lines);
    }
    if FirstLocal(lines) {
      LocalIsNamed(lines);
    }
  }

  // ---------- the line that is written ----------

  /** The shortest decimal form of n. */
  predicate IsDecimal(s: string, n: nat) {
    && s != "" && (forall i :: 0 <= i < |s| ==> '0' <= s[i] <= '9')
    && Number(s) == n && (s[0] == '0' ==> s == "0")
  }

  lemma {:induction false} DigitsAreDecimal(n: nat)
    ensures IsDecimal(Digits(n), n)
  {
    DigitsRoundTrip(n);
    if n >= 10 {
      DigitsAreDecimal(n / 10);
      var front := Digits(n / 10);
      assert Digits(n)[0] == front[0];
    }
  }

  lemma TargetMeaning(port: int) returns (digits: string)
    ensures IsDecimal(digits, if port < 0 then -port else port)
    ensures Target(port) == "SET portal \"" + ("127.0.0.1:" + ((if port < 0 then "-" else "") + digits)) + "\""
  {
    digits := Digits(if port < 0 then -port else port);
    DigitsAreDecimal(if port < 0 then -port else port);
    assert "" + digits == digits;
  }

  /** In a text that has carriage returns before line feeds, every line feed gets one. */
  lemma AllReturned(text: string, port: int)
    requires HasCRLF(text)
    ensures !HasLoneLF(Rewritten(text, Target(port), IsPortal))
  {
    TargetIsPortal(port);
    SplitIsLines(ToLF(text));
    EditedFirst(LinesOf(text), Target(port), IsPortal);
    WrittenHasNoLone(Edited(LinesOf(text), Target(port), IsPortal));
  }
}
