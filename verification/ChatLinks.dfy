/** Item links in chat text, cut down to the fields a legacy server accepts. */
module ChatLinks {
  import opened Bytes
  import opened Texts

  const LEGACY_LANGUAGE_ADDON: uint32 := 0xffff_ffff
  const MODERN_LANGUAGE_ADDON: uint32 := 183
  const MODERN_LANGUAGE_LOGGED: uint32 := 184

  const LINK: string := "|Hitem:"
  const FIELDS: nat := 9

  // ---------- the pieces of a text ----------

  /** One byte as it is, an escaped pipe, or an item link up to the pipe that ends it. */
  datatype Token = Plain(c: char) | EscapedPipe | ItemLink(fields: seq<string>)

  /** The fields up to the next pipe. */
  function FieldsIn(tail: string): seq<string> {
    Split(tail[..IndexOf(tail, '|')], ':')
  }

  /** At least nine fields, the first not empty, and a display name behind them. */
  predicate IsLinkTail(tail: string) {
    && "|h[" <= tail[IndexOf(tail, '|')..]
    && |FieldsIn(tail)| >= FIELDS
    && FieldsIn(tail)[0] != ""
  }

  predicate IsItemLink(text: string) {
    LINK <= text && IsLinkTail(text[|LINK|..])
  }

  function FirstToken(text: string): Token
    requires text != ""
  {
    if "||" <= text then EscapedPipe
    else if IsItemLink(text) then ItemLink(FieldsIn(text[|LINK|..]))
    else Plain(text[0])
  }

  function FirstSize(text: string): (n: nat)
    requires text != ""
    ensures 0 < n <= |text|
  {
    if "||" <= text then 2
    else if IsItemLink(text) then |LINK| + IndexOf(text[|LINK|..], '|')
    else 1
  }

  function Tokenise(text: string): seq<Token> {
    if text == "" then [] else [FirstToken(text)] + Tokenise(text[FirstSize(text)..])
  }

  function RenderToken(t: Token): string {
    match t
    case Plain(c) => [c]
    case EscapedPipe => "||"
    case ItemLink(fields) => LINK + Join(fields, ':')
  }

  function Render(tokens: seq<Token>): string {
    if tokens == [] then "" else RenderToken(tokens[0]) + Render(tokens[1..])
  }

  lemma FirstTokenRenders(text: string)
    requires text != ""
    ensures RenderToken(FirstToken(text)) == text[..FirstSize(text)]
  {
    if !("||" <= text) && IsItemLink(text) {
      var tail := text[|LINK|..];
      JoinSplit(tail[..IndexOf(tail, '|')], ':');
      PrefixOfTail(text, LINK, IndexOf(tail, '|'));
    }
  }

  lemma PrefixOfTail(text: string, p: string, i: nat)
    requires p <= text && i <= |text[|p|..]|
    ensures p + text[|p|..][..i] == text[..|p| + i]
  {
  }

  /** Nothing is lost: the pieces make up the text. */
  lemma {:induction false} RenderTokenise(text: string)
    ensures Render(Tokenise(text)) == text
    decreases |text|
  {
    if text != "" {
      FirstTokenRenders(text);
      RenderTokenise(text[FirstSize(text)..]);
    }
  }

  // ---------- the rewriting ----------

  function OrZero(field: string): string {
    if field == "" then "0" else field
  }

  /** Nine fields, none of them empty. */
  function NineFields(fields: seq<string>): (r: seq<string>)
    requires |fields| >= FIELDS
    ensures |r| == FIELDS
  {
    seq(FIELDS, i requires 0 <= i < FIELDS => OrZero(fields[i]))
  }

  function Normal(t: Token): Token {
    if t.ItemLink? && |t.fields| >= FIELDS then ItemLink(NineFields(t.fields)) else t
  }

  function NormalAll(tokens: seq<Token>): (r: seq<Token>)
    ensures |r| == |tokens| && forall i :: 0 <= i < |r| ==> r[i] == Normal(tokens[i])
  {
    if tokens == [] then [] else [Normal(tokens[0])] + NormalAll(tokens[1..])
  }

  function Rewritten(text: string): string {
    Render(NormalAll(Tokenise(text)))
  }

  lemma RewrittenFirst(text: string)
    requires text != ""
    ensures Rewritten(text) == RenderToken(Normal(FirstToken(text))) + Rewritten(text[FirstSize(text)..])
  {
  }

  lemma PlainFirst(text: string)
    requires text != "" && !("||" <= text) && !IsItemLink(text)
    ensures Rewritten(text) == [text[0]] + Rewritten(text[1..])
  {
  }

  /** Text up to the next pipe is copied. */
  lemma {:induction false} RunCopied(run: string, rest: string)
    requires '|' !in run
    ensures Rewritten(run + rest) == run + Rewritten(rest)
  {
    if run == "" {
      assert run + rest == rest;
    } else {
      assert run[0] in run;
      RunCopied(run[1..], rest);
      Regroup([run[0]], run[1..], rest);
      Regroup([run[0]], run[1..], Rewritten(rest));
      assert run == [run[0]] + run[1..];
      PlainChar(run[0], run[1..] + rest);
    }
  }

  lemma PlainChar(c: char, rest: string)
    requires c != '|'
    ensures Rewritten([c] + rest) == [c] + Rewritten(rest)
    ensures FirstToken([c] + rest) == Plain(c) && FirstSize([c] + rest) == 1
  {
    var text := [c] + rest;
    assert text[0] == c;
    PlainFirst(text);
    Cut([c], rest);
  }

  function BarIndex(text: string): (i: nat)
    ensures i <= |text|
  {
    IndexOf(text, '|')
  }

  /** A text and its rewriting agree up to the first pipe. */
  lemma RunStable(text: string)
    ensures var i := BarIndex(text);
            && Rewritten(text) == text[..i] + Rewritten(text[i..])
            && BarIndex(Rewritten(text)) == i
  {
    var i := BarIndex(text);
    assert text == text[..i] + text[i..];
    RunCopied(text[..i], text[i..]);
    BarFirst(text[i..]);
    IndexOfAppend(text[..i], Rewritten(text[i..]), '|');
  }

  /** A rewritten text begins with a pipe iff the text does. */
  lemma BarFirst(text: string)
    ensures text == "" ==> Rewritten(text) == ""
    ensures text != "" ==> Rewritten(text) != "" && (text[0] == '|' <==> Rewritten(text)[0] == '|')
    ensures text != "" && text[0] != '|' ==> Rewritten(text)[0] == text[0]
  {
  }

  // ---------- the pieces of a rewritten text ----------

  lemma BarBeyond(p: string, text: string)
    requires '|' !in p && p <= text
    ensures |p| <= BarIndex(text)
  {
  }

  /** A beginning without a pipe is there before iff it is there after. */
  lemma PrefixStable(p: string, text: string)
    requires '|' !in p
    ensures p <= text <==> p <= Rewritten(text)
  {
    var i, out := BarIndex(text), Rewritten(text);
    RunStable(text);
    assert out[..i] == text[..i];
    if p <= text {
      BarBeyond(p, text);
      assert p == text[..i][..|p|] == out[..i][..|p|];
    }
    if p <= out {
      BarBeyond(p, out);
      assert p == out[..i][..|p|] == text[..i][..|p|];
    }
  }

  /** The display name of a link is there before iff it is there after. */
  lemma NameStable(text: string)
    ensures "|h[" <= text <==> "|h[" <= Rewritten(text)
  {
    if text == "" {
    } else if "||" <= text || IsItemLink(text) {
      SecondKept(text);
    } else if text[0] != '|' {
      BarFirst(text);
    } else {
      var rest := text[1..];
      RewrittenFirst(text);
      PrefixStable("h[", rest);
      AfterBar(rest, "h[");
      AfterBar(Rewritten(rest), "h[");
      assert text == "|" + rest;
    }
  }

  /** An escaped pipe or a link is not a display name, before or after. */
  lemma SecondKept(text: string)
    requires text != "" && ("||" <= text || IsItemLink(text))
    ensures |text| > 1 && |Rewritten(text)| > 1 && text[1] == Rewritten(text)[1] != 'h'
  {
    var p := if "||" <= text then "||" else LINK;
    RewrittenFirst(text);
    assert p <= RenderToken(Normal(FirstToken(text)));
    SecondOf(p, text);
    SecondOf(p, Rewritten(text));
  }

  lemma SecondOf(p: string, text: string)
    requires |p| > 1 && p <= text
    ensures |text| > 1 && text[1] == p[1]
  {
  }

  lemma AfterBar(rest: string, p: string)
    ensures "|" + p <= "|" + rest <==> p <= rest
  {
    assert ("|" + p)[1..] == p && ("|" + rest)[1..] == rest;
    if p <= rest {
      assert rest == p + rest[|p|..];
      assert "|" + rest == "|" + p + rest[|p|..];
    }
    if "|" + p <= "|" + rest {
      assert p == ("|" + p)[1..] == ("|" + rest)[..1 + |p|][1..] == rest[..|p|];
    }
  }

  /** What looked like a link before looks like the same one after. */
  lemma LinkStable(tail: string)
    ensures FieldsIn(Rewritten(tail)) == FieldsIn(tail)
    ensures IsLinkTail(Rewritten(tail)) <==> IsLinkTail(tail)
  {
    var i := BarIndex(tail);
    RunStable(tail);
    Cut(tail[..i], Rewritten(tail[i..]));
    NameStable(tail[i..]);
  }

  /** A pipe that is neither escaped nor a link stays so. */
  lemma PlainBarStable(rest: string)
    requires var text := "|" + rest; !("||" <= text) && !IsItemLink(text)
    ensures var out := "|" + Rewritten(rest); !("||" <= out) && !IsItemLink(out)
  {
    BarFirst(rest);
    AfterBar(rest, "|");
    AfterBar(Rewritten(rest), "|");
    if "Hitem:" <= Rewritten(rest) {
      PrefixStable("Hitem:", rest);
      var tail := rest[6..];
      assert rest == "Hitem:" + tail;
      RunCopied("Hitem:", tail);
      LinkStable(tail);
      AfterLink(tail);
      AfterLink(Rewritten(tail));
    } else {
      AfterBar(Rewritten(rest), "Hitem:");
    }
  }

  lemma AfterLink(tail: string)
    ensures var text := "|" + ("Hitem:" + tail); IsItemLink(text) <==> IsLinkTail(tail)
  {
    assert "|" + ("Hitem:" + tail) == LINK + tail;
    Cut(LINK, tail);
  }

  lemma NineFieldsClean(fields: seq<string>, c: char)
    requires |fields| >= FIELDS && c != '0' && forall i :: 0 <= i < |fields| ==> c !in fields[i]
    ensures forall i :: 0 <= i < FIELDS ==> c !in NineFields(fields)[i]
  {
  }

  /** A rewritten link is a link of nine fields, and no other text belongs to it. */
  lemma LinkRewritten(fields: seq<string>, after: string)
    requires |fields| >= FIELDS && fields[0] != "" && "|h[" <= after
    requires forall i :: 0 <= i < |fields| ==> ':' !in fields[i]
    requires forall i :: 0 <= i < |fields| ==> '|' !in fields[i]
    ensures var nine := NineFields(fields);
            var tail := Join(nine, ':') + after;
            IsLinkTail(tail) && FieldsIn(tail) == nine && IndexOf(tail, '|') == |Join(nine, ':')|
  {
    var nine := NineFields(fields);
    var payload := Join(nine, ':');
    NineFieldsClean(fields, ':');
    NineFieldsClean(fields, '|');
    JoinHolds(nine, ':', '|');
    IndexOfAppend(payload, after, '|');
    Cut(payload, after);
    SplitJoin(nine, ':');
  }

  /** The first piece of the rewritten text is the first piece, rewritten; the rest likewise. */
  ghost predicate FirstRewritten(text: string)
    requires text != ""
  {
    var out := Rewritten(text);
    && out != "" && FirstToken(out) == Normal(FirstToken(text))
    && out[FirstSize(out)..] == Rewritten(text[FirstSize(text)..])
  }

  lemma FirstOfLink(tail: string)
    requires IsLinkTail(tail)
    ensures var text := LINK + tail;
            && FirstToken(text) == ItemLink(FieldsIn(tail))
            && FirstSize(text) == |LINK| + IndexOf(tail, '|')
            && text[FirstSize(text)..] == tail[IndexOf(tail, '|')..]
  {
    var text := LINK + tail;
    Cut(LINK, tail);
    assert text[1] == 'H';
  }

  lemma LinkTailRewritten(tail: string)
    requires IsLinkTail(tail)
    ensures var (nine, after) := (NineFields(FieldsIn(tail)), Rewritten(tail[IndexOf(tail, '|')..]));
            var out := Join(nine, ':') + after;
            && IsLinkTail(out) && FieldsIn(out) == nine && out[IndexOf(out, '|')..] == after
            && Rewritten(LINK + tail) == LINK + out
  {
    var i := IndexOf(tail, '|');
    var fields, after := FieldsIn(tail), tail[i..];
    var payload := Join(NineFields(fields), ':');
    FieldsOfSplit(tail[..i], ':');
    SplitHolds(tail[..i], ':', '|');
    NameStable(after);
    LinkRewritten(fields, Rewritten(after));
    Cut(payload, Rewritten(after));
    FirstOfLink(tail);
    RewrittenFirst(LINK + tail);
    Regroup(LINK, payload, Rewritten(after));
  }

  lemma LinkFirst(tail: string)
    requires IsLinkTail(tail)
    ensures FirstRewritten(LINK + tail)
  {
    LinkTailRewritten(tail);
    FirstOfLink(tail);
    FirstOfLink(Join(NineFields(FieldsIn(tail)), ':') + Rewritten(tail[IndexOf(tail, '|')..]));
  }

  lemma EscapedFirst(rest: string)
    ensures FirstRewritten("||" + rest)
  {
  }

  lemma PlainStable(c: char, rest: string)
    requires var text := [c] + rest; !("||" <= text) && !IsItemLink(text)
    ensures FirstRewritten([c] + rest)
  {
    PlainFirst([c] + rest);
    Cut([c], rest);
    Cut([c], Rewritten(rest));
    if c == '|' {
      PlainBarStable(rest);
    }
  }

  lemma FirstStable(text: string)
    requires text != ""
    ensures FirstRewritten(text)
  {
    if "||" <= text {
      assert text == "||" + text[2..];
      EscapedFirst(text[2..]);
    } else if IsItemLink(text) {
      assert text == LINK + text[|LINK|..];
      LinkFirst(text[|LINK|..]);
    } else {
      assert text == [text[0]] + text[1..];
      PlainStable(text[0], text[1..]);
    }
  }

  // ---------- the main results ----------

  /** Rewriting changes the item links and nothing else: the pieces of the result are the pieces, each link normal. */
  lemma {:induction false} PiecesRewritten(text: string)
    ensures Tokenise(Rewritten(text)) == NormalAll(Tokenise(text))
    decreases |text|
  {
    if text != "" {
      FirstStable(text);
      PiecesRewritten(text[FirstSize(text)..]);
      assert Tokenise(text)[1..] == Tokenise(text[FirstSize(text)..]);
    }
  }

  lemma NormalIsNormal(t: Token)
    ensures Normal(Normal(t)) == Normal(t)
  {
  }

  /** Rewriting twice is rewriting once. */
  lemma RewrittenOnce(text: string)
    ensures Rewritten(Rewritten(text)) == Rewritten(text)
  {
    var tokens := Tokenise(text);
    PiecesRewritten(text);
    forall i | 0 <= i < |tokens|
      ensures Normal(Normal(tokens[i])) == Normal(tokens[i])
    {
      NormalIsNormal(tokens[i]);
    }
    assert NormalAll(NormalAll(tokens)) == NormalAll(tokens);
  }

  /** A text stays as it is iff every item link in it is normal already. */
  lemma UnchangedIff(text: string)
    ensures Rewritten(text) == text <==> NormalAll(Tokenise(text)) == Tokenise(text)
  {
    PiecesRewritten(text);
    RenderTokenise(text);
  }

  function Links(tokens: seq<Token>): nat {
    if tokens == [] then 0 else (if tokens[0].ItemLink? then 1 else 0) + Links(tokens[1..])
  }

  /** At most eight bytes more for each link. */
  lemma {:induction false} GrowthBound(text: string)
    ensures |Rewritten(text)| <= |text| + 8 * Links(Tokenise(text))
    decreases |text|
  {
    if text != "" {
      var rest := text[FirstSize(text)..];
      RewrittenFirst(text);
      FirstTokenRenders(text);
      GrowthBound(rest);
      assert Tokenise(text)[1..] == Tokenise(rest);
      LinkGrowth(text);
    }
  }

  lemma LinkGrowth(text: string)
    requires text != ""
    ensures |RenderToken(Normal(FirstToken(text)))|
            <= |RenderToken(FirstToken(text))| + if FirstToken(text).ItemLink? then 8 else 0
  {
    if FirstToken(text).ItemLink? {
      var fields := FieldsIn(text[|LINK|..]);
      var kept, nine := fields[..FIELDS], NineFields(fields);
      FewerFields(fields, FIELDS);
      FilledFields(kept[1..], nine[1..]);
      assert kept[0] == nine[0];
    }
  }

  lemma {:induction false} FewerFields(fields: seq<string>, n: nat)
    requires 0 < n <= |fields|
    ensures |Join(fields[..n], ':')| <= |Join(fields, ':')|
  {
    if 1 < n {
      FewerFields(fields[1..], n - 1);
      assert fields[..n][1..] == fields[1..][..n - 1];
    }
  }

  lemma {:induction false} FilledFields(fields: seq<string>, filled: seq<string>)
    requires |fields| == |filled| && forall i :: 0 <= i < |fields| ==> filled[i] == OrZero(fields[i])
    ensures |Join(filled, ':')| <= |Join(fields, ':')| + |fields|
  {
    if |fields| > 1 {
      FilledFields(fields[1..], filled[1..]);
    }
  }

  // ---------- the loop ----------

  /** The fields of one link, cut to nine and filled. */
  method FillFields(whole: seq<string>) returns (fields: seq<string>)
    requires |whole| >= FIELDS
    ensures fields == NineFields(whole)
  {
    fields := whole[..FIELDS];
    for j := 0 to FIELDS
      invariant |fields| == FIELDS
      invariant forall i :: 0 <= i < FIELDS ==> fields[i] == if i < j then OrZero(whole[i]) else whole[i]
    {
      if fields[j] == "" {
        fields := fields[j := "0"];
      }
    }
  }

  lemma LinkInFront(text: string, fields: seq<string>, rest: string)
    requires text != "" && FirstToken(text) == ItemLink(fields) && |fields| >= FIELDS
    requires rest == text[FirstSize(text)..]
    ensures Rewritten(text) == LINK + Join(NineFields(fields), ':') + Rewritten(rest)
  {
    RewrittenFirst(text);
  }

  lemma TakeLink(text: string)
    requires IsItemLink(text)
    ensures var tail := text[|LINK|..];
            var end := IndexOf(tail, '|');
            Rewritten(text) == LINK + Join(NineFields(FieldsIn(tail)), ':') + Rewritten(text[|LINK| + end..])
  {
    var tail := text[|LINK|..];
    assert text == LINK + tail;
    FirstOfLink(tail);
    LinkInFront(text, FieldsIn(tail), text[|LINK| + IndexOf(tail, '|')..]);
  }

  /** One round of the loop, at a pipe: what is written, and how much text it takes. */
  method RewritePipe(text: string) returns (written: string, taken: nat)
    requires text != "" && text[0] == '|'
    ensures 0 < taken <= |text|
    ensures Rewritten(text) == written + Rewritten(text[taken..])
  {
    if "||" <= text {
      RewrittenFirst(text);
      return "||", 2;
    }
    if LINK <= text {
      var tail := text[|LINK|..];
      var end := IndexOf(tail, '|');
      if end < |tail| {
        var fields := Split(tail[..end], ':');
        if "|h[" <= tail[end..] && |fields| >= FIELDS && fields[0] != "" {
          fields := FillFields(fields);
          TakeLink(text);
          return LINK + Join(fields, ':'), |LINK| + end;
        }
      }
    }
    PlainFirst(text);
    return "|", 1;
  }

  method LegacyChatItemLinks(text: string, language: uint32) returns (out: string)
    ensures language in {0xffff_ffff, 183, 184} ==> out == text
    ensures language !in {0xffff_ffff, 183, 184} ==> out == Rewritten(text)
  {
    if language == LEGACY_LANGUAGE_ADDON || language == MODERN_LANGUAGE_ADDON || language == MODERN_LANGUAGE_LOGGED {
      return text;
    }
    out := "";
    var rest := text;
    while |rest| > 0
      invariant out + Rewritten(rest) == Rewritten(text)
      decreases |rest|
    {
      var i := IndexOf(rest, '|');
      RunStable(rest);
      Regroup(out, rest[..i], Rewritten(rest[i..]));
      out := out + rest[..i];
      rest := rest[i..];
      if rest == "" {
        break;
      }
      var written, taken := RewritePipe(rest);
      Regroup(out, written, Rewritten(rest[taken..]));
      out := out + written;
      rest := rest[taken..];
    }
    assert out + "" == out;
  }
}
