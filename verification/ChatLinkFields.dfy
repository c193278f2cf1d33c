/** What becomes of a chat text, piece by piece and field by field. */
module ChatLinkFields {
  import opened Texts
  import opened ChatLinks

  // ---------- where the pieces are ----------

  /** An item link in front: nine fields or more, the first not empty, and a display name behind them. */
  predicate LinkInText(text: string, fields: seq<string>, after: string) {
    && |fields| >= 9 && fields[0] != ""
    && (forall i :: 0 <= i < |fields| ==> ':' !in fields[i] && '|' !in fields[i])
    && text == "|Hitem:" + Join(fields, ':') + "|h[" + after
  }

  ghost predicate IsLinkInText(text: string) {
    exists fields, after :: LinkInText(text, fields, after)
  }

  lemma TailIsTaken(fields: seq<string>, behind: string)
    requires |fields| >= 9 && fields[0] != "" && "|h[" <= behind
    requires forall i :: 0 <= i < |fields| ==> ':' !in fields[i] && '|' !in fields[i]
    ensures var tail := Join(fields, ':') + behind;
            IsLinkTail(tail) && FieldsIn(tail) == fields && tail[IndexOf(tail, '|')..] == behind
  {
    JoinHolds(fields, ':', '|');
    IndexOfAppend(Join(fields, ':'), behind, '|');
    Cut(Join(fields, ':'), behind);
    SplitJoin(fields, ':');
  }

  lemma LinkParts(text: string, fields: seq<string>, after: string)
    requires LinkInText(text, fields, after)
    ensures text == LINK + (Join(fields, ':') + ("|h[" + after)) && "|h[" <= "|h[" + after
  {
    Regroup(LINK, Join(fields, ':'), "|h[" + after);
    Regroup(LINK + Join(fields, ':'), "|h[", after);
  }

  lemma LinkIsTaken(text: string, fields: seq<string>, after: string)
    requires LinkInText(text, fields, after)
    ensures FirstToken(text) == ItemLink(fields) && text[FirstSize(text)..] == "|h[" + after
  {
    LinkParts(text, fields, after);
    TailIsTaken(fields, "|h[" + after);
    FirstOfLink(Join(fields, ':') + ("|h[" + after));
  }

  /** The name behind a link, and what follows. */
  lemma NameBehind(behind: string)
    requires "|h[" <= behind
    ensures behind == "|h[" + behind[3..]
  {
  }

  lemma TakenIsLink(text: string)
    requires IsItemLink(text)
    ensures IsLinkInText(text)
  {
    var tail := text[|LINK|..];
    var end := IndexOf(tail, '|');
    var payload, behind := tail[..end], tail[end..];
    JoinSplit(payload, ':');
    FieldsOfSplit(payload, ':');
    SplitHolds(payload, ':', '|');
    NameBehind(behind);
    LinkFromParts(text, payload, behind[3..]);
    assert LinkInText(text, FieldsIn(tail), behind[3..]);
  }

  lemma LinkFromParts(text: string, payload: string, after: string)
    requires LINK <= text && text[|LINK|..] == payload + ("|h[" + after)
    ensures text == LINK + payload + "|h[" + after
  {
    Regroup(LINK, payload, "|h[" + after);
    Regroup(LINK + payload, "|h[", after);
  }

  /** How a text is cut: an escaped pipe first, then a link, then one character. */
  lemma FirstPiece(text: string)
    requires text != ""
    ensures "||" <= text ==> Tokenise(text) == [EscapedPipe] + Tokenise(text[2..])
    ensures forall fields, after :: LinkInText(text, fields, after) ==>
              Tokenise(text) == [ItemLink(fields)] + Tokenise("|h[" + after)
    ensures !("||" <= text) && !IsLinkInText(text) ==> Tokenise(text) == [Plain(text[0])] + Tokenise(text[1..])
  {
    forall fields, after | LinkInText(text, fields, after)
      ensures Tokenise(text) == [ItemLink(fields)] + Tokenise("|h[" + after)
    {
      LinkIsTaken(text, fields, after);
    }
    if IsItemLink(text) {
      TakenIsLink(text);
    }
  }

  // ---------- what becomes of them ----------

  /** A link has nine fields, each as it was, or "0" where it was empty; every other piece is as it was. */
  predicate PieceKept(before: Token, after: Token) {
    if before.ItemLink? then
      && |before.fields| >= 9 && after.ItemLink? && |after.fields| == 9
      && forall i :: 0 <= i < 9 ==>
           if before.fields[i] == "" then after.fields[i] == "0" else after.fields[i] == before.fields[i]
    else after == before
  }

  /** Links have nine fields or more. */
  lemma {:induction false} LinksHaveFields(text: string)
    ensures forall i :: 0 <= i < |Tokenise(text)| && Tokenise(text)[i].ItemLink? ==> |Tokenise(text)[i].fields| >= 9
    decreases |text|
  {
    if text != "" {
      LinksHaveFields(text[FirstSize(text)..]);
    }
  }

  /** The rewritten text is cut in the same places, and no piece is lost or moved. */
  lemma PiecesKept(text: string)
    ensures |Tokenise(Rewritten(text))| == |Tokenise(text)|
    ensures forall i :: 0 <= i < |Tokenise(text)| ==> PieceKept(Tokenise(text)[i], Tokenise(Rewritten(text))[i])
  {
    PiecesRewritten(text);
    LinksHaveFields(text);
  }

  /** What is written for a piece. */
  lemma Rendered(t: Token)
    ensures match t
            case Plain(c) => RenderToken(t) == [c]
            case EscapedPipe => RenderToken(t) == "||"
            case ItemLink(fields) => RenderToken(t) == "|Hitem:" + Join(fields, ':')
  {
  }
}
