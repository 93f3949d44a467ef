/** `format_retrieved_texts` of ragbot/st_utils.py: each retrieved hit as
    one "Page Number: ... --- Text: ..." line, the lines joined by a
    markdown horizontal rule. */
module RagbotStUtils {
  import opened Strings
  import Weav

  const TextSeparator: string := "\n\n---\n"
  const PageLabel: string := "Page Number: "
  const TextLabel: string := " --- Text: "

  /** `f"Page Number: {item['page_number']} --- Text: {item['text']}"`. */
  function RenderHit(hit: Weav.QueryHit): string
  {
    PageLabel + IntToString(hit.pageNumber) + TextLabel + hit.text
  }

  function RenderAll(hits: seq<Weav.QueryHit>): seq<string>
  {
    seq(|hits|, i requires 0 <= i < |hits| => RenderHit(hits[i]))
  }

  /** format_retrieved_texts(retrieved_texts). */
  function FormatRetrievedTexts(hits: seq<Weav.QueryHit>): string
  {
    Join(TextSeparator, RenderAll(hits))
  }

  /** No hits give the empty string. */
  lemma FormatNoHits()
    ensures FormatRetrievedTexts([]) == ""
  {
  }

  /** Hits come out in input order: one more hit adds one separator and
      its line at the end. */
  lemma FormatAppend(hits: seq<Weav.QueryHit>, hit: Weav.QueryHit)
    requires hits != []
    ensures FormatRetrievedTexts(hits + [hit]) == FormatRetrievedTexts(hits) + TextSeparator + RenderHit(hit)
  {
    assert RenderAll(hits + [hit]) == RenderAll(hits) + [RenderHit(hit)];
    JoinAppend(TextSeparator, RenderAll(hits), RenderHit(hit));
  }

  /** n hits are glued by exactly n - 1 separators. */
  lemma FormatLength(hits: seq<Weav.QueryHit>)
    requires hits != []
    ensures |FormatRetrievedTexts(hits)| == SumLen(RenderAll(hits)) + (|hits| - 1) * |TextSeparator|
  {
    JoinLength(TextSeparator, RenderAll(hits));
  }

  /** The characters of a printed integer: digits and a leading minus. */
  lemma IntToStringNoSpace(n: int)
    ensures ' ' !in IntToString(n)
  {
    var s := IntToString(n);
    if n < 0 {
      forall i | 0 <= i < |s| ensures s[i] != ' ' {
        if i > 0 {
          assert s[i] == NatToString(-n)[i - 1];
        }
      }
    }
  }

  /** A rendered line gives back its hit's page number and text: the
      number ends at the first space after the label. */
  lemma RenderHitInjective(a: Weav.QueryHit, b: Weav.QueryHit)
    requires RenderHit(a) == RenderHit(b)
    ensures a.pageNumber == b.pageNumber && a.text == b.text
  {
    var x := IntToString(a.pageNumber);
    var y := IntToString(b.pageNumber);
    var ra := x + TextLabel + a.text;
    var rb := y + TextLabel + b.text;
    assert RenderHit(a) == PageLabel + ra;
    assert RenderHit(b) == PageLabel + rb;
    assert ra == RenderHit(a)[|PageLabel|..] == rb;
    IntToStringNoSpace(a.pageNumber);
    IntToStringNoSpace(b.pageNumber);
    assert TextLabel[0] == ' ';
    LabelDelimited(x, y, TextLabel, a.text, b.text);
    IntToStringInjective(a.pageNumber, b.pageNumber);
  }

  /** Two words followed by a label are equal, and so are the texts after
      the label, when the words do not contain the label's first character. */
  lemma {:induction false} LabelDelimited(x: string, y: string, lab: string, u: string, v: string)
    requires lab != [] && lab[0] !in x && lab[0] !in y
    requires x + lab + u == y + lab + v
    ensures x == y && u == v
  {
    var s := x + lab + u;
    assert x != [] ==> x[0] in x;
    assert y != [] ==> y[0] in y;
    assert s[0] == (if x == [] then lab[0] else x[0]);
    assert s[0] == (if y == [] then lab[0] else y[0]);
    if x != [] && y != [] {
      assert x[1..] + lab + u == s[1..] == y[1..] + lab + v;
      LabelDelimited(x[1..], y[1..], lab, u, v);
      assert x == [x[0]] + x[1..] && y == [y[0]] + y[1..];
    } else {
      assert u == s[|lab|..] == v;
    }
  }
}
