/** `get_system_tool_message` of ragbot/oai_utils.py: the system prompt
    that embeds the retrieved texts and the tool description between
    two uses of the query delimiter. The fixed text is kept character for
    character, indentation and trailing blanks included. */
module RagbotOaiUtils {
  import opened Strings

  /** `delimiter`, which marks the user query. */
  const Delimiter: string := "####"

  const BeforeQueryDelimiter: string :=
    "\n"
    + "        You are an engineer with expertise in complex tools\n"
    + "        Follow these instructions to process the user query. \n"
    + "        The user query is delimited with "

  const BeforeTexts: string :=
    ".\n"
    + "\n"
    + "        [Context from Vector Database]\n"
    + "        These "

  const BeforeTool: string :=
    " are the top relevant pieces of information \n"
    + "        retrieved from the vector database. \n"
    + "        Please use this along with your ability to search outside of the \n"
    + "        retrieved texts provided. \n"
    + "        The name of the equipment that the questions are relation to is\n"
    + "        "

  const BeforeInstructionDelimiter: string :=
    "\n"
    + "\n"
    + "        [Instructions]\n"
    + "            \n"
    + "        "

  const Guidance: string :=
    " Formulate a response that best matches the user's query, \n"
    + "        Give the response with as much relevant detail as possible\n"
    + "        Do not preface or end the response with extra polite words. \n"
    + "        Just answer the question with the facts. \n"
    + "        "

  const MissingInfo: string :=
    "If the retrieved texts do not contain any information to be able\n"
    + "        to answer the user query, then reply that you do not have the \n"
    + "        necessary information"

  const Ending: string :=
    ".  \n"
    + "        \n"
    + "        "

  const Instructions: string := Guidance + MissingInfo + Ending

  /** Fixed pieces `a`, `b`, `c`, `e`, `f` around the delimiter `d`, the
      texts `r` and the description `t`, in the order of the f-string. */
  function Compose(a: string, d: string, b: string, r: string, c: string, t: string, e: string, f: string): string
  {
    a + d + b + r + c + t + e + d + f
  }

  /** get_system_tool_message(retrieved_texts, tool_name_description). */
  function GetSystemToolMessage(retrievedTexts: string, toolNameDescription: string): string
  {
    Compose(BeforeQueryDelimiter, Delimiter, BeforeTexts, retrievedTexts, BeforeTool, toolNameDescription,
            BeforeInstructionDelimiter, Instructions)
  }

  /** The delimiter is four '#' characters. */
  lemma DelimiterShape()
    ensures |Delimiter| == 4 && forall i :: 0 <= i < |Delimiter| ==> Delimiter[i] == '#'
  {
  }

  /** A piece found in a string is still found there once more text is
      appended. */
  lemma Grow(s: string, y: string, m: string, k: nat)
    requires OccursAt(s, m, k)
    ensures OccursAt(s + y, m, k)
  {
    assert (s + y)[k..k + |m|] == s[k..k + |m|];
  }

  lemma Last(s: string, m: string)
    ensures OccursAt(s + m, m, |s|)
  {
    assert (s + m)[|s|..|s| + |m|] == m;
  }

  /** Where each interpolated piece lies in a composed message: the two
      delimiters, ... */
  lemma ComposeDelimiters(a: string, d: string, b: string, r: string, c: string, t: string, e: string, f: string)
    ensures OccursAt(Compose(a, d, b, r, c, t, e, f), d, |a|)
    ensures OccursAt(Compose(a, d, b, r, c, t, e, f), d, |a| + |d| + |b| + |r| + |c| + |t| + |e|)
  {
    Last(a, d);
    Grow(a + d, b, d, |a|);
    Grow(a + d + b, r, d, |a|);
    Grow(a + d + b + r, c, d, |a|);
    Grow(a + d + b + r + c, t, d, |a|);
    Grow(a + d + b + r + c + t, e, d, |a|);
    Grow(a + d + b + r + c + t + e, d, d, |a|);
    Grow(a + d + b + r + c + t + e + d, f, d, |a|);
    Last(a + d + b + r + c + t + e, d);
    Grow(a + d + b + r + c + t + e + d, f, d, |a| + |d| + |b| + |r| + |c| + |t| + |e|);
  }

  /** ... the texts, ... */
  lemma ComposeTexts(a: string, d: string, b: string, r: string, c: string, t: string, e: string, f: string)
    ensures OccursAt(Compose(a, d, b, r, c, t, e, f), r, |a| + |d| + |b|)
  {
    var k := |a| + |d| + |b|;
    Last(a + d + b, r);
    Grow(a + d + b + r, c, r, k);
    Grow(a + d + b + r + c, t, r, k);
    Grow(a + d + b + r + c + t, e, r, k);
    Grow(a + d + b + r + c + t + e, d, r, k);
    Grow(a + d + b + r + c + t + e + d, f, r, k);
  }

  /** ... the tool description, ... */
  lemma ComposeTool(a: string, d: string, b: string, r: string, c: string, t: string, e: string, f: string)
    ensures OccursAt(Compose(a, d, b, r, c, t, e, f), t, |a| + |d| + |b| + |r| + |c|)
  {
    var k := |a| + |d| + |b| + |r| + |c|;
    Last(a + d + b + r + c, t);
    Grow(a + d + b + r + c + t, e, t, k);
    Grow(a + d + b + r + c + t + e, d, t, k);
    Grow(a + d + b + r + c + t + e + d, f, t, k);
  }

  /** ... the fixed text between the texts and the description, ... */
  lemma ComposeBetween(a: string, d: string, b: string, r: string, c: string, t: string, e: string, f: string)
    ensures OccursAt(Compose(a, d, b, r, c, t, e, f), c, |a| + |d| + |b| + |r|)
  {
    var k := |a| + |d| + |b| + |r|;
    Last(a + d + b + r, c);
    Grow(a + d + b + r + c, t, c, k);
    Grow(a + d + b + r + c + t, e, c, k);
    Grow(a + d + b + r + c + t + e, d, c, k);
    Grow(a + d + b + r + c + t + e + d, f, c, k);
  }

  /** ... the fixed text between the description and the second
      delimiter, ... */
  lemma ComposeAfterTool(a: string, d: string, b: string, r: string, c: string, t: string, e: string, f: string)
    ensures OccursAt(Compose(a, d, b, r, c, t, e, f), e, |a| + |d| + |b| + |r| + |c| + |t|)
  {
    var j := |a| + |d| + |b| + |r| + |c| + |t|;
    Last(a + d + b + r + c + t, e);
    Grow(a + d + b + r + c + t + e, d, e, j);
    Grow(a + d + b + r + c + t + e + d, f, e, j);
  }

  /** ... and the closing instructions after the second delimiter. */
  lemma ComposeClosing(a: string, d: string, b: string, r: string, c: string, t: string, e: string, f: string)
    ensures Compose(a, d, b, r, c, t, e, f)[|a| + |d| + |b| + |r| + |c| + |t| + |e| + |d|..] == f
  {
    var front := a + d + b + r + c + t + e + d;
    assert (front + f)[|front|..] == f;
  }

  /** The opening up to the texts. */
  lemma ComposeOpening(a: string, d: string, b: string, r: string, c: string, t: string, e: string, f: string)
    ensures Compose(a, d, b, r, c, t, e, f)[..|a| + |d| + |b|] == a + d + b
  {
    var front := a + d + b;
    var rest := r + c + t + e + d + f;
    assert Compose(a, d, b, r, c, t, e, f) == front + rest;
    assert (front + rest)[..|front|] == front;
  }

  /** The instruction `m` in the middle of the closing `g + m + n`. */
  lemma ComposeInstruction(a: string, d: string, b: string, r: string, c: string, t: string, e: string,
                           g: string, m: string, n: string)
    ensures OccursAt(Compose(a, d, b, r, c, t, e, g + m + n), m, |a| + |d| + |b| + |r| + |c| + |t| + |e| + |d| + |g|)
  {
    var front := a + d + b + r + c + t + e + d;
    assert Compose(a, d, b, r, c, t, e, g + m + n) == front + g + m + n;
    Last(front + g, m);
    Grow(front + g + m, n, m, |front| + |g|);
  }

  /** The fixed text between the interpolated pieces is never empty, so
      the pieces below never touch. */
  lemma FixedPiecesNonEmpty()
    ensures |BeforeTexts| > 0 && |BeforeTool| > 0 && |BeforeInstructionDelimiter| > 0
  {
  }

  /** The message interleaves the fixed text with, in this order, the
      delimiter, the retrieved texts `r`, the tool description `t` and
      the delimiter again: the two delimiters, ... */
  lemma QueryDelimiters(r: string, t: string)
    ensures OccursAt(GetSystemToolMessage(r, t), Delimiter, |BeforeQueryDelimiter|)
    ensures OccursAt(GetSystemToolMessage(r, t), Delimiter,
      |BeforeQueryDelimiter| + |Delimiter| + |BeforeTexts| + |r| + |BeforeTool| + |t| + |BeforeInstructionDelimiter|)
  {
    ComposeDelimiters(BeforeQueryDelimiter, Delimiter, BeforeTexts, r, BeforeTool, t, BeforeInstructionDelimiter, Instructions);
  }

  /** ... the texts after the first delimiter and the fixed text after
      it, ... */
  lemma TextsPlaced(r: string, t: string)
    ensures OccursAt(GetSystemToolMessage(r, t), r, |BeforeQueryDelimiter| + |Delimiter| + |BeforeTexts|)
  {
    ComposeTexts(BeforeQueryDelimiter, Delimiter, BeforeTexts, r, BeforeTool, t, BeforeInstructionDelimiter, Instructions);
  }

  /** ... and the description after the texts and the fixed text after
      them. */
  lemma ToolPlaced(r: string, t: string)
    ensures OccursAt(GetSystemToolMessage(r, t), t, |BeforeQueryDelimiter| + |Delimiter| + |BeforeTexts| + |r| + |BeforeTool|)
  {
    ComposeTool(BeforeQueryDelimiter, Delimiter, BeforeTexts, r, BeforeTool, t, BeforeInstructionDelimiter, Instructions);
  }

  /** The fixed text does not depend on the texts or the description:
      the same opening before the texts, ... */
  lemma FixedOpening(r: string, t: string)
    ensures GetSystemToolMessage(r, t)[..|BeforeQueryDelimiter| + |Delimiter| + |BeforeTexts|]
         == BeforeQueryDelimiter + Delimiter + BeforeTexts
  {
    ComposeOpening(BeforeQueryDelimiter, Delimiter, BeforeTexts, r, BeforeTool, t, BeforeInstructionDelimiter, Instructions);
  }

  /** ... the same text between the texts and the description, ... */
  lemma FixedBetween(r: string, t: string)
    ensures OccursAt(GetSystemToolMessage(r, t), BeforeTool, |BeforeQueryDelimiter| + |Delimiter| + |BeforeTexts| + |r|)
  {
    ComposeBetween(BeforeQueryDelimiter, Delimiter, BeforeTexts, r, BeforeTool, t, BeforeInstructionDelimiter, Instructions);
  }

  /** ... the same text after the description, ... */
  lemma FixedAfterTool(r: string, t: string)
    ensures OccursAt(GetSystemToolMessage(r, t), BeforeInstructionDelimiter,
      |BeforeQueryDelimiter| + |Delimiter| + |BeforeTexts| + |r| + |BeforeTool| + |t|)
  {
    ComposeAfterTool(BeforeQueryDelimiter, Delimiter, BeforeTexts, r, BeforeTool, t, BeforeInstructionDelimiter, Instructions);
  }

  /** ... and the same closing after the second delimiter. */
  lemma FixedClosing(r: string, t: string)
    ensures GetSystemToolMessage(r, t)[|BeforeQueryDelimiter| + |Delimiter| + |BeforeTexts| + |r| + |BeforeTool| + |t|
                                       + |BeforeInstructionDelimiter| + |Delimiter|..] == Instructions
  {
    ComposeClosing(BeforeQueryDelimiter, Delimiter, BeforeTexts, r, BeforeTool, t, BeforeInstructionDelimiter, Instructions);
  }

  /** Whatever the inputs, the instructions after the second delimiter
      tell the model to reply that it lacks the information when the
      texts do not hold it. */
  lemma MissingInfoInstruction(r: string, t: string)
    ensures OccursAt(GetSystemToolMessage(r, t), MissingInfo,
      |BeforeQueryDelimiter| + |Delimiter| + |BeforeTexts| + |r| + |BeforeTool| + |t|
      + |BeforeInstructionDelimiter| + |Delimiter| + |Guidance|)
  {
    ComposeInstruction(BeforeQueryDelimiter, Delimiter, BeforeTexts, r, BeforeTool, t, BeforeInstructionDelimiter,
                       Guidance, MissingInfo, Ending);
  }
}
