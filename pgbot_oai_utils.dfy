/** `get_system_message_for_vector_retrievals` of pg-bot/oai_utils.py: the
    system prompt that embeds the data retrieved from the forum database.
    The prompt is fixed text with the printed form of the retrieved data
    (`str(retrieved_data)`, taken here as the string it prints as) in one
    place; the fixed text is kept character for character, indentation and
    trailing blanks included. */
module PgBotOaiUtils {
  import opened Strings

  const Intro: string :=
    "\n"
    + "        You are an engineer with expertise in complex tools and also have\n"
    + "        expert capabilities knowing how to run a nanofabrication facility.\n"
    + "\n"
    + "        You will receive a list of data retrieved from the labnetwork user forum, \n"
    + "        each element which will be formatted as a dictionary containing the ranking of\n"
    + "        the data, the sender of the data, and the body of the text message itself.\n"
    + "        lower ranks (numbers) are more relevant \n"
    + "\n"
    + "        "

  const BaseOnData: string :=
    "Base your answers to the user prompt only on the retrieved data below:"

  const BeforeHeader: string :=
    "\n"
    + "        \n"
    + "        "

  const Header: string :=
    "#### Retrieved Labnetwork Data ####"

  const HeaderTail: string :=
    "\n"
    + "        "

  const Guidance: string :=
    "\n"
    + "\n"
    + "        Formulate a response that best matches the user's query, \n"
    + "        Give the response with as much relevant detail as possible\n"
    + "        Do not preface or end the response with extra polite words. \n"
    + "        Just answer the question with the facts. Format the response as the \n"
    + "        user would like to see it if specified.  \n"
    + "        \n"
    + "        Do not answer questions that are not relevant to the data that is retrieved.\n"
    + "        "

  const MissingInfo: string :=
    "If the retrieved texts do not contain any information to be able\n"
    + "        to answer the user query, you must reply that you do not have the \n"
    + "        necessary information"

  const Ending: string :=
    ", and that the user should ask a relevant labnetwork\n"
    + "        question.  \n"
    + "        \n"
    + "        "

  /** Everything before the data: the role, the instruction to answer only
      from the data, and the header line. */
  const Preamble: string := Intro + BaseOnData + BeforeHeader + Header + HeaderTail

  /** Everything after the data. */
  const Closing: string := Guidance + MissingInfo + Ending

  /** Where the three parts of `p + x + c` lie. */
  lemma Parts(p: string, x: string, c: string)
    ensures |p + x + c| == |p| + |x| + |c|
    ensures (p + x + c)[..|p|] == p
    ensures (p + x + c)[|p|..|p| + |x|] == x
    ensures (p + x + c)[|p| + |x|..] == c
  {
    assert p + x + c == p + (x + c);
  }

  /** get_system_message_for_vector_retrievals(retrieved_data). */
  function GetSystemMessageForVectorRetrievals(retrievedData: string): string
  {
    Preamble + retrievedData + Closing
  }

  /** The message is the preamble, then the data, then the closing. */
  lemma MessageLayout(retrievedData: string)
    ensures |GetSystemMessageForVectorRetrievals(retrievedData)| == |Preamble| + |retrievedData| + |Closing|
    ensures GetSystemMessageForVectorRetrievals(retrievedData)[..|Preamble|] == Preamble
    ensures GetSystemMessageForVectorRetrievals(retrievedData)[|Preamble|..|Preamble| + |retrievedData|] == retrievedData
    ensures GetSystemMessageForVectorRetrievals(retrievedData)[|Preamble| + |retrievedData|..] == Closing
  {
    Parts(Preamble, retrievedData, Closing);
  }

  /** The data read back from a message: what lies between the fixed
      preamble and the fixed closing. */
  function RetrievedDataOf(msg: string): string
    requires |Preamble| + |Closing| <= |msg|
  {
    msg[|Preamble|..|msg| - |Closing|]
  }

  /** The data is recovered from the message, so different data give
      different messages. */
  lemma DataRecovered(retrievedData: string)
    ensures RetrievedDataOf(GetSystemMessageForVectorRetrievals(retrievedData)) == retrievedData
  {
    MessageLayout(retrievedData);
  }

  lemma MessageInjective(a: string, b: string)
    requires GetSystemMessageForVectorRetrievals(a) == GetSystemMessageForVectorRetrievals(b)
    ensures a == b
  {
    DataRecovered(a);
    DataRecovered(b);
  }

  lemma Occurs4(p: string, h: string, t: string, x: string, c: string)
    ensures OccursAt(p + h + t + x + c, h + t + x, |p|)
  {
    assert p + h + t + x + c == p + (h + t + x) + c;
  }

  /** The data comes right after the "#### Retrieved Labnetwork Data ####"
      line and the next line's indentation. */
  lemma HeaderPrecedesData(retrievedData: string)
    ensures OccursAt(GetSystemMessageForVectorRetrievals(retrievedData), Header + HeaderTail + retrievedData,
                     |Intro + BaseOnData + BeforeHeader|)
  {
    Occurs4(Intro + BaseOnData + BeforeHeader, Header, HeaderTail, retrievedData, Closing);
  }

  lemma Occurs5(a: string, b: string, c: string, d: string, e: string, x: string, f: string)
    ensures OccursAt(a + b + c + d + e + x + f, b, |a|)
  {
    assert a + b + c + d + e + x + f == a + b + (c + d + e + x + f);
  }

  lemma OccursAfter(p: string, x: string, g: string, m: string, e: string)
    ensures OccursAt(p + x + (g + m + e), m, |p| + |x| + |g|)
  {
    assert p + x + (g + m + e) == (p + x + g) + m + e;
  }

  /** Whatever the data, the message tells the model to answer only from
      it, before it, ... */
  lemma BaseOnDataPresent(retrievedData: string)
    ensures OccursAt(GetSystemMessageForVectorRetrievals(retrievedData), BaseOnData, |Intro|)
  {
    Occurs5(Intro, BaseOnData, BeforeHeader, Header, HeaderTail, retrievedData, Closing);
  }

  /** ... and, after it, to say that the information is missing when it
      is. */
  lemma MissingInfoPresent(retrievedData: string)
    ensures OccursAt(GetSystemMessageForVectorRetrievals(retrievedData), MissingInfo,
                     |Preamble| + |retrievedData| + |Guidance|)
  {
    OccursAfter(Preamble, retrievedData, Guidance, MissingInfo, Ending);
  }
}
