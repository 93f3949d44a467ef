/** `format_retrieved_chunks` of pg-bot/st_utils.py: the content field of
    each retrieved database row, joined by a markdown horizontal rule. */
module PgBotStUtils {
  import opened Wrappers
  import opened Strings

  /** A column value of a retrieved row: text, a number, or NULL. */
  datatype Field = FText(text: string) | FInt(n: int) | FNull

  /** A retrieved row is a tuple of fields; its last one is the content. */
  type Chunk = seq<Field>

  const ChunkSeparator: string := "\n\n---\n\n"

  /** IndexError for `chunk[-1]` of an empty tuple; TypeError when the
      join meets a value that is not a string, at that position. */
  datatype FormatError = IndexError | TypeError(position: nat)

  /** The generator `chunk[-1] for chunk in retrieved_chunks`, which the
      join runs to the end before it looks at any value. */
  function LastFields(chunks: seq<Chunk>): Option<seq<Field>>
  {
    if chunks == [] then Some([])
    else if chunks[0] == [] then None
    else
      match LastFields(chunks[1..])
      case None => None
      case Some(rest) => Some([chunks[0][|chunks[0]| - 1]] + rest)
  }

  /** The strings to join, or the position of the first value that is not one. */
  function Texts(fields: seq<Field>, offset: nat): Result<seq<string>, FormatError>
  {
    if fields == [] then Success([])
    else if !fields[0].FText? then Failure(TypeError(offset))
    else
      match Texts(fields[1..], offset + 1)
      case Failure(e) => Failure(e)
      case Success(rest) => Success([fields[0].text] + rest)
  }

  /** The content of a row known not to be empty. */
  function Content(chunk: Chunk): Field
    requires chunk != []
  {
    chunk[|chunk| - 1]
  }

  /** format_retrieved_chunks(retrieved_chunks). */
  function FormatRetrievedChunks(chunks: seq<Chunk>): Result<string, FormatError>
  {
    match LastFields(chunks)
    case None => Failure(IndexError)
    case Some(fields) =>
      match Texts(fields, 0)
      case Failure(e) => Failure(e)
      case Success(texts) => Success(Join(ChunkSeparator, texts))
  }

  /** Every row has a last field, and it is a string. */
  predicate AllText(chunks: seq<Chunk>)
  {
    forall i :: 0 <= i < |chunks| ==> chunks[i] != [] && Content(chunks[i]).FText?
  }

  /** The contents of the rows, in order. */
  function ContentTexts(chunks: seq<Chunk>): (r: seq<string>)
    requires AllText(chunks)
    ensures |r| == |chunks|
    ensures forall i :: 0 <= i < |chunks| ==> r[i] == Content(chunks[i]).text
  {
    seq(|chunks|, i requires 0 <= i < |chunks| && chunks[i] != [] => Content(chunks[i]).text)
  }

  /** The call fails with IndexError exactly when some row is empty, ... */
  lemma FormatIndexError(chunks: seq<Chunk>)
    ensures FormatRetrievedChunks(chunks) == Failure(IndexError) <==> exists i :: 0 <= i < |chunks| && chunks[i] == []
  {
    LastFieldsSpec(chunks);
    if LastFields(chunks).Some? {
      TextsSpec(LastFields(chunks).value, 0);
    }
  }

  /** ... succeeds exactly when every row's content is a string, and then
      gives the contents joined by the separator, ... */
  lemma FormatSucceeds(chunks: seq<Chunk>)
    ensures FormatRetrievedChunks(chunks).Success? <==> AllText(chunks)
    ensures AllText(chunks) ==> FormatRetrievedChunks(chunks) == Success(Join(ChunkSeparator, ContentTexts(chunks)))
  {
    LastFieldsSpec(chunks);
    if LastFields(chunks).Some? {
      var fields := LastFields(chunks).value;
      TextsSpec(fields, 0);
      if Texts(fields, 0).Success? {
        assert Texts(fields, 0).value == ContentTexts(chunks);
      }
    }
  }

  /** ... and otherwise fails with TypeError at the first row whose
      content is not a string, every row having a content. */
  lemma FormatTypeError(chunks: seq<Chunk>)
    ensures FormatRetrievedChunks(chunks).Failure? && FormatRetrievedChunks(chunks).error.TypeError? ==>
      var p := FormatRetrievedChunks(chunks).error.position;
      && p < |chunks|
      && (forall i :: 0 <= i < |chunks| ==> chunks[i] != [])
      && !Content(chunks[p]).FText?
      && (forall i :: 0 <= i < p ==> Content(chunks[i]).FText?)
  {
    LastFieldsSpec(chunks);
    if LastFields(chunks).Some? {
      TextsSpec(LastFields(chunks).value, 0);
    }
  }

  lemma {:induction false} LastFieldsSpec(chunks: seq<Chunk>)
    ensures LastFields(chunks).None? <==> exists i :: 0 <= i < |chunks| && chunks[i] == []
    ensures LastFields(chunks).Some? ==>
      |LastFields(chunks).value| == |chunks| &&
      forall i :: 0 <= i < |chunks| ==> chunks[i] != [] && LastFields(chunks).value[i] == Content(chunks[i])
  {
    if chunks != [] {
      LastFieldsSpec(chunks[1..]);
      if exists i :: 0 <= i < |chunks[1..]| && chunks[1..][i] == [] {
        var i :| 0 <= i < |chunks[1..]| && chunks[1..][i] == [];
        assert chunks[i + 1] == [];
      }
      if exists i :: 0 <= i < |chunks| && chunks[i] == [] {
        var i :| 0 <= i < |chunks| && chunks[i] == [];
        if i > 0 {
          assert chunks[1..][i - 1] == [];
        }
      }
    }
  }

  lemma {:induction false} TextsSpec(fields: seq<Field>, offset: nat)
    ensures Texts(fields, offset).Success? <==> forall i :: 0 <= i < |fields| ==> fields[i].FText?
    ensures Texts(fields, offset).Success? ==>
      |Texts(fields, offset).value| == |fields| &&
      forall i :: 0 <= i < |fields| ==> Texts(fields, offset).value[i] == fields[i].text
    ensures Texts(fields, offset).Failure? ==>
      var p := Texts(fields, offset).error;
      && p.TypeError? && offset <= p.position < offset + |fields|
      && !fields[p.position - offset].FText?
      && forall i :: 0 <= i < p.position - offset ==> fields[i].FText?
  {
    if fields != [] && fields[0].FText? {
      TextsSpec(fields[1..], offset + 1);
      if !forall i :: 0 <= i < |fields| ==> fields[i].FText? {
        var i :| 0 <= i < |fields| && !fields[i].FText?;
        assert !fields[1..][i - 1].FText?;
      }
    }
  }

  /** No rows give the empty string. */
  lemma FormatNoChunks()
    ensures FormatRetrievedChunks([]) == Success("")
  {
  }

  /** Only the last field of each row matters: rows that agree on their
      last fields format alike, whatever their other fields. */
  lemma OnlyContentMatters(a: seq<Chunk>, b: seq<Chunk>)
    requires |a| == |b|
    requires forall i :: 0 <= i < |a| ==> a[i] != [] && b[i] != [] && Content(a[i]) == Content(b[i])
    ensures FormatRetrievedChunks(a) == FormatRetrievedChunks(b)
  {
    LastFieldsSpec(a);
    LastFieldsSpec(b);
    assert LastFields(a).value == LastFields(b).value;
  }

  /** n contents are glued by exactly n - 1 separators. */
  lemma FormatLength(chunks: seq<Chunk>)
    requires chunks != [] && AllText(chunks)
    ensures FormatRetrievedChunks(chunks).Success?
    ensures |FormatRetrievedChunks(chunks).value| == SumLen(ContentTexts(chunks)) + (|chunks| - 1) * |ChunkSeparator|
  {
    FormatSucceeds(chunks);
    JoinLength(ChunkSeparator, ContentTexts(chunks));
  }

  /** An empty row fails the whole call with IndexError, even when an
      earlier row's content is not a string. */
  lemma IndexErrorFirst()
    ensures FormatRetrievedChunks([[FInt(1), FNull], []]) == Failure(IndexError)
  {
  }
}
