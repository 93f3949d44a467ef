/** `split_into_chunks` of ragbot/plumb.py: the text is cut at every '\n'
    and the lines are packed greedily, in order, into runs; each run is
    emitted as one chunk, its lines joined by a single space. */
module Chunking {
  import opened Strings

  /** The test of the packing loop: the candidate line joins the open run
      when the lengths already in the run plus its own length stay below
      the chunk size, and the line is not empty. */
  predicate Fits(current: seq<string>, line: string, chunkSize: int)
  {
    SumLen(current) + |line| < chunkSize && line != ""
  }

  /** The runs produced from `lines` while the run `current` is open. */
  function Grow(lines: seq<string>, chunkSize: int, current: seq<string>): seq<seq<string>>
    decreases |lines|
  {
    if lines == [] then [current]
    else if Fits(current, lines[0], chunkSize) then Grow(lines[1..], chunkSize, current + [lines[0]])
    else [current] + Grow(lines[1..], chunkSize, [lines[0]])
  }

  /** The runs produced from `lines` while no run has been opened yet: a
      line that does not fit into an empty run is emitted on its own, and
      the first line that fits opens the run that stays open from then on. */
  function Lead(lines: seq<string>, chunkSize: int): seq<seq<string>>
    decreases |lines|
  {
    if lines == [] then []
    else if Fits([], lines[0], chunkSize) then Grow(lines[1..], chunkSize, [lines[0]])
    else [[lines[0]]] + Lead(lines[1..], chunkSize)
  }

  /** The runs of lines that the packer turns into chunks. */
  function Runs(lines: seq<string>, chunkSize: int): seq<seq<string>>
  {
    Lead(lines, chunkSize)
  }

  /** Each run joined with a single space (`' '.join(current_chunk)`). */
  function Chunks(runs: seq<seq<string>>): seq<string>
  {
    seq(|runs|, i requires 0 <= i < |runs| => Join(" ", runs[i]))
  }

  /** The runs still to come, given the lines not yet read and the open run. */
  function Pending(lines: seq<string>, chunkSize: int, current: seq<string>): seq<seq<string>>
  {
    if current == [] then Lead(lines, chunkSize) else Grow(lines, chunkSize, current)
  }

  /** The runs laid end to end. */
  function Flatten(runs: seq<seq<string>>): seq<string>
  {
    if runs == [] then [] else runs[0] + Flatten(runs[1..])
  }

  lemma ChunksAppend(a: seq<seq<string>>, b: seq<seq<string>>)
    ensures Chunks(a + b) == Chunks(a) + Chunks(b)
  {
  }

  /** One line read: what the packer does with it, in terms of the runs
      still to come. */
  lemma PendingStep(rest: seq<string>, chunkSize: int, current: seq<string>)
    requires rest != []
    ensures Fits(current, rest[0], chunkSize) ==>
      Chunks(Pending(rest, chunkSize, current)) == Chunks(Pending(rest[1..], chunkSize, current + [rest[0]]))
    ensures !Fits(current, rest[0], chunkSize) && current != [] ==>
      Chunks(Pending(rest, chunkSize, current)) == [Join(" ", current)] + Chunks(Pending(rest[1..], chunkSize, [rest[0]]))
    ensures !Fits(current, rest[0], chunkSize) && current == [] ==>
      Chunks(Pending(rest, chunkSize, current)) == [rest[0]] + Chunks(Pending(rest[1..], chunkSize, []))
  {
    if Fits(current, rest[0], chunkSize) {
      assert [] + [rest[0]] == [rest[0]];
    } else if current != [] {
      ChunksAppend([current], Grow(rest[1..], chunkSize, [rest[0]]));
    } else {
      ChunksAppend([[rest[0]]], Lead(rest[1..], chunkSize));
    }
  }

  /** No line left: the open run, if any, is the last chunk. */
  lemma PendingDone(chunkSize: int, current: seq<string>)
    ensures Chunks(Pending([], chunkSize, current)) == if current != [] then [Join(" ", current)] else []
  {
  }

  /** split_into_chunks(text, chunk_size). */
  method SplitIntoChunks(text: string, chunkSize: int) returns (chunks: seq<string>)
    ensures chunks == Chunks(Runs(Split(text, '\n'), chunkSize))
    ensures |chunks| >= 1
  {
    var lines := Split(text, '\n');
    chunks := [];
    var current: seq<string> := [];
    for i := 0 to |lines|
      invariant chunks + Chunks(Pending(lines[i..], chunkSize, current)) == Chunks(Runs(lines, chunkSize))
    {
      var line := lines[i];
      PendingStep(lines[i..], chunkSize, current);
      assert lines[i..][0] == line && lines[i..][1..] == lines[i + 1..];
      if SumLen(current) + |line| < chunkSize && line != "" {
        current := current + [line];
      } else if current != [] {
        chunks := chunks + [Join(" ", current)];
        current := [line];
      } else {
        chunks := chunks + [line];
      }
    }
    PendingDone(chunkSize, current);
    if current != [] {
      chunks := chunks + [Join(" ", current)];
    }
    RunsPartition(lines, chunkSize);
  }

  /** A run as the packer can build it: not empty, its lines after the
      first are none of them empty, and when it holds two lines or more
      their lengths add up to less than the chunk size. */
  predicate Packed(run: seq<string>, chunkSize: int)
  {
    && run != []
    && (forall j :: 0 < j < |run| ==> run[j] != "")
    && (|run| >= 2 ==> SumLen(run) < chunkSize)
  }

  lemma {:induction false} GrowPartition(lines: seq<string>, chunkSize: int, current: seq<string>)
    requires current != []
    ensures Flatten(Grow(lines, chunkSize, current)) == current + lines
    decreases |lines|
  {
    if lines == [] {
      assert Flatten([current]) == current + Flatten([]);
    } else if Fits(current, lines[0], chunkSize) {
      GrowPartition(lines[1..], chunkSize, current + [lines[0]]);
      assert current + [lines[0]] + lines[1..] == current + lines;
    } else {
      var rest := Grow(lines[1..], chunkSize, [lines[0]]);
      GrowPartition(lines[1..], chunkSize, [lines[0]]);
      assert ([current] + rest)[1..] == rest;
      assert [lines[0]] + lines[1..] == lines;
    }
  }

  /** The runs cut the lines into consecutive pieces: laid end to end they
      give back exactly the input lines, none dropped, none repeated, in order. */
  lemma {:induction false} RunsPartition(lines: seq<string>, chunkSize: int)
    ensures Flatten(Runs(lines, chunkSize)) == lines
    ensures lines != [] ==> Runs(lines, chunkSize) != []
    decreases |lines|
  {
    if lines == [] {
    } else if Fits([], lines[0], chunkSize) {
      GrowPartition(lines[1..], chunkSize, [lines[0]]);
      assert [lines[0]] + lines[1..] == lines;
    } else {
      var rest := Lead(lines[1..], chunkSize);
      RunsPartition(lines[1..], chunkSize);
      assert ([[lines[0]]] + rest)[1..] == rest;
      assert [lines[0]] + lines[1..] == lines;
    }
  }

  lemma {:induction false} GrowPacked(lines: seq<string>, chunkSize: int, current: seq<string>)
    requires Packed(current, chunkSize)
    ensures forall k :: 0 <= k < |Grow(lines, chunkSize, current)| ==> Packed(Grow(lines, chunkSize, current)[k], chunkSize)
    decreases |lines|
  {
    if lines != [] {
      if Fits(current, lines[0], chunkSize) {
        SumLenAppend(current, lines[0]);
        GrowPacked(lines[1..], chunkSize, current + [lines[0]]);
      } else {
        GrowPacked(lines[1..], chunkSize, [lines[0]]);
      }
    }
  }

  /** Every run the packer emits is `Packed`: an empty line is never
      appended to an open run, and the lines of a run of two or more add
      up to less than the chunk size. */
  lemma {:induction false} RunsPacked(lines: seq<string>, chunkSize: int)
    ensures forall k :: 0 <= k < |Runs(lines, chunkSize)| ==> Packed(Runs(lines, chunkSize)[k], chunkSize)
    decreases |lines|
  {
    if lines != [] {
      if Fits([], lines[0], chunkSize) {
        GrowPacked(lines[1..], chunkSize, [lines[0]]);
      } else {
        var rest := Runs(lines[1..], chunkSize);
        RunsPacked(lines[1..], chunkSize);
        assert Runs(lines, chunkSize) == [[lines[0]]] + rest;
        forall k | 0 < k < |Runs(lines, chunkSize)| ensures Packed(Runs(lines, chunkSize)[k], chunkSize) {
          assert Runs(lines, chunkSize)[k] == rest[k - 1];
        }
      }
    }
  }

  /** A line at least as long as the chunk size always forms a chunk on
      its own, verbatim. */
  lemma LongLineAlone(lines: seq<string>, chunkSize: int, k: nat, j: nat)
    requires k < |Runs(lines, chunkSize)| && j < |Runs(lines, chunkSize)[k]|
    requires |Runs(lines, chunkSize)[k][j]| >= chunkSize
    ensures Runs(lines, chunkSize)[k] == [Runs(lines, chunkSize)[k][j]]
    ensures Chunks(Runs(lines, chunkSize))[k] == Runs(lines, chunkSize)[k][j]
  {
    var run := Runs(lines, chunkSize)[k];
    RunsPacked(lines, chunkSize);
    PartWithinSumLen(run, j);
  }

  /** The chunk of a run is as long as its lines plus one space between
      each two of them, so a chunk of several lines may overshoot the
      chunk size by up to that many spaces. */
  lemma ChunkLength(lines: seq<string>, chunkSize: int, k: nat)
    requires k < |Runs(lines, chunkSize)|
    ensures |Chunks(Runs(lines, chunkSize))[k]| == SumLen(Runs(lines, chunkSize)[k]) + |Runs(lines, chunkSize)[k]| - 1
    ensures |Runs(lines, chunkSize)[k]| >= 2 ==>
      |Chunks(Runs(lines, chunkSize))[k]| < chunkSize + |Runs(lines, chunkSize)[k]| - 1
  {
    RunsPacked(lines, chunkSize);
    JoinLength(" ", Runs(lines, chunkSize)[k]);
  }

  /** The number of leading lines that do not fit into an empty run (empty
      lines and lines at least as long as the chunk size). */
  function LeadCount(lines: seq<string>, chunkSize: int): (n: nat)
    ensures n <= |lines|
  {
    if lines == [] || Fits([], lines[0], chunkSize) then 0 else 1 + LeadCount(lines[1..], chunkSize)
  }

  /** The open run is the front of the first run it grows into. */
  lemma {:induction false} GrowFront(lines: seq<string>, chunkSize: int, current: seq<string>)
    requires current != []
    ensures Grow(lines, chunkSize, current) != []
    ensures |current| <= |Grow(lines, chunkSize, current)[0]|
    ensures Grow(lines, chunkSize, current)[0][..|current|] == current
    decreases |lines|
  {
    if lines != [] && Fits(current, lines[0], chunkSize) {
      GrowFront(lines[1..], chunkSize, current + [lines[0]]);
      assert (current + [lines[0]])[..|current|] == current;
    }
  }

  /** Run k ends because the first line of run k + 1 does not fit into it. */
  predicate ClosedAt(runs: seq<seq<string>>, k: nat, chunkSize: int)
  {
    k + 1 < |runs| && runs[k + 1] != [] && !Fits(runs[k], runs[k + 1][0], chunkSize)
  }

  /** Once a run is open, a run is closed only when the next line does not fit into it. */
  lemma {:induction false} GrowGreedy(lines: seq<string>, chunkSize: int, current: seq<string>)
    requires current != []
    ensures forall k: nat :: k < |Grow(lines, chunkSize, current)| - 1 ==>
      ClosedAt(Grow(lines, chunkSize, current), k, chunkSize)
    decreases |lines|
  {
    if lines != [] {
      if Fits(current, lines[0], chunkSize) {
        GrowGreedy(lines[1..], chunkSize, current + [lines[0]]);
      } else {
        var rest := Grow(lines[1..], chunkSize, [lines[0]]);
        GrowGreedy(lines[1..], chunkSize, [lines[0]]);
        GrowFront(lines[1..], chunkSize, [lines[0]]);
        assert rest[0][0] == lines[0];
        var g := [current] + rest;
        forall k: nat | k < |g| - 1 ensures ClosedAt(g, k, chunkSize) {
          if k > 0 {
            assert ClosedAt(rest, k - 1, chunkSize);
            assert g[k] == rest[k - 1] && g[k + 1] == rest[k];
          }
        }
      }
    }
  }

  /** The packing is greedy. The first `LeadCount` lines, none of which fits
      into an empty run, are each a run of their own; the next line opens
      a run; and from there on a run ends only when the following line
      does not fit into it. */
  lemma {:induction false} RunsGreedy(lines: seq<string>, chunkSize: int)
    ensures LeadCount(lines, chunkSize) <= |Runs(lines, chunkSize)|
    ensures forall k :: 0 <= k < LeadCount(lines, chunkSize) ==>
      Runs(lines, chunkSize)[k] == [lines[k]] && !Fits([], lines[k], chunkSize)
    ensures LeadCount(lines, chunkSize) < |lines| ==>
      LeadCount(lines, chunkSize) < |Runs(lines, chunkSize)| &&
      Runs(lines, chunkSize)[LeadCount(lines, chunkSize)] != [] &&
      Runs(lines, chunkSize)[LeadCount(lines, chunkSize)][0] == lines[LeadCount(lines, chunkSize)] &&
      Fits([], lines[LeadCount(lines, chunkSize)], chunkSize)
    ensures forall k: nat :: LeadCount(lines, chunkSize) <= k < |Runs(lines, chunkSize)| - 1 ==>
      ClosedAt(Runs(lines, chunkSize), k, chunkSize)
    decreases |lines|
  {
    if lines == [] {
    } else if Fits([], lines[0], chunkSize) {
      GrowFront(lines[1..], chunkSize, [lines[0]]);
      GrowGreedy(lines[1..], chunkSize, [lines[0]]);
    } else {
      var runs := Runs(lines, chunkSize);
      var rest := Runs(lines[1..], chunkSize);
      RunsGreedy(lines[1..], chunkSize);
      assert runs == [[lines[0]]] + rest;
      var n := LeadCount(lines, chunkSize);
      assert n == 1 + LeadCount(lines[1..], chunkSize);
      forall k | 0 < k < n ensures runs[k] == [lines[k]] && !Fits([], lines[k], chunkSize) {
        assert runs[k] == rest[k - 1] && lines[k] == lines[1..][k - 1];
      }
      if n < |lines| {
        assert runs[n] == rest[n - 1] && lines[n] == lines[1..][n - 1];
      }
      forall k: nat | n <= k < |runs| - 1 ensures ClosedAt(runs, k, chunkSize) {
        assert ClosedAt(rest, k - 1, chunkSize);
        assert runs[k] == rest[k - 1] && runs[k + 1] == rest[k];
      }
    }
  }

  /** Leading empty lines are each emitted as an empty chunk. */
  lemma LeadingEmptyLines(lines: seq<string>, chunkSize: int, m: nat)
    requires m <= |lines|
    requires forall k :: 0 <= k < m ==> lines[k] == ""
    ensures m <= |Chunks(Runs(lines, chunkSize))|
    ensures forall k :: 0 <= k < m ==> Chunks(Runs(lines, chunkSize))[k] == ""
  {
    LeadAtLeast(lines, chunkSize, m);
    RunsGreedy(lines, chunkSize);
  }

  lemma {:induction false} LeadAtLeast(lines: seq<string>, chunkSize: int, m: nat)
    requires m <= |lines|
    requires forall k :: 0 <= k < m ==> lines[k] == ""
    ensures m <= LeadCount(lines, chunkSize)
  {
    if m > 0 {
      LeadAtLeast(lines[1..], chunkSize, m - 1);
    }
  }

  /** A text without a line break is returned as its single chunk,
      whatever its length; in particular the empty text gives `[""]`. */
  lemma SingleLine(text: string, chunkSize: int)
    requires '\n' !in text
    ensures Chunks(Runs(Split(text, '\n'), chunkSize)) == [text]
  {
    SplitWithoutSeparator(text, '\n');
    assert [text][1..] == [];
    if Fits([], text, chunkSize) {
      assert Runs([text], chunkSize) == Grow([], chunkSize, [text]) == [[text]];
    } else {
      assert Runs([text], chunkSize) == [[text]] + Lead([], chunkSize) == [[text]];
    }
  }
}
