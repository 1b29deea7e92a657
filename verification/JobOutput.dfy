/** The end of a job's output, kept while the job runs. */
module JobOutput {
  newtype byte = x: int | 0 <= x < 256

  type Bytes = seq<byte>

  const MAX_OUTPUT_BYTES: nat := 64_000

  function Flatten(chunks: seq<Bytes>): Bytes {
    if chunks == [] then [] else Flatten(chunks[..|chunks| - 1]) + chunks[|chunks| - 1]
  }

  /** The last `n` bytes, or all of them. */
  function Last(s: Bytes, n: nat): Bytes {
    if |s| <= n then s else s[|s| - n..]
  }

  /** What is reported of a job: the kept end of its output, and whether the report is headed
      by a line saying that earlier output was trimmed. */
  datatype Output = Output(trimmed: bool, payload: Bytes)

  /** Collecting everything, then cutting it. */
  function Truncated(all: Bytes): Output {
    if |all| >= MAX_OUTPUT_BYTES then Output(true, Last(all, MAX_OUTPUT_BYTES)) else Output(false, all)
  }

  /** A buffer that has lost nothing the report needs. */
  predicate IsTail(buffer: Bytes, all: Bytes) {
    && |buffer| <= |all| && buffer == all[|all| - |buffer|..]
    && (|buffer| < MAX_OUTPUT_BYTES ==> buffer == all)
  }

  lemma TailSuffices(buffer: Bytes, all: Bytes)
    requires IsTail(buffer, all)
    ensures Truncated(buffer) == Truncated(all)
  {
    if |buffer| >= MAX_OUTPUT_BYTES {
      assert buffer[|buffer| - MAX_OUTPUT_BYTES..] == all[|all| - MAX_OUTPUT_BYTES..];
    }
  }

  /** One chunk more: the buffer takes it, and is cut once it is twice too long. */
  method Take(buffer: Bytes, chunk: Bytes, ghost all: Bytes) returns (next: Bytes)
    requires IsTail(buffer, all) && |buffer| <= 2 * MAX_OUTPUT_BYTES
    ensures IsTail(next, all + chunk) && |next| <= 2 * MAX_OUTPUT_BYTES
  {
    next := buffer + chunk;
    assert next == (all + chunk)[|all| + |chunk| - |next|..];
    if |next| > MAX_OUTPUT_BYTES * 2 {
      ghost var whole := next;
      next := next[|next| - MAX_OUTPUT_BYTES..];
      assert next == (all + chunk)[|all| + |chunk| - MAX_OUTPUT_BYTES..];
    }
  }

  method Report(collected: Bytes, ghost all: Bytes) returns (output: Output)
    requires IsTail(collected, all)
    ensures output == Truncated(all)
  {
    TailSuffices(collected, all);
    if |collected| >= MAX_OUTPUT_BYTES {
      output := Output(true, collected[|collected| - MAX_OUTPUT_BYTES..]);
    } else {
      output := Output(false, collected);
    }
  }

  /** However the output is cut into chunks, the report is that of the whole output, and between
      chunks no more than twice the limit is held. */
  method Collect(chunks: seq<Bytes>) returns (output: Output, ghost peak: nat)
    ensures output == Truncated(Flatten(chunks))
    ensures peak <= 128_000
  {
    var collected: Bytes := [];
    ghost var all: Bytes := [];
    peak := 0;
    hide IsTail, Truncated;
    StartsTail();
    for i := 0 to |chunks|
      invariant all == Flatten(chunks[..i])
      invariant IsTail(collected, all) && |collected| <= 2 * MAX_OUTPUT_BYTES
      invariant peak <= 128_000
    {
      FlattenOneMore(chunks, i);
      collected := Take(collected, chunks[i], all);
      all := all + chunks[i];
      peak := if |collected| > peak then |collected| else peak;
    }
    FlattenAll(chunks);
    output := Report(collected, all);
  }

  lemma StartsTail()
    ensures IsTail([], [])
  {
  }

  lemma FlattenOneMore(chunks: seq<Bytes>, i: nat)
    requires i < |chunks|
    ensures Flatten(chunks[..i + 1]) == Flatten(chunks[..i]) + chunks[i]
  {
    assert chunks[..i + 1][..i] == chunks[..i];
  }

  lemma FlattenAll(chunks: seq<Bytes>)
    ensures Flatten(chunks[..|chunks|]) == Flatten(chunks)
  {
    assert chunks[..|chunks|] == chunks;
  }

  /** Two ways of cutting the same output into chunks give the same report: its payload is a
      suffix of the output, no longer than the limit, and shorter than it only when nothing is lost. */
  lemma ReportMeans(all: Bytes)
    ensures var payload := Truncated(all).payload;
            && |payload| == (if |all| <= 64_000 then |all| else 64_000)
            && all == all[..|all| - |payload|] + payload
  {
  }

  /** The heading is right about whether output was lost, except for an output of exactly the
      limit: that is complete, and headed all the same. */
  lemma HeadingIsRightIff(all: Bytes)
    ensures (Truncated(all).trimmed <==> Truncated(all).payload != all) <==> |all| != 64_000
  {
    if |all| > MAX_OUTPUT_BYTES {
      assert |Truncated(all).payload| < |all|;
    }
  }
}
