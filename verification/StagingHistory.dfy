/**
 Where the bytes of past frames lie in the staging buffer.

 The streaming compressor refers back to the previous 64 KiB of its input, which must still lie unmodified at the
 addresses it was compressed from. sent is all input of the connection so far, at[i] the address of its i-th byte.
 */
module StagingHistory {

  import opened Bytes

  const FRAME: nat := 256 * 1024
  const WINDOW: nat := 64 * 1024

  /** What a call of the streaming compressor demands of its caller. */
  ghost predicate HistoryIntact(buffer: seq<byte>, sent: seq<byte>, at: seq<nat>)
    requires |at| == |sent|
  {
    forall i | 0 <= i < |sent| && |sent| - WINDOW <= i :: at[i] < |buffer| && buffer[at[i]] == sent[i]
  }

  /** How much of the window reaches back into the pass before the current one. */
  function Reach(start: nat): nat { if start < WINDOW then WINDOW - start else 0 }

  /**
   The buffer is filled in passes from address 0. The current pass began with byte pass of sent and has committed
   start bytes; the pass before it ended at address end, beyond two frames.
   */
  ghost predicate Kept(buffer: seq<byte>, sent: seq<byte>, at: seq<nat>, pass: nat, end: nat, start: nat)
  {
    && |at| == |sent| && |buffer| == 3 * FRAME && start <= 2 * FRAME && |sent| == pass + start
    && (forall i | pass <= i < |sent| :: at[i] == i - pass && buffer[i - pass] == sent[i])
    && (pass > 0 ==> 2 * FRAME < end <= 3 * FRAME && end <= pass)
    && (pass > 0 ==> forall i | pass - Reach(start) <= i < pass :: at[i] == end - (pass - i) && buffer[end - (pass - i)] == sent[i])
  }

  lemma KeptIsHistory(buffer: seq<byte>, sent: seq<byte>, at: seq<nat>, pass: nat, end: nat, start: nat)
    requires Kept(buffer, sent, at, pass, end, start)
    ensures HistoryIntact(buffer, sent, at)
  {
  }

  /** Writing the next frame's room spares the window. */
  lemma WriteSparesHistory(buffer: seq<byte>, buffer': seq<byte>, sent: seq<byte>, at: seq<nat>, pass: nat, end: nat, start: nat)
    requires Kept(buffer, sent, at, pass, end, start) && |buffer'| == |buffer|
    requires forall k | 0 <= k < |buffer| && !(start <= k < start + FRAME) :: buffer'[k] == buffer[k]
    ensures Kept(buffer', sent, at, pass, end, start)
  {
  }

  /** The addresses of a run of bytes. */
  function Span(from: nat, to: nat): (r: seq<nat>)
    requires from <= to
    ensures |r| == to - from && forall i | 0 <= i < |r| :: r[i] == from + i
  {
    seq(to - from, i requires 0 <= i => from + i)
  }

  /** Committing the frame at start..offset, without and with the wrap to address 0. */
  lemma CommitKeepsHistory(buffer: seq<byte>, sent: seq<byte>, at: seq<nat>, pass: nat, end: nat, start: nat, offset: nat)
    requires Kept(buffer, sent, at, pass, end, start) && start <= offset <= start + FRAME
    ensures offset <= 2 * FRAME ==> Kept(buffer, sent + buffer[start..offset], at + Span(start, offset), pass, end, offset)
    ensures offset > 2 * FRAME ==>
      Kept(buffer, sent + buffer[start..offset], at + Span(start, offset), |sent| + (offset - start), offset, 0)
  {
    var sent', at' := sent + buffer[start..offset], at + Span(start, offset);
    forall i | pass <= i < |sent'| ensures at'[i] == i - pass && buffer[i - pass] == sent'[i] {
      if i < |sent| { assert sent'[i] == sent[i] && at'[i] == at[i]; }
    }
    forall i | pass - Reach(offset) <= i < pass && pass > 0
      ensures at'[i] == end - (pass - i) && buffer[end - (pass - i)] == sent'[i] {
      assert sent'[i] == sent[i] && at'[i] == at[i];
    }
  }

  /** All messages of all frames. */
  function Messages(frames: seq<seq<seq<byte>>>): seq<seq<byte>> {
    if frames == [] then [] else Messages(frames[..|frames| - 1]) + frames[|frames| - 1]
  }

  lemma MessagesAppend(frames: seq<seq<seq<byte>>>, frame: seq<seq<byte>>)
    ensures Messages(frames + [frame]) == Messages(frames) + frame
  {
    assert (frames + [frame])[..|frames|] == frames;
  }
}
