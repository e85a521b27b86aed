/**
 The profiler's staging buffer: messages are gathered into frames of at most TargetFrameSize bytes, which a streaming
 compressor reads in place from a buffer three frames long.
 */
module StagingBuffer {

  import opened Bytes
  import opened StagingHistory

  const ITEM_SIZE: nat := 32

  /** The header that carries a pointer: QueueHeader and QueueStringTransfer, packed. */
  function PointerHeader(kind: byte, ptr: nat): (r: seq<byte>)
    ensures |r| == 9 && r[0] == kind
    ensures ptr < Power256(8) ==> FromLittleEndian(r[1..]) == ptr
  {
    if ptr < Power256(8) then LittleEndianRoundTrip(ptr, 8); [kind] + LittleEndian(ptr, 8)
    else [kind] + LittleEndian(ptr, 8)
  }

  /** A message with a payload: header, length, payload. */
  function LengthPrefixed(header: seq<byte>, lengthSize: nat, payload: seq<byte>): seq<byte> {
    header + LittleEndian(|payload|, lengthSize) + payload
  }

  /** A reader that knows the header's and the length's size finds the end of the message and the payload. */
  lemma PrefixIsReadable(header: seq<byte>, lengthSize: nat, payload: seq<byte>, rest: seq<byte>)
    requires |payload| < Power256(lengthSize)
    ensures var m := LengthPrefixed(header, lengthSize, payload) + rest;
      && |m| >= |header| + lengthSize
      && var n := FromLittleEndian(m[|header|..|header| + lengthSize]);
         n == |payload| && m[..|header|] == header && m[|header| + lengthSize..][..n] == payload
         && m[|header| + lengthSize + n..] == rest
  {
    var m := LengthPrefixed(header, lengthSize, payload) + rest;
    assert m[|header|..|header| + lengthSize] == LittleEndian(|payload|, lengthSize);
    LittleEndianRoundTrip(|payload|, lengthSize);
  }

  /** Each frame is non-empty and fits the target. */
  predicate FramesFit(frames: seq<seq<seq<byte>>>) {
    forall i | 0 <= i < |frames| :: 0 < |Flatten(frames[i])| <= FRAME
  }

  class StagingBuffer {
    const m_buffer: array<byte>
    var m_bufferOffset: nat
    var m_bufferStart: nat

    ghost var sent: seq<byte>
    ghost var at: seq<nat>
    ghost var pass: nat
    ghost var end: nat
    ghost var frames: seq<seq<seq<byte>>>
    ghost var pending: seq<seq<byte>>

    ghost predicate Valid()
      reads this, m_buffer
    {
      && Kept(m_buffer[..], sent, at, pass, end, m_bufferStart)
      && m_buffer.Length == 3 * FRAME && m_bufferStart <= 2 * FRAME
      && m_bufferStart <= m_bufferOffset <= m_bufferStart + FRAME
      && sent == Flatten(Messages(frames)) && FramesFit(frames)
    }

    /** The bytes not yet committed. */
    ghost function Staged(): seq<byte>
      reads this, m_buffer
      requires m_bufferStart <= m_bufferOffset <= m_buffer.Length
    {
      m_buffer[m_bufferStart..m_bufferOffset]
    }

    /** Between operations the staged bytes are whole messages. */
    ghost predicate Whole()
      reads this, m_buffer
    {
      Valid() && Staged() == Flatten(pending)
    }

    /** Every message of the connection, in order. */
    ghost function Log(): seq<seq<byte>>
      reads this
    {
      Messages(frames) + pending
    }

    constructor ()
      ensures Whole() && Log() == [] && fresh(m_buffer)
    {
      m_buffer := new byte[3 * FRAME](_ => 0);
      m_bufferOffset, m_bufferStart := 0, 0;
      sent, at, pass, end, frames, pending := [], [], 0, 0, [], [];
    }

    /** A lost connection: the stream is reset and whatever was staged is dropped. */
    method Reconnect()
      requires Valid()
      modifies this
      ensures Whole() && Log() == [] && m_bufferOffset == m_bufferStart == 0
    {
      m_bufferOffset, m_bufferStart := 0, 0;
      sent, at, pass, end, frames, pending := [], [], 0, 0, [], [];
    }

    /** Compresses and sends a frame; the compressor's contract is the precondition, delivered the socket's answer. */
    method SendData(from: nat, len: nat, delivered: bool) returns (ok: bool)
      requires |at| == |sent| && HistoryIntact(m_buffer[..], sent, at)
      requires 0 < len <= FRAME && from + len <= m_buffer.Length
      modifies this`sent, this`at
      ensures ok == delivered
      ensures sent == old(sent) + m_buffer[from..from + len] && at == old(at) + Span(from, from + len)
    {
      sent, at := sent + m_buffer[from..from + len], at + Span(from, from + len);
      ok := delivered;
    }

    method CommitData(delivered: bool) returns (ok: bool)
      requires Whole() && m_bufferStart < m_bufferOffset
      modifies this
      ensures Whole() && ok == delivered && Log() == old(Log())
      ensures frames == old(frames) + [old(pending)] && pending == []
      ensures sent == old(sent) + old(Staged())
      ensures m_bufferOffset == m_bufferStart == if old(m_bufferOffset) > 2 * FRAME then 0 else old(m_bufferOffset)
    {
      hide Kept, HistoryIntact, Flatten, Messages;
      ghost var from, to := m_bufferStart, m_bufferOffset;
      KeptIsHistory(m_buffer[..], sent, at, pass, end, m_bufferStart);
      CommitKeepsHistory(m_buffer[..], sent, at, pass, end, from, to);
      ok := SendData(m_bufferStart, m_bufferOffset - m_bufferStart, delivered);
      CommitMessages(old(frames), old(pending));
      assert m_buffer[from..to] == m_buffer[..][from..to];
      frames, pending := frames + [pending], [];
      if m_bufferOffset > 2 * FRAME {
        m_bufferOffset := 0;
        pass, end := |sent|, to;
      }
      m_bufferStart := m_bufferOffset;
    }

    /** The idle loop's flush: only a non-empty frame is committed. */
    method Flush(delivered: bool) returns (ok: bool)
      requires Whole()
      modifies this
      ensures Whole() && Log() == old(Log()) && m_bufferOffset == m_bufferStart
      ensures ok == (delivered || old(m_bufferOffset == m_bufferStart))
    {
      ok := true;
      if m_bufferOffset != m_bufferStart {
        ok := CommitData(delivered);
      }
    }

    /** Makes room for a message: afterwards it fits into the current frame. */
    method NeedDataSize(len: nat, delivered: bool) returns (ok: bool)
      requires Whole() && len <= FRAME
      modifies this
      ensures Whole() && Log() == old(Log()) && m_bufferOffset - m_bufferStart + len <= FRAME
      ensures if old(m_bufferOffset - m_bufferStart) + len > FRAME
        then ok == delivered && frames == old(frames) + [old(pending)] && pending == []
        else ok && unchanged(this)
    {
      ok := true;
      if m_bufferOffset - m_bufferStart + len > FRAME {
        ok := CommitData(delivered);
      }
    }

    /** Copies bytes behind the staged ones; the caller has made room. */
    method AppendDataUnsafe(data: seq<byte>)
      requires Valid() && m_bufferOffset - m_bufferStart + |data| <= FRAME
      modifies this`m_bufferOffset, m_buffer
      ensures Valid() && Staged() == old(Staged()) + data && m_bufferOffset == old(m_bufferOffset) + |data|
      ensures forall k | 0 <= k < m_buffer.Length && !(old(m_bufferOffset) <= k < m_bufferOffset) :: m_buffer[k] == old(m_buffer[k])
    {
      hide Flatten, Messages, FramesFit;
      ghost var before := m_buffer[..];
      forall i | 0 <= i < |data| {
        m_buffer[m_bufferOffset + i] := data[i];
      }
      m_bufferOffset := m_bufferOffset + |data|;
      WriteSparesHistory(before, m_buffer[..], sent, at, pass, end, m_bufferStart);
      assert Staged() == before[m_bufferStart..old(m_bufferOffset)] + data;
    }

    method AppendData(data: seq<byte>, delivered: bool) returns (ok: bool)
      requires Whole() && |data| <= FRAME
      modifies this, m_buffer
      ensures Whole() && Log() == old(Log()) + [data]
      ensures ok == (delivered || old(m_bufferOffset - m_bufferStart) + |data| <= FRAME)
    {
      hide Kept, Flatten, Messages, FramesFit;
      ok := NeedDataSize(|data|, delivered);
      AppendDataUnsafe(data);
      FlattenAppend(pending, data);
      pending := pending + [data];
    }

    /** SendString, for a string of at most 65535 bytes. */
    method SendString(kind: byte, str: nat, text: seq<byte>, delivered: bool)
      requires Whole() && |text| < 0x1_0000
      modifies this, m_buffer
      ensures Whole() && Log() == old(Log()) + [LengthPrefixed(PointerHeader(kind, str), 2, text)]
    {
      SendPrefixed(PointerHeader(kind, str), 2, text, delivered);
    }

    /** SendSingleString and SendSecondString: the header is the type alone. */
    method SendBareString(kind: byte, text: seq<byte>, delivered: bool)
      requires Whole() && |text| < 0x1_0000
      modifies this, m_buffer
      ensures Whole() && Log() == old(Log()) + [LengthPrefixed([kind], 2, text)]
    {
      SendPrefixed([kind], 2, text, delivered);
    }

    method SendLongString(kind: byte, str: nat, text: seq<byte>, delivered: bool)
      requires Whole() && 9 + 4 + |text| <= FRAME
      modifies this, m_buffer
      ensures Whole() && Log() == old(Log()) + [LengthPrefixed(PointerHeader(kind, str), 4, text)]
    {
      SendPrefixed(PointerHeader(kind, str), 4, text, delivered);
    }

    /** The shape that the string writers share: reserve for the whole message, then append its three parts. */
    method SendPrefixed(header: seq<byte>, lengthSize: nat, text: seq<byte>, delivered: bool)
      requires Whole() && |header| + lengthSize + |text| <= FRAME
      modifies this, m_buffer
      ensures Whole() && Log() == old(Log()) + [LengthPrefixed(header, lengthSize, text)]
    {
      hide Kept, Flatten, Messages, FramesFit, LittleEndian;
      var _ := NeedDataSize(|header| + lengthSize + |text|, delivered);
      ghost var was := Staged();
      AppendHead(header, LittleEndian(|text|, lengthSize));
      AppendDataUnsafe(text);
      Seal(was, LengthPrefixed(header, lengthSize, text));
    }

    /** Copies a header and the length that follows it. */
    method AppendHead(header: seq<byte>, length: seq<byte>)
      requires Valid() && m_bufferOffset - m_bufferStart + |header| + |length| <= FRAME
      modifies this`m_bufferOffset, m_buffer
      ensures Valid() && Staged() == old(Staged()) + (header + length)
    {
      hide Kept, Flatten, Messages, FramesFit;
      AppendDataUnsafe(header);
      AppendDataUnsafe(length);
    }

    /** Records that the bytes appended since was are one message. */
    ghost method Seal(was: seq<byte>, message: seq<byte>)
      requires Valid() && was == Flatten(pending) && Staged() == was + message
      modifies this`pending
      ensures Whole() && pending == old(pending) + [message] && Log() == old(Log()) + [message]
    {
      FlattenAppend(pending, message);
      pending := pending + [message];
    }

    /** SendSourceLocationPayload and SendCallstackAlloc read the payload's length from the memory block itself. */
    method SendBlock(kind: byte, ptr: nat, block: seq<byte>, skip: nat, delivered: bool)
      requires Whole() && |block| >= 2 && skip <= FromLittleEndian(block[..2]) <= skip + |block| - 2
      modifies this, m_buffer
      ensures var len := FromLittleEndian(block[..2]) - skip;
        Whole() && Log() == old(Log()) + [LengthPrefixed(PointerHeader(kind, ptr), 2, block[2..2 + len])]
    {
      FromLittleEndianBound(block[..2]);
      assert Power256(2) == 0x1_0000;
      var len := FromLittleEndian(block[..2]) - skip;
      SendPrefixed(PointerHeader(kind, ptr), 2, block[2..2 + len], delivered);
    }

    /** Copies the frames at once where pointers are 64 bits wide, one by one where they are not. */
    method AppendWords(trace: seq<nat>, wide: bool)
      requires Valid() && m_bufferOffset - m_bufferStart + 8 * |trace| <= FRAME
      modifies this`m_bufferOffset, m_buffer
      ensures Valid() && Staged() == old(Staged()) + Words(trace)
    {
      hide Kept, Flatten, Messages, FramesFit, LittleEndian;
      if wide {
        AppendDataUnsafe(Words(trace));
        return;
      }
      for i := 0 to |trace|
        invariant Valid() && Staged() == old(Staged()) + Words(trace[..i])
      {
        WordsNext(trace, i);
        AppendDataUnsafe(LittleEndian(trace[i], 8));
      }
      assert trace[..|trace|] == trace;
    }

    /** SendCallstackPayload, for a trace short enough for its 16-bit length. */
    method SendCallstackPayload(kind: byte, ptr: nat, trace: seq<nat>, wide: bool, delivered: bool)
      requires Whole() && |trace| < 8192
      modifies this, m_buffer
      ensures Whole() && Log() == old(Log()) + [LengthPrefixed(PointerHeader(kind, ptr), 2, Words(trace))]
    {
      hide Kept, Flatten, Messages, FramesFit, LittleEndian, PointerHeader, Words;
      var l16 := 8 * |trace| % 0x1_0000;
      var header := PointerHeader(kind, ptr);
      var _ := NeedDataSize(9 + 2 + l16, delivered);
      ghost var was := Staged();
      AppendHead(header, LittleEndian(l16, 2));
      AppendWords(trace, wide);
      assert Staged() == was + LengthPrefixed(header, 2, Words(trace));
      Seal(was, LengthPrefixed(header, 2, Words(trace)));
    }
  }

  /** The 64-bit words of a callstack as bytes. */
  function Words(trace: seq<nat>): (r: seq<byte>)
    ensures |r| == 8 * |trace|
  {
    if trace == [] then [] else Words(trace[..|trace| - 1]) + LittleEndian(trace[|trace| - 1], 8)
  }

  /** Each of them can be read back from its place. */
  lemma {:induction false} WordAt(trace: seq<nat>, i: nat)
    requires i < |trace| && trace[i] < Power256(8)
    ensures FromLittleEndian(Words(trace)[8 * i..8 * i + 8]) == trace[i]
  {
    hide LittleEndian, FromLittleEndian, Power256;
    var front, last := trace[..|trace| - 1], LittleEndian(trace[|trace| - 1], 8);
    if i == |trace| - 1 {
      LittleEndianRoundTrip(trace[i], 8);
      assert Words(trace)[8 * i..8 * i + 8] == last;
    } else {
      WordAt(front, i);
      assert Words(trace)[8 * i..8 * i + 8] == Words(front)[8 * i..8 * i + 8];
    }
  }

  lemma WordsNext(trace: seq<nat>, i: nat)
    requires i < |trace|
    ensures Words(trace[..i + 1]) == Words(trace[..i]) + LittleEndian(trace[i], 8)
  {
    assert trace[..i + 1][..i] == trace[..i];
  }

  /** The 16-bit length of a callstack payload says its size exactly below 8192 frames, and only there. */
  lemma CallstackLengthExact(sz: nat)
    ensures FromLittleEndian(LittleEndian(8 * sz % 0x1_0000, 2)) == 8 * sz <==> sz < 8192
  {
    assert Power256(2) == 0x1_0000;
    LittleEndianRoundTrip(8 * sz % 0x1_0000, 2);
  }

  lemma CommitMessages(frames: seq<seq<seq<byte>>>, pending: seq<seq<byte>>)
    ensures Flatten([]) == [] && Messages(frames + [pending]) == Messages(frames) + pending
    ensures Flatten(Messages(frames + [pending])) == Flatten(Messages(frames)) + Flatten(pending)
  {
    MessagesAppend(frames, pending);
    FlattenConcat(Messages(frames), pending);
  }
}
