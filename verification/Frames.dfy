/** Cutting the bridge's input into frames: one per line, at most 64 KiB each. */
module Frames {

  const MAX_FRAME_BYTES := 64 * 1024
  const NEWLINE: Byte := 10

  type Byte = b: nat | b < 256
  type Bytes = seq<Byte>

  datatype Frame = EndOfInput | Frame(bytes: Bytes) | TooLarge

  /** How far the next newline is, or the length of the input. */
  function LineLength(input: Bytes): (n: nat)
    ensures n <= |input|
  {
    if input == [] || input[0] == NEWLINE then 0 else 1 + LineLength(input[1..])
  }

  /** The next frame and the input after it. */
  function NextFrame(input: Bytes): (Frame, Bytes) {
    var n := LineLength(input);
    if n > MAX_FRAME_BYTES then (TooLarge, input[MAX_FRAME_BYTES + 1..])
    else if n < |input| then (Frame(input[..n]), input[n + 1..])
    else if n == 0 then (EndOfInput, [])
    else (Frame(input), [])
  }

  lemma {:induction false} LineLengthUnique(input: Bytes, n: nat)
    requires n <= |input| && (n < |input| ==> input[n] == NEWLINE) && forall k | 0 <= k < n :: input[k] != NEWLINE
    ensures LineLength(input) == n
  {
    if n > 0 { LineLengthUnique(input[1..], n - 1); }
  }

  class Reader {
    var input: Bytes   // the bytes not read yet

    constructor (input: Bytes)
      ensures this.input == input
    {
      this.input := input;
    }

    method ReadFrame() returns (frame: Frame)
      modifies this
      ensures (frame, input) == NextFrame(old(input))
    {
      hide LineLength, NextFrame;
      var bytes: Bytes := [];
      ghost var all := input;
      while true
        invariant |bytes| <= MAX_FRAME_BYTES && all == bytes + input && OneLine(bytes)
        decreases |input|
      {
        if input == [] {
          LastLine(bytes);
          assert all == bytes;
          return if bytes == [] then EndOfInput else Frame(bytes);
        }
        var byte := input[0];
        input := input[1..];
        assert all == bytes + [byte] + input;
        if byte == NEWLINE {
          WholeLine(bytes, input);
          return Frame(bytes);
        }
        if |bytes| == MAX_FRAME_BYTES {
          LongLine(bytes + [byte], input);
          return TooLarge;
        }
        bytes := bytes + [byte];
      }
    }
  }

  ghost predicate OneLine(bytes: Bytes) { forall k | 0 <= k < |bytes| :: bytes[k] != NEWLINE }

  lemma {:induction false} LastLine(bytes: Bytes)
    requires OneLine(bytes) && |bytes| <= MAX_FRAME_BYTES
    ensures NextFrame(bytes) == (if bytes == [] then EndOfInput else Frame(bytes), [])
  {
    LineLengthUnique(bytes, |bytes|);
  }

  lemma {:induction false} WholeLine(bytes: Bytes, rest: Bytes)
    requires OneLine(bytes) && |bytes| <= MAX_FRAME_BYTES
    ensures NextFrame(bytes + [NEWLINE] + rest) == (Frame(bytes), rest)
  {
    var all := bytes + [NEWLINE] + rest;
    LineLengthUnique(all, |bytes|);
    assert all[..|bytes|] == bytes && all[|bytes| + 1..] == rest;
  }

  /** A line of at most 65536 bytes before a newline, or the rest of the input, is a
      frame; 65537 bytes without a newline are too much. */
  lemma {:induction false} LineRead(line: Bytes, rest: Bytes)
    requires 10 !in line
    ensures |line| <= 65536 ==>
      NextFrame(line + [10] + rest) == (Frame(line), rest) && (line != [] ==> NextFrame(line) == (Frame(line), []))
    ensures |line| == 65537 ==> NextFrame(line + rest) == (TooLarge, rest)
    ensures NextFrame([]) == (EndOfInput, [])
  {
    hide NextFrame;
    LastLine([]);
    if |line| <= 65536 {
      WholeLine(line, rest);
      LastLine(line);
    } else if |line| == 65537 {
      LongLine(line, rest);
    }
  }

  lemma {:induction false} LongLine(bytes: Bytes, rest: Bytes)
    requires OneLine(bytes) && |bytes| == MAX_FRAME_BYTES + 1
    ensures NextFrame(bytes + rest) == (TooLarge, rest)
  {
    AtLeast(bytes + rest, |bytes|);
    assert (bytes + rest)[|bytes|..] == rest;
  }

  lemma {:induction false} AtLeast(input: Bytes, n: nat)
    requires n <= |input| && forall k | 0 <= k < n :: input[k] != NEWLINE
    ensures LineLength(input) >= n
  {
    if n > 0 { AtLeast(input[1..], n - 1); }
  }

  /** Frames as a peer writes them: each with a newline at its end. */
  function Lines(frames: seq<Bytes>): Bytes {
    if frames == [] then [] else frames[0] + [NEWLINE] + Lines(frames[1..])
  }

  ghost predicate Sendable(frame: Bytes) { |frame| <= MAX_FRAME_BYTES && NEWLINE !in frame }

  lemma {:induction false} NextOfLines(frames: seq<Bytes>)
    requires frames != [] && Sendable(frames[0])
    ensures NextFrame(Lines(frames)) == (Frame(frames[0]), Lines(frames[1..]))
  {
    hide NextFrame;
    assert forall k | 0 <= k < |frames[0]| :: frames[0][k] in frames[0];
    WholeLine(frames[0], Lines(frames[1..]));
  }

  /** What was sent as frames is read as the same frames, then the end. */
  method ReadAll(frames: seq<Bytes>) returns (received: seq<Bytes>, last: Frame)
    requires forall i | 0 <= i < |frames| :: Sendable(frames[i])
    ensures received == frames && last == EndOfInput
  {
    var reader := new Reader(Lines(frames));
    received := [];
    assert frames[0..] == frames;
    for i := 0 to |frames|
      invariant fresh(reader) && reader.input == Lines(frames[i..]) && received == frames[..i]
    {
      NextOfLines(frames[i..]);
      assert frames[i..][1..] == frames[i + 1..];
      var frame := reader.ReadFrame();
      received := received + [frame.bytes];
    }
    assert reader.input == [];
    last := reader.ReadFrame();
  }
}
