/**
 Reading JSON Lines frames from a buffered stream.  Whatever pieces the stream hands out, the
 frames are those of cutting the whole input at its newlines.
 */
module Framer {
  import opened Prelude

  type Bytes = string

  const MAX_REQUEST_BYTES := 4194304

  datatype Frame = Line(bytes: Bytes) | Oversized

  // ---------- the simple reading ----------

  /** The length of the first line, without its newline. */
  function LineLength(s: Bytes): (n: nat)
    ensures n <= |s| && '\n' !in s[..n] && (n < |s| ==> s[n] == '\n')
  {
    if s == "" || s[0] == '\n' then 0 else 1 + LineLength(s[1..])
  }

  function FrameOf(line: Bytes): Frame {
    if |line| > MAX_REQUEST_BYTES then Oversized else Line(line)
  }

  /** What is left after the first line and its newline. */
  function AfterLine(s: Bytes): (r: Bytes)
    ensures s != "" ==> |r| < |s|
  {
    if LineLength(s) == |s| then "" else s[LineLength(s) + 1..]
  }

  /** All frames of an input. */
  function FramesOf(s: Bytes): seq<Frame>
    decreases |s|
  {
    if s == "" then [] else [FrameOf(s[..LineLength(s)])] + FramesOf(AfterLine(s))
  }

  ghost function Unframe(frames: seq<Frame>): Bytes
    requires AllLines(frames)
  {
    if frames == [] then "" else frames[0].bytes + ("\n" + Unframe(frames[1..]))
  }

  ghost predicate AllLines(frames: seq<Frame>) {
    forall k :: 0 <= k < |frames| ==> frames[k].Line?
  }

  /** The input with its last line ended. */
  function Complete(s: Bytes): Bytes {
    if s == "" || s[|s| - 1] == '\n' then s else s + "\n"
  }

  /** Nothing is lost: lines ended by newlines are the input with its last line ended. */
  lemma {:induction false} FramingIsLossless(s: Bytes)
    requires AllLines(FramesOf(s))
    ensures Unframe(FramesOf(s)) == Complete(s)
    decreases |s|
  {
    if s != "" {
      FirstFrame(s);
      FramingIsLossless(AfterLine(s));
      CompleteFirst(s);
    }
  }

  lemma CompleteJoin(line: Bytes, rest: Bytes)
    ensures Complete(line + ("\n" + rest)) == line + ("\n" + Complete(rest))
  {
    var s := line + ("\n" + rest);
    assert s[|s| - 1] == if rest == "" then '\n' else rest[|rest| - 1];
    assert s + "\n" == line + ("\n" + (rest + "\n"));
  }

  lemma CompleteFirst(s: Bytes)
    requires s != ""
    ensures Complete(s) == s[..LineLength(s)] + ("\n" + Complete(AfterLine(s)))
  {
    var n := LineLength(s);
    var line, rest := s[..n], AfterLine(s);
    if n < |s| {
      assert s == line + ("\n" + rest);
      CompleteJoin(line, rest);
    } else {
      assert line == s;
    }
  }

  lemma FirstFrame(s: Bytes)
    requires s != "" && AllLines(FramesOf(s))
    ensures AllLines(FramesOf(AfterLine(s)))
    ensures Unframe(FramesOf(s)) == s[..LineLength(s)] + ("\n" + Unframe(FramesOf(AfterLine(s))))
  {
    var frames, later := FramesOf(s), FramesOf(AfterLine(s));
    assert frames == [FrameOf(s[..LineLength(s)])] + later;
    assert frames[0].Line? && frames[1..] == later;
  }

  // ---------- the buffered reading ----------

  /** A buffered reader over an input: each look shows some bytes, as many as `sizes` has it. */
  class Reader {
    var rest: Bytes
    var looks: nat
    const sizes: nat -> nat

    constructor (input: Bytes, sizes: nat -> nat)
      ensures rest == input && this.sizes == sizes
    {
      rest, looks := input, 0;
      this.sizes := sizes;
    }

    method FillBuf() returns (available: Bytes)
      modifies this`looks
      ensures available <= rest && (available == "" <==> rest == "")
    {
      looks := looks + 1;
      var size := 1 + sizes(looks);
      available := if size < |rest| then rest[..size] else rest;
    }

    method Consume(n: nat)
      requires n <= |rest|
      modifies this`rest
      ensures rest == old(rest)[n..]
    {
      rest := rest[n..];
    }

    /** Where the newline is among the bytes at hand. */
    method Position(available: Bytes) returns (newline: Option<nat>)
      ensures newline == if LineLength(available) < |available| then Some(LineLength(available)) else None
    {
      for k := 0 to |available|
        invariant '\n' !in available[..k]
      {
        if available[k] == '\n' {
          return Some(k);
        }
      }
      return None;
    }

    /** Read one frame, growing a bounded buffer look by look. */
    method ReadFrame() returns (frame: Option<Frame>)
      modifies this
      ensures old(rest) == "" ==> frame == None && rest == ""
      ensures old(rest) != "" ==>
        frame == Some(FrameOf(old(rest)[..LineLength(old(rest))])) && rest == AfterLine(old(rest))
    {
      ghost var start := rest;
      ghost var read: Bytes := "";
      var bytes: Bytes := "";
      var oversized := false;
      var observed := false;
      while true
        invariant start == read + rest && '\n' !in read && Holds(bytes, oversized, read)
        invariant observed <==> read != ""
        decreases |rest|
      {
        var available := FillBuf();
        if available == "" {
          return if observed then Some(if oversized then Oversized else Line(bytes)) else None;
        }
        observed := true;
        var newline := Position(available);
        var take := if newline.Some? then newline.value else |available|;
        if newline.Some? {
          LookFinds(start, read, rest, available, take);
        } else {
          LookGoesOn(start, read, rest, available);
        }
        bytes, oversized := Grow(bytes, oversized, available[..take], read);
        read := read + available[..take];
        Consume(take + if newline.Some? then 1 else 0);
        if newline.Some? {
          return Some(if oversized then Oversized else Line(bytes));
        }
      }
    }
  }

  /** A newline in sight ends the line there. */
  lemma LookFinds(start: Bytes, read: Bytes, rest: Bytes, available: Bytes, n: nat)
    requires start == read + rest && '\n' !in read && available <= rest && n == LineLength(available) < |available|
    ensures start[..LineLength(start)] == read + available[..n] && AfterLine(start) == rest[n + 1..]
  {
    LineStarts(read, rest);
    assert rest[..n] == available[..n];
  }

  /** Without one the line goes on. */
  lemma LookGoesOn(start: Bytes, read: Bytes, rest: Bytes, available: Bytes)
    requires start == read + rest && '\n' !in read && available <= rest && LineLength(available) == |available|
    ensures start == (read + available[..|available|]) + rest[|available|..] && '\n' !in read + available[..|available|]
  {
    assert available[..|available|] == available;
    Associate(read, available, rest[|available|..]);
    assert rest == available + rest[|available|..];
  }

  lemma Associate(a: Bytes, b: Bytes, c: Bytes)
    ensures a + (b + c) == (a + b) + c
  {}

  /** The buffer holds what was read, until it is too much. */
  predicate Holds(bytes: Bytes, oversized: bool, read: Bytes) {
    (oversized <==> |read| > MAX_REQUEST_BYTES) && (!oversized ==> bytes == read)
  }

  method Grow(bytes: Bytes, oversized: bool, piece: Bytes, ghost read: Bytes) returns (grown: Bytes, over: bool)
    requires Holds(bytes, oversized, read)
    ensures Holds(grown, over, read + piece)
  {
    grown, over := bytes, oversized;
    if !over {
      if |grown| + |piece| > MAX_REQUEST_BYTES {
        over := true;
        grown := "";
      } else {
        grown := grown + piece;
      }
    }
  }

  /** After bytes without a newline, the line is that of what follows. */
  lemma LineStarts(read: Bytes, rest: Bytes)
    requires '\n' !in read
    ensures var s, n := read + rest, LineLength(rest);
      && LineLength(s) == |read| + n && s[..|read| + n] == read + rest[..n] && AfterLine(s) == AfterLine(rest)
  {
    var s := read + rest;
    assert s[..|read|] == read && s[|read|..] == rest;
  }

  /** Reading to the end gives the frames of the input, however the reader hands it out. */
  method ReadAll(input: Bytes, sizes: nat -> nat) returns (frames: seq<Frame>)
    ensures frames == FramesOf(input)
  {
    var reader := new Reader(input, sizes);
    frames := [];
    ghost var ahead := input;
    var frame := reader.ReadFrame();
    while frame.Some?
      invariant frames + FramesOf(ahead) == FramesOf(input)
      invariant if frame.None? then ahead == "" else
        ahead != "" && frame.value == FrameOf(ahead[..LineLength(ahead)]) && reader.rest == AfterLine(ahead)
      decreases |ahead|
    {
      Regroup(frames, frame.value, FramesOf(AfterLine(ahead)));
      frames := frames + [frame.value];
      ahead := reader.rest;
      frame := reader.ReadFrame();
    }
    assert frames + [] == frames;
  }

  lemma Regroup(a: seq<Frame>, frame: Frame, b: seq<Frame>)
    ensures a + ([frame] + b) == (a + [frame]) + b
  {}
}
