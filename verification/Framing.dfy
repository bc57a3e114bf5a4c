/** The wire format of TFramedTransport as async/async_connection.h reads it: a frame is a
    four-byte big-endian length followed by that many bytes. This module says what a byte
    stream means; AsyncConnection.dfy proves that the buffer-shuffling receiver computes it. */
module Framing {

  type Byte = x: int | 0 <= x < 256
  type Bytes = seq<Byte>

  const FRAME_SIZE: nat := 4
  const MAX_FRAME_SIZE: nat := 100 * 1024 * 1024
  const WORD_LIMIT: nat := 0x1_0000_0000

  /** What the transport can send: its length fits the four-byte header. */
  type Payload = p: Bytes | |p| < WORD_LIMIT

  /** The unsigned number a byte string spells, most significant byte first. */
  function Number(b: Bytes): nat {
    if b == [] then 0 else Number(b[..|b| - 1]) * 0x100 + b[|b| - 1]
  }

  /** The last `width` base-256 digits of n, most significant first. */
  function Digits(n: nat, width: nat): (b: Bytes)
    ensures |b| == width
  {
    if width == 0 then [] else Digits(n / 0x100, width - 1) + [n % 0x100]
  }

  function Power256(width: nat): (p: nat)
    ensures p > 0
  {
    if width == 0 then 1 else 0x100 * Power256(width - 1)
  }

  lemma {:induction false} NumberOfDigits(n: nat, width: nat)
    requires n < Power256(width)
    ensures Number(Digits(n, width)) == n
  {
    if width > 0 {
      var b, high := Digits(n, width), n / 0x100;
      NumberOfDigits(high, width - 1);
      assert b[..width - 1] == Digits(high, width - 1);
    }
  }

  /** get_frame_size: the first four bytes in network byte order. */
  function Word(b: Bytes): nat
    requires |b| >= FRAME_SIZE
  {
    Number(b[..FRAME_SIZE])
  }

  function Header(n: nat): (b: Bytes)
    requires n < WORD_LIMIT
    ensures |b| == FRAME_SIZE && Word(b) == n
  {
    var b := Digits(n, FRAME_SIZE);
    assert Word(b) == n by {
      assert Power256(4) == 0x100 * Power256(3) && Power256(3) == 0x100 * Power256(2);
      assert Power256(2) == 0x100 * Power256(1) && Power256(1) == 0x100;
      NumberOfDigits(n, FRAME_SIZE);
      assert b[..FRAME_SIZE] == b;
    }
    b
  }

  predicate Legal(size: nat) {
    0 < size < MAX_FRAME_SIZE
  }

  function Frame(p: Payload): (f: Bytes)
    ensures |f| == FRAME_SIZE + |p| && Word(f) == |p| && f[FRAME_SIZE..] == p
  {
    assert (Header(|p|) + p)[..FRAME_SIZE] == Header(|p|)[..FRAME_SIZE];
    Header(|p|) + p
  }

  predicate IsFrame(f: Bytes) {
    |f| > FRAME_SIZE && Legal(Word(f)) && |f| == Word(f) + FRAME_SIZE
  }

  /** What a receiver knows from the bytes it holds. */
  datatype View = NeedMore | Illegal(size: nat) | Ready(frame: Bytes)

  function Classify(p: Bytes): (v: View)
    ensures v.Ready? ==> IsFrame(v.frame) && v.frame <= p
    ensures v.Illegal? ==> !Legal(v.size)
  {
    if |p| < FRAME_SIZE then NeedMore
    else if !Legal(Word(p)) then Illegal(Word(p))
    else if |p| < Word(p) + FRAME_SIZE then NeedMore
    else
      var f := p[..Word(p) + FRAME_SIZE];
      assert f[..FRAME_SIZE] == p[..FRAME_SIZE];
      Ready(f)
  }

  /** The reference parser: all complete legal frames from the front, and what is left. */
  datatype Parsed = Parsed(frames: seq<Bytes>, rest: Bytes)

  function Parse(s: Bytes): Parsed
    decreases |s|
  {
    match Classify(s)
    case Ready(f) =>
      var tail := Parse(s[|f|..]);
      Parsed([f] + tail.frames, tail.rest)
    case _ => Parsed([], s)
  }

  function Flatten(ss: seq<Bytes>): Bytes {
    if ss == [] then [] else ss[0] + Flatten(ss[1..])
  }

  lemma {:induction false} FlattenAppend(a: seq<Bytes>, b: seq<Bytes>)
    ensures Flatten(a + b) == Flatten(a) + Flatten(b)
  {
    if a == [] {
      assert a + b == b;
    } else {
      assert (a + b)[1..] == a[1..] + b;
      FlattenAppend(a[1..], b);
    }
  }

  lemma FlattenSnoc(a: seq<Bytes>, x: Bytes)
    ensures Flatten(a + [x]) == Flatten(a) + x
  {
    FlattenAppend(a, [x]);
  }

  lemma Assoc(a: Bytes, b: Bytes, c: Bytes)
    ensures a + (b + c) == (a + b) + c
  {
  }

  lemma FinishFrame(frames: seq<Bytes>, f: Bytes, tail: Bytes)
    ensures Flatten(frames) + (f + tail) == Flatten(frames + [f]) + tail
  {
    FlattenSnoc(frames, f);
    Assoc(Flatten(frames), f, tail);
  }

  /** A frame at the front of a stream is recognised whatever follows it. */
  lemma ReadyPrefix(f: Bytes, tail: Bytes)
    requires IsFrame(f)
    ensures Classify(f + tail) == Ready(f)
  {
    assert (f + tail)[..|f|] == f;
    assert (f + tail)[..FRAME_SIZE] == f[..FRAME_SIZE];
  }

  /** Nothing is lost. */
  lemma {:induction false} ParseFlatten(s: Bytes)
    ensures Flatten(Parse(s).frames) + Parse(s).rest == s
    decreases |s|
  {
    match Classify(s)
    case Ready(f) =>
      var tail := Parse(s[|f|..]);
      ParseFlatten(s[|f|..]);
      assert Flatten([f] + tail.frames) == f + Flatten(tail.frames);
      Assoc(f, Flatten(tail.frames), tail.rest);
    case _ =>
  }

  lemma {:induction false} ParseFrames(s: Bytes)
    ensures forall i :: 0 <= i < |Parse(s).frames| ==> IsFrame(Parse(s).frames[i])
    ensures !Classify(Parse(s).rest).Ready?
    decreases |s|
  {
    if Classify(s).Ready? {
      ParseFrames(s[|Classify(s).frame|..]);
    }
  }

  /** Every frame found is legal and complete, nothing is lost, and parsing stops only where
      no further legal frame is complete. */
  lemma {:induction false} ParseSound(s: Bytes)
    ensures Flatten(Parse(s).frames) + Parse(s).rest == s
    ensures forall i :: 0 <= i < |Parse(s).frames| ==> IsFrame(Parse(s).frames[i])
    ensures !Classify(Parse(s).rest).Ready?
  {
    ParseFlatten(s);
    ParseFrames(s);
  }

  /** The parser is the only function with that property. */
  lemma {:induction false} ParseComplete(frames: seq<Bytes>, rest: Bytes)
    requires forall i :: 0 <= i < |frames| ==> IsFrame(frames[i])
    requires !Classify(rest).Ready?
    ensures Parse(Flatten(frames) + rest) == Parsed(frames, rest)
  {
    if frames == [] {
      assert Flatten(frames) + rest == rest;
    } else {
      var f, s := frames[0], Flatten(frames[1..]) + rest;
      assert Flatten(frames) + rest == f + s;
      ReadyPrefix(f, s);
      assert (f + s)[|f|..] == s;
      ParseComplete(frames[1..], rest);
    }
  }

  /** Frames that were already taken off the front do not change what is found behind them. */
  lemma {:induction false} ParseAfter(frames: seq<Bytes>, tail: Bytes)
    requires forall i :: 0 <= i < |frames| ==> IsFrame(frames[i])
    ensures Parse(Flatten(frames) + tail) == Parsed(frames + Parse(tail).frames, Parse(tail).rest)
  {
    ParseSound(tail);
    var p := Parse(tail);
    FlattenAppend(frames, p.frames);
    Assoc(Flatten(frames), Flatten(p.frames), p.rest);
    ParseComplete(frames + p.frames, p.rest);
  }

  /** Cutting a stream anywhere and parsing the left-over again gives the same frames. */
  lemma ParseAppend(s: Bytes, t: Bytes)
    ensures Parse(s + t) == var p := Parse(s);
      Parsed(p.frames + Parse(p.rest + t).frames, Parse(p.rest + t).rest)
  {
    ParseSound(s);
    var p := Parse(s);
    assert s + t == Flatten(p.frames) + (p.rest + t);
    ParseAfter(p.frames, p.rest + t);
  }

  /** Sending any legal payloads and parsing the stream gives them back, in order. */
  lemma {:induction false} SendParse(ps: seq<Payload>)
    requires forall p <- ps :: Legal(|p|)
    ensures var fs := seq(|ps|, i requires 0 <= i < |ps| => Frame(ps[i]));
      Parse(Flatten(fs)) == Parsed(fs, [])
  {
    var fs := seq(|ps|, i requires 0 <= i < |ps| => Frame(ps[i]));
    ParseComplete(fs, []);
    assert Flatten(fs) + [] == Flatten(fs);
  }

  /** A byte string that is a prefix of one frame is that frame or not yet complete. */
  lemma PrefixOfFrame(p: Bytes, payload: Payload)
    requires p <= Frame(payload)
    ensures match Classify(p)
      case Ready(f) => f == p == Frame(payload)
      case Illegal(n) => n == |payload|
      case NeedMore => |p| >= FRAME_SIZE ==> p != Frame(payload)
  {
    var f := Frame(payload);
    if |p| >= FRAME_SIZE {
      assert p[..FRAME_SIZE] == f[..FRAME_SIZE];
    }
  }
}
