/** The receiving half of async/async_connection.h, in its own form: one buffer, resized and
    shifted in place by the read and write handlers. The ghost history says which bytes the
    socket delivered and which frames were dealt with; the contracts say that, however the
    bytes are cut into read completions, the handlers find the frames Framing.Parse finds. */
module AsyncConnections {
  import opened Framing

  const BUFFER_SIZE: nat := 4 * 1024
  // the longest buffer ever held: the longest legal frame and its header
  const BUFFER_LIMIT: nat := MAX_FRAME_SIZE - 1 + FRAME_SIZE

  datatype State = ReadFrameSize | ReadFrame

  datatype Error = ProtoSizeLimit | ProtoNegativeSize | IoError

  /** Where control is between two handler invocations: the operation handed to the socket,
      the frame handed to on_handle_frame, the reply being written, or nothing any more. The
      length of a read is the source's unsigned buffer_size - bytes_recv_ before it wraps. */
  datatype Outstanding =
    | Idle
    | Reading(offset: nat, length: int)
    | Handling(frame: Bytes)
    | Writing(frame: Bytes)
    | Closed(error: Error)

  function SizeError(size: nat): Error {
    if size >= MAX_FRAME_SIZE then ProtoSizeLimit else ProtoNegativeSize
  }

  /** Where control must be once the bytes p are in the buffer. */
  predicate Settled(p: Bytes, o: Outstanding) {
    match Classify(p)
    case NeedMore => o.Reading? && o.length > 0
    case Ready(f) => o == Handling(f)
    case Illegal(n) => o == Closed(SizeError(n))
  }

  // ----- the history of a connection -----

  /** A call of on_handle_frame: the frame, and where in the stream it begins. */
  datatype Dispatch = Dispatch(at: nat, frame: Bytes)

  /** What has happened to a connection, failures aside: a read or a write completed, or a
      handler went on without finishing its frame, as it does after a oneway call. */
  datatype Happening = ReadCompleted | WriteCompleted | OnewayEnded

  /** The frames of a stream with their places, the first of them at `at`. */
  function Located(frames: seq<Bytes>, at: nat): seq<Dispatch> {
    if frames == [] then [] else [Dispatch(at, frames[0])] + Located(frames[1..], at + |frames[0]|)
  }

  predicate AfterOneway(trace: seq<Happening>) {
    trace != [] && trace[|trace| - 1].OnewayEnded?
  }

  /** Some oneway end was followed by a further completion. */
  predicate OnewayFollowed(trace: seq<Happening>) {
    exists i :: 0 < i < |trace| && trace[i - 1].OnewayEnded? && trace[i].ReadCompleted?
  }

  /** Some frame was dispatched twice in a row. */
  predicate Repeats(dispatched: seq<Dispatch>) {
    exists i :: 0 < i < |dispatched| && dispatched[i - 1].at == dispatched[i].at
  }

  ghost predicate AllFrames(frames: seq<Bytes>) {
    forall i :: 0 <= i < |frames| ==> IsFrame(frames[i])
  }

  /** What a history has in common with the stream: finished frames and the one in hand are its
      first bytes, and they were dispatched once each in order, unless a oneway end was followed
      up, and then some frame was dispatched twice. */
  ghost predicate History(done: seq<Bytes>, current: seq<Bytes>, accepted: Bytes,
                          dispatched: seq<Dispatch>, trace: seq<Happening>) {
    && AllFrames(done + current)
    && Flatten(done + current) <= accepted
    && (if OnewayFollowed(trace) then Repeats(dispatched) else dispatched == Located(done + current, 0))
  }

  lemma {:induction false} LocatedSnoc(frames: seq<Bytes>, f: Bytes, at: nat)
    ensures Located(frames + [f], at) == Located(frames, at) + [Dispatch(at + |Flatten(frames)|, f)]
  {
    if frames == [] {
      assert [] + [f] == [f] && Located([f], at) == [Dispatch(at, f)];
    } else {
      assert (frames + [f])[1..] == frames[1..] + [f];
      LocatedSnoc(frames[1..], f, at + |frames[0]|);
      Regroup([Dispatch(at, frames[0])], Located(frames[1..], at + |frames[0]|), [Dispatch(at + |Flatten(frames)|, f)]);
    }
  }

  lemma Regroup<T>(a: seq<T>, b: seq<T>, c: seq<T>)
    ensures a + (b + c) == a + b + c
  {
  }

  lemma {:induction false} LocatedAppend(a: seq<Bytes>, b: seq<Bytes>, at: nat)
    ensures Located(a, at) <= Located(a + b, at)
  {
    if a != [] {
      assert (a + b)[1..] == a[1..] + b;
      LocatedAppend(a[1..], b, at + |a[0]|);
    }
  }

  /** Frames are not empty, so no two begin at the same place. */
  lemma {:induction false} LocatedIncreases(frames: seq<Bytes>, at: nat, i: nat)
    requires AllFrames(frames) && 0 < i < |Located(frames, at)|
    ensures Located(frames, at)[i - 1].at < Located(frames, at)[i].at
  {
    if i > 1 {
      LocatedIncreases(frames[1..], at + |frames[0]|, i - 1);
    }
  }

  lemma {:induction false} FollowedSnoc(trace: seq<Happening>, h: Happening)
    ensures OnewayFollowed(trace + [h]) <==> OnewayFollowed(trace) || (AfterOneway(trace) && h.ReadCompleted?)
  {
    var t := trace + [h];
    if OnewayFollowed(trace) {
      var i :| 0 < i < |trace| && trace[i - 1].OnewayEnded? && trace[i].ReadCompleted?;
      assert t[i - 1].OnewayEnded? && t[i].ReadCompleted?;
    }
    if AfterOneway(trace) && h.ReadCompleted? {
      assert t[|trace| - 1].OnewayEnded? && t[|trace|].ReadCompleted?;
    }
  }

  lemma {:induction false} RepeatsSnoc(dispatched: seq<Dispatch>, d: Dispatch)
    requires Repeats(dispatched) || (dispatched != [] && dispatched[|dispatched| - 1].at == d.at)
    ensures Repeats(dispatched + [d])
  {
    var e := dispatched + [d];
    if Repeats(dispatched) {
      var i :| 0 < i < |dispatched| && dispatched[i - 1].at == dispatched[i].at;
      assert e[i - 1].at == e[i].at;
    } else {
      assert e[|dispatched| - 1].at == e[|dispatched|].at;
    }
  }

  /** More bytes, or the end of a handler or of a write. */
  lemma {:induction false} HistoryGoesOn(done: seq<Bytes>, current: seq<Bytes>, accepted: Bytes, data: Bytes,
                                         dispatched: seq<Dispatch>, trace: seq<Happening>, h: Happening)
    requires History(done, current, accepted, dispatched, trace) && !(AfterOneway(trace) && h.ReadCompleted?)
    ensures History(done, current, accepted + data, dispatched, trace + [h])
  {
    FollowedSnoc(trace, h);
  }

  /** The next frame is dispatched. */
  lemma {:induction false} HistoryDispatches(done: seq<Bytes>, f: Bytes, tail: Bytes, accepted: Bytes,
                                             dispatched: seq<Dispatch>, trace: seq<Happening>)
    requires History(done, [], accepted, dispatched, trace) && IsFrame(f)
    requires accepted == Flatten(done) + (f + tail)
    ensures History(done, [f], accepted, dispatched + [Dispatch(|Flatten(done)|, f)], trace)
  {
    assert done + [] == done;
    FinishFrame(done, f, tail);
    if OnewayFollowed(trace) {
      RepeatsSnoc(dispatched, Dispatch(|Flatten(done)|, f));
    } else {
      LocatedSnoc(done, f, 0);
    }
  }

  /** The frame in hand is dispatched again. */
  lemma {:induction false} HistoryRepeats(done: seq<Bytes>, f: Bytes, accepted: Bytes,
                                          dispatched: seq<Dispatch>, trace: seq<Happening>)
    requires History(done, [f], accepted, dispatched, trace) && AfterOneway(trace)
    ensures History(done, [f], accepted, dispatched + [Dispatch(|Flatten(done)|, f)], trace + [ReadCompleted])
  {
    FollowedSnoc(trace, ReadCompleted);
    LocatedSnoc(done, f, 0);
    RepeatsSnoc(dispatched, Dispatch(|Flatten(done)|, f));
  }

  lemma {:induction false} HistoryFinishes(done: seq<Bytes>, f: Bytes, accepted: Bytes,
                                           dispatched: seq<Dispatch>, trace: seq<Happening>)
    requires History(done, [f], accepted, dispatched, trace)
    ensures History(done + [f], [], accepted, dispatched, trace)
  {
    assert done + [f] + [] == done + [f];
  }

  /** The frames dispatched are the first ones of the stream, once each and in order, if and only
      if no oneway end was followed by a further completion. */
  lemma {:induction false} DispatchedInOrder(done: seq<Bytes>, current: seq<Bytes>, accepted: Bytes,
                                             dispatched: seq<Dispatch>, trace: seq<Happening>)
    requires History(done, current, accepted, dispatched, trace)
    ensures dispatched <= Located(Parse(accepted).frames, 0) <==> !OnewayFollowed(trace)
  {
    var frames := done + current;
    var tail := accepted[|Flatten(frames)|..];
    assert accepted == Flatten(frames) + tail;
    ParseAfter(frames, tail);
    LocatedAppend(frames, Parse(tail).frames, 0);
    if OnewayFollowed(trace) && dispatched <= Located(Parse(accepted).frames, 0) {
      var i :| 0 < i < |dispatched| && dispatched[i - 1].at == dispatched[i].at;
      ParseFrames(accepted);
      LocatedIncreases(Parse(accepted).frames, 0, i);
      assert false;
    }
  }

  class AsyncConnection {
    var recvBuffer: Bytes
    var bytesRecv: nat
    var frameSize: nat
    var state: State
    var outstanding: Outstanding

    ghost var accepted: Bytes           // every byte the receive loop has kept
    ghost var done: seq<Bytes>          // the frames whose handling has finished
    ghost var current: seq<Bytes>       // the frame in hand, if there is one
    ghost var dispatched: seq<Dispatch> // every call of on_handle_frame
    ghost var trace: seq<Happening>

    ghost function Pending(): Bytes
      reads this
      requires bytesRecv <= |recvBuffer|
    {
      recvBuffer[..bytesRecv]
    }

    /** The buffer can never grow past the longest frame, so no 32-bit size ever wraps. */
    ghost predicate Bounded()
      reads this
    {
      && FRAME_SIZE < |recvBuffer| <= BUFFER_LIMIT
      && bytesRecv <= |recvBuffer|
      && AllFrames(done)
    }

    /** Holds also in the middle of a handler. */
    ghost predicate Buffered()
      reads this
    {
      Bounded() && accepted == Flatten(done) + Pending()
    }

    ghost predicate HeaderDecoded()
      reads this
      requires bytesRecv <= |recvBuffer|
    {
      FRAME_SIZE <= bytesRecv && frameSize == Word(Pending()) && Legal(frameSize)
    }

    /** The buffer was cut off behind the finished frame while more was in it. */
    ghost predicate Overran()
      reads this
    {
      bytesRecv > |recvBuffer| && match outstanding
        case Reading(_, length) => length == |recvBuffer| - bytesRecv
        case Closed(_) => true
        case _ => false
    }

    ghost predicate Valid()
      reads this
    {
      Overran() || (Buffered() && InStep())
    }

    ghost predicate InStep()
      reads this
      requires Buffered()
    {
      match outstanding
      case Idle => true
      case Reading(offset, length) =>
        && offset == bytesRecv && length == |recvBuffer| - bytesRecv
        && (state.ReadFrameSize? ==> bytesRecv < FRAME_SIZE)
        && (state.ReadFrame? ==> HeaderDecoded() && |recvBuffer| == frameSize + FRAME_SIZE)
        && (if length > 0 then Classify(Pending()).NeedMore? else Classify(Pending()) == Ready(Pending()))
      case Handling(f) => Classify(Pending()) == Ready(f) && frameSize + FRAME_SIZE == |f| && state.ReadFrame?
      case Writing(f) => Classify(Pending()) == Ready(f) && frameSize + FRAME_SIZE == |f|
      case Closed(_) => true
    }

    /** The ghost history, and what it has to do with where control is. */
    ghost predicate Recorded()
      reads this
    {
      && History(done, current, accepted, dispatched, trace)
      && match outstanding
         case Idle => current == [] && !AfterOneway(trace)
         case Reading(_, length) =>
           if length > 0 then
             current == [] && !AfterOneway(trace)
           else
             current == [recvBuffer] && AfterOneway(trace)
         case Handling(f) => current == [f] && !AfterOneway(trace)
         case Writing(f) => current == [f] && !AfterOneway(trace)
         case Closed(_) => true
    }

    constructor ()
      ensures Valid() && outstanding == Idle && bytesRecv == 0 && |recvBuffer| == BUFFER_SIZE
      ensures accepted == [] && done == []
      ensures Recorded() && dispatched == [] && trace == []
    {
      recvBuffer := seq(BUFFER_SIZE, _ => 0);
      bytesRecv, frameSize, state := 0, 0, ReadFrameSize;
      outstanding := Idle;
      accepted, done, current, dispatched, trace := [], [], [], [], [];
    }

    method StartOver()
      requires Bounded() && !outstanding.Closed?
      modifies this`recvBuffer, this`bytesRecv, this`frameSize, this`state, this`outstanding, this`accepted
      ensures Valid() && !Overran() && outstanding.Reading? && outstanding.length > 0
      ensures bytesRecv == 0 && accepted == Flatten(done)
      ensures |recvBuffer| == if old(|recvBuffer|) > MAX_FRAME_SIZE then BUFFER_SIZE else old(|recvBuffer|)
    {
      if |recvBuffer| > MAX_FRAME_SIZE {
        recvBuffer := seq(BUFFER_SIZE, _ => 0);
      }
      bytesRecv, frameSize, state := 0, 0, ReadFrameSize;
      accepted := Flatten(done);
      outstanding := Reading(0, |recvBuffer|);
    }

    /** Offers what room is left behind the bytes held: none if they are a whole frame, and less
        than none, as the buffer is cut off, if more than that. */
    method GoOn()
      requires Buffered()
      requires state.ReadFrameSize? ==> bytesRecv < FRAME_SIZE
      requires state.ReadFrame? ==> HeaderDecoded()
      modifies this`recvBuffer, this`outstanding
      ensures Valid() && outstanding == Reading(bytesRecv, |recvBuffer| - bytesRecv)
      ensures old(Classify(Pending()).NeedMore?) ==> outstanding.length > 0 && Pending() == old(Pending())
      ensures old(Classify(Pending()).Ready?) ==>
        recvBuffer == old(Classify(Pending()).frame) && outstanding.length <= 0
    {
      ghost var pending := Pending();
      if state == ReadFrame {
        recvBuffer := Resized(recvBuffer, frameSize + FRAME_SIZE);
        if bytesRecv <= |recvBuffer| {
          assert Pending() == pending;
        }
        if bytesRecv >= |recvBuffer| {
          assert recvBuffer == pending[..frameSize + FRAME_SIZE];
        }
      }
      outstanding := Reading(bytesRecv, |recvBuffer| - bytesRecv);
    }

    method StartRecv(restart: bool)
      requires restart ==> Bounded() && !outstanding.Closed?
      requires !restart ==> Buffered()
      requires !restart && state.ReadFrameSize? ==> bytesRecv < FRAME_SIZE
      requires !restart && state.ReadFrame? ==> HeaderDecoded()
      modifies this`recvBuffer, this`bytesRecv, this`frameSize, this`state, this`outstanding, this`accepted
      ensures Valid() && outstanding == Reading(bytesRecv, |recvBuffer| - bytesRecv)
      ensures restart ==> bytesRecv == 0 && accepted == Flatten(done)
      ensures restart ==> |recvBuffer| == if old(|recvBuffer|) > MAX_FRAME_SIZE then BUFFER_SIZE else old(|recvBuffer|)
      ensures !restart ==> accepted == old(accepted) && bytesRecv == old(bytesRecv)
      ensures !restart ==> state == old(state) && frameSize == old(frameSize)
      ensures !restart && old(Classify(Pending()).NeedMore?) ==> outstanding.length > 0 && Pending() == old(Pending())
      ensures !restart && old(Classify(Pending()).Ready?) ==>
        recvBuffer == old(Classify(Pending()).frame) && outstanding.length <= 0
    {
      if restart {
        StartOver();
      } else {
        GoOn();
      }
    }

    method GetFrameSize()
      requires Buffered() && FRAME_SIZE <= bytesRecv
      modifies this`frameSize
      ensures frameSize == Word(Pending())
    {
      assert recvBuffer[..FRAME_SIZE] == Pending()[..FRAME_SIZE];
      frameSize := Word(recvBuffer);
    }

    /** A frame found is recorded as dispatched, and is the one in hand. */
    ghost predicate DispatchedIf(before: seq<Dispatch>, inHand: seq<Bytes>)
      reads this
    {
      if outstanding.Handling? then
        dispatched == before + [Dispatch(|Flatten(done)|, outstanding.frame)] && current == [outstanding.frame]
      else
        dispatched == before && current == inHand
    }

    method HandleBuffer()
      requires Buffered()
      requires state.ReadFrame? ==> HeaderDecoded()
      modifies this`recvBuffer, this`frameSize, this`bytesRecv, this`state, this`outstanding
      modifies this`accepted, this`current, this`dispatched
      ensures Valid() && !Overran() && Settled(Pending(), outstanding)
      ensures Pending() == old(Pending()) && accepted == old(accepted)
      ensures DispatchedIf(old(dispatched), old(current))
      ensures outstanding.Reading? && old(state).ReadFrame? ==> state.ReadFrame? && frameSize == old(frameSize)
    {
      if state == ReadFrameSize && bytesRecv >= FRAME_SIZE {
        GetFrameSize();
        if frameSize >= MAX_FRAME_SIZE || frameSize == 0 {
          OnClose(if frameSize >= MAX_FRAME_SIZE then ProtoSizeLimit else ProtoNegativeSize);
          return;
        }
        state := ReadFrame;
      }
      if state == ReadFrameSize || bytesRecv < frameSize + FRAME_SIZE {
        StartRecv(false);
      } else {
        assert recvBuffer[..frameSize + FRAME_SIZE] == Pending()[..frameSize + FRAME_SIZE];
        OnHandleFrame(recvBuffer[..frameSize + FRAME_SIZE]);
      }
    }

    /** Bounds the bytes missing to the end of the frame: exactly, once its length is known. */
    ghost function Missing(): int
      reads this
    {
      if state.ReadFrame? then frameSize + FRAME_SIZE - bytesRecv else BUFFER_LIMIT + 1 - bytesRecv
    }

    /** Delivers a read completion: the socket has put `data` into the offered slice. Unless a
        slice without room was offered, each byte brings the end of the frame nearer. */
    method OnHandleRead(failed: bool, data: Bytes)
      requires Valid() && outstanding.Reading? && (failed || |data| <= outstanding.length)
      modifies this
      ensures Valid() && done == old(done)
      ensures failed ==> outstanding == Closed(IoError) && accepted == old(accepted) && trace == old(trace)
      ensures failed ==> dispatched == old(dispatched) && current == old(current)
      ensures !failed ==> !old(Overran()) && !Overran() && trace == old(trace) + [ReadCompleted]
      ensures !failed ==> Pending() == old(Pending()) + data && accepted == old(accepted) + data
      ensures !failed ==> Settled(Pending(), outstanding) && DispatchedIf(old(dispatched), old(current))
      ensures !failed && outstanding.Reading? ==> Missing() <= old(Missing()) - |data|
    {
      if failed {
        OnClose(IoError);
        return;
      }
      var at := outstanding.offset;
      recvBuffer := recvBuffer[..at] + data + recvBuffer[at + |data|..];
      accepted, trace := accepted + data, trace + [ReadCompleted];
      bytesRecv := bytesRecv + |data|;
      assert Pending() == old(Pending()) + data;
      assert state.ReadFrame? ==> Pending()[..FRAME_SIZE] == old(Pending())[..FRAME_SIZE];
      HandleBuffer();
    }

    /** Takes the finished frame off the front: what follows it in the buffer moves there. */
    method DropFrame(ghost frame: Bytes)
      requires Buffered() && Classify(Pending()) == Ready(frame) && frameSize + FRAME_SIZE == |frame| < bytesRecv
      modifies this`recvBuffer, this`bytesRecv, this`frameSize, this`state, this`done, this`current
      ensures Buffered() && done == old(done) + [frame] && current == []
      ensures frame + Pending() == old(Pending()) && state == ReadFrameSize
    {
      ghost var rest := Pending()[|frame|..];
      assert Pending() == frame + rest;
      FinishFrame(done, frame, rest);
      done, current := done + [frame], [];
      var left := bytesRecv - frameSize - FRAME_SIZE;
      recvBuffer := MovedToFront(recvBuffer, frameSize + FRAME_SIZE, left);
      bytesRecv, frameSize, state := left, 0, ReadFrameSize;
      assert Pending() == rest;
    }

    /** The buffer holds just the finished frame: receiving starts over. */
    method DropAll(ghost frame: Bytes)
      requires Buffered() && Classify(Pending()) == Ready(frame) && |frame| == bytesRecv && !outstanding.Closed?
      modifies this`recvBuffer, this`bytesRecv, this`frameSize, this`state, this`outstanding
      modifies this`accepted, this`done, this`current
      ensures Valid() && !Overran() && outstanding.Reading? && outstanding.length > 0
      ensures done == old(done) + [frame] && current == [] && accepted == old(accepted)
      ensures bytesRecv == 0 && frame == old(Pending())
    {
      assert Pending() == frame + [];
      FinishFrame(done, frame, []);
      done, current := done + [frame], [];
      StartRecv(true);
    }

    /** Delivers a write completion: the frame is finished, what follows it is looked at. */
    method OnHandleWrite(failed: bool)
      requires Valid() && outstanding.Writing?
      modifies this
      ensures Valid() && accepted == old(accepted)
      ensures failed ==> outstanding == Closed(IoError) && done == old(done) && trace == old(trace)
      ensures failed ==> dispatched == old(dispatched) && current == old(current)
      ensures !failed ==> done == old(done) + [old(outstanding.frame)] && trace == old(trace) + [WriteCompleted]
      ensures !failed ==> !Overran() && old(outstanding.frame) + Pending() == old(Pending())
      ensures !failed ==> Settled(Pending(), outstanding) && DispatchedIf(old(dispatched), [])
    {
      if failed {
        OnClose(IoError);
        return;
      }
      trace := trace + [WriteCompleted];
      assert bytesRecv >= frameSize + FRAME_SIZE;
      if bytesRecv == frameSize + FRAME_SIZE {
        DropAll(outstanding.frame);
      } else {
        DropFrame(outstanding.frame);
        HandleBuffer();
      }
    }

    method OnHandleFrame(frame: Bytes)
      requires Buffered() && Classify(Pending()) == Ready(frame)
      requires frameSize + FRAME_SIZE == |frame| && state.ReadFrame?
      modifies this`outstanding, this`current, this`dispatched
      ensures Valid() && outstanding == Handling(frame) && current == [frame]
      ensures dispatched == old(dispatched) + [Dispatch(|Flatten(done)|, frame)]
    {
      outstanding := Handling(frame);
      current, dispatched := [frame], dispatched + [Dispatch(|Flatten(done)|, frame)];
    }

    /** The handler is done with the frame and starts to write its answer, possibly empty. */
    method StartWriteOutputBuffer()
      requires Valid() && outstanding.Handling?
      modifies this`outstanding
      ensures Valid() && outstanding == Writing(old(outstanding.frame))
    {
      outstanding := Writing(outstanding.frame);
    }

    /** The callback of an asynchronous processor (async/async_server.cpp). After a oneway call
        it goes on receiving, although the frame is complete and not taken off the buffer. */
    method AsyncProcess(failed: bool, oneway: bool)
      requires Valid() && outstanding.Handling?
      modifies this`recvBuffer, this`bytesRecv, this`frameSize, this`state, this`outstanding
      modifies this`accepted, this`trace
      ensures Valid() && accepted == old(accepted)
      ensures failed ==> outstanding == Closed(IoError) && trace == old(trace)
      ensures !failed && !oneway ==> outstanding == Writing(old(outstanding.frame)) && trace == old(trace)
      ensures !failed && oneway ==> trace == old(trace) + [OnewayEnded]
      ensures !failed && oneway ==>
        && outstanding == Reading(old(bytesRecv), |old(outstanding.frame)| - old(bytesRecv))
        && outstanding.length <= 0 && recvBuffer == old(outstanding.frame) && bytesRecv == old(bytesRecv)
    {
      if failed {
        OnClose(IoError);
      } else if !oneway {
        StartWriteOutputBuffer();
      } else {
        trace := trace + [OnewayEnded];
        StartRecv(false);
      }
    }

    method OnClose(error: Error)
      requires Buffered() || Overran()
      modifies this`outstanding
      ensures Valid() && outstanding == Closed(error)
    {
      outstanding := Closed(error);
    }

    // ----- whole runs -----

    /** One read of a piece of the stream. */
    method ReadPiece(stream: Bytes, wanted: nat) returns (rest: Bytes, ghost piece: Bytes)
      requires Valid() && outstanding.Reading? && outstanding.length > 0 && stream != []
      modifies this
      ensures Valid() && !Overran() && done == old(done) && DispatchedIf(old(dispatched), old(current))
      ensures stream == piece + rest && piece != []
      ensures Pending() == old(Pending()) + piece && accepted == old(accepted) + piece
      ensures Settled(Pending(), outstanding)
      ensures outstanding.Handling? ==> old(bytesRecv) < |outstanding.frame|
    {
      ghost var held := Pending();
      var n := Chunk(wanted, outstanding.length, |stream|);
      OnHandleRead(false, stream[..n]);
      ShortBefore(held, Pending());
      piece, rest := stream[..n], stream[n..];
    }

    /** Reads a stream in pieces of any sizes, until a frame is there to be handled, a length is
        refused or the stream ends. A frame, header included, takes at most as many reads as
        bytes of it are missing. */
    method ReceiveFrame(stream: Bytes, cut: nat -> nat) returns (rest: Bytes, ghost taken: Bytes, ghost count: nat)
      requires Valid() && outstanding.Reading? && outstanding.length > 0
      modifies this
      ensures Valid() && !Overran() && done == old(done) && DispatchedIf(old(dispatched), old(current))
      ensures stream == taken + rest && accepted == old(accepted) + taken && Pending() == old(Pending()) + taken
      ensures Settled(Pending(), outstanding) && (outstanding.Reading? ==> rest == [])
      ensures Settled(old(Pending()) + stream, outstanding)
      ensures outstanding.Handling? ==> count <= |outstanding.frame| - old(bytesRecv)
    {
      rest, taken, count := stream, [], 0;
      while outstanding.Reading? && rest != []
        invariant Valid() && !Overran() && done == old(done) && DispatchedIf(old(dispatched), old(current))
        invariant stream == taken + rest && accepted == old(accepted) + taken && Pending() == old(Pending()) + taken
        invariant Settled(Pending(), outstanding)
        invariant outstanding.Reading? ==> count <= |taken|
        invariant outstanding.Handling? ==> count <= |outstanding.frame| - old(bytesRecv)
        decreases |rest|
      {
        ghost var piece;
        rest, piece := ReadPiece(rest, cut(|rest|));
        Assoc(taken, piece, rest);
        Assoc(old(accepted), taken, piece);
        Assoc(old(Pending()), taken, piece);
        taken, count := taken + piece, count + 1;
      }
      SettledStays(Pending(), rest, outstanding);
      Assoc(old(Pending()), taken, rest);
    }

    /** What was dispatched is what was finished and what is in hand. */
    ghost predicate InOrder()
      reads this
    {
      dispatched == Located(done + if outstanding.Handling? then [outstanding.frame] else [], 0)
    }

    lemma InOrderNext(before: seq<Dispatch>)
      requires before == Located(done, 0) && DispatchedIf(before, [])
      ensures InOrder()
    {
      if outstanding.Handling? {
        LocatedSnoc(done, outstanding.frame, 0);
      } else {
        assert done + [] == done;
      }
    }

    /** Handles the frame in hand, as the synchronous processor does, and looks at what follows. */
    method HandleOne()
      requires Valid() && outstanding.Handling? && InOrder()
      modifies this
      ensures Valid() && !Overran() && InOrder() && Settled(Pending(), outstanding) && accepted == old(accepted)
      ensures bytesRecv < old(bytesRecv) && (!outstanding.Handling? ==> current == [])
    {
      ghost var frame := outstanding.frame;
      StartWriteOutputBuffer();
      OnHandleWrite(false);
      InOrderNext(old(dispatched));
    }

    /** Serves a whole stream, cut in any way: the frames dispatched are those the parser finds,
        once each and in order; then the connection waits for more, or has refused a length. */
    method Serve(stream: Bytes, cut: nat -> nat) returns (rest: Bytes)
      requires Valid() && outstanding.Reading? && outstanding.length > 0
      requires accepted == [] && done == current == [] && dispatched == []
      modifies this
      ensures Valid() && stream == accepted + rest
      ensures dispatched == Located(Parse(stream).frames, 0)
      ensures Settled(Parse(stream).rest, outstanding) && (outstanding.Reading? ==> rest == [])
    {
      ghost var taken, count;
      rest, taken, count := ReceiveFrame(stream, cut);
      InOrderNext([]);
      while outstanding.Handling?
        invariant Valid() && !Overran() && InOrder() && Settled(Pending(), outstanding)
        invariant stream == accepted + rest && (outstanding.Reading? ==> rest == [])
        decreases |rest| + bytesRecv
      {
        HandleOne();
        if outstanding.Reading? && rest != [] {
          rest := ReceiveMore(stream, rest, cut);
        }
      }
      SettledStays(Pending(), rest, outstanding);
      ParseAfter(done, Pending() + rest);
      assert done + [] == done;
      Assoc(Flatten(done), Pending(), rest);
    }

    method ReceiveMore(ghost stream: Bytes, todo: Bytes, cut: nat -> nat) returns (rest: Bytes)
      requires Valid() && !Overran() && outstanding.Reading? && outstanding.length > 0 && current == []
      requires InOrder() && stream == accepted + todo
      modifies this
      ensures Valid() && !Overran() && InOrder() && Settled(Pending(), outstanding)
      ensures stream == accepted + rest && (outstanding.Reading? ==> rest == [])
      ensures |rest| + bytesRecv == |todo| + old(bytesRecv)
    {
      ghost var taken, count;
      rest, taken, count := ReceiveFrame(todo, cut);
      assert done + [] == done;
      InOrderNext(old(dispatched));
      Assoc(old(accepted), taken, rest);
    }

    /** What was found in the buffer is recorded. */
    lemma FoundRecorded(before: seq<Dispatch>)
      requires Valid() && !Overran() && Settled(Pending(), outstanding) && DispatchedIf(before, [])
      requires History(done, [], accepted, before, trace) && !AfterOneway(trace)
      ensures Recorded()
    {
      if outstanding.Handling? {
        var f := outstanding.frame;
        assert Pending() == f + Pending()[|f|..];
        HistoryDispatches(done, f, Pending()[|f|..], accepted, before, trace);
      }
    }

    /** The read of no bytes that was started after a oneway call. */
    method ReadNothing()
      requires Valid() && outstanding.Reading? && outstanding.length == 0
      modifies this
      ensures Valid() && !Overran() && outstanding == Handling(old(recvBuffer)) && current == [old(recvBuffer)]
      ensures done == old(done) && accepted == old(accepted) && trace == old(trace) + [ReadCompleted]
      ensures dispatched == old(dispatched) + [Dispatch(|Flatten(done)|, old(recvBuffer))]
    {
      ghost var frame := Pending();
      assert frame == recvBuffer && frame + [] == frame && accepted + [] == accepted;
      OnHandleRead(false, []);
    }

    method ReadRecorded(failed: bool, data: Bytes)
      requires Valid() && Recorded() && outstanding.Reading? && (failed || |data| <= outstanding.length)
      modifies this
      ensures Valid() && Recorded()
    {
      if !failed && outstanding.length == 0 {
        ReadNothing();
        HistoryRepeats(done, old(recvBuffer), accepted, old(dispatched), old(trace));
        FollowedSnoc(old(trace), ReadCompleted);
      } else {
        OnHandleRead(failed, data);
        if !failed {
          HistoryGoesOn(done, [], old(accepted), data, old(dispatched), old(trace), ReadCompleted);
          FoundRecorded(old(dispatched));
        }
      }
    }

    method WriteRecorded(failed: bool)
      requires Valid() && Recorded() && outstanding.Writing?
      modifies this
      ensures Valid() && Recorded()
    {
      OnHandleWrite(failed);
      if !failed {
        HistoryFinishes(old(done), old(outstanding.frame), accepted, old(dispatched), old(trace));
        HistoryGoesOn(done, [], accepted, [], old(dispatched), old(trace), WriteCompleted);
        assert accepted + [] == accepted;
        FoundRecorded(old(dispatched));
      }
    }

    method ProcessRecorded(failed: bool, oneway: bool)
      requires Valid() && Recorded() && outstanding.Handling?
      modifies this
      ensures Valid() && Recorded()
    {
      AsyncProcess(failed, oneway);
      if !failed && oneway {
        HistoryGoesOn(done, current, accepted, [], dispatched, old(trace), OnewayEnded);
        assert accepted + [] == accepted;
      }
    }

    /** One thing that happens, if it can. A read of negative length is left alone: what the
        wrapped length leads to is not part of this model, except that it may fail. */
    method Handle(event: Event)
      requires Valid() && Recorded()
      modifies this
      ensures Valid() && Recorded()
    {
      match event
      case Started =>
        if outstanding.Idle? {
          assert done + [] == done;
          StartRecv(true);
        }
      case ReadDone(failed, data) =>
        if outstanding.Reading? && (failed || |data| <= outstanding.length) {
          ReadRecorded(failed, data);
        }
      case WriteDone(failed) =>
        if outstanding.Writing? {
          WriteRecorded(failed);
        }
      case Processed(failed, oneway) =>
        if outstanding.Handling? {
          ProcessRecorded(failed, oneway);
        }
    }

    /** Whatever happens, in any order: the frames dispatched are the first ones of the stream,
        once each and in order, if and only if no oneway end was followed by a completion. */
    method Run(events: seq<Event>)
      requires Valid() && Recorded()
      modifies this
      ensures Valid() && Recorded()
      ensures dispatched <= Located(Parse(accepted).frames, 0) <==> !OnewayFollowed(trace)
    {
      for k := 0 to |events|
        invariant Valid() && Recorded()
      {
        Handle(events[k]);
      }
      DispatchedInOrder(done, current, accepted, dispatched, trace);
    }

    /** The frames given to on_handle_frame so far are, once each and in order, the first
        frames of the stream; all of them when the connection waits for input or has refused
        an illegal length, and then nothing but the parser's left-over is in the buffer. */
    lemma DispatchedFrames()
      requires Valid() && !Overran()
      ensures Parse(accepted).frames == done + Parse(Pending()).frames
      ensures Parse(accepted).rest == Parse(Pending()).rest
      ensures outstanding.Handling? || outstanding.Writing? ==>
        done + [outstanding.frame] <= Parse(accepted).frames
      ensures (outstanding.Reading? && outstanding.length > 0) || Classify(Pending()).Illegal? ==>
        done == Parse(accepted).frames && Pending() == Parse(accepted).rest
    {
      ParseAfter(done, Pending());
    }
  }

  /** A piece of the size wanted, as far as room and stream allow, and never empty. */
  function Chunk(wanted: nat, room: int, left: nat): (n: nat)
    requires room > 0 && left > 0
    ensures 0 < n <= room && n <= left
    ensures 0 < wanted <= room && wanted <= left ==> n == wanted
  {
    if wanted == 0 then 1
    else if wanted <= room && wanted <= left then wanted
    else if room <= left then room
    else left
  }

  /** Bytes in which no frame was complete yet are shorter than the frame they become. */
  lemma ShortBefore(held: Bytes, more: Bytes)
    requires Classify(held).NeedMore? && held <= more
    ensures Classify(more).Ready? ==> |held| < |Classify(more).frame|
  {
    if |held| >= FRAME_SIZE {
      assert held[..FRAME_SIZE] == more[..FRAME_SIZE];
    }
  }

  /** More bytes do not change what was found. */
  lemma SettledStays(p: Bytes, tail: Bytes, o: Outstanding)
    requires Settled(p, o) && (o.Reading? ==> tail == [])
    ensures Settled(p + tail, o)
  {
    if tail == [] {
      assert p + tail == p;
    } else {
      assert (p + tail)[..FRAME_SIZE] == p[..FRAME_SIZE];
      assert Classify(p).Ready? ==> (p + tail)[..|Classify(p).frame|] == Classify(p).frame;
    }
  }

  datatype Event =
    | Started
    | ReadDone(failed: bool, data: Bytes)
    | WriteDone(failed: bool)
    | Processed(failed: bool, oneway: bool)

  lemma OneFrame(frame: Bytes)
    requires IsFrame(frame)
    ensures Located(Parse(frame).frames, 0) == [Dispatch(0, frame)]
  {
    ParseComplete([frame], []);
    assert Flatten([frame]) + [] == frame;
    assert Located([frame], 0) == [Dispatch(0, frame)];
  }

  /** A first frame arrives in one piece. */
  method FrameArrives(frame: Bytes) returns (c: AsyncConnection)
    requires IsFrame(frame) && |frame| <= BUFFER_SIZE
    ensures fresh(c) && c.Valid() && c.outstanding == Handling(frame) && c.bytesRecv == |frame|
    ensures c.done == [] && c.accepted == frame && c.trace == [ReadCompleted] && c.dispatched == [Dispatch(0, frame)]
  {
    c := new AsyncConnection();
    c.StartRecv(true);
    ReadyPrefix(frame, []);
    assert frame + [] == frame == [] + frame;
    c.OnHandleRead(false, frame);
  }

  /** A run that shows it: a oneway frame arrives, its handler ends, and the read of no bytes that
      was started then completes. The frame is dispatched a second time. */
  method OnewayFrameIsSeenAgain(frame: Bytes) returns (c: AsyncConnection)
    requires IsFrame(frame) && |frame| <= BUFFER_SIZE
    ensures c.Valid() && c.accepted == frame && c.outstanding == Handling(frame)
    ensures c.trace == [ReadCompleted, OnewayEnded, ReadCompleted]
    ensures c.dispatched == [Dispatch(0, frame), Dispatch(0, frame)]
    ensures Located(Parse(c.accepted).frames, 0) == [Dispatch(0, frame)]
  {
    c := FrameArrives(frame);
    c.AsyncProcess(false, true);
    c.ReadNothing();
    OneFrame(frame);
  }

  /** The memcpy of on_handle_write, as the move it is meant to be. */
  function MovedToFront(b: Bytes, from: nat, count: nat): (r: Bytes)
    requires from + count <= |b|
    ensures |r| == |b| && r[..count] == b[from..from + count] && r[count..] == b[count..]
  {
    b[from..from + count] + b[count..]
  }

  function Resized(b: Bytes, n: nat): (r: Bytes)
    ensures |r| == n
    ensures forall i :: 0 <= i < n && i < |b| ==> r[i] == b[i]
  {
    if n <= |b| then b[..n] else b + seq(n - |b|, _ => 0)
  }
}
