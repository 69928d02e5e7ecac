/** Cutting frames out of a byte stream. Every reader of the system does the same thing with each
    chunk it receives: append it to what is left over, try to parse one message, keep the rest. */
module Framing {
  import opened Wrappers
  import opened ByteExtensions
  import opened Messages
  import opened Codec
  import opened CodecProofs

  /** One chunk: the new left-over bytes and the message found, if any. At most one message is
      taken out per chunk, and a failed parse keeps all bytes. */
  function Feed(buffer: Bytes, chunk: Bytes): (Bytes, Result<Proto>) {
    var r := TryParse(buffer + chunk);
    if r.Failure? then (buffer + chunk, Failure(r.error)) else (r.value.1, Success(r.value.0))
  }

  class ChannelTunnel {
    var bytesStorage: Bytes
    var channel: seq<Bytes>   // chunks delivered by the socket, oldest first
    var written: Bytes        // everything sent the other way

    constructor ()
      ensures bytesStorage == [] && channel == [] && written == []
    {
      bytesStorage, channel, written := [], [], [];
    }

    /** Waits for the next chunk; None when there is none and the call blocks. */
    method WaitForResponse() returns (r: Option<Result<Proto>>)
      modifies this`bytesStorage, this`channel
      ensures old(channel) == [] ==> r == None && bytesStorage == old(bytesStorage) && channel == []
      ensures old(channel) != [] ==>
        r.Some? && (bytesStorage, r.value) == Feed(old(bytesStorage), old(channel)[0]) && channel == old(channel)[1..]
    {
      if channel == [] {
        return None;
      }
      bytesStorage := bytesStorage + channel[0];
      channel := channel[1..];
      var parsed := TryParse(bytesStorage);
      if parsed.Success? {
        bytesStorage := parsed.value.1;
        return Some(Success(parsed.value.0));
      }
      r := Some(Failure(parsed.error));
    }

    /** The channel is unbounded and never completed: sending always succeeds. */
    method SendMessage(value: Bytes) returns (r: Result<()>)
      modifies this`written
      ensures r == Success(()) && written == old(written) + value
    {
      written := written + value;
      r := Success(());
    }
  }

  predicate Sendable(m: Message) {
    WellFormed(m) && InBounds(m)
  }

  predicate AllSendable(ms: seq<Message>) {
    forall i :: 0 <= i < |ms| ==> Sendable(ms[i])
  }

  /** Byte strings one after the other: frames written to a stream, or chunks read from it. */
  function Joined(parts: seq<Bytes>): Bytes {
    if parts == [] then [] else Joined(parts[..|parts| - 1]) + parts[|parts| - 1]
  }

  lemma JoinedSnoc(parts: seq<Bytes>, k: nat)
    requires k < |parts|
    ensures Joined(parts[..k + 1]) == Joined(parts[..k]) + parts[k]
  {
    assert parts[..k + 1][..k] == parts[..k];
  }

  lemma JoinedTake(parts: seq<Bytes>, k: nat, data: Bytes)
    requires k < |parts| && parts[k] <= data
    ensures Joined(parts[..k]) + data == Joined(parts[..k + 1]) + data[|parts[k]|..]
  {
    JoinedSnoc(parts, k);
    assert data == parts[k] + data[|parts[k]|..];
  }

  lemma {:induction false} JoinedPrefix(parts: seq<Bytes>, k: nat)
    requires k <= |parts|
    ensures Joined(parts[..k]) <= Joined(parts)
    decreases |parts|
  {
    if k == |parts| {
      assert parts[..k] == parts;
    } else {
      var front := parts[..|parts| - 1];
      JoinedPrefix(front, k);
      assert front[..k] == parts[..k];
    }
  }

  /** How many whole parts the first `n` bytes contain. */
  function WholeParts(parts: seq<Bytes>, n: int): (k: nat)
    ensures k <= |parts|
  {
    if parts == [] then 0
    else if |Joined(parts)| <= n then |parts|
    else WholeParts(parts[..|parts| - 1], n)
  }

  lemma {:induction false} WholePartsExceed(parts: seq<Bytes>, n: int, k: nat)
    ensures WholeParts(parts, n) > k <==> k < |parts| && |Joined(parts[..k + 1])| <= n
    decreases |parts|
  {
    if parts != [] {
      var front := parts[..|parts| - 1];
      WholePartsExceed(front, n, k);
      if k < |parts| {
        JoinedPrefix(parts, k + 1);
        if k < |front| {
          assert front[..k + 1] == parts[..k + 1];
        } else {
          assert parts[..k + 1] == parts;
        }
      }
    }
  }

  function FrameList(ms: seq<Message>): (fs: seq<Bytes>)
    requires AllSendable(ms)
    ensures |fs| == |ms|
    ensures forall i :: 0 <= i < |ms| ==> fs[i] == Frame(ms[i])
  {
    seq(|ms|, i requires 0 <= i < |ms| => Frame(ms[i]))
  }

  /** The bytes of a list of messages sent one after the other. */
  function Frames(ms: seq<Message>): Bytes
    requires AllSendable(ms)
  {
    Joined(FrameList(ms))
  }

  /** What a reader holds of a message it parsed. */
  function Received(m: Message): Proto
    requires Sendable(m)
  {
    Proto(m.kind, PaddedLengths(m), m.values)
  }

  function ReceivedAll(ms: seq<Message>): (ps: seq<Proto>)
    requires AllSendable(ms)
    ensures |ps| == |ms|
    ensures forall i :: 0 <= i < |ms| ==> ps[i] == Received(ms[i])
  {
    seq(|ms|, i requires 0 <= i < |ms| => Received(ms[i]))
  }

  lemma FrameNonempty(m: Message)
    requires Sendable(m)
    ensures 2 <= |Frame(m)| < ARRAY_LIMIT
  {
    HeaderSize(m);
  }

  lemma EmptyIncomplete()
    ensures TryParse([]) == Failure(MessageIncomplete)
  {
  }

  /** Of two byte strings that continue the same prefix of a stream, one begins with the other. */
  lemma Comparable(prefix: Bytes, a: Bytes, b: Bytes, whole: Bytes)
    requires prefix + a <= whole && prefix + b <= whole && |a| <= |b|
    ensures a <= b
  {
    var n := |prefix|;
    assert a == (prefix + a)[n..] == whole[n..n + |a|];
    assert b == (prefix + b)[n..] == whole[n..n + |b|];
  }

  /** What a message in front of the data does to one parse. */
  lemma FeedOne(m: Message, buffer: Bytes, chunk: Bytes)
    requires Sendable(m)
    requires |Frame(m)| <= |buffer + chunk| < ARRAY_LIMIT ==> Frame(m) <= buffer + chunk
    requires |buffer + chunk| < |Frame(m)| ==> buffer + chunk <= Frame(m)
    requires |buffer + chunk| < ARRAY_LIMIT
    ensures Feed(buffer, chunk)
         == if |Frame(m)| <= |buffer + chunk|
            then ((buffer + chunk)[|Frame(m)|..], Success(Received(m)))
            else (buffer + chunk, Failure(MessageIncomplete))
  {
    hide TryParse, Frame;
    var data, f := buffer + chunk, Frame(m);
    if |f| <= |data| {
      assert data == f + data[|f|..];
      FrameParses(m, data[|f|..]);
    } else {
      assert data == f[..|data|];
      StrictPrefixIncomplete(m, |data|);
    }
  }

  /** One chunk of a clean stream: the next frame comes out exactly when all its bytes are there. */
  lemma FeedTakesNextFrame(ms: seq<Message>, k: nat, buffer: Bytes, chunk: Bytes)
    requires AllSendable(ms) && k <= |ms| && |buffer + chunk| < ARRAY_LIMIT
    requires Joined(FrameList(ms)[..k]) + (buffer + chunk) <= Frames(ms)
    ensures var data := buffer + chunk;
            if k < |ms| && |Frame(ms[k])| <= |data|
            then Frame(ms[k]) <= data
                 && Feed(buffer, chunk) == (data[|Frame(ms[k])|..], Success(Received(ms[k])))
            else Feed(buffer, chunk) == (data, Failure(MessageIncomplete))
  {
    hide Feed, Received, Frame, Sendable, AllSendable;
    var fs, data := FrameList(ms), buffer + chunk;
    if k == |ms| {
      assert fs[..k] == fs;
      assert data == [];
      NothingToFeed(buffer, chunk);
    } else {
      JoinedSnoc(fs, k);
      JoinedPrefix(fs, k + 1);
      SendableAt(ms, k);
      if |fs[k]| <= |data| {
        Comparable(Joined(fs[..k]), fs[k], data, Joined(fs));
      } else {
        Comparable(Joined(fs[..k]), data, fs[k], Joined(fs));
      }
      FeedOne(ms[k], buffer, chunk);
    }
  }

  lemma SendableAt(ms: seq<Message>, k: nat)
    requires AllSendable(ms) && k < |ms|
    ensures Sendable(ms[k])
  {
  }

  lemma NothingToFeed(buffer: Bytes, chunk: Bytes)
    requires buffer + chunk == []
    ensures Feed(buffer, chunk) == ([], Failure(MessageIncomplete))
  {
    EmptyIncomplete();
  }

  // ----- whole streams -----

  datatype Reading = Reading(handled: seq<Proto>, buffer: Bytes, failure: Option<Error>)

  function ReadChunk(before: Reading, chunk: Bytes): Reading {
    if before.failure.Some? then before
    else
      var (buffer, r) := Feed(before.buffer, chunk);
      match r
      case Success(m) => Reading(before.handled + [m], buffer, None)
      case Failure(e) => Reading(before.handled, buffer, if e == MessageIncomplete then None else Some(e))
  }

  /** A reader after a list of chunks; it stops at the first failure other than Incomplete. */
  function Read(chunks: seq<Bytes>): Reading {
    if chunks == [] then Reading([], [], None)
    else ReadChunk(Read(chunks[..|chunks| - 1]), chunks[|chunks| - 1])
  }

  /** The number of messages handled: it grows by one with every chunk after which more whole
      frames have arrived than were handled. */
  function HandledCount(frames: seq<Bytes>, chunks: seq<Bytes>): (k: nat)
    ensures k <= |frames|
  {
    if chunks == [] then 0
    else
      var before := HandledCount(frames, chunks[..|chunks| - 1]);
      if WholeParts(frames, |Joined(chunks)|) > before then before + 1 else before
  }

  /** Every time a chunk arrives, it fits an array together with the bytes not yet handled. How many
      bytes the connection carries in all does not matter. */
  predicate Fits(frames: seq<Bytes>, chunks: seq<Bytes>) {
    chunks == []
    || (var front := chunks[..|chunks| - 1];
        && Fits(frames, front)
        && |Joined(chunks)| - |Joined(frames[..HandledCount(frames, front)])| < ARRAY_LIMIT)
  }

  lemma {:induction false} SmallStreamFits(frames: seq<Bytes>, chunks: seq<Bytes>)
    requires |Joined(chunks)| < ARRAY_LIMIT
    ensures Fits(frames, chunks)
  {
    if chunks != [] { SmallStreamFits(frames, chunks[..|chunks| - 1]); }
  }

  /** The reader has handled exactly the first `k` messages and holds every other byte. */
  predicate UpTo(ms: seq<Message>, k: nat, r: Reading, received: Bytes)
    requires AllSendable(ms)
  {
    && k <= |ms| && r.failure == None
    && r.handled == ReceivedAll(ms)[..k]
    && Joined(FrameList(ms)[..k]) + r.buffer == received
  }

  lemma FrameAt(ms: seq<Message>, k: nat)
    requires AllSendable(ms) && k < |ms|
    ensures FrameList(ms)[k] == Frame(ms[k]) && ReceivedAll(ms)[k] == Received(ms[k])
  {
  }

  lemma {:induction false} ReadChunkKeeps(ms: seq<Message>, k: nat, r: Reading, received: Bytes, chunk: Bytes)
    requires AllSendable(ms) && |r.buffer + chunk| < ARRAY_LIMIT
    requires UpTo(ms, k, r, received) && received + chunk <= Frames(ms)
    ensures var k' := if WholeParts(FrameList(ms), |received + chunk|) > k then k + 1 else k;
            UpTo(ms, k', ReadChunk(r, chunk), received + chunk)
  {
    hide Feed, Received, Frame, Sendable, AllSendable, Joined, FrameList, WholeParts;
    var fs := FrameList(ms);
    var data := r.buffer + chunk;
    assert Joined(fs[..k]) + data == received + chunk;
    FeedTakesNextFrame(ms, k, r.buffer, chunk);
    WholePartsExceed(fs, |received + chunk|, k);
    if k < |ms| {
      FrameAt(ms, k);
      JoinedSnoc(fs, k);
      if |fs[k]| <= |data| {
        JoinedTake(fs, k, data);
        assert ReceivedAll(ms)[..k + 1] == ReceivedAll(ms)[..k] + [ReceivedAll(ms)[k]];
      }
    }
  }

  /** Chunk independence: however a stream of frames is cut up, the reader never fails, it has
      handled exactly the counted prefix of the messages sent, and no byte is lost or repeated. */
  lemma {:induction false} ChunkingLosesNothing(ms: seq<Message>, chunks: seq<Bytes>)
    requires AllSendable(ms) && Fits(FrameList(ms), chunks)
    requires Joined(chunks) <= Frames(ms)
    ensures UpTo(ms, HandledCount(FrameList(ms), chunks), Read(chunks), Joined(chunks))
    decreases |chunks|
  {
    if chunks != [] {
      hide ReadChunk, Frame, FrameList, AllSendable, WholeParts;
      var front, chunk := chunks[..|chunks| - 1], chunks[|chunks| - 1];
      assert Joined(chunks) == Joined(front) + chunk;
      ChunkingLosesNothing(ms, front);
      ReadChunkKeeps(ms, HandledCount(FrameList(ms), front), Read(front), Joined(front), chunk);
    }
  }

  /** A frame that arrives alone, in however many pieces, is handled once and leaves nothing. */
  lemma {:induction false} LoneFrameEmptiesBuffer(m: Message, chunks: seq<Bytes>)
    requires Sendable(m) && Joined(chunks) == Frame(m)
    ensures Read(chunks) == Reading([Received(m)], [], None)
  {
    var fs := FrameList([m]);
    assert fs == [Frame(m)];
    assert fs[..0] == [] && fs[..1] == fs;
    JoinedSnoc(fs, 0);
    FrameNonempty(m);
    SmallStreamFits(fs, chunks);
    ChunkingLosesNothing([m], chunks);
    var k := HandledCount(fs, chunks);
    WholePartsExceed(fs, |Joined(chunks)|, 0);
    assert chunks != [];
    assert k == 1;
    assert ReceivedAll([m])[..1] == [Received(m)];
  }

  /** The first message is handled as soon as all its bytes have arrived. */
  lemma {:induction false} FirstArrives(frames: seq<Bytes>, chunks: seq<Bytes>)
    requires frames != [] ==> frames[0] != []
    ensures HandledCount(frames, chunks) >= 1 <==> frames != [] && |frames[0]| <= |Joined(chunks)|
  {
    if chunks != [] {
      FirstArrives(frames, chunks[..|chunks| - 1]);
      WholePartsExceed(frames, |Joined(chunks)|, 0);
      if frames != [] {
        assert frames[..0] == [];
        JoinedSnoc(frames, 0);
      }
    }
  }

  // ----- arbitrary bytes -----

  /** What a tunnel holds after a list of chunks, the messages found in them, and the bytes each of
      these was cut from. A failed parse, of whatever kind, does not end it. */
  datatype Stored = Stored(held: Bytes, found: seq<Proto>, cuts: seq<Bytes>)

  function StoreChunk(s: Stored, chunk: Bytes): Stored {
    var (held, r) := Feed(s.held, chunk);
    if r.Failure? then s.(held := held)
    else
      var data := s.held + chunk;
      Stored(held, s.found + [r.value], s.cuts + [if |held| <= |data| then data[..|data| - |held|] else data])
  }

  function Store(chunks: seq<Bytes>): Stored {
    if chunks == [] then Stored([], [], [])
    else StoreChunk(Store(chunks[..|chunks| - 1]), chunks[|chunks| - 1])
  }

  /** Every chunk fits an array together with what is held when it arrives. */
  predicate StoreFits(chunks: seq<Bytes>) {
    chunks == []
    || (var front := chunks[..|chunks| - 1];
        StoreFits(front) && |Store(front).held| + |chunks[|chunks| - 1]| < ARRAY_LIMIT)
  }

  /** The bytes end with the bodies of the message. */
  predicate EndsWithBodies(cut: Bytes, m: Proto) {
    && HasAll(m)
    && (forall p :: p in Schema(m.kind) ==> m.props[p] != [])
    && var bodies := Concat(Schema(m.kind), m.props);
       |bodies| <= |cut| && cut[|cut| - |bodies|..] == bodies
  }

  predicate CutsMatch(cuts: seq<Bytes>, found: seq<Proto>) {
    |cuts| == |found| && forall i :: 0 <= i < |cuts| ==> EndsWithBodies(cuts[i], found[i])
  }

  lemma FeedTakesApart(buffer: Bytes, chunk: Bytes)
    requires |buffer| + |chunk| < ARRAY_LIMIT
    ensures var data := buffer + chunk; var (held, r) := Feed(buffer, chunk);
      if r.Failure? then held == data
      else |held| <= |data| && data[|data| - |held|..] == held
           && EndsWithBodies(data[..|data| - |held|], r.value)
  {
    hide TryParse, Concat, Schema, Code;
    if TryParse(buffer + chunk).Success? {
      ParseTakesApart(buffer + chunk);
    }
  }

  /** The bytes of `arrived` are those cut out so far and those held. */
  predicate Accounted(s: Stored, arrived: Bytes) {
    && Joined(s.cuts) + s.held == arrived
    && CutsMatch(s.cuts, s.found)
    && (s.found == [] ==> s.held == arrived)
  }

  lemma CutOff(s: Stored, data: Bytes, held: Bytes, m: Proto, arrived: Bytes)
    requires Joined(s.cuts) + data == arrived && CutsMatch(s.cuts, s.found)
    requires |held| <= |data| && data[|data| - |held|..] == held
    requires EndsWithBodies(data[..|data| - |held|], m)
    ensures Accounted(Stored(held, s.found + [m], s.cuts + [data[..|data| - |held|]]), arrived)
  {
    hide EndsWithBodies, Joined;
    var cut := data[..|data| - |held|];
    JoinedSnoc(s.cuts + [cut], |s.cuts|);
    assert (s.cuts + [cut])[..|s.cuts|] == s.cuts && (s.cuts + [cut])[..|s.cuts| + 1] == s.cuts + [cut];
    assert data == cut + held;
    assert Joined(s.cuts) + (cut + held) == Joined(s.cuts) + cut + held;
  }

  lemma StoreOne(s: Stored, chunk: Bytes, arrived: Bytes)
    requires Accounted(s, arrived) && |s.held| + |chunk| < ARRAY_LIMIT
    ensures Accounted(StoreChunk(s, chunk), arrived + chunk)
  {
    hide Feed, EndsWithBodies, Joined, CutsMatch;
    var (held, r) := Feed(s.held, chunk);
    FeedTakesApart(s.held, chunk);
    assert Joined(s.cuts) + (s.held + chunk) == arrived + chunk;
    if r.Success? { CutOff(s, s.held + chunk, held, r.value, arrived + chunk); }
  }

  /** Over any chunks of any bytes, garbage included: cut bytes and held bytes together are exactly what
      arrived, every message was cut out with its own bodies, and a parse that fails takes nothing. */
  lemma {:induction false} NothingIsLost(chunks: seq<Bytes>)
    requires StoreFits(chunks)
    ensures var s := Store(chunks);
      && Joined(s.cuts) + s.held == Joined(chunks)
      && CutsMatch(s.cuts, s.found)
      && (s.found == [] ==> s.held == Joined(chunks))
    decreases |chunks|
  {
    if chunks != [] {
      hide StoreChunk, CutsMatch;
      NothingIsLost(chunks[..|chunks| - 1]);
      StoreOne(Store(chunks[..|chunks| - 1]), chunks[|chunks| - 1], Joined(chunks[..|chunks| - 1]));
    }
  }
}
