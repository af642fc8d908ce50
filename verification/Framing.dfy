/** Newline framing on the bridge socket (`crates/bridge/src/unix.rs`): the listener reads a
    request from whatever chunks the socket yields, and the client waits for its reply. */
module Framing {
  import opened Options
  import opened Replies

  type byte = b: int | 0 <= b < 256

  const NEWLINE: byte := 10

  /** A hook payload of 256 KiB and 64 KiB for the envelope. */
  const MAX_FRAME := 256 * 1024 + 64 * 1024

  /** How a stream stops yielding bytes. */
  datatype End = Eof | Broken

  datatype ReadResult = Framed(frame: seq<byte>) | TooLarge | MissingResponse | IoFailed

  predicate IsAsciiWhitespace(b: byte) {
    b == 9 || b == 10 || b == 12 || b == 13 || b == 32
  }

  predicate Blank(frame: seq<byte>) {
    forall i :: 0 <= i < |frame| ==> IsAsciiWhitespace(frame[i])
  }

  predicate Complete(frame: seq<byte>) {
    frame != [] && frame[|frame| - 1] == NEWLINE
  }

  /** The stream up to and including its first newline, or all of it. */
  function Prefix(stream: seq<byte>): seq<byte> {
    if stream == [] then []
    else if stream[0] == NEWLINE then [NEWLINE]
    else [stream[0]] + Prefix(stream[1..])
  }

  /** What reading a whole stream must give. */
  function Read(stream: seq<byte>, end: End): ReadResult {
    var frame := Prefix(stream);
    if |frame| > MAX_FRAME then TooLarge
    else if !Complete(frame) && end == Broken then IoFailed
    else if Blank(frame) then MissingResponse
    else Framed(frame)
  }

  function Concat(chunks: seq<seq<byte>>): seq<byte> {
    if chunks == [] then [] else Concat(chunks[..|chunks| - 1]) + chunks[|chunks| - 1]
  }

  /** How much of a chunk belongs to the frame. */
  method Take(available: seq<byte>) returns (take: nat)
    requires available != []
    ensures 0 < take <= |available| && available[..take] == Prefix(available)
  {
    var position := 0;
    while position < |available| && available[position] != NEWLINE
      invariant 0 <= position <= |available|
      invariant NEWLINE !in available[..position]
    {
      position := position + 1;
    }
    take := if position < |available| then position + 1 else |available|;
    PrefixIs(available, available[..take]);
  }

  /** `read_request`, up to parsing the frame. The chunks are what the reader's buffer is
      filled with, one after the other; only the end of the stream fills it with nothing. */
  method ReadRequest(chunks: seq<seq<byte>>, end: End) returns (result: ReadResult)
    requires forall i :: 0 <= i < |chunks| ==> chunks[i] != []
    ensures result == Read(Concat(chunks), end)
  {
    hide Prefix, Concat, Complete;
    var frame: seq<byte> := [];
    var i := 0;
    NoChunks(chunks);
    while i < |chunks| && !Complete(frame)
      invariant 0 <= i <= |chunks| && |frame| <= MAX_FRAME
      invariant frame == Prefix(Concat(chunks[..i])) && (Complete(frame) || frame == Concat(chunks[..i]))
    {
      var take := Take(chunks[i]);
      OneMoreChunk(chunks, i);
      if |frame| + take > MAX_FRAME {
        PrefixOfChunks(chunks, i + 1);
        return TooLarge;
      }
      frame := frame + chunks[i][..take];
      i := i + 1;
    }
    PrefixOfChunks(chunks, i);
    assert i == |chunks| ==> chunks[..i] == chunks;
    if !Complete(frame) && end == Broken {
      return IoFailed;
    }
    if forall j :: 0 <= j < |frame| ==> IsAsciiWhitespace(frame[j]) {
      return MissingResponse;
    }
    return Framed(frame);
  }

  lemma NoChunks(chunks: seq<seq<byte>>)
    ensures Concat(chunks[..0]) == [] == Prefix([])
  {
  }

  lemma PrefixOfOne(b: byte, rest: seq<byte>)
    ensures Prefix([b] + rest) == if b == NEWLINE then [b] else [b] + Prefix(rest)
  {
    assert ([b] + rest)[1..] == rest;
  }

  lemma CompleteOfOne(b: byte, rest: seq<byte>)
    ensures Complete([b] + rest) <==> if rest == [] then b == NEWLINE else Complete(rest)
  {
  }

  lemma {:induction false} PrefixAppend(a: seq<byte>, b: seq<byte>)
    ensures !Complete(Prefix(a)) ==> Prefix(a) == a
    ensures Prefix(a + b) == if Complete(Prefix(a)) then Prefix(a) else a + Prefix(b)
  {
    if a == [] {
      assert a + b == b;
    } else {
      hide Prefix, Complete;
      var first, rest := a[0], a[1..];
      assert a == [first] + rest && a + b == [first] + (rest + b);
      PrefixAppend(rest, b);
      PrefixOfOne(first, rest);
      PrefixOfOne(first, rest + b);
      CompleteOfOne(first, Prefix(rest));
      CompleteOfOne(first, []);
      NothingIsIncomplete();
      assert [first] + (rest + Prefix(b)) == a + Prefix(b);
    }
  }

  lemma NothingIsIncomplete()
    ensures !Complete([])
  {
  }

  lemma OneMoreChunk(chunks: seq<seq<byte>>, i: nat)
    requires i < |chunks| && !Complete(Prefix(Concat(chunks[..i])))
    ensures Concat(chunks[..i + 1]) == Concat(chunks[..i]) + chunks[i]
    ensures Prefix(Concat(chunks[..i + 1])) == Concat(chunks[..i]) + Prefix(chunks[i])
    ensures !Complete(Prefix(Concat(chunks[..i + 1]))) ==> Prefix(Concat(chunks[..i + 1])) == Concat(chunks[..i + 1])
  {
    assert chunks[..i + 1][..i] == chunks[..i];
    PrefixAppend(Concat(chunks[..i]), chunks[i]);
    PrefixAppend(Concat(chunks[..i + 1]), []);
  }

  /** Later chunks only extend the prefix, and not past a newline. */
  lemma {:induction false} PrefixOfChunks(chunks: seq<seq<byte>>, n: nat)
    requires n <= |chunks|
    ensures var p, whole := Prefix(Concat(chunks[..n])), Prefix(Concat(chunks));
            p <= whole && (Complete(p) ==> whole == p)
    decreases |chunks|
  {
    if n == |chunks| {
      assert chunks[..n] == chunks;
    } else {
      var front := chunks[..|chunks| - 1];
      assert front[..n] == chunks[..n];
      PrefixOfChunks(front, n);
      PrefixAppend(Concat(front), chunks[|chunks| - 1]);
    }
  }

  /** A newline can only be the last byte of `p`, and `p` stops short of the stream only at one. */
  ghost predicate Frames(p: seq<byte>, stream: seq<byte>) {
    p <= stream && (forall i :: 0 <= i < |p| - 1 ==> p[i] != NEWLINE) && (Complete(p) || p == stream)
  }

  lemma {:induction false} PrefixFrames(stream: seq<byte>)
    ensures Frames(Prefix(stream), stream)
  {
    if stream != [] {
      hide Prefix, Frames;
      var first, rest := stream[0], stream[1..];
      assert stream == [first] + rest;
      PrefixFrames(rest);
      PrefixOfOne(first, rest);
      FramesOneMore(first, Prefix(rest), rest);
    }
  }

  lemma FramesOneMore(b: byte, p: seq<byte>, stream: seq<byte>)
    requires Frames(p, stream)
    ensures Frames(if b == NEWLINE then [b] else [b] + p, [b] + stream)
  {
    var longer := [b] + p;
    assert forall i :: 0 < i < |longer| - 1 ==> longer[i] == p[i - 1];
    assert p != [] ==> longer[|longer| - 1] == p[|p| - 1];
    assert stream == p + stream[|p|..];
    assert [b] + stream == longer + stream[|p|..];
  }

  lemma FramesUnique(p: seq<byte>, q: seq<byte>, stream: seq<byte>)
    requires Frames(p, stream) && Frames(q, stream) && |p| <= |q|
    ensures p == q
  {
    assert p == stream[..|p|] == q[..|p|];
    assert p != [] ==> q[|p| - 1] == p[|p| - 1];
  }

  lemma PrefixIs(stream: seq<byte>, p: seq<byte>)
    ensures p == Prefix(stream) <==> Frames(p, stream)
  {
    PrefixFrames(stream);
    hide Prefix, Frames;
    if Frames(p, stream) {
      if |p| <= |Prefix(stream)| {
        FramesUnique(p, Prefix(stream), stream);
      } else {
        FramesUnique(Prefix(stream), p, stream);
      }
    }
  }

  /** What reading yields, in terms of the stream alone: the frame is the stream up to its
      first newline, or all of it, and it is too large exactly when that is over the limit. */
  lemma ReadMeans(stream: seq<byte>, end: End, n: nat)
    requires n <= |stream| && (n == |stream| || (n > 0 && stream[n - 1] == 10))
    requires forall i :: 0 <= i < n - 1 ==> stream[i] != 10
    ensures Read(stream, end) == TooLarge <==> n > 320 * 1024
    ensures Read(stream, end).Framed? <==>
              n <= 320 * 1024 && ((n > 0 && stream[n - 1] == 10) || end == Eof)
              && exists i :: 0 <= i < n && stream[i] as char !in {' ', '\t', '\n', '\r', 0x0c as char}
    ensures Read(stream, end).Framed? ==> Read(stream, end).frame == stream[..n]
    ensures Read(stream, end) == IoFailed <==>
              n <= 320 * 1024 && !(n > 0 && stream[n - 1] == 10) && end == Broken
  {
    PrefixIs(stream, stream[..n]);
  }

  /** What `send` writes is what `read_request` reads, whatever follows it and however the
      stream ends: a request that prints without a newline comes back whole. */
  lemma SentIsRead(request: seq<byte>, rest: seq<byte>, end: End)
    requires NEWLINE !in request && !Blank(request)
    ensures Read(request + [NEWLINE] + rest, end)
         == if |request| + 1 > MAX_FRAME then TooLarge else Framed(request + [NEWLINE])
  {
    var frame := request + [NEWLINE];
    assert forall i :: 0 <= i < |request| ==> frame[i] == request[i];
    PrefixIs(frame, frame);
    PrefixAppend(frame, rest);
    var i :| 0 <= i < |request| && !IsAsciiWhitespace(request[i]);
    assert !IsAsciiWhitespace(frame[i]);
  }

  // ----- The client's wait -----

  datatype Response = Response(requestId: nat, action: ReplyAction, instance: Option<nat>)

  /** One turn of the wait: the deadline has passed before polling, polling found nothing (and
      perhaps used the time up), polling or reading failed, or a line was read. */
  datatype Turn =
    | Late | Idle(expired: bool) | PollFailed | Closed | ReadFailed | BlankLine | Malformed | Line(response: Response)

  datatype Reply =
    | Got(response: Response)
    | DeadlineExceeded
    | Missing
    | Failed
    | NotParsed
    | Mismatched(received: nat)
    | RuntimeChanged
    | StillWaiting

  /** `known` after a response, if the response fits it. */
  function Learn(known: Option<nat>, r: Response): Option<nat> {
    if r.instance.Some? then r.instance else known
  }

  predicate Fits(known: Option<nat>, r: Response) {
    r.instance.None? || known.None? || known == r.instance
  }

  /** A turn after which the client goes on waiting. */
  predicate Continues(expected: nat, known: Option<nat>, t: Turn) {
    (t.Idle? && !t.expired)
    || (t.Line? && t.response.requestId == expected && Fits(known, t.response) && t.response.action == Ping)
  }

  /** The loop of `send`, and the turn it ends at, if it does. */
  method AwaitReply(expected: nat, turns: seq<Turn>) returns (reply: Reply, at: nat)
    ensures at <= |turns| && forall j :: 0 <= j < at ==> Continues(expected, Known(turns[..j]), turns[j])
    ensures at == |turns| ==> reply == StillWaiting
    ensures at < |turns| ==> Ends(expected, turns, at) && reply == Ending(expected, Known(turns[..at]), turns[at])
  {
    var known: Option<nat> := None;
    at := 0;
    while at < |turns|
      invariant 0 <= at <= |turns| && known == Known(turns[..at])
      invariant forall j :: 0 <= j < at ==> Continues(expected, Known(turns[..j]), turns[j])
    {
      KnownAfter(turns, at);
      hide Known;
      match turns[at] {
        case Late => return DeadlineExceeded, at;
        case Idle(expired) =>
          if expired {
            return DeadlineExceeded, at;
          }
        case PollFailed | ReadFailed => return Failed, at;
        case Closed | BlankLine => return Missing, at;
        case Malformed => return NotParsed, at;
        case Line(response) =>
          if response.requestId != expected {
            return Mismatched(response.requestId), at;
          }
          if response.instance.Some? && known.Some? && known != response.instance {
            return RuntimeChanged, at;
          }
          if response.action != Ping {
            return Got(response), at;
          }
          known := Learn(known, response);
      }
      at := at + 1;
    }
    return StillWaiting, at;
  }

  /** The runtime instance heard of last. */
  function Known(turns: seq<Turn>): Option<nat> {
    if turns == [] then None
    else
      var known, last := Known(turns[..|turns| - 1]), turns[|turns| - 1];
      if last.Line? then Learn(known, last.response) else known
  }

  lemma KnownAfter(turns: seq<Turn>, k: nat)
    requires k < |turns|
    ensures Known(turns[..k + 1])
         == if turns[k].Line? then Learn(Known(turns[..k]), turns[k].response) else Known(turns[..k])
  {
    assert turns[..k + 1][..k] == turns[..k];
  }

  /** The wait ends at turn `k`. */
  ghost predicate Ends(expected: nat, turns: seq<Turn>, k: int) {
    && 0 <= k < |turns| && !Continues(expected, Known(turns[..k]), turns[k])
    && forall j :: 0 <= j < k ==> Continues(expected, Known(turns[..j]), turns[j])
  }

  function Ending(expected: nat, known: Option<nat>, t: Turn): Reply {
    match t
    case Late | Idle(_) => DeadlineExceeded
    case PollFailed | ReadFailed => Failed
    case Closed | BlankLine => Missing
    case Malformed => NotParsed
    case Line(r) =>
      if r.requestId != expected then Mismatched(r.requestId)
      else if !Fits(known, r) then RuntimeChanged
      else Got(r)
  }

  /** Turn `j` named the runtime instance. */
  predicate Names(t: Turn) {
    t.Line? && t.response.instance.Some?
  }

  /** While the wait goes on, every instance heard of is the known one, and the known one was heard
      of. */
  lemma {:induction false} KnownIsCommon(expected: nat, turns: seq<Turn>, n: nat)
    requires n <= |turns| && forall j :: 0 <= j < n ==> Continues(expected, Known(turns[..j]), turns[j])
    ensures forall j :: 0 <= j < n && Names(turns[j]) ==> turns[j].response.instance == Known(turns[..n])
    ensures Known(turns[..n]).Some? ==> exists j :: 0 <= j < n && Names(turns[j])
  {
    if n == 0 {
      assert turns[..n] == [];
    } else {
      var m := n - 1;
      hide Known;
      KnownIsCommon(expected, turns, m);
      KnownAfter(turns, m);
      assert Continues(expected, Known(turns[..m]), turns[m]);
      if !Names(turns[m]) {
        assert Known(turns[..n]) == Known(turns[..m]);
      } else {
        assert forall j :: 0 <= j < m && Names(turns[j]) ==> Known(turns[..m]).Some?;
      }
    }
  }

  /** The reply a caller gets is the first line that is not a ping; it and every ping before it
      carry the request's own id, and no two of them name different runtime instances. */
  lemma GotIsFirst(expected: nat, turns: seq<Turn>, k: int, r: Response)
    requires Ends(expected, turns, k)
    ensures Ending(expected, Known(turns[..k]), turns[k]) == Got(r)
            <==> turns[k] == Line(r) && r.action != Ping && r.requestId == expected
                 && forall j :: 0 <= j < k && turns[j].Line? ==>
                      turns[j].response.requestId == expected && turns[j].response.action == Ping
                      && (r.instance.Some? && turns[j].response.instance.Some? ==>
                            r.instance == turns[j].response.instance)
  {
    KnownIsCommon(expected, turns, k);
    hide Known;
    forall j | 0 <= j < k && turns[j].Line?
      ensures turns[j].response.requestId == expected && turns[j].response.action == Ping
    {
      assert Continues(expected, Known(turns[..j]), turns[j]);
    }
  }

  /** Why a wait ends: it goes on only over empty polls and its own request's pings, and each other turn
      ends it with its own reply; the runtime has changed exactly when two lines name different
      instances. */
  lemma WaitMeans(expected: nat, turns: seq<Turn>, k: int)
    requires Ends(expected, turns, k)
    ensures forall j :: 0 <= j < k ==>
              turns[j] == Idle(false)
              || (turns[j].Line? && turns[j].response.requestId == expected && turns[j].response.action == Ping)
    ensures var reply, t := Ending(expected, Known(turns[..k]), turns[k]), turns[k];
            && (reply == DeadlineExceeded <==> t == Late || t == Idle(true))
            && (reply == Failed <==> t == PollFailed || t == ReadFailed)
            && (reply == Missing <==> t == Closed || t == BlankLine)
            && (reply == NotParsed <==> t == Malformed)
            && (forall x :: reply == Mismatched(x)
                            <==> t.Line? && t.response.requestId == x && t.response.requestId != expected)
            && (reply == RuntimeChanged
                <==> && t.Line? && t.response.requestId == expected
                     && exists j :: 0 <= j < k && Names(turns[j]) && Names(t)
                                    && turns[j].response.instance != t.response.instance)
  {
    KnownIsCommon(expected, turns, k);
    hide Known;
    forall j | 0 <= j < k
      ensures turns[j] == Idle(false)
              || (turns[j].Line? && turns[j].response.requestId == expected && turns[j].response.action == Ping)
    {
      assert Continues(expected, Known(turns[..j]), turns[j]);
    }
  }
}
