/** The socket reader: chunks of bytes in, answers to the pending requests out, in order. */
module ReplyReader {
  import opened Resp

  datatype Answer = Resolved(value: Value) | Refused(reason: Reason)

  datatype Answered = Answered(request: nat, answer: Answer)

  /** answered lists the promises settled so far. */
  datatype Reader = Reader(buffer: bytes, pending: seq<nat>, answered: seq<Answered>)

  function AnswerOf(p: Parsed): Answer
    requires p.Complete()
  {
    if p.Done? then Resolved(p.value) else Refused(p.reason)
  }

  /** drainReplies: settle pending requests while the buffer starts with a complete reply. */
  function Settled(r: Reader): Reader
    decreases |r.pending|
  {
    if r.pending == [] then r
    else
      var p := Parse(r.buffer, 0);
      if !p.Complete() then r
      else Settled(Reader(r.buffer[p.next..], r.pending[1..], r.answered + [Answered(r.pending[0], AnswerOf(p))]))
  }

  function OnData(r: Reader, chunk: bytes): Reader {
    Settled(r.(buffer := r.buffer + chunk))
  }

  function Feed(r: Reader, chunks: seq<bytes>): Reader
  {
    if chunks == [] then r else OnData(Feed(r, chunks[..|chunks| - 1]), chunks[|chunks| - 1])
  }

  function Joined(chunks: seq<bytes>): bytes
  {
    if chunks == [] then [] else Joined(chunks[..|chunks| - 1]) + chunks[|chunks| - 1]
  }

  /** Draining early and again later is draining once with all the bytes. */
  lemma {:induction false} SettledTwice(r: Reader, more: bytes)
    ensures OnData(Settled(r), more) == OnData(r, more)
    decreases |r.pending|
  {
    if r.pending != [] {
      var p := Parse(r.buffer, 0);
      if p.Complete() {
        ParseStays(r.buffer, more, 0);
        var r1 := Reader(r.buffer[p.next..], r.pending[1..], r.answered + [Answered(r.pending[0], AnswerOf(p))]);
        assert (r.buffer + more)[p.next..] == r.buffer[p.next..] + more;
        SettledTwice(r1, more);
      }
    }
  }

  lemma TwoChunks(r: Reader, a: bytes, b: bytes)
    ensures OnData(OnData(r, a), b) == OnData(r, a + b)
  {
    SettledTwice(r.(buffer := r.buffer + a), b);
    assert r.buffer + a + b == r.buffer + (a + b);
  }

  /** However the same bytes are split into chunks, the reader ends in the same state. */
  lemma {:induction false} ChunksDoNotMatter(r: Reader, chunks: seq<bytes>)
    requires chunks != []
    ensures Feed(r, chunks) == OnData(r, Joined(chunks))
    decreases |chunks|
  {
    var init, last := chunks[..|chunks| - 1], chunks[|chunks| - 1];
    if init == [] {
      assert Joined(init) + last == last;
    } else {
      ChunksDoNotMatter(r, init);
      TwoChunks(r, Joined(init), last);
    }
  }

  // ---------------------------------------------------------------- replies to requests

  function ReplyAnswer(r: Reply): Answer {
    if r.Failure? then Refused(FromServer(r.text)) else Resolved(ValueOf(r))
  }

  function Answers(requests: seq<nat>, replies: seq<Reply>): seq<Answered>
    requires |replies| <= |requests|
  {
    if replies == [] then []
    else [Answered(requests[0], ReplyAnswer(replies[0]))] + Answers(requests[1..], replies[1..])
  }

  /** A buffer that starts with a well-formed reply. */
  lemma FirstReply(buffer: bytes, r: Reply, others: bytes)
    requires WellFormed(r) && buffer == Encode(r) + others
    ensures Parse(buffer, 0).Complete() && AnswerOf(Parse(buffer, 0)) == ReplyAnswer(r)
    ensures buffer[Parse(buffer, 0).next..] == others
  {
    hide Encode, Parse;
    RoundTrip([], r, others);
    assert [] + Encode(r) + others == buffer;
  }

  lemma NothingToParse()
    ensures Parse([], 0) == Incomplete
  {
  }

  /** A whole stream of replies at once: the i-th request gets the i-th reply and no byte is left over. */
  lemma {:induction false} StreamAnswers(r: Reader, replies: seq<Reply>)
    requires r.buffer == EncodeAll(replies) && |replies| <= |r.pending|
    requires forall i :: 0 <= i < |replies| ==> WellFormed(replies[i])
    ensures Settled(r) == Reader([], r.pending[|replies|..], r.answered + Answers(r.pending, replies))
    decreases |replies|
  {
    hide Encode, Parse, ReplyAnswer, AnswerOf;
    if replies == [] {
      NothingToParse();
      assert r.answered + [] == r.answered && r.pending[0..] == r.pending;
    } else {
      FirstReply(r.buffer, replies[0], EncodeAll(replies[1..]));
      var head := [Answered(r.pending[0], ReplyAnswer(replies[0]))];
      var r1 := Reader(EncodeAll(replies[1..]), r.pending[1..], r.answered + head);
      StreamAnswers(r1, replies[1..]);
      assert r.answered + head + Answers(r.pending[1..], replies[1..]) ==
               r.answered + (head + Answers(r.pending[1..], replies[1..]));
      assert r.pending[1..][|replies| - 1..] == r.pending[|replies|..];
    }
  }

  /** The same for any splitting of the stream into chunks. */
  lemma AnyChunksAnswer(requests: seq<nat>, replies: seq<Reply>, chunks: seq<bytes>)
    requires Joined(chunks) == EncodeAll(replies) && |replies| <= |requests|
    requires forall i :: 0 <= i < |replies| ==> WellFormed(replies[i])
    ensures Feed(Reader([], requests, []), chunks) == Reader([], requests[|replies|..], Answers(requests, replies))
  {
    var r := Reader([], requests, []);
    if chunks == [] {
      assert requests[0..] == requests;
    } else {
      ChunksDoNotMatter(r, chunks);
      assert [] + Joined(chunks) == Joined(chunks);
      StreamAnswers(r.(buffer := Joined(chunks)), replies);
      assert [] + Answers(requests, replies) == Answers(requests, replies);
    }
  }

  lemma {:induction false} AnswerAt(requests: seq<nat>, replies: seq<Reply>, i: nat)
    requires |replies| <= |requests| && i < |replies|
    ensures |Answers(requests, replies)| == |replies|
    ensures Answers(requests, replies)[i] == Answered(requests[i], ReplyAnswer(replies[i]))
    decreases |replies|
  {
    if |replies| > 1 {
      AnswerAt(requests[1..], replies[1..], if i == 0 then 0 else i - 1);
    }
  }

  // ---------------------------------------------------------------- requests between chunks

  datatype SocketEvent = Sent(request: nat) | Arrived(chunk: bytes)

  /** command only adds to the pending requests; a chunk is handled as above. */
  function Play(r: Reader, events: seq<SocketEvent>): Reader
  {
    if events == [] then r
    else
      var before := Play(r, events[..|events| - 1]);
      match events[|events| - 1]
      case Sent(x) => before.(pending := before.pending + [x])
      case Arrived(b) => OnData(before, b)
  }

  /** All requests of the events, and all their bytes, put in front of the reader at once. */
  function AtOnce(r: Reader, events: seq<SocketEvent>): Reader
  {
    if events == [] then r
    else
      var before := AtOnce(r, events[..|events| - 1]);
      match events[|events| - 1]
      case Sent(x) => before.(pending := before.pending + [x])
      case Arrived(b) => before.(buffer := before.buffer + b)
  }

  lemma {:induction false} LateRequest(r: Reader, x: nat)
    ensures var d := Settled(r);
            Settled(d.(pending := d.pending + [x])) == Settled(r.(pending := r.pending + [x]))
    decreases |r.pending|
  {
    if r.pending != [] {
      var p := Parse(r.buffer, 0);
      if p.Complete() {
        var r1 := Reader(r.buffer[p.next..], r.pending[1..], r.answered + [Answered(r.pending[0], AnswerOf(p))]);
        assert (r.pending + [x])[1..] == r.pending[1..] + [x];
        LateRequest(r1, x);
      }
    }
  }

  lemma SettledAgain(r: Reader)
    ensures Settled(Settled(r)) == Settled(r)
  {
    SettledTwice(r, []);
    assert r.buffer + [] == r.buffer && Settled(r).buffer + [] == Settled(r).buffer;
  }

  /** Whenever requests were sent and however the bytes were cut: what counts is their order alone. */
  lemma {:induction false} TimingDoesNotMatter(r: Reader, events: seq<SocketEvent>)
    ensures Settled(Play(r, events)) == Settled(AtOnce(r, events))
    decreases |events|
  {
    hide Settled;
    if events != [] {
      var init := events[..|events| - 1];
      var p, a := Play(r, init), AtOnce(r, init);
      TimingDoesNotMatter(r, init);
      match events[|events| - 1] {
        case Sent(x) =>
          LateRequest(p, x);
          LateRequest(a, x);
        case Arrived(b) =>
          SettledTwice(p, b);
          SettledTwice(a, b);
          SettledAgain(a.(buffer := a.buffer + b));
      }
    }
  }

  /** After a last chunk: the i-th request sent has the i-th reply, at whatever times requests were sent. */
  lemma AnyTimingAnswers(events: seq<SocketEvent>, replies: seq<Reply>)
    requires events != [] && events[|events| - 1].Arrived?
    requires var all := AtOnce(Reader([], [], []), events);
             all.buffer == EncodeAll(replies) && |replies| <= |all.pending|
    requires forall i :: 0 <= i < |replies| ==> WellFormed(replies[i])
    ensures var requests := AtOnce(Reader([], [], []), events).pending;
            Play(Reader([], [], []), events) == Reader([], requests[|replies|..], Answers(requests, replies))
  {
    hide Settled, WellFormed, Answers;
    var r := Reader([], [], []);
    var before := Play(r, events[..|events| - 1]);
    TimingDoesNotMatter(r, events);
    SettledAgain(before.(buffer := before.buffer + events[|events| - 1].chunk));
    AnsweredLater(r, events);
    StreamAnswers(AtOnce(r, events), replies);
    assert [] + Answers(AtOnce(r, events).pending, replies) == Answers(AtOnce(r, events).pending, replies);
  }

  lemma {:induction false} AnsweredLater(r: Reader, events: seq<SocketEvent>)
    ensures AtOnce(r, events).answered == r.answered
    decreases |events|
  {
    if events != [] {
      AnsweredLater(r, events[..|events| - 1]);
    }
  }

  // ---------------------------------------------------------------- the connection object

  class RedisConnection {
    var buffer: bytes
    var pending: seq<nat>
    var answered: seq<Answered>

    ghost function State(): Reader
      reads this
    {
      Reader(buffer, pending, answered)
    }

    constructor ()
      ensures State() == Reader([], [], [])
    {
      buffer, pending, answered := [], [], [];
    }

    /** command: the request joins the queue; the bytes to write are returned. */
    method Command(request: nat, args: seq<bytes>) returns (written: bytes)
      modifies this
      ensures State() == old(State()).(pending := old(pending) + [request])
      ensures written == EncodeCommand(args)
    {
      pending := pending + [request];
      written := EncodeCommand(args);
    }

    method DrainReplies()
      modifies this
      ensures State() == Settled(old(State()))
    {
      while |pending| > 0
        invariant Settled(State()) == Settled(old(State()))
        decreases |pending|
      {
        var parsed := ParseReply(buffer, 0);
        if !parsed.Complete() {
          return;
        }
        buffer := buffer[parsed.next..];
        var request := pending[0];
        pending := pending[1..];
        var answer := if parsed.Done? then Resolved(parsed.value) else Refused(parsed.reason);
        answered := answered + [Answered(request, answer)];
      }
    }

    /** The data handler. */
    method Data(chunk: bytes)
      modifies this
      ensures State() == OnData(old(State()), chunk)
    {
      buffer := buffer + chunk;
      DrainReplies();
    }
  }
}
