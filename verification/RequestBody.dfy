/** Request and response bodies: what is streamed, and what of it is captured within a limit. */
module Bodies {
  import opened Options

  function Concat(parts: seq<Bytes>): Bytes
  {
    if parts == [] then [] else Concat(parts[..|parts| - 1]) + parts[|parts| - 1]
  }

  lemma ConcatSnoc(parts: seq<Bytes>, part: Bytes)
    ensures Concat(parts + [part]) == Concat(parts) + part
  {
    assert (parts + [part])[..|parts|] == parts;
  }

  // ----- the request body -----

  datatype Message = Disconnect | Part(body: Bytes, more: bool)

  datatype Input = Input(
    done: bool, complete: bool, disconnected: bool, captureLimit: Option<nat>, capture: Bytes, oversized: bool)

  function Start(limit: Option<nat>): Input
  {
    Input(false, false, false, limit, [], false)
  }

  function Capture(i: Input, part: Bytes): Input
  {
    if i.captureLimit.None? || i.oversized then i
    else if |i.capture| + |part| > i.captureLimit.value then i.(capture := [], oversized := true)
    else i.(capture := i.capture + part)
  }

  /** One message read from the client. */
  function Chunk(i: Input, m: Message): Input
  {
    match m
    case Disconnect => i.(disconnected := true, done := true)
    case Part(body, more) =>
      var j := Capture(i, body);
      if more then j else j.(complete := true, done := true)
  }

  /** The stream reads until the input is done. */
  function Stream(i: Input, ms: seq<Message>): Input
    decreases |ms|
  {
    if ms == [] then i
    else
      var j := Stream(i, ms[..|ms| - 1]);
      if j.done then j else Chunk(j, ms[|ms| - 1])
  }

  /** What the shadow is sent once the input is done. */
  function ShadowBody(i: Input): Option<Bytes>
  {
    if i.oversized || !i.complete then None else Some(i.capture)
  }

  /** The messages that the stream reads: up to a disconnection or the last part of the body. */
  ghost predicate Going(ms: seq<Message>)
  {
    forall i :: 0 <= i < |ms| ==> ms[i].Part? && ms[i].more
  }

  function Parts(ms: seq<Message>): seq<Bytes>
  {
    if ms == [] then []
    else
      var rest := Parts(ms[..|ms| - 1]);
      if ms[|ms| - 1].Part? then rest + [ms[|ms| - 1].body] else rest
  }

  lemma {:induction false} CaptureIsWhole(limit: nat, ms: seq<Message>)
    requires Going(ms)
    ensures
      var i := Stream(Start(Some(limit)), ms);
      && !i.done && !i.complete && !i.disconnected && i.captureLimit == Some(limit)
      && (i.oversized <==> |Concat(Parts(ms))| > limit)
      && i.capture == if i.oversized then [] else Concat(Parts(ms))
    decreases |ms|
  {
    if ms != [] {
      var before := ms[..|ms| - 1];
      CaptureIsWhole(limit, before);
      assert Parts(ms) == Parts(before) + [ms[|ms| - 1].body];
      ConcatSnoc(Parts(before), ms[|ms| - 1].body);
    }
  }

  /** Nothing that arrives after the input is done changes it. */
  lemma {:induction false} DoneIsFinal(i: Input, ms: seq<Message>)
    requires i.done
    ensures Stream(i, ms) == i
    decreases |ms|
  {
    if ms != [] {
      DoneIsFinal(i, ms[..|ms| - 1]);
    }
  }

  /** The input after its last message. */
  lemma LastMessage(limit: nat, ms: seq<Message>, last: Message)
    requires Going(ms)
    ensures
      var i := Stream(Start(Some(limit)), ms + [last]);
      var whole := Concat(Parts(ms + [last]));
      && ShadowBody(i) == (if last.Part? && !last.more && |whole| <= limit then Some(whole) else None)
      && (i.disconnected <==> last.Disconnect?) && (i.complete <==> last.Part? && !last.more)
      && (i.done <==> last.Disconnect? || !last.more)
  {
    hide Going;
    CaptureIsWhole(limit, ms);
    assert (ms + [last])[..|ms|] == ms;
    if last.Part? {
      assert Parts(ms + [last]) == Parts(ms) + [last.body];
      ConcatSnoc(Parts(ms), last.body);
    }
  }

  /**
   The shadow is sent a body exactly when the client's last part arrived and the whole body fits the
   capture limit, and then it is the concatenation of every part that was streamed to serving, whatever
   arrives after the message that ended the input.
   */
  lemma ShadowBodyIsExact(limit: nat, ms: seq<Message>, last: Message, later: seq<Message>)
    requires Going(ms) && (last.Part? && last.more ==> later == [])
    ensures
      var i := Stream(Start(Some(limit)), ms + [last] + later);
      var whole := Concat(Parts(ms + [last]));
      && ShadowBody(i) == (if last.Part? && !last.more && |whole| <= limit then Some(whole) else None)
      && (i.disconnected <==> last.Disconnect?) && (i.complete <==> last.Part? && !last.more)
      && (i.done <==> last.Disconnect? || !last.more)
  {
    hide Going, Stream, Parts, Concat, ShadowBody;
    LastMessage(limit, ms, last);
    StreamAppend(Start(Some(limit)), ms + [last], later);
    if later == [] {
      NothingMore(Stream(Start(Some(limit)), ms + [last]));
    } else {
      DoneIsFinal(Stream(Start(Some(limit)), ms + [last]), later);
    }
  }

  lemma NothingMore(i: Input)
    ensures Stream(i, []) == i
  {
  }

  lemma {:induction false} StreamAppend(i: Input, ms: seq<Message>, more: seq<Message>)
    ensures Stream(i, ms + more) == Stream(Stream(i, ms), more)
    decreases |more|
  {
    if more == [] {
      assert ms + more == ms;
    } else {
      assert (ms + more)[..|ms + more| - 1] == ms + more[..|more| - 1];
      StreamAppend(i, ms, more[..|more| - 1]);
    }
  }

  /** Without a limit nothing of the body is kept. */
  lemma {:induction false} NothingIsCaptured(ms: seq<Message>)
    ensures Stream(Start(None), ms).capture == [] && !Stream(Start(None), ms).oversized
    ensures Stream(Start(None), ms).captureLimit == None
    decreases |ms|
  {
    if ms != [] {
      NothingIsCaptured(ms[..|ms| - 1]);
    }
  }

  lemma GoingOn(ms: seq<Message>, n: nat)
    requires n < |ms|
    ensures Going(ms[..n]) && n > 0 ==> Going(ms[..n - 1])
    ensures Going(ms[..n + 1]) <==> Going(ms[..n]) && ms[n].Part? && ms[n].more
  {
    assert forall i :: 0 <= i < n ==> ms[..n][i] == ms[i] && ms[..n + 1][i] == ms[i];
    assert ms[..n + 1][n] == ms[n];
    assert n > 0 ==> forall i :: 0 <= i < n - 1 ==> ms[..n - 1][i] == ms[..n][i];
  }

  lemma NothingEnds()
    ensures Going([])
  {
  }

  class RequestInput {
    var done: bool
    var complete: bool
    var disconnected: bool
    var captureLimit: Option<nat>
    var capture: Bytes
    var oversized: bool

    function State(): Input
      reads this
    {
      Input(done, complete, disconnected, captureLimit, capture, oversized)
    }

    constructor (limit: Option<nat>)
      ensures State() == Start(limit)
    {
      done, complete, disconnected, captureLimit, capture, oversized := false, false, false, limit, [], false;
    }

    /** Reads one message; None stands for the exception of a disconnected client. */
    method ReadChunk(m: Message) returns (part: Option<Bytes>)
      modifies this`done, this`complete, this`disconnected, this`capture, this`oversized
      ensures State() == Chunk(old(State()), m)
      ensures part == if m.Part? then Some(m.body) else None
    {
      if m.Disconnect? {
        disconnected := true;
        done := true;
        return None;
      }
      if captureLimit.Some? && !oversized {
        if |capture| + |m.body| > captureLimit.value {
          capture := [];
          oversized := true;
        } else {
          capture := capture + m.body;
        }
      }
      if !m.more {
        complete := true;
        done := true;
      }
      return Some(m.body);
    }

    /** Streams messages to serving until the input is done; returns what was handed to serving. */
    method StreamTo(ms: seq<Message>) returns (streamed: seq<Bytes>)
      modifies this`done, this`complete, this`disconnected, this`capture, this`oversized
      ensures State() == Stream(old(State()), ms)
      ensures !old(done) && ms != [] && Going(ms[..|ms| - 1]) ==> streamed == Parts(ms)
    {
      hide Going;
      streamed := [];
      var n := 0;
      NothingEnds();
      while n < |ms|
        invariant 0 <= n <= |ms| && State() == Stream(old(State()), ms[..n])
        invariant !old(done) && Going(ms[..n]) ==> !done
        invariant !old(done) && (n == 0 || Going(ms[..n - 1])) ==> streamed == Parts(ms[..n])
      {
        assert ms[..n + 1][..n] == ms[..n];
        GoingOn(ms, n);
        if !done {
          var part := ReadChunk(ms[n]);
          if part.Some? {
            streamed := streamed + [part.value];
          }
        }
        n := n + 1;
      }
      assert ms[..n] == ms;
    }

    /** Takes the captured body for the shadow and forgets it. */
    method TakeForShadow() returns (body: Option<Bytes>)
      modifies this`capture
      ensures body == old(ShadowBody(State()))
      ensures capture == if body.Some? then [] else old(capture)
    {
      if oversized || !complete {
        return None;
      }
      body := Some(capture);
      capture := [];
    }
  }

  // ----- the response body -----

  datatype CaptureState = Complete | Oversized | Unavailable | NotNeeded

  /**
   Reads a response and captures it within a limit. The response is offered for comparison only
   whole: it is there exactly when the request was selected, the response ended properly and its
   length is within the limit. The bytes received are counted whatever is captured.
   */
  method CaptureResponse(chunks: seq<Bytes>, limit: nat, selected: bool, complete: bool)
    returns (received: nat, body: Option<Bytes>, state: CaptureState)
    ensures received == |Concat(chunks)|
    ensures body == if selected && complete && |Concat(chunks)| <= limit then Some(Concat(chunks)) else None
    ensures state == if !selected then NotNeeded
                     else if |Concat(chunks)| > limit then Oversized
                     else if complete then Complete else Unavailable
  {
    state := if selected then Complete else NotNeeded;
    received := 0;
    var capture: Bytes := [];
    var n := 0;
    while n < |chunks|
      invariant 0 <= n <= |chunks| && received == |Concat(chunks[..n])|
      invariant !selected ==> state == NotNeeded
      invariant selected ==> state == if received > limit then Oversized else Complete
      invariant capture == if state == Complete then Concat(chunks[..n]) else []
    {
      var chunk := chunks[n];
      assert chunks[..n + 1] == chunks[..n] + [chunk];
      ConcatSnoc(chunks[..n], chunk);
      received := received + |chunk|;
      if selected && state == Complete {
        if |capture| + |chunk| <= limit {
          capture := capture + chunk;
        } else {
          capture := [];
          state := Oversized;
        }
      }
      n := n + 1;
    }
    assert chunks[..n] == chunks;
    if !complete && state == Complete {
      state := Unavailable;
      capture := [];
    }
    body := if state == Complete then Some(capture) else None;
  }
}
