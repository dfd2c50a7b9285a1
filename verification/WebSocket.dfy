/** The WebSocket connection: messages put together from fragments (section 5.4 of RFC 6455), bounded in size, and
    handed from the reader thread to the receiver. */
module WebSocket {
  import opened Utf8

  // ---------------------------------------------------------------- events and messages

  /** What the protocol library reports, in order. A fragment carries its message's type. */
  datatype Event =
    | Request
    | Close(code: int, reason: string)
    | Ping
    | Pong
    | TextPart(text: string, last: bool)
    | BytesPart(bytes: seq<byte>, last: bool)
    | Other

  datatype Message = TextMessage(text: string) | BytesMessage(bytes: seq<byte>)

  predicate IsPart(e: Event) { e.TextPart? || e.BytesPart? }

  function PartLength(e: Event): nat
    requires IsPart(e)
  {
    if e.TextPart? then |e.text| else |e.bytes|
  }

  predicate SameType(a: Event, b: Event) {
    (a.TextPart? && b.TextPart?) || (a.BytesPart? && b.BytesPart?)
  }

  /** The fragments of one unfinished message. */
  predicate Pending(parts: seq<Event>) {
    forall i :: 0 <= i < |parts| ==> IsPart(parts[i]) && !parts[i].last && SameType(parts[0], parts[i])
  }

  function Length(parts: seq<Event>): nat
    requires forall p :: p in parts ==> IsPart(p)
  {
    if parts == [] then 0 else Length(parts[..|parts| - 1]) + PartLength(parts[|parts| - 1])
  }

  function Texts(parts: seq<Event>): string {
    if parts == [] then ""
    else Texts(parts[..|parts| - 1]) + (if parts[|parts| - 1].TextPart? then parts[|parts| - 1].text else "")
  }

  function Bytes(parts: seq<Event>): seq<byte> {
    if parts == [] then []
    else Bytes(parts[..|parts| - 1]) + (if parts[|parts| - 1].BytesPart? then parts[|parts| - 1].bytes else [])
  }

  /** The message its fragments spell out. */
  function Whole(parts: seq<Event>): Message
    requires parts != []
  {
    if parts[0].TextPart? then TextMessage(Texts(parts)) else BytesMessage(Bytes(parts))
  }

  function Size(m: Message): nat {
    if m.TextMessage? then |m.text| else |m.bytes|
  }

  lemma PartsOneMore(parts: seq<Event>, e: Event)
    requires Pending(parts) && IsPart(e)
    ensures forall p :: p in parts + [e] ==> IsPart(p)
    ensures Length(parts + [e]) == Length(parts) + PartLength(e)
    ensures Texts(parts + [e]) == Texts(parts) + (if e.TextPart? then e.text else "")
    ensures Bytes(parts + [e]) == Bytes(parts) + (if e.BytesPart? then e.bytes else [])
  {
    assert (parts + [e])[..|parts|] == parts;
  }

  lemma {:induction false} LengthIsSize(parts: seq<Event>)
    requires parts != [] && forall i :: 0 <= i < |parts| ==> IsPart(parts[i]) && SameType(parts[0], parts[i])
    ensures Length(parts) == Size(Whole(parts))
    ensures parts[0].TextPart? ==> |Texts(parts)| == Length(parts)
  {
    var init := parts[..|parts| - 1];
    if init != [] {
      LengthIsSize(init);
    } else {
      assert Length(init) == 0 && Texts(init) == "" && Bytes(init) == [];
    }
  }

  // ---------------------------------------------------------------- what a stream of events delivers

  datatype Progress = Progress(delivered: seq<Message>, parts: seq<Event>)

  /** The messages finished by a stream of events, and the fragments of the one it leaves unfinished. Other events do
      not count. */
  function Follow(start: Progress, events: seq<Event>): Progress {
    if events == [] then start
    else
      var p := Follow(start, events[..|events| - 1]);
      var e := events[|events| - 1];
      if !IsPart(e) then p
      else if e.last then Progress(p.delivered + [Whole(p.parts + [e])], [])
      else Progress(p.delivered, p.parts + [e])
  }

  /** RFC 6455, section 5.4: fragments of different messages are not interleaved, so an unfinished message goes on in
      its type. */
  ghost predicate Regular(parts: seq<Event>, events: seq<Event>) {
    Pending(parts) && forall k :: 0 <= k < |events| ==> GoesOn(parts, events, k)
  }

  predicate GoesOn(parts: seq<Event>, events: seq<Event>, k: nat)
    requires k < |events|
  {
    var p := Follow(Progress([], parts), events[..k]).parts;
    IsPart(events[k]) ==> p == [] || SameType(p[0], events[k])
  }

  lemma FollowOneMore(start: Progress, events: seq<Event>, e: Event)
    ensures Follow(start, events + [e]) ==
      (var p := Follow(start, events);
       if !IsPart(e) then p
       else if e.last then Progress(p.delivered + [Whole(p.parts + [e])], [])
       else Progress(p.delivered, p.parts + [e]))
  {
    assert (events + [e])[..|events|] == events;
  }

  lemma {:induction false} FollowFrom(delivered: seq<Message>, parts: seq<Event>, events: seq<Event>)
    ensures var p := Follow(Progress([], parts), events);
            Follow(Progress(delivered, parts), events) == Progress(delivered + p.delivered, p.parts)
  {
    if events == [] {
      assert delivered + [] == delivered;
    } else {
      var init, e := events[..|events| - 1], events[|events| - 1];
      FollowFrom(delivered, parts, init);
      var p := Follow(Progress([], parts), init);
      FollowOneMore(Progress([], parts), init, e);
      FollowOneMore(Progress(delivered, parts), init, e);
      assert events == init + [e];
      Associate(delivered, p.delivered, [Whole(p.parts + [e])]);
    }
  }

  lemma Associate(a: seq<Message>, b: seq<Message>, c: seq<Message>)
    ensures (a + b) + c == a + (b + c)
  {
  }

  lemma {:induction false} FollowPending(parts: seq<Event>, events: seq<Event>)
    requires Regular(parts, events)
    ensures Pending(Follow(Progress([], parts), events).parts)
  {
    if events != [] {
      var init := events[..|events| - 1];
      assert events == init + [events[|events| - 1]];
      RegularStart(parts, init, [events[|events| - 1]]);
      FollowPending(parts, init);
      var p, e := Follow(Progress([], parts), init).parts, events[|events| - 1];
      assert GoesOn(parts, events, |events| - 1);
    }
  }

  lemma RegularStart(parts: seq<Event>, a: seq<Event>, b: seq<Event>)
    requires Regular(parts, a + b)
    ensures Regular(parts, a)
  {
    forall k | 0 <= k < |a| ensures GoesOn(parts, a, k) {
      assert GoesOn(parts, a + b, k) && (a + b)[..k] == a[..k] && (a + b)[k] == a[k];
    }
  }

  lemma RegularRest(parts: seq<Event>, a: seq<Event>, b: seq<Event>)
    requires Regular(parts, a + b)
    ensures Regular(Follow(Progress([], parts), a).parts, b)
  {
    RegularStart(parts, a, b);
    FollowPending(parts, a);
    var p := Follow(Progress([], parts), a);
    forall k | 0 <= k < |b| ensures GoesOn(p.parts, b, k) {
      assert GoesOn(parts, a + b, |a| + k);
      assert (a + b)[|a| + k] == b[k] && (a + b)[..|a| + k] == a + b[..k];
      FollowConcat(Progress([], parts), a, b[..k]);
      FollowFrom(p.delivered, p.parts, b[..k]);
    }
  }

  ghost predicate AnyClose(events: seq<Event>) {
    exists k :: 0 <= k < |events| && events[k].Close?
  }

  /** One more event of a regular stream. */
  lemma RegularNext(start: Progress, events: seq<Event>, k: nat)
    requires Regular(start.parts, events) && k < |events|
    ensures var p := Follow(start, events[..k]).parts; IsPart(events[k]) ==> p == [] || SameType(p[0], events[k])
    ensures Follow(start, events[..k + 1]) == Follow(Follow(start, events[..k]), [events[k]])
    ensures AnyClose(events[..k + 1]) <==> AnyClose(events[..k]) || events[k].Close?
  {
    assert GoesOn(start.parts, events, k);
    FollowFrom(start.delivered, start.parts, events[..k]);
    assert events[..k + 1] == events[..k] + [events[k]];
    FollowConcat(start, events[..k], [events[k]]);
    CloseMore(events[..k], events[k]);
  }

  lemma CloseMore(events: seq<Event>, e: Event)
    ensures AnyClose(events + [e]) <==> AnyClose(events) || e.Close?
  {
    var all := events + [e];
    assert all[|events|] == e;
    if AnyClose(events) {
      var k :| 0 <= k < |events| && events[k].Close?;
      assert all[k].Close?;
    }
  }

  /** Events may arrive in any number of batches. */
  lemma {:induction false} FollowConcat(start: Progress, a: seq<Event>, b: seq<Event>)
    ensures Follow(start, a + b) == Follow(Follow(start, a), b)
  {
    var all := a + b;
    if b == [] {
      assert all == a;
    } else {
      assert all[..|all| - 1] == a + b[..|b| - 1];
      FollowConcat(start, a, b[..|b| - 1]);
    }
  }

  /** The fragments among the events. */
  function PartsOf(events: seq<Event>): seq<Event> {
    if events == [] then []
    else PartsOf(events[..|events| - 1]) + (if IsPart(events[|events| - 1]) then [events[|events| - 1]] else [])
  }

  /** Unfinished fragments of the type of `e`, among any other events. */
  predicate Unfinished(events: seq<Event>, e: Event) {
    forall p :: p in events && IsPart(p) ==> SameType(p, e) && !p.last
  }

  lemma {:induction false} UnfinishedParts(events: seq<Event>, e: Event)
    requires Unfinished(events, e)
    ensures Follow(Progress([], []), events) == Progress([], PartsOf(events))
    ensures forall p :: p in PartsOf(events) ==> IsPart(p) && SameType(p, e) && !p.last
  {
    if events != [] {
      var init, last := events[..|events| - 1], events[|events| - 1];
      assert events == init + [last];
      assert last in events;
      UnfinishedParts(init, e);
      assert PartsOf(events) == PartsOf(init) + (if IsPart(last) then [last] else []);
    }
  }

  lemma AlikePending(parts: seq<Event>, e: Event)
    requires forall p :: p in parts ==> IsPart(p) && SameType(p, e) && !p.last
    ensures Pending(parts)
  {
    forall i | 0 <= i < |parts| ensures IsPart(parts[i]) && !parts[i].last && SameType(parts[0], parts[i]) {
      assert parts[i] in parts && parts[0] in parts;
    }
  }

  /** A message split into fragments in any way, with any other events in between, is delivered whole. */
  lemma AnySplit(events: seq<Event>, e: Event)
    requires IsPart(e) && e.last && Unfinished(events, e)
    ensures var parts := PartsOf(events);
            Follow(Progress([], []), events + [e])
            == Progress([if e.TextPart? then TextMessage(Texts(parts) + e.text)
              else BytesMessage(Bytes(parts) + e.bytes)], [])
  {
    UnfinishedParts(events, e);
    var parts := PartsOf(events);
    AlikePending(parts, e);
    FollowOneMore(Progress([], []), events, e);
    PartsOneMore(parts, e);
    assert SameType((parts + [e])[0], e);
  }

  lemma PartFollows(delivered: seq<Message>, parts: seq<Event>, e: Event)
    requires IsPart(e)
    ensures Follow(Progress(delivered, parts), [e])
         == if e.last then Progress(delivered + [Whole(parts + [e])], []) else Progress(delivered, parts + [e])
  {
    FollowOneMore(Progress(delivered, parts), [], e);
    assert [] + [e] == [e];
  }

  lemma PartMeasures(parts: seq<Event>, e: Event)
    requires Pending(parts) && IsPart(e) && (parts == [] || SameType(parts[0], e))
    ensures forall p :: p in parts + [e] ==> IsPart(p)
    ensures Length(parts + [e]) == Length(parts) + PartLength(e) == Size(Whole(parts + [e]))
    ensures !e.last ==> Pending(parts + [e])
    ensures SameType((parts + [e])[0], e)
  {
    PartsOneMore(parts, e);
    LengthIsSize(parts + [e]);
  }

  // ---------------------------------------------------------------- the connection

  /** The message under way: nothing, a first fragment as it came, or a growing byte array. */
  datatype Incoming = Nothing | Str(text: string) | Raw(bytes: seq<byte>) | Grown(data: seq<byte>)

  /** How the connection keeps the fragments so far. */
  ghost predicate Keeps(incoming: Incoming, parts: seq<Event>) {
    if parts == [] then incoming == Nothing
    else if |parts| == 1 then
      incoming == if parts[0].TextPart? then Str(Texts(parts)) else Raw(Bytes(parts))
    else
      incoming == Grown(if parts[0].TextPart? then Encode(Texts(parts)) else Bytes(parts))
  }

  class Connection {
    const maxMessageSize: nat
    const isServer: bool
    var inputBuffer: seq<Message>
    var incomingMessage: Incoming
    var incomingMessageLen: nat
    var connected: bool
    var pongReceived: bool
    var eventSet: bool
    var closeReason: int
    var closeMessage: string
    /** The fragments of the message under way. */
    ghost var parts: seq<Event>
    /** How many answers the protocol library refused to make. */
    ghost var refused: nat

    constructor (maxMessageSize: nat, isServer: bool)
      ensures Valid() && inputBuffer == [] && parts == [] && connected && !eventSet
      ensures this.maxMessageSize == maxMessageSize
    {
      this.maxMessageSize, this.isServer := maxMessageSize, isServer;
      inputBuffer, incomingMessage, incomingMessageLen, parts := [], Nothing, 0, [];
      connected, pongReceived, eventSet, closeReason, closeMessage := true, true, false, 1005, "";
      refused := 0;
    }

    /** The counter is the length of the pending fragments, and they stay within the bound; 0 means no bound. */
    ghost predicate Valid()
      reads this
    {
      && Pending(parts) && Keeps(incomingMessage, parts)
      && incomingMessageLen == Length(parts)
      && (maxMessageSize > 0 ==> incomingMessageLen <= maxMessageSize)
      && Bounded()
    }

    /** No delivered message is over the bound. */
    ghost predicate Bounded()
      reads this
    {
      maxMessageSize > 0 ==> forall m :: m in inputBuffer ==> Size(m) <= maxMessageSize
    }

    /** Add a fragment to the message under way. */
    method Append(e: Event)
      requires IsPart(e) && Pending(parts) && Keeps(incomingMessage, parts) && (parts == [] || SameType(parts[0], e))
      modifies this`incomingMessage
      ensures Keeps(incomingMessage, parts + [e])
    {
      PartsOneMore(parts, e);
      if incomingMessage == Nothing {
        incomingMessage := if e.TextPart? then Str(e.text) else Raw(e.bytes);
      } else if e.TextPart? {
        EncodeConcat(Texts(parts), e.text);
        if incomingMessage.Str? {
          incomingMessage := Grown(Encode(incomingMessage.text + e.text));
        } else {
          incomingMessage := Grown(incomingMessage.data + Encode(e.text));
        }
      } else {
        if incomingMessage.Raw? {
          incomingMessage := Grown(incomingMessage.bytes + e.bytes);
        } else {
          incomingMessage := Grown(incomingMessage.data + e.bytes);
        }
      }
    }

    /** The finished message. */
    method Finish(e: Event, ghost all: seq<Event>) returns (m: Message)
      requires IsPart(e) && all != [] && SameType(all[0], e) && Keeps(incomingMessage, all)
      ensures m == Whole(all)
    {
      match incomingMessage
      case Str(text) => m := TextMessage(text);
      case Raw(bytes) => m := BytesMessage(bytes);
      case Grown(data) =>
        if e.TextPart? {
          DecodeEncode(Texts(all));
          m := TextMessage(Decode(data).s);
        } else {
          m := BytesMessage(data);
        }
    }

    /** One fragment. A message over the bound ends the connection, and nothing of it is delivered. */
    method HandlePart(e: Event) returns (tooBig: bool)
      requires Valid() && IsPart(e) && (parts == [] || SameType(parts[0], e))
      modifies this`inputBuffer, this`incomingMessage, this`incomingMessageLen, this`eventSet, this`parts
      ensures tooBig <==> maxMessageSize > 0 && old(incomingMessageLen) + PartLength(e) > maxMessageSize
      ensures tooBig ==> inputBuffer == old(inputBuffer) && parts == old(parts) && eventSet
      ensures !tooBig ==> Valid()
      ensures !tooBig ==>
        Progress(inputBuffer, parts) == Follow(Progress(old(inputBuffer), old(parts)), [e])
      ensures !tooBig && e.last ==> eventSet && |inputBuffer| > |old(inputBuffer)|
      ensures !tooBig && !e.last ==> eventSet == old(eventSet) && inputBuffer == old(inputBuffer)
    {
      tooBig := false;
      PartFollows(inputBuffer, parts, e);
      PartMeasures(parts, e);
      incomingMessageLen := incomingMessageLen + PartLength(e);
      if maxMessageSize > 0 && incomingMessageLen > maxMessageSize {
        eventSet := true;
        return true;
      }
      Append(e);
      if e.last {
        Deliver(e, parts + [e]);
      } else {
        parts := parts + [e];
      }
    }

    /** The message is finished: hand it over and wake the receiver. */
    method Deliver(e: Event, ghost all: seq<Event>)
      requires IsPart(e) && all != [] && SameType(all[0], e) && Keeps(incomingMessage, all)
      requires maxMessageSize > 0 ==> Size(Whole(all)) <= maxMessageSize
      requires Bounded()
      modifies this`inputBuffer, this`incomingMessage, this`incomingMessageLen, this`eventSet, this`parts
      ensures Valid() && inputBuffer == old(inputBuffer) + [Whole(all)] && parts == [] && eventSet
    {
      var m := Finish(e, all);
      inputBuffer := inputBuffer + [m];
      incomingMessage, incomingMessageLen, parts := Nothing, 0, [];
      eventSet := true;
    }

    /** A fragment that takes its message over the bound. */
    ghost predicate TooBig(e: Event)
      requires Pending(parts)
      reads this
    {
      IsPart(e) && maxMessageSize > 0 && Length(parts) + PartLength(e) > maxMessageSize
    }

    /** The reason and the message of the last close, and whether a pong came, are those of the events. */
    twostate predicate Noted(events: seq<Event>)
      reads this
    {
      && (closeReason, closeMessage) == LastClose((old(closeReason), old(closeMessage)), events)
      && (pongReceived <==> old(pongReceived) || Pong in events)
    }

    /** `_handle_events`. It stops early only at a fragment that takes its message over the bound; `handled` counts the
        events before it. The connection goes on unless that happens, or a close is among the events, or an answer
        is refused, which can happen to a request, a ping and, on the server's side, a close only. */
    method HandleEvents(events: seq<Event>) returns (keepGoing: bool, ghost handled: nat)
      requires Valid() && Regular(parts, events)
      modifies this
      ensures handled <= |events|
      ensures Progress(inputBuffer, parts) == Follow(Progress(old(inputBuffer), old(parts)), events[..handled])
      ensures handled == |events| ==> Valid()
      ensures handled < |events| ==> Pending(parts) && TooBig(events[handled])
      ensures Bounded()
      ensures keepGoing <==> handled == |events| && !AnyClose(events) && refused == old(refused)
      ensures refused == old(refused) ==> Noted(events[..handled])
      ensures refused >= old(refused)
      ensures refused > old(refused) ==> AnyToRefuse(events[..handled], isServer)
      ensures eventSet <==> old(eventSet) || |inputBuffer| > |old(inputBuffer)| || !keepGoing
    {
      keepGoing, handled := true, 0;
      ghost var start := Progress(inputBuffer, parts);
      assert events[..0] == [];
      for i := 0 to |events|
        invariant handled == i && Valid() && refused >= old(refused)
        invariant Progress(inputBuffer, parts) == Follow(start, events[..i])
        invariant |inputBuffer| >= |start.delivered|
        invariant eventSet <==> old(eventSet) || |inputBuffer| > |start.delivered| || !keepGoing
        invariant keepGoing <==> !AnyClose(events[..i]) && refused == old(refused)
        invariant refused == old(refused) ==> Noted(events[..i])
        invariant refused > old(refused) ==> AnyToRefuse(events[..i], isServer)
      {
        RegularNext(start, events, i);
        NotedMore((old(closeReason), old(closeMessage)), events, i, isServer);
        var goes, tooBig := HandleEvent(events[i]);
        keepGoing := keepGoing && goes;
        if tooBig {
          return false, i;
        }
        handled := i + 1;
      }
      assert events[..|events|] == events;
    }

    /** The body of the loop: one event. */
    method HandleEvent(e: Event) returns (goes: bool, tooBig: bool)
      requires Valid() && (IsPart(e) ==> parts == [] || SameType(parts[0], e))
      modifies this
      ensures tooBig <==> old(TooBig(e))
      ensures tooBig ==> inputBuffer == old(inputBuffer) && parts == old(parts)
      ensures !tooBig ==> Valid() && Progress(inputBuffer, parts) == Follow(Progress(old(inputBuffer), old(parts)), [e])
      ensures goes <==> !tooBig && !e.Close? && refused == old(refused)
      ensures old(refused) <= refused && (refused > old(refused) ==> MayBeRefused(e, isServer))
      ensures |inputBuffer| >= |old(inputBuffer)|
      ensures eventSet <==> old(eventSet) || |inputBuffer| > |old(inputBuffer)| || !goes
      ensures refused == old(refused) ==> NotedOne(e)
    {
      if IsPart(e) {
        tooBig := HandlePart(e);
        goes := !tooBig;
      } else {
        FollowOneMore(Progress(inputBuffer, parts), [], e);
        assert [] + [e] == [e];
        tooBig := false;
        goes := HandleOther(e);
      }
    }

    twostate predicate NotedOne(e: Event)
      reads this
    {
      && (closeReason, closeMessage)
         == (if e.Close? then (e.code, e.reason) else (old(closeReason), old(closeMessage)))
      && (pongReceived <==> old(pongReceived) || e.Pong?)
    }

    /** An event that is no fragment. Answering it may be refused by the protocol library. */
    method HandleOther(e: Event) returns (keepGoing: bool)
      requires !IsPart(e)
      modifies this`eventSet, this`connected, this`pongReceived, this`closeReason, this`closeMessage, this`refused
      ensures keepGoing <==> !e.Close? && refused == old(refused)
      ensures old(refused) <= refused && (refused > old(refused) ==> MayBeRefused(e, isServer))
      ensures eventSet <==> old(eventSet) || !keepGoing
      ensures refused == old(refused) ==> NotedOne(e)
    {
      keepGoing := true;
      var fails: bool := *;
      if fails && MayBeRefused(e, isServer) {
        refused := refused + 1;
        eventSet, keepGoing := true, false;
        return;
      }
      match e
      case Close(code, reason) =>
        closeReason, closeMessage := code, reason;
        connected, eventSet, keepGoing := false, true, false;
      case Pong => pongReceived := true;
      case _ =>
    }

    /** The reader's loop over the batches of events it receives, until the connection ends. It ends at a close, at a
        refused answer, or at a fragment over the bound, and at nothing else. */
    method Read(batches: seq<seq<Event>>) returns (ghost handled: seq<Event>)
      requires Valid() && Regular(parts, Flat(batches))
      modifies this
      ensures handled <= Flat(batches)
      ensures Progress(inputBuffer, parts) == Follow(Progress(old(inputBuffer), old(parts)), handled)
      ensures Bounded()
      ensures connected ==> handled == Flat(batches) && Valid()
      ensures old(connected) ==>
        (connected <==> handled == Flat(batches) && !AnyClose(handled) && refused == old(refused))
      ensures old(connected) && !AnyClose(handled) && refused == old(refused) && handled != Flat(batches) ==>
        Pending(parts) && TooBig(Flat(batches)[|handled|])
      ensures !old(connected) ==> handled == []
    {
      handled := [];
      ghost var start := Progress(inputBuffer, parts);
      var i := 0;
      NothingHandled(batches);
      while connected && i < |batches|
        invariant 0 <= i <= |batches| && Bounded()
        invariant if connected then Ahead(batches, i, handled) && Valid() else handled <= Flat(batches)
        invariant Progress(inputBuffer, parts) == Follow(start, handled)
        invariant refused >= old(refused)
        invariant connected ==> old(connected) && !AnyClose(handled) && refused == old(refused)
        invariant old(connected) && !connected && !AnyClose(handled) && refused == old(refused) ==>
          StoppedAt(Flat(batches), handled)
        invariant !old(connected) ==> handled == []
        decreases |batches| - i
      {
        handled := ReadBatch(batches, i, handled, start);
        i := i + 1;
      }
      if connected {
        AllHandled(batches, handled);
      }
    }

    /** What comes next is over the bound. */
    ghost predicate StoppedAt(all: seq<Event>, handled: seq<Event>)
      reads this
    {
      |handled| < |all| && Pending(parts) && TooBig(all[|handled|])
    }

    method ReadBatch(batches: seq<seq<Event>>, i: nat, ghost handled: seq<Event>, ghost start: Progress)
      returns (ghost handledNow: seq<Event>)
      requires i < |batches| && Ahead(batches, i, handled) && Regular(start.parts, Flat(batches))
      requires Valid() && Progress(inputBuffer, parts) == Follow(start, handled)
      modifies this
      ensures Bounded() && Progress(inputBuffer, parts) == Follow(start, handledNow) && handledNow <= Flat(batches)
      ensures connected ==> Ahead(batches, i + 1, handledNow) && Valid()
      ensures refused >= old(refused)
      ensures !AnyClose(handled) ==>
        && (connected ==> !AnyClose(handledNow) && refused == old(refused))
        && (!connected && !AnyClose(handledNow) && refused == old(refused) ==> StoppedAt(Flat(batches), handledNow))
    {
      BatchAhead(start, batches, i, handled);
      ghost var n: nat;
      var keepGoing: bool;
      keepGoing, n := HandleEvents(batches[i]);
      BatchHandled(start, batches, i, handled, n);
      ClosesIn(handled, batches[i][..n]);
      assert batches[i][..|batches[i]|] == batches[i];
      handledNow := handled + batches[i][..n];
      connected := keepGoing;
    }
  }

  /** The protocol library answers these events, and may refuse to. */
  predicate MayBeRefused(e: Event, isServer: bool) {
    e.Request? || e.Ping? || (e.Close? && isServer)
  }

  /** The code and the reason of the last close, or those from before. */
  function LastClose(start: (int, string), events: seq<Event>): (int, string) {
    if events == [] then start
    else
      var e := events[|events| - 1];
      if e.Close? then (e.code, e.reason) else LastClose(start, events[..|events| - 1])
  }

  ghost predicate AnyToRefuse(events: seq<Event>, isServer: bool) {
    exists e :: e in events && MayBeRefused(e, isServer)
  }

  lemma NotedMore(start: (int, string), events: seq<Event>, i: nat, isServer: bool)
    requires i < |events|
    ensures LastClose(start, events[..i + 1])
         == if events[i].Close? then (events[i].code, events[i].reason) else LastClose(start, events[..i])
    ensures Pong in events[..i + 1] <==> Pong in events[..i] || events[i].Pong?
    ensures AnyToRefuse(events[..i + 1], isServer) <==>
      AnyToRefuse(events[..i], isServer) || MayBeRefused(events[i], isServer)
  {
    assert events[..i + 1] == events[..i] + [events[i]];
  }

  lemma ClosesIn(a: seq<Event>, b: seq<Event>)
    ensures AnyClose(a + b) <==> AnyClose(a) || AnyClose(b)
  {
    if AnyClose(a) {
      var k :| 0 <= k < |a| && a[k].Close?;
      assert (a + b)[k].Close?;
    }
    if AnyClose(b) {
      var k :| 0 <= k < |b| && b[k].Close?;
      assert (a + b)[|a| + k].Close?;
    }
  }

  /** The batches from `i` on are still to come. */
  ghost predicate Ahead(batches: seq<seq<Event>>, i: nat, handled: seq<Event>)
    requires i <= |batches|
  {
    handled + Flat(batches[i..]) == Flat(batches)
  }

  lemma NothingHandled(batches: seq<seq<Event>>)
    ensures Ahead(batches, 0, []) && [] <= Flat(batches)
  {
    assert batches[0..] == batches;
  }

  lemma AllHandled(batches: seq<seq<Event>>, handled: seq<Event>)
    requires Ahead(batches, |batches|, handled)
    ensures handled == Flat(batches)
  {
    assert batches[|batches|..] == [];
  }

  lemma BatchAhead(start: Progress, batches: seq<seq<Event>>, i: nat, handled: seq<Event>)
    requires i < |batches| && Ahead(batches, i, handled) && Regular(start.parts, Flat(batches))
    ensures Regular(Follow(start, handled).parts, batches[i])
  {
    FlatStep(batches, i);
    NextBatch(start, handled, batches[i], Flat(batches[i + 1..]), Flat(batches));
  }

  lemma BatchHandled(start: Progress, batches: seq<seq<Event>>, i: nat, handled: seq<Event>, n: nat)
    requires i < |batches| && Ahead(batches, i, handled) && n <= |batches[i]|
    ensures handled + batches[i][..n] <= Flat(batches)
    ensures n < |batches[i]| ==>
      |handled| + n < |Flat(batches)| && Flat(batches)[|handled| + n] == batches[i][n]
    ensures n == |batches[i]| ==> Ahead(batches, i + 1, handled + batches[i][..n])
    ensures Follow(start, handled + batches[i][..n]) == Follow(Follow(start, handled), batches[i][..n])
  {
    FlatStep(batches, i);
    MoreHandled(start, handled, batches[i], n, Flat(batches[i + 1..]), Flat(batches));
  }

  function Flat(batches: seq<seq<Event>>): seq<Event> {
    if batches == [] then [] else batches[0] + Flat(batches[1..])
  }

  lemma FlatStep(batches: seq<seq<Event>>, i: nat)
    requires i <= |batches|
    ensures batches[0..] == batches
    ensures i < |batches| ==> Flat(batches[i..]) == batches[i] + Flat(batches[i + 1..])
  {
    if i < |batches| {
      assert batches[i..][1..] == batches[i + 1..];
    }
  }

  lemma NextBatch(start: Progress, done: seq<Event>, events: seq<Event>, rest: seq<Event>, all: seq<Event>)
    requires Regular(start.parts, all) && done + (events + rest) == all
    ensures Regular(Follow(start, done).parts, events)
  {
    FollowFrom(start.delivered, start.parts, done);
    RegularRest(start.parts, done, events + rest);
    RegularStart(Follow(start, done).parts, events, rest);
  }

  lemma MoreHandled(start: Progress, done: seq<Event>, events: seq<Event>, n: nat, rest: seq<Event>, all: seq<Event>)
    requires done + (events + rest) == all && n <= |events|
    ensures done + events[..n] <= all
    ensures n == |events| ==> (done + events[..n]) + rest == all
    ensures Follow(start, done + events[..n]) == Follow(Follow(start, done), events[..n])
  {
    FollowConcat(start, done, events[..n]);
  }
}
