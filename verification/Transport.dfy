/**
 * The byte stream of a connection (apx/src/client_connection.c, apx/src/server_connection.c,
 * apx/src/file_manager.c): length-framed messages, cut anywhere, reassembled from fragments.
 */
module Transport {
  import opened Common
  import opened Bytes
  import opened Headers
  import opened Receivers

  /** What is done with the greeting, with commands and with writes to files. */
  datatype Application<!S> = Application(
    greet: seq<byte> -> Error,
    command: (S, seq<byte>) -> Result<S>,
    fileWrite: (S, nat, seq<byte>) -> Result<S>)

  datatype Link<S> = Link(isGreetingAccepted: bool, reception: Reception, app: S)

  /** process_message of apx/src/file_manager.c */
  function Dispatch<S>(a: Application<S>, s: S, m: Message): Result<S> {
    if m.address == CMD_AREA_START then a.command(s, m.data)
    else if m.address < CMD_AREA_START then a.fileWrite(s, m.address, m.data)
    else Err(InvalidAddressError)
  }

  /** apx_fileManager_message_received */
  function MessageReceived<S>(a: Application<S>, l: Link<S>, msg: seq<byte>): Result<Link<S>> {
    match ReadAddress(msg)
    case None => Err(InvalidMsgError)
    case Some(h) =>
      Advance(a, l, Receive(l.reception, h.address, msg[h.size..], h.more))
  }

  function Deliver<S>(a: Application<S>, l: Link<S>, msg: seq<byte>): Result<Link<S>> {
    if l.isGreetingAccepted then MessageReceived(a, l, msg)
    else if a.greet(msg) == NoError then Ok(l.(isGreetingAccepted := true))
    else Err(a.greet(msg))
  }

  /** parse_message: the bytes of one message, or 0 while it is incomplete. */
  function ParseMessage<S>(a: Application<S>, l: Link<S>, data: seq<byte>): Result<(Link<S>, nat)> {
    match ReadNum32(data)
    case None => Ok((l, 0))
    case Some((n, header)) =>
      if header + n > |data| then Ok((l, 0))
      else
        var l1 :- Deliver(a, l, data[header..header + n]);
        Ok((l1, header + n))
  }

  /** The loop of on_data_received: the link and the number of bytes used up. */
  function Feed<S>(a: Application<S>, l: Link<S>, data: seq<byte>): (r: Result<(Link<S>, nat)>)
    ensures r.Ok? ==> r.value.1 <= |data|
    decreases |data|
  {
    if |data| == 0 then Ok((l, 0)) else
      var (l1, n) :- ParseMessage(a, l, data);
      if n == 0 then Ok((l, 0)) else
        var (l2, m) :- Feed(a, l1, data[n..]);
        Ok((l2, n + m))
  }

  /** Every step of the loop stops or uses up at least one byte of the data, and never more than there is. */
  lemma StepProgress<S>(a: Application<S>, l: Link<S>, data: seq<byte>)
    requires ParseMessage(a, l, data).Ok?
    ensures var (l1, n) := ParseMessage(a, l, data).value;
            n <= |data| && (n == 0 ==> l1 == l) && (n == 0 <==> ReadNum32(data).None? || ReadNum32(data).value.0 + ReadNum32(data).value.1 > |data|)
  {
  }

  lemma FeedNothing<S>(a: Application<S>, l: Link<S>)
    ensures Feed(a, l, []) == Ok((l, 0))
  {
  }

  /** One turn of the loop. */
  lemma FeedStep<S>(a: Application<S>, l: Link<S>, data: seq<byte>)
    requires |data| > 0
    ensures var p := ParseMessage(a, l, data);
            && (p.Err? ==> Feed(a, l, data) == Err(p.error))
            && (p.Ok? ==> p.value.1 <= |data|)
            && (p.Ok? && p.value.1 == 0 ==> p.value.0 == l && Feed(a, l, data) == Ok((l, 0)))
            && (p.Ok? && p.value.1 > 0 ==> Feed(a, l, data) == Shifted(p.value.1, Feed(a, p.value.0, data[p.value.1..])))
  {
    hide ParseMessage;
    if ParseMessage(a, l, data).Ok? {
      StepProgress(a, l, data);
    }
  }

  lemma ShiftedSum<S>(n: nat, m: nat, r: Result<(Link<S>, nat)>)
    ensures Shifted(n, Shifted(m, r)) == Shifted(n + m, r)
  {
  }

  // ---------- any chunking of a stream ----------

  /** The link and the unparsed tail after one call. */
  function FeedOnce<S>(a: Application<S>, l: Link<S>, data: seq<byte>): Result<(Link<S>, seq<byte>)> {
    var (l1, n) :- Feed(a, l, data);
    Ok((l1, data[n..]))
  }

  /** A call per chunk, the unparsed tail being kept in front of the next chunk. */
  function FeedAll<S>(a: Application<S>, l: Link<S>, tail: seq<byte>, chunks: seq<seq<byte>>): Result<(Link<S>, seq<byte>)>
    decreases |chunks|
  {
    if |chunks| == 0 then Ok((l, tail)) else
      var (l1, rest) :- FeedOnce(a, l, tail + chunks[0]);
      FeedAll(a, l1, rest, chunks[1..])
  }

  function Concat(chunks: seq<seq<byte>>): seq<byte> {
    if |chunks| == 0 then [] else chunks[0] + Concat(chunks[1..])
  }

  /** A message parsed at the front of a stream is parsed the same when more bytes follow. */
  lemma ParseStable<S>(a: Application<S>, l: Link<S>, x: seq<byte>, y: seq<byte>)
    requires ParseMessage(a, l, x).Err? || ParseMessage(a, l, x).value.1 > 0
    ensures ParseMessage(a, l, x + y) == ParseMessage(a, l, x)
  {
    Num32Stable(x, y);
    var (n, header) := ReadNum32(x).value;
    assert (x + y)[header..header + n] == x[header..header + n];
  }

  /** Feeding a stream in two parts, the second behind the unparsed tail of the first. */
  lemma {:induction false} FeedSplit<S>(a: Application<S>, l: Link<S>, x: seq<byte>, y: seq<byte>)
    ensures Feed(a, l, x).Err? ==> Feed(a, l, x + y) == Err(Feed(a, l, x).error)
    ensures Feed(a, l, x).Ok? ==>
      var (l1, n) := Feed(a, l, x).value;
      Feed(a, l, x + y) == Shifted(n, Feed(a, l1, x[n..] + y))
    decreases |x|
  {
    hide ParseMessage;
    if |x| > 0 && (ParseMessage(a, l, x).Err? || ParseMessage(a, l, x).value.1 > 0) {
      ParseStable(a, l, x, y);
      if ParseMessage(a, l, x).Ok? {
        StepProgress(a, l, x);
        var (l1, n) := ParseMessage(a, l, x).value;
        FeedSplit(a, l1, x[n..], y);
        assert (x + y)[n..] == x[n..] + y;
        if Feed(a, l1, x[n..]).Ok? {
          var m := Feed(a, l1, x[n..]).value.1;
          assert x[n..][m..] == x[n + m..];
        }
      }
    } else {
      assert x[0..] + y == x + y;
      ShiftedByNothing(Feed(a, l, x + y));
    }
  }

  function Shifted<S>(n: nat, r: Result<(Link<S>, nat)>): Result<(Link<S>, nat)> {
    match r
    case Ok((l, m)) => Ok((l, n + m))
    case Err(e) => Err(e)
  }

  lemma ShiftedByNothing<S>(r: Result<(Link<S>, nat)>)
    ensures Shifted(0, r) == r
  {
  }

  /**
   * Chunking independence: a stream cut anywhere gives the same messages, the same state, the
   * same unparsed tail and the same error as the whole stream at once.
   */
  lemma {:induction false} ChunkingIndependence<S>(a: Application<S>, l: Link<S>, tail: seq<byte>, chunks: seq<seq<byte>>)
    requires Feed(a, l, tail) == Ok((l, 0))
    ensures FeedAll(a, l, tail, chunks) == FeedOnce(a, l, tail + Concat(chunks))
    decreases |chunks|
  {
    hide Feed;
    if |chunks| == 0 {
      assert tail + [] == tail && tail[0..] == tail;
    } else {
      var x, y := tail + chunks[0], Concat(chunks[1..]);
      assert tail + Concat(chunks) == x + y;
      FeedSplit(a, l, x, y);
      if Feed(a, l, x).Ok? {
        var (l1, n) := Feed(a, l, x).value;
        FeedExhausts(a, l, x);
        ChunkingIndependence(a, l1, x[n..], chunks[1..]);
        if Feed(a, l1, x[n..] + y).Ok? {
          var m := Feed(a, l1, x[n..] + y).value.1;
          assert (x + y)[n + m..] == (x[n..] + y)[m..];
        }
      }
    }
  }

  /** The tail a call leaves behind holds no complete message. */
  lemma {:induction false} FeedExhausts<S>(a: Application<S>, l: Link<S>, data: seq<byte>)
    requires Feed(a, l, data).Ok?
    ensures var (l1, n) := Feed(a, l, data).value; Feed(a, l1, data[n..]) == Ok((l1, 0))
    decreases |data|
  {
    hide ParseMessage;
    assert data[0..] == data;
    if |data| > 0 && ParseMessage(a, l, data).value.1 > 0 {
      StepProgress(a, l, data);
      var (l1, n) := ParseMessage(a, l, data).value;
      FeedExhausts(a, l1, data[n..]);
      var m := Feed(a, l1, data[n..]).value.1;
      assert data[n..][m..] == data[n + m..];
    }
  }

  // ---------- fragments ----------

  function Frame(payload: seq<byte>): seq<byte> {
    NumBytes32(|payload|) + payload
  }

  /** A frame at the front of a stream delivers its payload and is used up. */
  lemma FrameFeeds<S>(a: Application<S>, l: Link<S>, payload: seq<byte>, rest: seq<byte>)
    requires |payload| <= NUM32_MAX_LONG
    ensures Deliver(a, l, payload).Err? ==> Feed(a, l, Frame(payload) + rest) == Err(Deliver(a, l, payload).error)
    ensures Deliver(a, l, payload).Ok? ==>
      Feed(a, l, Frame(payload) + rest) == Shifted(|Frame(payload)|, Feed(a, Deliver(a, l, payload).value, rest))
  {
    hide Deliver, ParseMessage, Frame;
    FrameParses(a, l, payload, rest);
    assert (Frame(payload) + rest)[|Frame(payload)|..] == rest;
  }

  lemma FrameParses<S>(a: Application<S>, l: Link<S>, payload: seq<byte>, rest: seq<byte>)
    requires |payload| <= NUM32_MAX_LONG
    ensures |Frame(payload)| > 0
    ensures Deliver(a, l, payload).Err? ==> ParseMessage(a, l, Frame(payload) + rest) == Err(Deliver(a, l, payload).error)
    ensures Deliver(a, l, payload).Ok? ==> ParseMessage(a, l, Frame(payload) + rest) == Ok((Deliver(a, l, payload).value, |Frame(payload)|))
  {
    hide Deliver, NumBytes32, ReadNum32;
    var data := Frame(payload) + rest;
    var header := |NumBytes32(|payload|)|;
    Num32RoundTrip(|payload|, payload + rest);
    Num32NotEmpty(|payload|);
    assert data == NumBytes32(|payload|) + (payload + rest);
    assert data[header..header + |payload|] == payload;
  }

  /** A message as it is sent: an address and its data, cut into fragments. */
  datatype Sent = Sent(address: nat, fragments: seq<seq<byte>>)

  function AsMessage(m: Sent): Message { Message(m.address, Concat(m.fragments)) }

  /** Every fragment carries its own address, the more bit on all but the last. */
  function FragmentStream(address: nat, fragments: seq<seq<byte>>): seq<byte>
    decreases |fragments|
  {
    if |fragments| == 0 then []
    else Frame(AddressBytes(address, |fragments| > 1) + fragments[0]) + FragmentStream(address + |fragments[0]|, fragments[1..])
  }

  /** Every fragment starts at an address that can be sent. */
  predicate Addressable(address: nat, fragments: seq<seq<byte>>)
    decreases |fragments|
  {
    |fragments| == 0 || (address <= HIGH_ADDR_MAX && Addressable(address + |fragments[0]|, fragments[1..]))
  }

  /** The link after a step of its reception. */
  function Advance<S>(a: Application<S>, l: Link<S>, step: Result<(Reception, Option<Message>)>): Result<Link<S>> {
    var (r, done) :- step;
    match done
    case None => Ok(l.(reception := r))
    case Some(m) =>
      var s :- Dispatch(a, l.app, m);
      Ok(l.(reception := r, app := s))
  }

  /** What becomes of a link that receives one more fragment. */
  lemma FragmentDelivers<S>(a: Application<S>, l: Link<S>, address: nat, more: bool, fragment: seq<byte>)
    requires l.isGreetingAccepted && address <= HIGH_ADDR_MAX
    ensures Deliver(a, l, AddressBytes(address, more) + fragment)
         == Advance(a, l, Receive(l.reception, address, fragment, more))
  {
    hide Receive, Dispatch, AddressBytes;
    AddressRoundTrip(address, more, fragment);
    assert (AddressBytes(address, more) + fragment)[|AddressBytes(address, more)|..] == fragment;
  }

  /** A reception into which the bytes `received` of a message at `start` have gone. */
  predicate Receiving(r: Reception, start: nat, received: seq<byte>) {
    && r.Valid() && r.received == received && start <= HIGH_ADDR_MAX
    && (r.start == start || (r.start == INVALID_ADDRESS && received == []))
    && 0 < r.capacity <= MAX_FILE_SIZE
  }

  lemma FragmentReceived(r: Reception, start: nat, received: seq<byte>, fragment: seq<byte>, more: bool)
    requires Receiving(r, start, received) && start + |received| <= HIGH_ADDR_MAX
    ensures var x := Receive(r, start + |received|, fragment, more);
            if |received| + |fragment| > r.capacity then x.Err?
            else if more then x.Ok? && Receiving(x.value.0, start, received + fragment) && x.value.0.capacity == r.capacity && x.value.1 == None
            else x == Ok((r.(start := INVALID_ADDRESS, received := []), Some(Message(start, received + fragment))))
  {
  }

  lemma AddressBytesSize(address: nat, more: bool)
    ensures |AddressBytes(address, more)| <= 4
  {
  }

  /** The fragments that are still to come complete the message, or overflow the buffer. */
  lemma {:induction false} FragmentsFeed<S>(a: Application<S>, l: Link<S>, start: nat, received: seq<byte>, fragments: seq<seq<byte>>, rest: seq<byte>)
    requires l.isGreetingAccepted && Receiving(l.reception, start, received)
    requires |fragments| > 0 && Addressable(start + |received|, fragments)
    requires forall i :: 0 <= i < |fragments| ==> |fragments[i]| <= MAX_FILE_SIZE
    ensures var data := received + Concat(fragments);
            var stream := FragmentStream(start + |received|, fragments);
            if |data| > l.reception.capacity then Feed(a, l, stream + rest).Err?
            else Feed(a, l, stream + rest) == FeedAfter(a, l, Dispatch(a, l.app, Message(start, data)), |stream|, rest)
    decreases |fragments|
  {
    hide Feed, Deliver, Receive, Dispatch, AddressBytes, Frame, Receiving;
    var address, more, first := start + |received|, |fragments| > 1, fragments[0];
    var payload := AddressBytes(address, more) + first;
    var later := FragmentStream(address + |first|, fragments[1..]);
    AddressBytesSize(address, more);
    assert Frame(payload) + later + rest == Frame(payload) + (later + rest);
    FrameFeeds(a, l, payload, later + rest);
    FragmentDelivers(a, l, address, more, first);
    FragmentReceived(l.reception, start, received, first, more);
    assert received + Concat(fragments) == received + first + Concat(fragments[1..]);
    if |received| + |first| <= l.reception.capacity {
      if more {
        var r := Receive(l.reception, address, first, more).value.0;
        var l1 := l.(reception := r);
        FragmentsFeed(a, l1, start, received + first, fragments[1..], rest);
        assert Idle(l1, l.app) == Idle(l, l.app);
        ShiftedTwice(|Frame(payload)|, |later|, a, l1, Dispatch(a, l.app, Message(start, received + Concat(fragments))), rest);
      } else {
        assert fragments[1..] == [] && later == [] && [] + rest == rest;
        assert received + first + [] == received + first;
        assert Frame(payload) + [] == Frame(payload);
      }
    }
  }

  /** The link between messages, with the application's new state. */
  function Idle<S>(l: Link<S>, s: S): Link<S> {
    l.(reception := l.reception.(start := INVALID_ADDRESS, received := []), app := s)
  }

  /** Going on with `rest` after a message of `n` stream bytes was dispatched. */
  function FeedAfter<S>(a: Application<S>, l: Link<S>, dispatched: Result<S>, n: nat, rest: seq<byte>): Result<(Link<S>, nat)> {
    var s :- dispatched;
    Shifted(n, Feed(a, Idle(l, s), rest))
  }

  lemma ShiftedTwice<S>(n: nat, m: nat, a: Application<S>, l: Link<S>, dispatched: Result<S>, rest: seq<byte>)
    ensures Shifted(n, FeedAfter(a, l, dispatched, m, rest)) == FeedAfter(a, l, dispatched, n + m, rest)
  {
    hide Feed;
  }

  // ---------- end to end ----------

  predicate Sendable(m: Sent, capacity: nat) {
    && |m.fragments| > 0 && Addressable(m.address, m.fragments)
    && |Concat(m.fragments)| <= capacity
  }

  function Stream(ms: seq<Sent>): seq<byte> {
    if |ms| == 0 then [] else FragmentStream(ms[0].address, ms[0].fragments) + Stream(ms[1..])
  }

  /** Every message dispatched once, in order. */
  function DispatchAll<S>(a: Application<S>, s: S, ms: seq<Sent>): Result<S> {
    if |ms| == 0 then Ok(s) else
      var s1 :- Dispatch(a, s, AsMessage(ms[0]));
      DispatchAll(a, s1, ms[1..])
  }

  lemma {:induction false} FragmentSizes(fragments: seq<seq<byte>>)
    ensures forall i :: 0 <= i < |fragments| ==> |fragments[i]| <= |Concat(fragments)|
  {
    if |fragments| > 0 {
      FragmentSizes(fragments[1..]);
      forall i | 0 <= i < |fragments| ensures |fragments[i]| <= |Concat(fragments)| {
        if i > 0 { assert fragments[i] == fragments[1..][i - 1]; }
      }
    }
  }

  /** The link with the application's new state, `n` bytes being used up. */
  function Arrived<S>(l: Link<S>, dispatched: Result<S>, n: nat): Result<(Link<S>, nat)> {
    var s :- dispatched;
    Ok((l.(app := s), n))
  }

  lemma {:induction false} StreamFeeds<S>(a: Application<S>, l: Link<S>, ms: seq<Sent>)
    requires l.isGreetingAccepted && l.reception.start == INVALID_ADDRESS && l.reception.received == []
    requires 0 < l.reception.capacity <= MAX_FILE_SIZE
    requires forall i :: 0 <= i < |ms| ==> Sendable(ms[i], l.reception.capacity)
    ensures Feed(a, l, Stream(ms)) == Arrived(l, DispatchAll(a, l.app, ms), |Stream(ms)|)
    decreases |ms|
  {
    hide Deliver, Receive, Dispatch, FragmentStream, ParseMessage;
    if |ms| > 0 {
      hide Feed;
      var m := ms[0];
      assert Sendable(m, l.reception.capacity);
      FragmentSizes(m.fragments);
      assert [] + Concat(m.fragments) == Concat(m.fragments);
      FragmentsFeed(a, l, m.address, [], m.fragments, Stream(ms[1..]));
      if Dispatch(a, l.app, AsMessage(m)).Ok? {
        var s := Dispatch(a, l.app, AsMessage(m)).value;
        assert Idle(l, s) == l.(app := s);
        StreamFeeds(a, l.(app := s), ms[1..]);
      }
    }
  }

  /** Any chunks of a stream of messages, in terms of what the application is asked to do. */
  lemma ChunksDispatch<S>(a: Application<S>, l: Link<S>, ms: seq<Sent>, chunks: seq<seq<byte>>)
    requires l.isGreetingAccepted && l.reception.start == INVALID_ADDRESS && l.reception.received == []
    requires 0 < l.reception.capacity <= MAX_FILE_SIZE
    requires forall i :: 0 <= i < |ms| ==> Sendable(ms[i], l.reception.capacity)
    requires Concat(chunks) == Stream(ms)
    ensures DispatchAll(a, l.app, ms).Ok? ==>
      FeedAll(a, l, [], chunks) == Ok((l.(app := DispatchAll(a, l.app, ms).value), []))
    ensures DispatchAll(a, l.app, ms).Err? ==> FeedAll(a, l, [], chunks) == Err(DispatchAll(a, l.app, ms).error)
  {
    hide Feed, FeedAll, Sendable, Stream, DispatchAll, Concat;
    FeedNothing(a, l);
    StreamFeeds(a, l, ms);
    ChunkingIndependence(a, l, [], chunks);
    assert [] + Concat(chunks) == Stream(ms);
    assert Stream(ms)[|Stream(ms)|..] == [];
  }

  /** What the application of a connection is asked to do. */
  datatype Call = Command(data: seq<byte>) | Write(address: nat, data: seq<byte>)

  /** An application that writes down what it is asked to do. */
  function Recorder(greet: seq<byte> -> Error): Application<seq<Call>> {
    Application(greet, (calls, data) => Ok(calls + [Command(data)]), (calls, address, data) => Ok(calls + [Write(address, data)]))
  }

  /** The call that a message stands for: commands have the one address 0x3FFFFC00, files all below it. */
  function CallOf(m: Sent): Call {
    if m.address == 0x3FFF_FC00 then Command(Concat(m.fragments)) else Write(m.address, Concat(m.fragments))
  }

  function CallsOf(ms: seq<Sent>): (r: seq<Call>)
    ensures |r| == |ms|
    ensures forall i :: 0 <= i < |ms| ==> r[i] == CallOf(ms[i])
  {
    seq(|ms|, i requires 0 <= i < |ms| => CallOf(ms[i]))
  }

  /** No message is addressed behind the command area's start. */
  predicate AllAddressed(ms: seq<Sent>) {
    forall i :: 0 <= i < |ms| ==> ms[i].address <= 0x3FFF_FC00
  }

  lemma {:induction false} CallsRecorded(greet: seq<byte> -> Error, calls: seq<Call>, ms: seq<Sent>)
    ensures DispatchAll(Recorder(greet), calls, ms) == if AllAddressed(ms) then Ok(calls + CallsOf(ms)) else Err(InvalidAddressError)
    decreases |ms|
  {
    hide Concat;
    if |ms| == 0 {
      assert calls + CallsOf(ms) == calls;
    } else if ms[0].address <= 0x3FFF_FC00 {
      var calls1 := calls + [CallOf(ms[0])];
      assert Dispatch(Recorder(greet), calls, AsMessage(ms[0])) == Ok(calls1);
      CallsRecorded(greet, calls1, ms[1..]);
      assert calls1 + CallsOf(ms[1..]) == calls + CallsOf(ms);
      if AllAddressed(ms[1..]) {
        forall i | 0 <= i < |ms| ensures ms[i].address <= 0x3FFF_FC00 {
          if i > 0 { assert ms[i] == ms[1..][i - 1]; }
        }
      }
    }
  }

  /**
   * End to end, from the first byte of a connection: a greeting, then messages cut into fragments
   * at any points, address-encoded, framed, and all of it delivered in any chunks. An accepted
   * greeting reaches nothing else; every message then leads to exactly one call, in order, with
   * its original address and data, commands and writes each to their own handler; nothing is left
   * over. A message behind the start of the command area is an error.
   */
  lemma EndToEnd(greet: seq<byte> -> Error, l: Link<seq<Call>>, greeting: seq<byte>, ms: seq<Sent>, chunks: seq<seq<byte>>)
    requires !l.isGreetingAccepted && l.reception.start == INVALID_ADDRESS && l.reception.received == []
    requires 0 < l.reception.capacity <= MAX_FILE_SIZE && |greeting| <= NUM32_MAX_LONG
    requires forall i :: 0 <= i < |ms| ==> Sendable(ms[i], l.reception.capacity)
    requires Concat(chunks) == Frame(greeting) + Stream(ms)
    ensures FeedAll(Recorder(greet), l, [], chunks)
         == if greet(greeting) != NoError then Err(greet(greeting))
            else if AllAddressed(ms) then Ok((l.(isGreetingAccepted := true, app := l.app + CallsOf(ms)), []))
            else Err(InvalidAddressError)
  {
    hide Feed, FeedAll, Sendable, Stream, DispatchAll, Concat, Frame, AllAddressed, CallsOf, Recorder;
    var a, data := Recorder(greet), Frame(greeting) + Stream(ms);
    var l1 := l.(isGreetingAccepted := true);
    RecorderGreets(greet);
    FeedNothing(a, l);
    ChunkingIndependence(a, l, [], chunks);
    assert [] + Concat(chunks) == data;
    FrameFeeds(a, l, greeting, Stream(ms));
    StreamFeeds(a, l1, ms);
    CallsRecorded(greet, l.app, ms);
    assert data[|data|..] == [];
  }

  lemma RecorderGreets(greet: seq<byte> -> Error)
    ensures Recorder(greet).greet == greet
  {
  }

  /** A framed message without a whole address header breaks the connection, and so does one whose fragment is not taken. */
  lemma MalformedIsRefused<S>(a: Application<S>, l: Link<S>, payload: seq<byte>, rest: seq<byte>)
    requires l.isGreetingAccepted && |payload| <= NUM32_MAX_LONG
    ensures |payload| < 2 || (payload[0] >= 0x80 && |payload| < 4) ==> Feed(a, l, Frame(payload) + rest) == Err(InvalidMsgError)
    ensures ReadAddress(payload).Some? ==>
      var h := ReadAddress(payload).value;
      var step := Receive(l.reception, h.address, payload[h.size..], h.more);
      step.Err? ==> Feed(a, l, Frame(payload) + rest) == Err(step.error)
  {
    hide Feed, Frame, Receive, Dispatch;
    ReadAddressExact(payload);
    FrameFeeds(a, l, payload, rest);
  }

  /** A message that does not fit the receive buffer breaks the connection. */
  lemma TooLargeIsRefused<S>(a: Application<S>, l: Link<S>, m: Sent, rest: seq<byte>)
    requires l.isGreetingAccepted && l.reception.start == INVALID_ADDRESS && l.reception.received == []
    requires 0 < l.reception.capacity <= MAX_FILE_SIZE
    requires |m.fragments| > 0 && Addressable(m.address, m.fragments)
    requires forall i :: 0 <= i < |m.fragments| ==> |m.fragments[i]| <= MAX_FILE_SIZE
    requires |Concat(m.fragments)| > l.reception.capacity
    ensures Feed(a, l, FragmentStream(m.address, m.fragments) + rest).Err?
  {
    hide Feed, FragmentStream;
    assert [] + Concat(m.fragments) == Concat(m.fragments);
    FragmentsFeed(a, l, m.address, [], m.fragments, rest);
  }

  // ---------- the connection object ----------

  class Connection<S(!new)> {
    const application: Application<S>
    const receiver: Receiver
    var isGreetingAccepted: bool
    var app: S
    var lastError: Error

    ghost predicate Valid()
      reads this, receiver
    {
      receiver.Valid()
    }

    ghost function Model(): Link<S>
      reads this, receiver, receiver.bufData
      requires Valid()
    {
      Link(isGreetingAccepted, receiver.Model(), app)
    }

    constructor (application: Application<S>, app: S)
      ensures Valid() && fresh(receiver) && fresh(receiver.bufData) && lastError == NoError && this.application == application
      ensures Model() == Link(false, Reception(CMD_AREA_SIZE, INVALID_ADDRESS, []), app)
    {
      this.application := application;
      receiver := new Receiver();
      isGreetingAccepted, this.app, lastError := false, app, NoError;
    }

    /** apx_fileManager_message_received and process_message */
    method ReceiveMessage(msg: seq<byte>) returns (error: Error)
      requires Valid()
      modifies this`app, receiver, receiver.bufData
      ensures Valid() && receiver.bufData == old(receiver.bufData)
      ensures match MessageReceived(application, old(Model()), msg)
              case Ok(l) => error == NoError && Model() == l
              case Err(x) => error == x
    {
      hide ReadAddress, Receive, Dispatch;
      var header := ReadAddress(msg);
      if header.None? {
        return InvalidMsgError;
      }
      HeaderInside(msg);
      var h := header.value;
      var done;
      error, done := receiver.Write(h.address, msg[h.size..], h.more);
      if error == NoError && done.Some? {
        var s := Dispatch(application, app, done.value);
        if s.Err? {
          return s.error;
        }
        app := s.value;
      }
    }

    /** parse_message, on the bytes from the current position on */
    method ParseOne(data: seq<byte>) returns (error: Error, used: nat)
      requires Valid()
      modifies this`app, this`isGreetingAccepted, receiver, receiver.bufData
      ensures Valid() && receiver.bufData == old(receiver.bufData)
      ensures match ParseMessage(application, old(Model()), data)
              case Ok((l, n)) => error == NoError && used == n && Model() == l
              case Err(x) => error == x
      ensures used <= |data|
    {
      hide MessageReceived;
      used := 0;
      var next, msgSize := DecodeNum32(data);
      if next == 0 {
        return NoError, 0;
      }
      if next + msgSize > |data| {
        return NoError, 0;
      }
      var msg := data[next..next + msgSize];
      if isGreetingAccepted {
        error := ReceiveMessage(msg);
      } else {
        error := application.greet(msg);
        if error == NoError {
          isGreetingAccepted := true;
        }
      }
      used := next + msgSize;
    }

    /** on_data_received: 0 and the number of bytes used up, or -1. */
    method OnDataReceived(data: seq<byte>) returns (rc: int, parseLen: nat)
      requires Valid()
      requires Honest(application)
      modifies this`app, this`isGreetingAccepted, this`lastError, receiver, receiver.bufData
      ensures Valid()
      ensures |data| == 0 ==> rc == -1
      ensures |data| > 0 ==>
        match Feed(application, old(Model()), data)
        case Ok((l, n)) => rc == 0 && parseLen == n && Model() == l && lastError == old(lastError)
        case Err(x) => rc == -1 && lastError == x
    {
      hide ParseMessage, Feed, Honest;
      parseLen := 0;
      if |data| == 0 {
        return -1, 0;
      }
      var next := 0;
      assert data[0..] == data;
      ghost var start := Model();
      ShiftedByNothing(Feed(application, start, data));
      while next < |data|
        invariant 0 <= next == parseLen <= |data| && Valid() && receiver.bufData == old(receiver.bufData)
        invariant lastError == old(lastError)
        invariant Feed(application, start, data) == Shifted(next, Feed(application, Model(), data[next..]))
        decreases |data| - next
      {
        FeedStep(application, Model(), data[next..]);
        ErrorsAreErrors(application, Model(), data[next..]);
        ghost var before := Model();
        var error, used := ParseOne(data[next..]);
        if error != NoError {
          lastError := error;
          return -1, 0;
        }
        if used == 0 {
          break;
        }
        assert data[next..][used..] == data[next + used..];
        ShiftedSum(next, used, Feed(application, Model(), data[next + used..]));
        next := next + used;
        parseLen := next;
      }
      if next == |data| {
        FeedNothing(application, Model());
      }
      return 0, parseLen;
    }
  }

  lemma HeaderInside(msg: seq<byte>)
    ensures ReadAddress(msg).Some? ==> ReadAddress(msg).value.size <= |msg|
  {
  }

  /** The application reports errors as errors. */
  ghost predicate Honest<S(!new)>(a: Application<S>) {
    && (forall s, d :: a.command(s, d) != Err(NoError))
    && (forall s, p, d :: a.fileWrite(s, p, d) != Err(NoError))
  }

  lemma ErrorsAreErrors<S(!new)>(a: Application<S>, l: Link<S>, data: seq<byte>)
    requires Honest(a)
    ensures ParseMessage(a, l, data) != Err(NoError)
  {
    hide UnpackBE;
  }
}
