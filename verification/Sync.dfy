/** Sending a message and waiting for its answer: `Socket::sendMessageSync`, its callback wrappers, the
    two layers of message callbacks, and the queries of `GenericSocket::Ctrl` on top. */
module Sync {
  import opened Options
  import opened Libnl
  import opened Handles
  import opened Family
  import opened Enumeration

  /** What libnl dispatches.  Messages no callback is set for are passed over. */
  datatype Incoming = Valid(payload: Payload) | Finish | Ack | Error(code: int) | Other

  /** `EPROTO` of `errno.h` */
  const EPROTO := 71

  predicate Terminates(m: Incoming) { m.Finish? || m.Ack? || m.Error? }

  /** `NL_STOP`: the rest of the datagram is not looked at.  `Finish` answers `NL_SKIP`. */
  predicate Stops(m: Incoming) { m.Ack? || m.Error? }

  function StatusOf(m: Incoming): int
    requires Terminates(m)
  {
    if m.Error? then (if m.code > 0 then -EPROTO else m.code) else 0
  }

  /** 0 for a finish or an ack; for an error its code, which libnl gives as not positive, and -71 otherwise. */
  predicate IsStatusOf(m: Incoming, status: int) {
    && (m.Finish? || m.Ack? ==> status == 0)
    && (m.Error? && m.code <= 0 ==> status == m.code)
    && (m.Error? && 0 < m.code ==> status == -71)
  }

  // ---------- what a call processes ----------

  /** One datagram: the status afterwards and the payloads delivered. */
  function Batch(msgs: seq<Incoming>, status: int): (int, seq<Payload>) {
    if msgs == [] then (status, [])
    else
      match msgs[0]
      case Valid(p) => var r := Batch(msgs[1..], status); (r.0, [p] + r.1)
      case Finish => Batch(msgs[1..], StatusOf(msgs[0]))
      case Ack => (StatusOf(msgs[0]), [])
      case Error(_) => (StatusOf(msgs[0]), [])
      case Other => Batch(msgs[1..], status)
  }

  function PayloadOf(m: Incoming): seq<Payload> {
    if m.Valid? then [m.payload] else []
  }

  /** A datagram partly looked at: what was delivered and what the rest will deliver make up `all`. */
  predicate Splits(all: (int, seq<Payload>), given: seq<Payload>, rest: seq<Incoming>, status: int) {
    var r := Batch(rest, status);
    r.0 == all.0 && given + r.1 == all.1
  }

  lemma SplitsNext(all: (int, seq<Payload>), given: seq<Payload>, rest: seq<Incoming>, status: int)
    requires rest != [] && Splits(all, given, rest, status)
    ensures var m := rest[0];
            var status' := if Terminates(m) then StatusOf(m) else status;
            if Stops(m) then (status', given + PayloadOf(m)) == all
            else Splits(all, given + PayloadOf(m), rest[1..], status')
  {
    var m := rest[0];
    if m.Valid? {
      var later := Batch(rest[1..], status).1;
      assert given + ([m.payload] + later) == (given + [m.payload]) + later;
    } else {
      assert given + [] == given;
    }
  }

  datatype Answer =
    | Returned(status: int, delivered: seq<Payload>, rest: seq<seq<Incoming>>)
    | Waiting(delivered: seq<Payload>)

  function Prepend(first: seq<Payload>, answer: Answer): Answer {
    match answer
    case Returned(s, d, rest) => Returned(s, first + d, rest)
    case Waiting(d) => Waiting(first + d)
  }

  /** A call on a stream of datagrams.  When they run out it is still waiting. */
  function Wait(stream: seq<seq<Incoming>>): Answer {
    if stream == [] then Waiting([])
    else
      var r := Batch(stream[0], 1);
      if r.0 <= 0 then Returned(r.0, r.1, stream[1..]) else Prepend(r.1, Wait(stream[1..]))
  }

  // ---------- callbacks ----------

  /** What the lambdas of the program capture by reference. */
  class Sink {
    var seen: seq<Payload>
    var family: Option<GenericFamily>
    var families: seq<GenericFamily>

    constructor ()
      ensures Contents() == Captured([], None, [])
    {
      seen, family, families := [], None, [];
    }

    function Contents(): Captured
      reads this
    {
      Captured(seen, family, families)
    }

    /** The bodies of the lambdas: any caller's own, and those of `getFamily` and `getFamilies`. */
    method Consume(action: Action, payload: Payload)
      modifies this
      ensures Contents() == Consumed(old(Contents()), action, payload)
    {
      seen := seen + [payload];
      match action {
        case Record =>
        case StoreFamily =>
          var parsed := ParseGenericFamily(EMPTY, payload);
          family := Some(parsed);
        case AppendFamily =>
          var parsed := ParseGenericFamily(EMPTY, payload);
          families := families + [parsed];
      }
    }
  }

  datatype Captured = Captured(seen: seq<Payload>, family: Option<GenericFamily>, families: seq<GenericFamily>)
  datatype Action = Record | StoreFamily | AppendFamily

  function Consumed(c: Captured, action: Action, payload: Payload): Captured {
    var seen := c.seen + [payload];
    match action
    case Record => c.(seen := seen)
    case StoreFamily => c.(seen := seen, family := Some(ParseFamily(payload)))
    case AppendFamily => c.(seen := seen, families := c.families + [ParseFamily(payload)])
  }

  function ConsumedAll(c: Captured, action: Action, payloads: seq<Payload>): Captured
    decreases |payloads|
  {
    if payloads == [] then c else ConsumedAll(Consumed(c, action, payloads[0]), action, payloads[1..])
  }

  lemma {:induction false} ConsumedInTwo(c: Captured, action: Action, a: seq<Payload>, b: seq<Payload>)
    ensures ConsumedAll(c, action, a + b) == ConsumedAll(ConsumedAll(c, action, a), action, b)
    decreases |a|
  {
    if a == [] {
      assert a + b == b;
    } else {
      assert (a + b)[1..] == a[1..] + b;
      ConsumedInTwo(Consumed(c, action, a[0]), action, a[1..], b);
    }
  }

  /** `function<void(Message)>`, empty, a caller's own, or wrapped for generic netlink. */
  datatype Callback = NoCallback | Plain(sink: Sink, action: Action) | Generic(sink: Sink, action: Action)

  function Sinks(cb: Callback): set<Sink> {
    if cb.NoCallback? then {} else {cb.sink}
  }

  ghost function CapturedBy(cb: Callback): Captured
    reads Sinks(cb)
  {
    if cb.NoCallback? then Captured([], None, []) else cb.sink.Contents()
  }

  /** The callback has been given exactly these payloads since `before`. */
  ghost predicate Got(cb: Callback, before: Captured, payloads: seq<Payload>)
    reads Sinks(cb)
  {
    cb.NoCallback? || cb.sink.Contents() == ConsumedAll(before, cb.action, payloads)
  }

  lemma GotMore(cb: Callback, before: Captured, given: seq<Payload>, more: seq<Payload>)
    ensures !cb.NoCallback? ==>
              ConsumedAll(before, cb.action, given + more) ==
              ConsumedAll(ConsumedAll(before, cb.action, given), cb.action, more)
  {
    if !cb.NoCallback? {
      ConsumedInTwo(before, cb.action, given, more);
    }
  }

  lemma PrependTwice(a: seq<Payload>, b: seq<Payload>, answer: Answer)
    ensures Prepend(a, Prepend(b, answer)) == Prepend(a + b, answer)
  {
    assert a + (b + answer.delivered) == (a + b) + answer.delivered;
  }

  lemma PrependNothing(answer: Answer)
    ensures Prepend([], answer) == answer
  {
    assert [] + answer.delivered == answer.delivered;
  }

  /** Every reference taken has been given back. */
  predicate Restored(before: Heap<Payload>, after: Heap<Payload>) {
    after.objs == before.objs && after.fault == before.fault && before.next <= after.next
  }

  // ---------- the socket ----------

  class Socket {
    const lib: Library<Payload>
    var incoming: seq<seq<Incoming>>
    var callStatus: int
    var validCallback: Callback

    constructor (lib: Library<Payload>, incoming: seq<seq<Incoming>>)
      ensures this.lib == lib && this.incoming == incoming && validCallback == NoCallback
    {
      this.lib, this.incoming, callStatus, validCallback := lib, incoming, 0, NoCallback;
    }

    /** `validCallback(Message(msg))`, and inside it `callback(GenericNetlinkMessage(msg.get()))`: each
        layer holds its own reference while the next one runs. */
    method ValidCallbackWrapper(p: Ptr)
      requires WellFormed(lib.heap) && p in lib.heap.objs
      modifies lib, Sinks(validCallback)
      ensures lib.heap == old(lib.heap)
      ensures !validCallback.NoCallback? ==>
                validCallback.sink.Contents() ==
                Consumed(old(validCallback.sink.Contents()), validCallback.action, old(lib.heap).objs[p].value)
    {
      ghost var h := lib.heap;
      if !validCallback.NoCallback? {
        GetThenPut(h, p);
        GetThenPut(GetRef(h, p), p);
        var message := new Handle<Payload>.Share(lib, MessageKind, p);
        if validCallback.Generic? {
          var inner := new Handle<Payload>.Share(lib, MessageKind, message.ptr);
          validCallback.sink.Consume(validCallback.action, lib.heap.objs[inner.ptr].value);
          inner.Destroy();
        } else {
          validCallback.sink.Consume(validCallback.action, lib.heap.objs[message.ptr].value);
        }
        message.Destroy();
      }
    }

    /** libnl gives one message to its callback; the result is whether to stop with the datagram. */
    method Dispatch(m: Incoming) returns (stop: bool)
      requires WellFormed(lib.heap)
      modifies this`callStatus, lib, Sinks(validCallback)
      ensures Restored(old(lib.heap), lib.heap)
      ensures stop == Stops(m) == (m.Ack? || m.Error?)
      ensures callStatus == if Terminates(m) then StatusOf(m) else old(callStatus)
      ensures if m.Finish? || m.Ack? || m.Error? then IsStatusOf(m, callStatus) else callStatus == old(callStatus)
      ensures Got(validCallback, old(CapturedBy(validCallback)), PayloadOf(m))
    {
      match m {
        case Valid(payload) =>
          var p := lib.New(payload);
          ghost var h := lib.heap;
          ValidCallbackWrapper(p);
          lib.Put(p);
          assert lib.heap.objs == h.objs - {p};
          stop := false;
          assert [payload][1..] == [];
        case Finish =>
          callStatus := 0;
          stop := false;
        case Ack =>
          callStatus := 0;
          stop := true;
        case Error(code) =>
          if code > 0 {
            callStatus := -EPROTO;
          } else {
            callStatus := code;
          }
          stop := true;
        case Other =>
          stop := false;
      }
    }

    /** `nl_recvmsgs` on the next datagram. */
    method Receive()
      requires WellFormed(lib.heap) && incoming != []
      modifies this`callStatus, this`incoming, lib, Sinks(validCallback)
      ensures Restored(old(lib.heap), lib.heap) && incoming == old(incoming)[1..]
      ensures callStatus == Batch(old(incoming)[0], old(callStatus)).0
      ensures Got(validCallback, old(CapturedBy(validCallback)), Batch(old(incoming)[0], old(callStatus)).1)
    {
      var msgs := incoming[0];
      incoming := incoming[1..];
      var i := 0;
      ghost var given, rest := [], msgs;
      ghost var all := Batch(msgs, callStatus);
      while i < |msgs|
        invariant 0 <= i <= |msgs| && rest == msgs[i..] && incoming == old(incoming)[1..]
        invariant Restored(old(lib.heap), lib.heap)
        invariant Splits(all, given, rest, callStatus)
        invariant Got(validCallback, old(CapturedBy(validCallback)), given)
      {
        SplitsNext(all, given, rest, callStatus);
        GotMore(validCallback, old(CapturedBy(validCallback)), given, PayloadOf(msgs[i]));
        var stop := Dispatch(msgs[i]);
        given, rest := given + PayloadOf(msgs[i]), rest[1..];
        if stop {
          return;
        }
        i := i + 1;
      }
      assert given + [] == given;
    }

    /** `sendMessageSync(message)`, from after the send.  `false`: still waiting when the stream ended. */
    method SendMessageSync() returns (returned: bool)
      requires WellFormed(lib.heap)
      modifies this`callStatus, this`incoming, lib, Sinks(validCallback)
      ensures var answer := Wait(old(incoming));
              && (returned <==> answer.Returned?)
              && Got(validCallback, old(CapturedBy(validCallback)), answer.delivered)
              && (returned ==> callStatus == answer.status && incoming == answer.rest)
              && (!returned ==> 0 < callStatus && incoming == [])
      ensures Restored(old(lib.heap), lib.heap)
    {
      callStatus := 1;
      ghost var given := [];
      ghost var answer := Wait(incoming);
      PrependNothing(answer);
      while callStatus > 0
        invariant callStatus == 1 || callStatus <= 0
        invariant answer == if callStatus == 1 then Prepend(given, Wait(incoming))
                            else Returned(callStatus, given, incoming)
        invariant Restored(old(lib.heap), lib.heap)
        invariant Got(validCallback, old(CapturedBy(validCallback)), given)
        decreases |incoming|, callStatus
      {
        if incoming == [] {
          assert given + [] == given;
          return false;
        }
        ghost var batch := Batch(incoming[0], 1);
        BatchStatus(incoming[0]);
        GotMore(validCallback, old(CapturedBy(validCallback)), given, batch.1);
        PrependTwice(given, batch.1, Wait(incoming[1..]));
        Receive();
        given := given + batch.1;
      }
      return true;
    }

    /** `sendMessageSync(message, callback)`: the callback replaces the installed one for the call. */
    method SendMessageSyncWith(callback: Callback) returns (returned: bool)
      requires WellFormed(lib.heap)
      modifies this, lib, Sinks(callback)
      ensures var answer := Wait(old(incoming));
              && (returned <==> answer.Returned?)
              && Got(callback, old(CapturedBy(callback)), answer.delivered)
              && (returned ==>
                    validCallback == old(validCallback) && callStatus == answer.status && incoming == answer.rest)
      ensures Restored(old(lib.heap), lib.heap)
    {
      var installed := validCallback;
      validCallback := callback;
      returned := SendMessageSync();
      if returned {
        validCallback := installed;
      }
    }
  }

  // ---------- the queries of `Ctrl` ----------

  /** `getFamily`: the last reply counts. */
  method GetFamily(socket: Socket) returns (result: Option<GenericFamily>, returned: bool)
    requires WellFormed(socket.lib.heap)
    modifies socket, socket.lib
    ensures returned <==> Wait(old(socket.incoming)).Returned?
    ensures returned ==>
              var replies := Wait(old(socket.incoming)).delivered;
              && result == (if replies == [] then None else Some(ParseFamily(replies[|replies| - 1])))
              && (replies != [] ==> IsParsed(EMPTY, replies[|replies| - 1], result.value))
    ensures returned ==> socket.validCallback == old(socket.validCallback)
  {
    var sink := new Sink();
    returned := socket.SendMessageSyncWith(Generic(sink, StoreFamily));
    result := sink.family;
    ghost var replies := Wait(old(socket.incoming)).delivered;
    LastFamily(Captured([], None, []), replies);
    if replies != [] {
      UpdatedIsParsed(EMPTY, replies[|replies| - 1]);
    }
  }

  /** `getFamilies`: every reply, in order. */
  method GetFamilies(socket: Socket) returns (result: seq<GenericFamily>, returned: bool)
    requires WellFormed(socket.lib.heap)
    modifies socket, socket.lib
    ensures returned <==> Wait(old(socket.incoming)).Returned?
    ensures returned ==>
              var replies := Wait(old(socket.incoming)).delivered;
              && result == Families(replies) && |result| == |replies|
              && forall i :: 0 <= i < |replies| ==> IsParsed(EMPTY, replies[i], result[i])
    ensures returned ==> socket.validCallback == old(socket.validCallback)
  {
    var sink := new Sink();
    returned := socket.SendMessageSyncWith(Generic(sink, AppendFamily));
    result := sink.families;
    ghost var replies := Wait(old(socket.incoming)).delivered;
    FamiliesFromNone(replies);
    forall i | 0 <= i < |replies|
      ensures IsParsed(EMPTY, replies[i], Families(replies)[i])
    {
      UpdatedIsParsed(EMPTY, replies[i]);
    }
  }

  lemma {:induction false} LastFamily(before: Captured, replies: seq<Payload>)
    ensures ConsumedAll(before, StoreFamily, replies).family ==
            if replies == [] then before.family else Some(ParseFamily(replies[|replies| - 1]))
    decreases |replies|
  {
    if replies != [] {
      var after := Consumed(before, StoreFamily, replies[0]);
      LastFamily(after, replies[1..]);
      assert after.family == Some(ParseFamily(replies[0]));
      assert 1 < |replies| ==> replies[1..][|replies| - 2] == replies[|replies| - 1];
    }
  }

  function Families(replies: seq<Payload>): seq<GenericFamily> {
    seq(|replies|, i requires 0 <= i < |replies| => ParseFamily(replies[i]))
  }

  lemma {:induction false} AllFamilies(before: Captured, replies: seq<Payload>)
    ensures ConsumedAll(before, AppendFamily, replies).families == before.families + Families(replies)
    decreases |replies|
  {
    if replies != [] {
      AllFamilies(Consumed(before, AppendFamily, replies[0]), replies[1..]);
      assert Families(replies) == [ParseFamily(replies[0])] + Families(replies[1..]);
    }
  }

  lemma FamiliesFromNone(replies: seq<Payload>)
    ensures ConsumedAll(Captured([], None, []), AppendFamily, replies).families == Families(replies)
  {
    AllFamilies(Captured([], None, []), replies);
    assert [] + Families(replies) == Families(replies);
  }

  /** A recording callback sees its messages as they are. */
  lemma {:induction false} AllSeen(before: Captured, action: Action, replies: seq<Payload>)
    ensures ConsumedAll(before, action, replies).seen == before.seen + replies
    decreases |replies|
  {
    if replies != [] {
      AllSeen(Consumed(before, action, replies[0]), action, replies[1..]);
    }
  }

  // ---------- when a call returns, and what it has delivered ----------

  ghost predicate Terminated(msgs: seq<Incoming>) {
    exists i :: 0 <= i < |msgs| && (msgs[i].Finish? || msgs[i].Ack? || msgs[i].Error?)
  }

  /** The status is 1 until the first finish, ack or error and never positive from then on. */
  lemma {:induction false} BatchStatus(msgs: seq<Incoming>)
    ensures Batch(msgs, 1).0 == 1 <==> !Terminated(msgs)
    ensures Terminated(msgs) ==> Batch(msgs, 1).0 <= 0
    ensures forall s :: s <= 0 ==> Batch(msgs, s).0 <= 0
  {
    if msgs != [] {
      BatchStatus(msgs[1..]);
      TerminatedNext(msgs);
    }
  }

  /** The first `k` messages are looked at: all of them, or those up to the first ack or error. */
  ghost predicate LookedAt(msgs: seq<Incoming>, k: int) {
    && 0 <= k <= |msgs|
    && (forall i :: 0 <= i < k - 1 ==> !msgs[i].Ack? && !msgs[i].Error?)
    && (k < |msgs| ==> 0 < k && (msgs[k - 1].Ack? || msgs[k - 1].Error?))
  }

  /** Among the first `k` messages, `l` is the last finish, ack or error. */
  ghost predicate Decides(msgs: seq<Incoming>, k: int, l: int) {
    && 0 <= l < k <= |msgs| && (msgs[l].Finish? || msgs[l].Ack? || msgs[l].Error?)
    && forall j :: l < j < k ==> !msgs[j].Finish? && !msgs[j].Ack? && !msgs[j].Error?
  }

  /** The status is that of the last finish, ack or error looked at. */
  ghost predicate Answers(msgs: seq<Incoming>, status: int) {
    exists k, l :: LookedAt(msgs, k) && Decides(msgs, k, l) && IsStatusOf(msgs[l], status)
  }

  lemma AnsweredLater(msgs: seq<Incoming>, status: int)
    requires msgs != [] && !msgs[0].Ack? && !msgs[0].Error? && Answers(msgs[1..], status)
    ensures Answers(msgs, status)
  {
    var k, l :| LookedAt(msgs[1..], k) && Decides(msgs[1..], k, l) && IsStatusOf(msgs[1..][l], status);
    assert LookedAt(msgs, k + 1) by {
      assert forall i :: 0 < i < k ==> msgs[i] == msgs[1..][i - 1];
    }
    assert Decides(msgs, k + 1, l + 1) by {
      assert forall j :: l + 1 < j < k + 1 ==> msgs[j] == msgs[1..][j - 1];
    }
  }

  lemma AnsweredByFinish(msgs: seq<Incoming>)
    requires msgs != [] && msgs[0].Finish? && !Terminated(msgs[1..])
    ensures Answers(msgs, 0)
  {
    assert forall i :: 0 < i < |msgs| ==> msgs[i] == msgs[1..][i - 1];
    assert LookedAt(msgs, |msgs|) && Decides(msgs, |msgs|, 0);
  }

  /** Exactly which message decides the status a datagram leaves behind. */
  lemma {:induction false} BatchAnswers(msgs: seq<Incoming>, status: int)
    ensures if Terminated(msgs) then Answers(msgs, Batch(msgs, status).0) else Batch(msgs, status).0 == status
  {
    if msgs != [] {
      if msgs[0].Ack? || msgs[0].Error? {
        assert LookedAt(msgs, 1) && Decides(msgs, 1, 0);
        assert Terminated(msgs);
      } else {
        BatchAnswers(msgs[1..], if msgs[0].Finish? then 0 else status);
        TerminatedNext(msgs);
        if Terminated(msgs[1..]) {
          AnsweredLater(msgs, Batch(msgs, status).0);
        } else if msgs[0].Finish? {
          AnsweredByFinish(msgs);
        }
      }
    }
  }

  lemma TerminatedNext(msgs: seq<Incoming>)
    requires msgs != []
    ensures Terminated(msgs) <==> msgs[0].Finish? || msgs[0].Ack? || msgs[0].Error? || Terminated(msgs[1..])
  {
    if i :| 0 <= i < |msgs[1..]| && (msgs[1..][i].Finish? || msgs[1..][i].Ack? || msgs[1..][i].Error?) {
      assert msgs[i + 1] == msgs[1..][i];
    }
    if i :| 0 <= i < |msgs| && (msgs[i].Finish? || msgs[i].Ack? || msgs[i].Error?) {
      assert 0 < i ==> msgs[i] == msgs[1..][i - 1];
    }
  }

  // ---------- what is delivered ----------

  /** Message `j` of a datagram is delivered if it is valid and no ack or error stands before it. */
  ghost function DeliveredAt(msgs: seq<Incoming>, j: int): Option<Payload> {
    if 0 <= j < |msgs| && msgs[j].Valid? && forall i :: 0 <= i < j ==> !msgs[i].Ack? && !msgs[i].Error?
    then Some(msgs[j].payload) else None
  }

  /** Those from message `k` on. */
  ghost function DeliveredFrom(msgs: seq<Incoming>, k: int): int -> Option<Payload> {
    (j: int) => if k <= j then DeliveredAt(msgs, j) else None
  }

  ghost function OnlyDelivered(msgs: seq<Incoming>, k: int): int -> Option<Payload> {
    (j: int) => if j == k then DeliveredAt(msgs, k) else None
  }

  /** No ack or error among the first `k` messages. */
  ghost predicate NoStop(msgs: seq<Incoming>, k: int) {
    0 <= k <= |msgs| && forall i :: 0 <= i < k ==> !msgs[i].Ack? && !msgs[i].Error?
  }

  lemma OneDelivered(msgs: seq<Incoming>, k: nat)
    requires k < |msgs| && NoStop(msgs, k)
    ensures Lists(PayloadOf(msgs[k]), Before, OnlyDelivered(msgs, k))
  {
    var at: seq<int> := if msgs[k].Valid? then [k] else [];
    assert msgs[k].Valid? ==> at[0] == k;
    assert Enumerates(PayloadOf(msgs[k]), at, Before, OnlyDelivered(msgs, k));
  }

  lemma DeliveredNext(later: seq<Payload>, msgs: seq<Incoming>, k: nat)
    requires k < |msgs| && NoStop(msgs, k) && Lists(later, Before, DeliveredFrom(msgs, k + 1))
    ensures Lists(PayloadOf(msgs[k]) + later, Before, DeliveredFrom(msgs, k))
  {
    OneDelivered(msgs, k);
    ListsBoth(PayloadOf(msgs[k]), later, Before,
              OnlyDelivered(msgs, k), DeliveredFrom(msgs, k + 1), DeliveredFrom(msgs, k));
  }

  lemma NothingDelivered(msgs: seq<Incoming>, k: nat)
    requires k == |msgs| || (k < |msgs| && (msgs[k].Ack? || msgs[k].Error?))
    ensures Lists([], Before, DeliveredFrom(msgs, k))
  {
    ListsNothing(Before, DeliveredFrom(msgs, k));
  }

  lemma {:induction false} RestDelivers(msgs: seq<Incoming>, k: nat, status: int)
    requires NoStop(msgs, k)
    ensures Lists(Batch(msgs[k..], status).1, Before, DeliveredFrom(msgs, k))
    decreases |msgs| - k
  {
    if k == |msgs| || msgs[k].Ack? || msgs[k].Error? {
      NothingDelivered(msgs, k);
    } else {
      var status' := if msgs[k].Finish? then 0 else status;
      RestDelivers(msgs, k + 1, status');
      var later := Batch(msgs[k + 1..], status').1;
      DeliveredNext(later, msgs, k);
      assert msgs[k..][1..] == msgs[k + 1..];
      assert [] + later == later;
    }
  }

  /** What a datagram delivers are its valid messages before the first ack or error, each once, in order and
      whatever the status. */
  lemma BatchDelivers(msgs: seq<Incoming>, status: int)
    ensures Lists(Batch(msgs, status).1, Before, DeliveredFrom(msgs, 0))
  {
    RestDelivers(msgs, 0, status);
    assert msgs[0..] == msgs;
  }

  /** Message `p.minor` of datagram `p.major`, for the datagrams from `m` up to `n`. */
  ghost function DeliveredIn(stream: seq<seq<Incoming>>, m: int, n: int): Pair -> Option<Payload> {
    (p: Pair) =>
      if m <= p.major < n && 0 <= p.major < |stream| then DeliveredAt(stream[p.major], p.minor) else None
  }

  lemma OneDatagram(first: seq<Payload>, stream: seq<seq<Incoming>>, m: nat)
    requires m < |stream| && Lists(first, Before, DeliveredFrom(stream[m], 0))
    ensures Lists(first, Earlier, DeliveredIn(stream, m, m + 1))
  {
    ListsRow(first, m, DeliveredFrom(stream[m], 0), DeliveredIn(stream, m, m + 1));
  }

  lemma OneDatagramMore(first: seq<Payload>, later: seq<Payload>, stream: seq<seq<Incoming>>, m: nat, n: nat)
    requires m < n <= |stream| && Lists(first, Before, DeliveredFrom(stream[m], 0))
    requires Lists(later, Earlier, DeliveredIn(stream, m + 1, n))
    ensures Lists(first + later, Earlier, DeliveredIn(stream, m, n))
  {
    OneDatagram(first, stream, m);
    ListsBoth(first, later, Earlier, DeliveredIn(stream, m, m + 1), DeliveredIn(stream, m + 1, n),
              DeliveredIn(stream, m, n));
  }

  lemma NoDatagram(stream: seq<seq<Incoming>>, m: nat)
    ensures Lists([], Earlier, DeliveredIn(stream, m, m))
  {
    ListsNothing(Earlier, DeliveredIn(stream, m, m));
  }

  /** What is said of an answer to the datagrams from `m` on, of which the first `n` of all are used up. */
  ghost predicate Characterizes(answer: Answer, stream: seq<seq<Incoming>>, m: nat, n: nat) {
    && (answer.Returned? <==> exists i :: m <= i < |stream| && Terminated(stream[i]))
    && (answer.Returned? ==>
          && m < n <= |stream| && Terminated(stream[n - 1])
          && (forall i :: m <= i < n - 1 ==> !Terminated(stream[i]))
          && answer.rest == stream[n..]
          && Answers(stream[n - 1], answer.status))
    && (answer.Waiting? ==> n == |stream|)
    && Lists(answer.delivered, Earlier, DeliveredIn(stream, m, n))
  }

  lemma {:induction false} WaitFrom(stream: seq<seq<Incoming>>, m: nat) returns (n: nat)
    requires m <= |stream|
    ensures Characterizes(Wait(stream[m..]), stream, m, n)
    decreases |stream| - m
  {
    if m == |stream| {
      n := m;
      NoDatagram(stream, m);
    } else {
      assert stream[m..][1..] == stream[m + 1..];
      BatchStatus(stream[m]);
      BatchAnswers(stream[m], 1);
      BatchDelivers(stream[m], 1);
      var first := Batch(stream[m], 1).1;
      if Terminated(stream[m]) {
        n := m + 1;
        NoDatagram(stream, n);
        OneDatagramMore(first, [], stream, m, n);
        assert first + [] == first;
      } else {
        n := WaitFrom(stream, m + 1);
        OneDatagramMore(first, Wait(stream[m + 1..]).delivered, stream, m, n);
      }
    }
  }

  /** A call returns if and only if a finish, ack or error is somewhere in the stream.  It uses up the
      datagrams to the first one holding such a message, its status is that of the last one looked at there,
      and its callback gets exactly the valid messages looked at on the way, in order. */
  lemma WaitCharacterized(stream: seq<seq<Incoming>>) returns (n: nat)
    ensures Wait(stream).Returned? <==> exists i :: 0 <= i < |stream| && Terminated(stream[i])
    ensures Wait(stream).Returned? ==>
              && 1 <= n <= |stream| && Terminated(stream[n - 1])
              && (forall i :: 0 <= i < n - 1 ==> !Terminated(stream[i]))
              && Wait(stream).rest == stream[n..]
              && Answers(stream[n - 1], Wait(stream).status)
    ensures Wait(stream).Waiting? ==> n == |stream|
    ensures Lists(Wait(stream).delivered, Earlier, DeliveredIn(stream, 0, n))
  {
    n := WaitFrom(stream, 0);
    assert stream[0..] == stream;
  }

  /** `sendMessageSync(message, callback)` in one line: the callback has seen, after what it had seen
      before, exactly the valid messages looked at in the `n` datagrams the call used up. */
  method SendAndSee(socket: Socket, callback: Callback) returns (returned: bool, ghost n: nat)
    requires WellFormed(socket.lib.heap) && !callback.NoCallback?
    modifies socket, socket.lib, callback.sink
    ensures old(callback.sink.seen) <= callback.sink.seen
    ensures Lists(callback.sink.seen[|old(callback.sink.seen)|..], Earlier, DeliveredIn(old(socket.incoming), 0, n))
    ensures returned <==> exists i :: 0 <= i < |old(socket.incoming)| && Terminated(old(socket.incoming)[i])
    ensures returned ==>
              && 1 <= n <= |old(socket.incoming)| && Terminated(old(socket.incoming)[n - 1])
              && (forall i :: 0 <= i < n - 1 ==> !Terminated(old(socket.incoming)[i]))
              && Answers(old(socket.incoming)[n - 1], socket.callStatus)
              && socket.incoming == old(socket.incoming)[n..]
              && socket.validCallback == old(socket.validCallback)
    ensures !returned ==> n == |old(socket.incoming)|
    ensures Restored(old(socket.lib.heap), socket.lib.heap)
  {
    n := WaitCharacterized(socket.incoming);
    var delivered := Wait(socket.incoming).delivered;
    AllSeen(callback.sink.Contents(), callback.action, delivered);
    returned := socket.SendMessageSyncWith(callback);
    assert callback.sink.seen[|old(callback.sink.seen)|..] == delivered;
  }
}
