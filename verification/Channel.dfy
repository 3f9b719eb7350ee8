/**
 The request/response correlation of `HidppChannel`: a queue of pending
 requests shared by the sending tasks and by one read thread.

 Each critical section of the program is a method of `HidppChannel` proved
 against a function on values; the same functions are the steps of a machine
 whose runs are all the interleavings, and the properties are proved of runs.
 */
module Channel {
  import opened Queues
  import opened Wrappers
  import opened Wire

  /** A request waiting for its response. */
  datatype Pending = Pending(id: nat, accepts: HidppMessage -> bool)

  // ---------------------------------------------------------------------
  // What one critical section does to the queue
  // ---------------------------------------------------------------------

  /** Position of the first queued request that accepts `msg`. */
  ghost function FirstAccepting(queue: seq<Pending>, msg: HidppMessage): (r: Option<nat>)
    ensures r.Some? ==> r.value < |queue| && queue[r.value].accepts(msg)
    ensures r.Some? ==> forall k :: 0 <= k < r.value ==> !queue[k].accepts(msg)
    ensures r.None? ==> forall k :: 0 <= k < |queue| ==> !queue[k].accepts(msg)
  {
    FirstWhere(queue, (p: Pending) => p.accepts(msg))
  }

  /** Position of the first queued request registered under `id`. */
  ghost function FirstWithId(queue: seq<Pending>, id: nat): (r: Option<nat>)
    ensures r.Some? ==> r.value < |queue| && queue[r.value].id == id
    ensures r.Some? ==> forall k :: 0 <= k < r.value ==> queue[k].id != id
    ensures r.None? ==> forall k :: 0 <= k < |queue| ==> queue[k].id != id
  {
    FirstWhere(queue, (p: Pending) => p.id == id)
  }

  /** The queue after the read thread matched `msg` against it. */
  ghost function AfterReport(queue: seq<Pending>, msg: HidppMessage): seq<Pending> {
    match FirstAccepting(queue, msg)
    case None => queue
    case Some(pos) => RemoveAt(queue, pos)
  }

  /** The queue after the guard of request `id` was dropped. */
  ghost function AfterDrop(queue: seq<Pending>, id: nat): seq<Pending> {
    match FirstWithId(queue, id)
    case None => queue
    case Some(pos) => RemoveAt(queue, pos)
  }

  // ---------------------------------------------------------------------
  // The program's critical sections
  // ---------------------------------------------------------------------

  class HidppChannel {
    var pending: seq<Pending>
    var nextPendingId: nat
    var listeners: set<nat>
    var nextListenerHdl: nat

    constructor ()
      ensures pending == [] && nextPendingId == 1
      ensures listeners == {} && nextListenerHdl == 1
    {
      pending, nextPendingId := [], 1;
      listeners, nextListenerHdl := {}, 1;
    }

    /** `pending_message_id.fetch_add(1)`. */
    method TakeRequestId() returns (id: nat)
      modifies this`nextPendingId
      ensures id == old(nextPendingId) && nextPendingId == id + 1
    {
      id := nextPendingId;
      nextPendingId := nextPendingId + 1;
    }

    /** `PendingRequest::register`, under the queue lock. */
    method Register(id: nat, accepts: HidppMessage -> bool)
      modifies this`pending
      ensures pending == old(pending) + [Pending(id, accepts)]
    {
      pending := pending + [Pending(id, accepts)];
    }

    /** `Drop for PendingRequest`, under the queue lock. */
    method DropRequest(id: nat)
      modifies this`pending
      ensures pending == AfterDrop(old(pending), id)
    {
      var pos := 0;
      while pos < |pending| && pending[pos].id != id
        invariant pos <= |pending| && pending == old(pending)
        invariant forall k :: 0 <= k < pos ==> pending[k].id != id
      {
        pos := pos + 1;
      }
      if pos < |pending| {
        pending := pending[..pos] + pending[pos + 1..];
      }
    }

    /** The read thread's turn under the queue lock. */
    method ResolveReport(msg: HidppMessage) returns (waiting: Option<nat>)
      modifies this`pending
      ensures pending == AfterReport(old(pending), msg)
      ensures waiting == TakenBy(old(pending), msg)
    {
      var pos := 0;
      while pos < |pending| && !pending[pos].accepts(msg)
        invariant pos <= |pending| && pending == old(pending)
        invariant forall k :: 0 <= k < pos ==> !pending[k].accepts(msg)
      {
        pos := pos + 1;
      }
      if pos < |pending| {
        waiting := Some(pending[pos].id);
        pending := pending[..pos] + pending[pos + 1..];
      } else {
        waiting := None;
      }
    }

    /** One turn of the read loop. */
    method TakeRead(read: Read) returns (told: seq<(HidppMessage, bool)>)
      modifies this`pending
      ensures (pending, told) == ReadOne(old(pending), read)
    {
      told := [];
      if read.Bytes? {
        var msg := ReadRaw(read.data);
        if msg.Some? {
          var waiting := ResolveReport(msg.value);
          told := [(msg.value, waiting.Some?)];
        }
      }
    }

    /**
     `read_loop` between two turns of the senders: failed reads and reports
     that are not HID++ are skipped, every other report is matched and then
     announced with whether it matched.
     */
    method ReadLoop(input: seq<Read>) returns (told: seq<(HidppMessage, bool)>)
      modifies this`pending
      ensures (pending, told) == ReadAll(old(pending), input)
    {
      told := [];
      var i := 0;
      while i < |input|
        invariant i <= |input|
        invariant (pending, told) == ReadAll(old(pending), input[..i])
      {
        assert input[..i + 1][..i] == input[..i];
        var more := TakeRead(input[i]);
        told := told + more;
        i := i + 1;
      }
      assert input[..i] == input;
    }

    /** `add_msg_listener`: the counter step and the insertion. */
    method AddListener() returns (hdl: nat)
      modifies this`listeners, this`nextListenerHdl
      ensures hdl == old(nextListenerHdl) && nextListenerHdl == hdl + 1
      ensures listeners == old(listeners) + {hdl}
    {
      hdl := nextListenerHdl;
      nextListenerHdl := nextListenerHdl + 1;
      listeners := listeners + {hdl};
    }

    /** `remove_msg_listener`, also what a dropped listener guard does. */
    method RemoveListener(hdl: nat) returns (found: bool)
      modifies this`listeners
      ensures listeners == old(listeners) - {hdl}
      ensures found <==> hdl in old(listeners)
    {
      found := hdl in listeners;
      listeners := listeners - {hdl};
    }
  }

  /** What `read_report` yields before the channel closes. */
  datatype Read = Bytes(data: seq<Byte>) | Failed

  /** The queue left by one read, and what listeners were told about it. */
  ghost function ReadOne(queue: seq<Pending>, read: Read): (seq<Pending>, seq<(HidppMessage, bool)>) {
    match read
    case Failed => (queue, [])
    case Bytes(data) =>
      match ReadRaw(data)
      case None => (queue, [])
      case Some(msg) => (AfterReport(queue, msg), [(msg, TakenBy(queue, msg).Some?)])
  }

  /** The queue left by a stretch of reads, and what listeners were told about it. */
  ghost function ReadAll(queue: seq<Pending>, input: seq<Read>): (seq<Pending>, seq<(HidppMessage, bool)>) {
    if input == [] then (queue, [])
    else
      var (q, told) := ReadAll(queue, input[..|input| - 1]);
      var (q', more) := ReadOne(q, input[|input| - 1]);
      (q', told + more)
  }

  /** The read is the written form of a message. */
  predicate Carries(read: Read, msg: HidppMessage) { read == Bytes(WriteRaw(msg)) }

  /** The read is a HID++ message of either width. */
  ghost predicate IsReport(read: Read) { exists msg: HidppMessage :: Carries(read, msg) }

  /** `queue` without its first entry that accepts the message, when one does. */
  ghost predicate LosesFirstAccepting(queue: seq<Pending>, msg: HidppMessage, after: seq<Pending>) {
    if forall k :: 0 <= k < |queue| ==> !queue[k].accepts(msg) then after == queue
    else exists k :: 0 <= k < |queue| && queue[k].accepts(msg) && after == queue[..k] + queue[k + 1..]
                     && forall j :: 0 <= j < k ==> !queue[j].accepts(msg)
  }

  /** Nothing read yet is nothing told. */
  lemma NothingRead(queue: seq<Pending>)
    ensures ReadAll(queue, []) == (queue, [])
  {}

  /**
   After any stretch of reads, the written form of a message, of either width,
   is announced next, with whether a queued request accepted it, and takes the
   first such request out; a failed read, or bytes that no message is written
   as, changes nothing.
   */
  lemma NextReadExactly(queue: seq<Pending>, input: seq<Read>, read: Read, msg: HidppMessage)
    ensures var (q, told) := ReadAll(queue, input);
            var (q', told') := ReadAll(queue, input + [read]);
            && (Carries(read, msg) ==>
                  && told' == told + [(msg, exists k :: 0 <= k < |q| && q[k].accepts(msg))]
                  && LosesFirstAccepting(q, msg, q'))
            && (!IsReport(read) ==> q' == q && told' == told)
  {
    assert (input + [read])[..|input|] == input;
    var (q, told) := ReadAll(queue, input);
    if Carries(read, msg) {
      RawRoundTrip(msg, WriteRaw(msg));
      TakesFirstAccepting(q, msg);
    } else if read.Bytes? && ReadRaw(read.data).Some? {
      RawRoundTrip(ReadRaw(read.data).value, read.data);
      assert Carries(read, ReadRaw(read.data).value);
    }
  }

  lemma TakesFirstAccepting(queue: seq<Pending>, msg: HidppMessage)
    ensures LosesFirstAccepting(queue, msg, AfterReport(queue, msg))
    ensures TakenBy(queue, msg).Some? <==> exists k :: 0 <= k < |queue| && queue[k].accepts(msg)
  {
    var at := FirstAccepting(queue, msg);
    if at.Some? {
      assert queue[at.value].accepts(msg);
    }
  }

  function Matches(told: seq<(HidppMessage, bool)>): nat {
    if told == [] then 0 else Matches(told[..|told| - 1]) + if told[|told| - 1].1 then 1 else 0
  }

  /** What was told is one announcement for each read that is a report, in order. */
  ghost predicate AnnouncesInOrder(input: seq<Read>, told: seq<(HidppMessage, bool)>) {
    if input == [] then told == []
    else if IsReport(input[|input| - 1]) then
      && told != []
      && Carries(input[|input| - 1], told[|told| - 1].0)
      && AnnouncesInOrder(input[..|input| - 1], told[..|told| - 1])
    else AnnouncesInOrder(input[..|input| - 1], told)
  }

  lemma OneMoreAnnounced(
      input: seq<Read>, told: seq<(HidppMessage, bool)>, read: Read, msg: HidppMessage, matched: bool)
    requires AnnouncesInOrder(input, told)
    ensures Carries(read, msg) ==> AnnouncesInOrder(input + [read], told + [(msg, matched)])
    ensures !IsReport(read) ==> AnnouncesInOrder(input + [read], told)
    ensures Matches(told + [(msg, matched)]) == Matches(told) + if matched then 1 else 0
  {
    assert (input + [read])[..|input|] == input;
    assert (told + [(msg, matched)])[..|told|] == told;
  }

  /** What a stretch of reads leaves to say about its queue and its announcements. */
  ghost predicate Accounted(queue: seq<Pending>, input: seq<Read>) {
    var (q, told) := ReadAll(queue, input);
    AnnouncesInOrder(input, told) && |q| + Matches(told) == |queue|
  }

  lemma ReportAccounted(queue: seq<Pending>, input: seq<Read>, read: Read, msg: HidppMessage)
    requires Accounted(queue, input) && Carries(read, msg)
    ensures Accounted(queue, input + [read])
  {
    var (q, told) := ReadAll(queue, input);
    var matched := exists k :: 0 <= k < |q| && q[k].accepts(msg);
    NextReadExactly(queue, input, read, msg);
    OneMoreAnnounced(input, told, read, msg, matched);
  }

  lemma OtherReadAccounted(queue: seq<Pending>, input: seq<Read>, read: Read)
    requires Accounted(queue, input) && !IsReport(read)
    ensures Accounted(queue, input + [read])
  {
    var any: HidppMessage := Short([0, 0, 0, 0, 0, 0]);
    NextReadExactly(queue, input, read, any);
    OneMoreAnnounced(input, ReadAll(queue, input).1, read, any, false);
  }

  /**
   Every HID++ report is announced once and in order, whatever else is read in
   between, and the queue shrinks by exactly the number announced as matched.
   */
  lemma {:induction false} EveryReportAnnounced(queue: seq<Pending>, input: seq<Read>)
    ensures Accounted(queue, input)
    decreases |input|
  {
    if input != [] {
      var front, last := input[..|input| - 1], input[|input| - 1];
      EveryReportAnnounced(queue, front);
      assert front + [last] == input;
      if msg: HidppMessage :| Carries(last, msg) {
        ReportAccounted(queue, front, last, msg);
      } else {
        OtherReadAccounted(queue, front, last);
      }
    }
  }

  /** The request a report resolves, if any. */
  ghost function TakenBy(queue: seq<Pending>, msg: HidppMessage): Option<nat> {
    match FirstAccepting(queue, msg)
    case None => None
    case Some(pos) => Some(queue[pos].id)
  }

  // ---------------------------------------------------------------------
  // Runs: every interleaving of senders, read thread and listeners
  // ---------------------------------------------------------------------

  /** A message a report put into a oneshot, with the report's position in the history. */
  datatype Delivery = Delivery(report: nat, msg: HidppMessage)

  /** How one `send_with_timeout` call ended. */
  datatype Outcome = Received(from: Delivery) | WriteFailed | Expired

  /** Where the `send_with_timeout` call that took a request id is. */
  datatype Phase =
    | Reserved                          // id taken, entry not queued yet
    | Writing                           // queued, report write under way
    | Waiting                           // queued, waiting on the oneshot
    | Finished(outcome: Outcome)

  datatype Report = Report(msg: HidppMessage, taken: Option<nat>)
  datatype Call = Call(hdl: nat, report: nat, msg: HidppMessage, matched: bool)

  /** Where the read thread is. */
  datatype Reader =
    | Polling
    | Resolved(report: nat, msg: HidppMessage, matched: bool)    // queue lock released
    | Calling(report: nat, msg: HidppMessage, matched: bool, snapshot: seq<nat>, done: nat)

  datatype State = State(
    pending: seq<Pending>,
    nextId: nat,
    sends: map<nat, Phase>,             // by request id
    inbox: map<nat, Delivery>,          // oneshot contents by request id
    listeners: set<nat>,
    nextHdl: nat,
    reader: Reader,
    reports: seq<Report>,               // history of the read thread
    calls: seq<Call>)                   // history of listener calls

  datatype Action =
    | Reserve
    | Enqueue(id: nat, accepts: HidppMessage -> bool)
    | WriteDone(id: nat)
    | WriteError(id: nat)
    | Receive(id: nat)
    | Expire(id: nat)                   // timeout, or the caller dropped the future
    | Arrive(msg: HidppMessage)
    | Snapshot(order: seq<nat>)
    | CallNext
    | Return
    | Listen
    | Unlisten(hdl: nat)

  const INITIAL: State := State([], 1, map[], map[], {}, 1, Polling, [], [])

  ghost predicate Distinct(s: seq<nat>) {
    forall i, j :: 0 <= i < j < |s| ==> s[i] != s[j]
  }

  predicate InFlight(phase: Phase) { phase.Writing? || phase.Waiting? }

  ghost predicate Enabled(s: State, a: Action) {
    match a
    case Reserve => true
    case Enqueue(id, _) => id in s.sends && s.sends[id].Reserved?
    case WriteDone(id) => id in s.sends && s.sends[id].Writing?
    case WriteError(id) => id in s.sends && s.sends[id].Writing?
    case Receive(id) => id in s.sends && s.sends[id].Waiting? && id in s.inbox
    case Expire(id) => id in s.sends && InFlight(s.sends[id])
    case Arrive(_) => s.reader.Polling?
    case Snapshot(order) =>
      s.reader.Resolved? && Distinct(order) && (forall h :: h in order <==> h in s.listeners)
    case CallNext => s.reader.Calling? && s.reader.done < |s.reader.snapshot|
    case Return => s.reader.Calling? && s.reader.done == |s.reader.snapshot|
    case Listen => true
    case Unlisten(_) => true
  }

  /** A call is over: its guard leaves the queue and its oneshot is dropped. */
  ghost function Finish(s: State, id: nat, outcome: Outcome): State {
    s.(pending := AfterDrop(s.pending, id),
       sends := s.sends[id := Finished(outcome)],
       inbox := s.inbox - {id})
  }

  ghost function Next(s: State, a: Action): State
    requires Enabled(s, a)
  {
    match a
    case Reserve => s.(nextId := s.nextId + 1, sends := s.sends[s.nextId := Reserved])
    case Enqueue(id, accepts) =>
      s.(pending := s.pending + [Pending(id, accepts)], sends := s.sends[id := Writing])
    case WriteDone(id) => s.(sends := s.sends[id := Waiting])
    case WriteError(id) => Finish(s, id, WriteFailed)
    case Receive(id) => Finish(s, id, Received(s.inbox[id]))
    case Expire(id) => Finish(s, id, Expired)
    case Arrive(msg) =>
      var taken := TakenBy(s.pending, msg);
      s.(pending := AfterReport(s.pending, msg),
         inbox := if taken.Some? then s.inbox[taken.value := Delivery(|s.reports|, msg)] else s.inbox,
         reader := Resolved(|s.reports|, msg, taken.Some?),
         reports := s.reports + [Report(msg, taken)])
    case Snapshot(order) =>
      s.(reader := Calling(s.reader.report, s.reader.msg, s.reader.matched, order, 0))
    case CallNext =>
      var r := s.reader;
      s.(calls := s.calls + [Call(r.snapshot[r.done], r.report, r.msg, r.matched)],
         reader := r.(done := r.done + 1))
    case Return => s.(reader := Polling)
    case Listen => s.(listeners := s.listeners + {s.nextHdl}, nextHdl := s.nextHdl + 1)
    case Unlisten(h) => s.(listeners := s.listeners - {h})
  }

  /** `states` are the states a run of the channel passes through. */
  ghost predicate IsRun(states: seq<State>, actions: seq<Action>) {
    && |states| == |actions| + 1
    && states[0] == INITIAL
    && forall i :: 0 <= i < |actions| ==> Enabled(states[i], actions[i]) && states[i + 1] == Next(states[i], actions[i])
  }

  // ---------------------------------------------------------------------
  // The invariant
  // ---------------------------------------------------------------------

  ghost function QueueIds(queue: seq<Pending>): set<nat> {
    set k | 0 <= k < |queue| :: queue[k].id
  }

  ghost predicate UniqueIds(queue: seq<Pending>) {
    forall i, j :: 0 <= i < j < |queue| ==> queue[i].id != queue[j].id
  }

  /** The queue holds exactly the live calls whose response has not been taken. */
  ghost predicate QueueExact(s: State) {
    && UniqueIds(s.pending)
    && (forall id :: id in s.sends ==> id < s.nextId)
    && (forall id :: id in QueueIds(s.pending) <==> id in s.sends && InFlight(s.sends[id]) && id !in s.inbox)
    && (forall id :: id in s.inbox ==> id in s.sends && InFlight(s.sends[id]))
  }

  /** A request taken by a report is in the queue no more, and no report takes it again. */
  ghost predicate HistoryExact(s: State) {
    && (forall i :: 0 <= i < |s.reports| && s.reports[i].taken.Some? ==>
          var id := s.reports[i].taken.value;
          id in s.sends && !s.sends[id].Reserved? && id !in QueueIds(s.pending))
    && (forall i, j :: 0 <= i < j < |s.reports| && s.reports[i].taken.Some? ==>
          s.reports[i].taken != s.reports[j].taken)
    && (forall id :: id in s.inbox ==> CameFrom(s, id, s.inbox[id]))
    && (forall id :: id in s.sends && s.sends[id].Finished? && s.sends[id].outcome.Received? ==>
          CameFrom(s, id, s.sends[id].outcome.from))
  }

  /** `d` is what the report it names said when it took request `id`. */
  ghost predicate CameFrom(s: State, id: nat, d: Delivery) {
    d.report < |s.reports| && s.reports[d.report] == Report(d.msg, Some(id))
  }

  /** What a listener was told about a report is what happened to it. */
  ghost predicate CallExact(s: State, c: Call) {
    && c.report < |s.reports|
    && c.msg == s.reports[c.report].msg
    && (c.matched <==> s.reports[c.report].taken.Some?)
  }

  /** Calls made about the report being announced are the tail of the call history. */
  ghost function CallsDone(r: Reader): nat { if r.Calling? then r.done else 0 }

  ghost predicate CallsExact(s: State) {
    && (forall i :: 0 <= i < |s.calls| ==> CallExact(s, s.calls[i]))
    && (forall i, j :: 0 <= i < j < |s.calls| && s.calls[i].report == s.calls[j].report ==>
          s.calls[i].hdl != s.calls[j].hdl)
    && (!s.reader.Polling? ==>
          && s.reader.report + 1 == |s.reports|
          && s.reader.msg == s.reports[s.reader.report].msg
          && (s.reader.matched <==> s.reports[s.reader.report].taken.Some?)
          && CallsDone(s.reader) <= |s.calls|
          && (forall i :: 0 <= i < |s.calls| - CallsDone(s.reader) ==> s.calls[i].report < s.reader.report))
    && (s.reader.Calling? ==> Distinct(s.reader.snapshot) && TailIsSnapshot(s))
  }

  ghost predicate TailIsSnapshot(s: State)
    requires s.reader.Calling? && s.reader.done <= |s.calls|
  {
    && s.reader.done <= |s.reader.snapshot|
    && forall k :: |s.calls| - s.reader.done <= k < |s.calls| ==>
         s.calls[k]
         == Call(s.reader.snapshot[k - (|s.calls| - s.reader.done)], s.reader.report, s.reader.msg, s.reader.matched)
  }

  ghost predicate Inv(s: State) {
    QueueExact(s) && HistoryExact(s) && CallsExact(s)
  }

  // ---------------------------------------------------------------------
  // Every step keeps the invariant
  // ---------------------------------------------------------------------

  /** Removing one position of a queue with unique ids removes exactly that id. */
  lemma RemoveAtIds(queue: seq<Pending>, pos: nat)
    requires pos < |queue| && UniqueIds(queue)
    ensures UniqueIds(RemoveAt(queue, pos))
    ensures QueueIds(RemoveAt(queue, pos)) == QueueIds(queue) - {queue[pos].id}
  {
    var rest := RemoveAt(queue, pos);
    assert forall k :: 0 <= k < |rest| ==> rest[k] == queue[if k < pos then k else k + 1];
    forall id | id in QueueIds(queue) && id != queue[pos].id ensures id in QueueIds(rest) {
      var k :| 0 <= k < |queue| && queue[k].id == id;
      assert rest[if k < pos then k else k - 1].id == id;
    }
  }

  lemma DropIds(queue: seq<Pending>, id: nat)
    requires UniqueIds(queue)
    ensures UniqueIds(AfterDrop(queue, id)) && QueueIds(AfterDrop(queue, id)) == QueueIds(queue) - {id}
  {
    var pos := FirstWithId(queue, id);
    if pos.Some? {
      RemoveAtIds(queue, pos.value);
    }
  }

  /** Calls stay exact while the read thread and the histories stand still. */
  lemma CallsFrame(s: State, t: State)
    requires CallsExact(s) && t.calls == s.calls && t.reports == s.reports && t.reader == s.reader
    ensures CallsExact(t)
  {
    forall i | 0 <= i < |t.calls| ensures CallExact(t, t.calls[i]) {
      assert CallExact(s, s.calls[i]);
    }
    if t.reader.Calling? {
      assert TailIsSnapshot(s);
    }
  }

  /** Queue and history stay exact while only the read thread's announcements and the listeners move. */
  lemma SendsFrame(s: State, t: State)
    requires QueueExact(s) && HistoryExact(s)
    requires t.pending == s.pending && t.sends == s.sends && t.inbox == s.inbox
    requires t.nextId == s.nextId && t.reports == s.reports
    ensures QueueExact(t) && HistoryExact(t)
  {
    forall id, d | CameFrom(s, id, d) ensures CameFrom(t, id, d) {}
  }

  lemma FinishKeepsQueue(s: State, id: nat, outcome: Outcome)
    requires QueueExact(s) && id in s.sends && InFlight(s.sends[id])
    ensures QueueExact(Finish(s, id, outcome))
    ensures QueueIds(Finish(s, id, outcome).pending) == QueueIds(s.pending) - {id}
  {
    DropIds(s.pending, id);
  }

  lemma FinishKeepsHistory(s: State, id: nat, outcome: Outcome)
    requires HistoryExact(s) && id in s.sends && InFlight(s.sends[id])
    requires outcome.Received? ==> id in s.inbox && s.inbox[id] == outcome.from
    requires QueueIds(Finish(s, id, outcome).pending) == QueueIds(s.pending) - {id}
    ensures HistoryExact(Finish(s, id, outcome))
  {
    var t := Finish(s, id, outcome);
    forall other, d | CameFrom(s, other, d) ensures CameFrom(t, other, d) {}
  }

  lemma FinishKeepsInv(s: State, id: nat, outcome: Outcome)
    requires Inv(s) && id in s.sends && InFlight(s.sends[id])
    requires outcome.Received? ==> id in s.inbox && s.inbox[id] == outcome.from
    ensures Inv(Finish(s, id, outcome))
  {
    FinishKeepsQueue(s, id, outcome);
    FinishKeepsHistory(s, id, outcome);
    CallsFrame(s, Finish(s, id, outcome));
  }

  lemma ArriveKeepsQueue(s: State, msg: HidppMessage)
    requires QueueExact(s) && s.reader.Polling?
    ensures QueueExact(Next(s, Arrive(msg)))
  {
    var pos := FirstAccepting(s.pending, msg);
    if pos.Some? {
      RemoveAtIds(s.pending, pos.value);
      assert s.pending[pos.value].id in QueueIds(s.pending);
    }
  }

  lemma ArriveKeepsHistory(s: State, msg: HidppMessage)
    requires QueueExact(s) && HistoryExact(s) && s.reader.Polling?
    ensures HistoryExact(Next(s, Arrive(msg)))
  {
    var t := Next(s, Arrive(msg));
    var pos := FirstAccepting(s.pending, msg);
    if pos.Some? {
      RemoveAtIds(s.pending, pos.value);
      assert s.pending[pos.value].id in QueueIds(s.pending);
    }
    forall id, d | CameFrom(s, id, d) ensures CameFrom(t, id, d) {
      assert t.reports[d.report] == s.reports[d.report];
    }
  }

  lemma ArriveKeepsCalls(s: State, msg: HidppMessage)
    requires CallsExact(s) && s.reader.Polling?
    ensures CallsExact(Next(s, Arrive(msg)))
  {
    var t := Next(s, Arrive(msg));
    forall i | 0 <= i < |t.calls| ensures CallExact(t, t.calls[i]) {
      assert CallExact(s, s.calls[i]);
    }
  }

  lemma EnqueueKeepsQueue(s: State, id: nat, accepts: HidppMessage -> bool)
    requires QueueExact(s) && Enabled(s, Enqueue(id, accepts))
    ensures QueueExact(Next(s, Enqueue(id, accepts)))
    ensures QueueIds(Next(s, Enqueue(id, accepts)).pending) == QueueIds(s.pending) + {id}
  {
    var t := Next(s, Enqueue(id, accepts));
    assert id !in QueueIds(s.pending);
    assert t.pending[|s.pending|].id == id;
    forall x | x in QueueIds(s.pending) ensures x in QueueIds(t.pending) {
      var k :| 0 <= k < |s.pending| && s.pending[k].id == x;
      assert t.pending[k].id == x;
    }
    forall i | 0 <= i < |s.pending| ensures t.pending[i].id != id {
      assert s.pending[i].id in QueueIds(s.pending);
    }
  }

  lemma EnqueueKeepsHistory(s: State, id: nat, accepts: HidppMessage -> bool)
    requires HistoryExact(s) && Enabled(s, Enqueue(id, accepts))
    requires QueueIds(Next(s, Enqueue(id, accepts)).pending) == QueueIds(s.pending) + {id}
    ensures HistoryExact(Next(s, Enqueue(id, accepts)))
  {
    var t := Next(s, Enqueue(id, accepts));
    forall other, d | CameFrom(s, other, d) ensures CameFrom(t, other, d) {}
  }

  lemma EnqueueKeepsInv(s: State, id: nat, accepts: HidppMessage -> bool)
    requires Inv(s) && Enabled(s, Enqueue(id, accepts))
    ensures Inv(Next(s, Enqueue(id, accepts)))
  {
    EnqueueKeepsQueue(s, id, accepts);
    EnqueueKeepsHistory(s, id, accepts);
    CallsFrame(s, Next(s, Enqueue(id, accepts)));
  }

  /** The listener called next has not been called about this report yet. */
  lemma NextListenerIsNew(s: State)
    requires CallsExact(s) && Enabled(s, CallNext)
    ensures forall i :: 0 <= i < |s.calls| && s.calls[i].report == s.reader.report ==>
              s.calls[i].hdl != s.reader.snapshot[s.reader.done]
  {
    assert TailIsSnapshot(s);
  }

  lemma CallNextExtendsTail(s: State)
    requires s.reader.Calling? && s.reader.done <= |s.calls| && TailIsSnapshot(s) && Enabled(s, CallNext)
    ensures TailIsSnapshot(Next(s, CallNext))
  {
    var t := Next(s, CallNext);
    var r, base := s.reader, |s.calls| - s.reader.done;
    forall k | base <= k < |t.calls| ensures t.calls[k] == Call(r.snapshot[k - base], r.report, r.msg, r.matched) {
      assert k < |s.calls| ==> t.calls[k] == s.calls[k];
    }
  }

  lemma CallNextKeepsCalls(s: State)
    requires CallsExact(s) && Enabled(s, CallNext)
    ensures CallsExact(Next(s, CallNext))
  {
    var t := Next(s, CallNext);
    NextListenerIsNew(s);
    forall i | 0 <= i < |t.calls| ensures CallExact(t, t.calls[i]) {
      assert i < |s.calls| ==> CallExact(s, s.calls[i]);
    }
    assert forall i :: 0 <= i < |s.calls| - s.reader.done ==> t.calls[i] == s.calls[i];
    CallNextExtendsTail(s);
  }

  lemma CallNextKeepsInv(s: State)
    requires Inv(s) && Enabled(s, CallNext)
    ensures Inv(Next(s, CallNext))
  {
    CallNextKeepsCalls(s);
    SendsFrame(s, Next(s, CallNext));
  }

  lemma SenderKeepsQueue(s: State, a: Action)
    requires QueueExact(s) && Enabled(s, a) && (a.Reserve? || a.WriteDone?)
    ensures QueueExact(Next(s, a))
  {}

  lemma SenderKeepsHistory(s: State, a: Action)
    requires QueueExact(s) && HistoryExact(s) && Enabled(s, a) && (a.Reserve? || a.WriteDone?)
    ensures HistoryExact(Next(s, a))
  {
    var t := Next(s, a);
    forall id, d | CameFrom(s, id, d) ensures CameFrom(t, id, d) {}
  }

  /** Steps of senders that touch neither queue nor histories. */
  lemma SenderKeepsInv(s: State, a: Action)
    requires Inv(s) && Enabled(s, a) && (a.Reserve? || a.WriteDone?)
    ensures Inv(Next(s, a))
  {
    SenderKeepsQueue(s, a);
    SenderKeepsHistory(s, a);
    CallsFrame(s, Next(s, a));
  }

  lemma SnapshotKeepsInv(s: State, order: seq<nat>)
    requires Inv(s) && Enabled(s, Snapshot(order))
    ensures Inv(Next(s, Snapshot(order)))
  {
    var t := Next(s, Snapshot(order));
    SendsFrame(s, t);
    assert CallsExact(t) by {
      forall i | 0 <= i < |t.calls| ensures CallExact(t, t.calls[i]) {
        assert CallExact(s, s.calls[i]);
      }
      assert TailIsSnapshot(t);
    }
  }

  /** Steps that only register listeners or end an announcement. */
  lemma ListenerKeepsInv(s: State, a: Action)
    requires Inv(s) && Enabled(s, a) && (a.Return? || a.Listen? || a.Unlisten?)
    ensures Inv(Next(s, a))
  {
    var t := Next(s, a);
    SendsFrame(s, t);
    if a.Return? {
      forall i | 0 <= i < |t.calls| ensures CallExact(t, t.calls[i]) {
        assert CallExact(s, s.calls[i]);
      }
    } else {
      CallsFrame(s, t);
    }
  }

  lemma NextKeepsInv(s: State, a: Action)
    requires Inv(s) && Enabled(s, a)
    ensures Inv(Next(s, a))
  {
    match a
    case Enqueue(id, accepts) => EnqueueKeepsInv(s, id, accepts);
    case WriteError(id) => FinishKeepsInv(s, id, WriteFailed);
    case Receive(id) => FinishKeepsInv(s, id, Outcome.Received(s.inbox[id]));
    case Expire(id) => FinishKeepsInv(s, id, Outcome.Expired);
    case Arrive(msg) =>
      ArriveKeepsQueue(s, msg);
      ArriveKeepsHistory(s, msg);
      ArriveKeepsCalls(s, msg);
    case CallNext => CallNextKeepsInv(s);
    case Reserve => SenderKeepsInv(s, a);
    case WriteDone(_) => SenderKeepsInv(s, a);
    case Snapshot(order) => SnapshotKeepsInv(s, order);
    case Return => ListenerKeepsInv(s, a);
    case Listen => ListenerKeepsInv(s, a);
    case Unlisten(_) => ListenerKeepsInv(s, a);
  }

  lemma {:induction false} RunKeepsInv(states: seq<State>, actions: seq<Action>, n: nat)
    requires IsRun(states, actions) && n < |states|
    ensures Inv(states[n])
  {
    if n > 0 {
      RunKeepsInv(states, actions, n - 1);
      NextKeepsInv(states[n - 1], actions[n - 1]);
    }
  }

  // ---------------------------------------------------------------------
  // What every run guarantees
  // ---------------------------------------------------------------------

  /** The queue with every entry of request `id` left out, in the same order. */
  ghost function Without(queue: seq<Pending>, id: nat): seq<Pending> {
    if queue == [] then []
    else (if queue[0].id == id then [] else [queue[0]]) + Without(queue[1..], id)
  }

  lemma {:induction false} WithoutAbsent(queue: seq<Pending>, id: nat)
    requires forall k :: 0 <= k < |queue| ==> queue[k].id != id
    ensures Without(queue, id) == queue
  {
    if queue != [] {
      assert forall k :: 0 <= k < |queue| - 1 ==> queue[1..][k] == queue[k + 1];
      WithoutAbsent(queue[1..], id);
    }
  }

  lemma {:induction false} RemoveIsWithout(queue: seq<Pending>, pos: nat)
    requires pos < |queue| && UniqueIds(queue)
    ensures RemoveAt(queue, pos) == Without(queue, queue[pos].id)
  {
    assert forall k :: 0 <= k < |queue| - 1 ==> queue[1..][k] == queue[k + 1];
    if pos == 0 {
      WithoutAbsent(queue[1..], queue[0].id);
      assert RemoveAt(queue, 0) == queue[1..];
    } else {
      assert UniqueIds(queue[1..]);
      RemoveIsWithout(queue[1..], pos - 1);
      assert RemoveAt(queue, pos) == [queue[0]] + RemoveAt(queue[1..], pos - 1);
    }
  }

  /** In every run the queue holds exactly the calls that are in flight and unanswered. */
  lemma QueueIsTheUnanswered(states: seq<State>, actions: seq<Action>, n: nat)
    requires IsRun(states, actions) && n < |states|
    ensures UniqueIds(states[n].pending)
    ensures forall id :: id in QueueIds(states[n].pending)
                         <==> id in states[n].sends && InFlight(states[n].sends[id]) && id !in states[n].inbox
    ensures (forall id :: id in states[n].sends ==> !InFlight(states[n].sends[id])) ==> states[n].pending == []
  {
    RunKeepsInv(states, actions, n);
    var s := states[n];
    if s.pending != [] {
      assert s.pending[0].id in QueueIds(s.pending);
    }
  }

  /**
   A guard that goes away, for whatever reason, takes its own entry and no
   other, and leaves the rest in order.
   */
  lemma GuardRemovesOnlyItsOwn(states: seq<State>, actions: seq<Action>, n: nat, id: nat)
    requires IsRun(states, actions) && n < |actions|
    requires actions[n] in {WriteError(id), Receive(id), Expire(id)}
    ensures states[n + 1].pending == Without(states[n].pending, id)
    ensures forall other :: other != id ==>
              && (other in states[n].sends <==> other in states[n + 1].sends)
              && (other in states[n].sends ==> states[n].sends[other] == states[n + 1].sends[other])
              && (other in states[n].inbox <==> other in states[n + 1].inbox)
              && (other in states[n].inbox ==> states[n].inbox[other] == states[n + 1].inbox[other])
  {
    RunKeepsInv(states, actions, n);
    var queue := states[n].pending;
    match FirstWithId(queue, id)
    case None => WithoutAbsent(queue, id);
    case Some(pos) => RemoveIsWithout(queue, pos);
  }

  /**
   A report resolves the first queued request that accepts it, only that one,
   and resolves none exactly when no unanswered request in flight accepts it.
   */
  lemma ReportResolvesTheFirstAccepting(states: seq<State>, actions: seq<Action>, n: nat, msg: HidppMessage)
    requires IsRun(states, actions) && n < |actions| && actions[n] == Arrive(msg)
    ensures var s, t := states[n], states[n + 1];
            var k := |s.reports|;
            && t.reports == s.reports + [Report(msg, t.reports[k].taken)]
            && (t.reports[k].taken.None? <==> forall p :: 0 <= p < |s.pending| ==> !s.pending[p].accepts(msg))
            && (t.reports[k].taken.None? ==> t.pending == s.pending && t.inbox == s.inbox)
            && (t.reports[k].taken.Some? ==>
                  var id := t.reports[k].taken.value;
                  && (exists p :: 0 <= p < |s.pending| && s.pending[p].id == id && s.pending[p].accepts(msg)
                                  && forall q :: 0 <= q < p ==> !s.pending[q].accepts(msg))
                  && id in s.sends && InFlight(s.sends[id])
                  && t.pending == Without(s.pending, id)
                  && t.inbox == s.inbox[id := Delivery(k, msg)] && id !in s.inbox)
            && t.sends == s.sends
  {
    RunKeepsInv(states, actions, n);
    var s := states[n];
    match FirstAccepting(s.pending, msg)
    case None =>
    case Some(pos) =>
      RemoveIsWithout(s.pending, pos);
      assert s.pending[pos].id in QueueIds(s.pending);
  }

  /** No request is ever resolved by two reports. */
  lemma ResolvedAtMostOnce(states: seq<State>, actions: seq<Action>, n: nat, i: nat, j: nat)
    requires IsRun(states, actions) && n < |states|
    requires i < j < |states[n].reports|
    ensures states[n].reports[i].taken.Some? ==> states[n].reports[i].taken != states[n].reports[j].taken
  {
    RunKeepsInv(states, actions, n);
  }

  lemma TakenWasQueued(queue: seq<Pending>, msg: HidppMessage)
    ensures TakenBy(queue, msg).Some? ==> TakenBy(queue, msg).value in QueueIds(queue)
  {
    var pos := FirstAccepting(queue, msg);
    assert pos.Some? ==> queue[pos.value].id in QueueIds(queue);
  }

  /** The call ended as `outcome`, and none of the reports from `from` on resolved it. */
  ghost predicate OverSince(s: State, id: nat, outcome: Phase, from: nat) {
    && id in s.sends && s.sends[id] == outcome && from <= |s.reports|
    && forall k :: from <= k < |s.reports| ==> s.reports[k].taken != Some(id)
  }

  lemma FinishedStep(s: State, a: Action, id: nat, outcome: Phase, from: nat)
    requires Inv(s) && Enabled(s, a) && outcome.Finished? && OverSince(s, id, outcome, from)
    ensures OverSince(Next(s, a), id, outcome, from)
  {
    if a.Arrive? {
      TakenWasQueued(s.pending, a.msg);
    }
  }

  lemma RunStep(states: seq<State>, actions: seq<Action>, i: nat)
    requires IsRun(states, actions) && i < |actions|
    ensures Enabled(states[i], actions[i]) && states[i + 1] == Next(states[i], actions[i])
  {}

  lemma OverOneMore(states: seq<State>, actions: seq<Action>, i: nat, id: nat, outcome: Phase, from: nat)
    requires IsRun(states, actions) && i < |actions|
    requires outcome.Finished? && OverSince(states[i], id, outcome, from)
    ensures OverSince(states[i + 1], id, outcome, from)
  {
    RunKeepsInv(states, actions, i);
    var s, a := states[i], actions[i];
    RunStep(states, actions, i);
    FinishedStep(s, a, id, outcome, from);
  }

  /** Once a call is over its outcome stands, and no later report resolves it. */
  lemma {:induction false} FinishedStaysFinished(states: seq<State>, actions: seq<Action>, n: nat, m: nat, id: nat)
    requires IsRun(states, actions) && n <= m < |states|
    requires id in states[n].sends && states[n].sends[id].Finished?
    ensures OverSince(states[m], id, states[n].sends[id], |states[n].reports|)
    decreases m - n
  {
    if n < m {
      FinishedStaysFinished(states, actions, n, m - 1, id);
      OverOneMore(states, actions, m - 1, id, states[n].sends[id], |states[n].reports|);
    }
  }

  /** Some step before `n` queued request `id` with predicate `accepts`. */
  ghost predicate Asked(actions: seq<Action>, n: nat, id: nat, accepts: HidppMessage -> bool)
    requires n <= |actions|
  {
    exists j :: 0 <= j < n && actions[j] == Enqueue(id, accepts)
  }

  ghost predicate Answers(actions: seq<Action>, n: nat, r: Report)
    requires n <= |actions|
  {
    r.taken.Some? ==> exists p: HidppMessage -> bool :: Asked(actions, n, r.taken.value, p) && p(r.msg)
  }

  /** Every queue entry was queued by some step, and every taken report answers one. */
  ghost predicate Traced(s: State, actions: seq<Action>, n: nat)
    requires n <= |actions|
  {
    && (forall k :: 0 <= k < |s.pending| ==> Asked(actions, n, s.pending[k].id, s.pending[k].accepts))
    && (forall i :: 0 <= i < |s.reports| ==> Answers(actions, n, s.reports[i]))
  }

  lemma AskedLater(actions: seq<Action>, n: nat, id: nat, accepts: HidppMessage -> bool)
    requires n < |actions| && (Asked(actions, n, id, accepts) || actions[n] == Enqueue(id, accepts))
    ensures Asked(actions, n + 1, id, accepts)
  {}

  lemma AnswersLater(actions: seq<Action>, n: nat, r: Report)
    requires n < |actions| && Answers(actions, n, r)
    ensures Answers(actions, n + 1, r)
  {
    if r.taken.Some? {
      var p: HidppMessage -> bool :| Asked(actions, n, r.taken.value, p) && p(r.msg);
      AskedLater(actions, n, r.taken.value, p);
    }
  }

  /** A step leaves in the queue what was there, but for the request it queues. */
  lemma QueuedByStep(s: State, a: Action, k: nat)
    requires Enabled(s, a) && k < |Next(s, a).pending|
    ensures var entry := Next(s, a).pending[k];
            entry in s.pending || a == Enqueue(entry.id, entry.accepts)
  {}

  lemma TracedQueueStep(s: State, actions: seq<Action>, n: nat, k: nat)
    requires n < |actions| && Enabled(s, actions[n]) && Traced(s, actions, n) && k < |Next(s, actions[n]).pending|
    ensures var entry := Next(s, actions[n]).pending[k];
            Asked(actions, n + 1, entry.id, entry.accepts)
  {
    var entry := Next(s, actions[n]).pending[k];
    QueuedByStep(s, actions[n], k);
    if entry in s.pending {
      var j :| 0 <= j < |s.pending| && s.pending[j] == entry;
      assert Asked(actions, n, s.pending[j].id, s.pending[j].accepts);
    }
    AskedLater(actions, n, entry.id, entry.accepts);
  }

  /** A report that takes a request answers one that was queued before. */
  lemma ArrivalAnswers(s: State, actions: seq<Action>, n: nat, msg: HidppMessage)
    requires n < |actions| && Traced(s, actions, n)
    ensures Answers(actions, n, Report(msg, TakenBy(s.pending, msg)))
  {
    var at := FirstAccepting(s.pending, msg);
    if at.Some? {
      var entry := s.pending[at.value];
      assert Asked(actions, n, entry.id, entry.accepts) && entry.accepts(msg);
    }
  }

  lemma ReportsByStep(s: State, a: Action)
    requires Enabled(s, a)
    ensures Next(s, a).reports
            == if a.Arrive? then s.reports + [Report(a.msg, TakenBy(s.pending, a.msg))] else s.reports
  {}

  lemma TracedStep(s: State, actions: seq<Action>, n: nat)
    requires n < |actions| && Enabled(s, actions[n]) && Traced(s, actions, n)
    ensures Traced(Next(s, actions[n]), actions, n + 1)
  {
    var a, t := actions[n], Next(s, actions[n]);
    forall k | 0 <= k < |t.pending| ensures Asked(actions, n + 1, t.pending[k].id, t.pending[k].accepts) {
      TracedQueueStep(s, actions, n, k);
    }
    ReportsByStep(s, a);
    forall i | 0 <= i < |t.reports| ensures Answers(actions, n + 1, t.reports[i]) {
      if i == |s.reports| {
        ArrivalAnswers(s, actions, n, a.msg);
      }
      AnswersLater(actions, n, t.reports[i]);
    }
  }

  lemma {:induction false} RunIsTraced(states: seq<State>, actions: seq<Action>, n: nat)
    requires IsRun(states, actions) && n < |states|
    ensures Traced(states[n], actions, n)
  {
    if n > 0 {
      RunIsTraced(states, actions, n - 1);
      TracedStep(states[n - 1], actions, n - 1);
    }
  }

  /**
   A call that returns a response returns a message that really arrived, that
   its own predicate accepts, and whose arrival resolved this very call.
   */
  lemma ResponseMatchesRequest(states: seq<State>, actions: seq<Action>, n: nat, id: nat)
    requires IsRun(states, actions) && n < |states|
    requires id in states[n].sends && states[n].sends[id].Finished? && states[n].sends[id].outcome.Received?
    ensures var from := states[n].sends[id].outcome.from;
            && from.report < |states[n].reports|
            && states[n].reports[from.report] == Report(from.msg, Some(id))
            && exists p: HidppMessage -> bool :: Asked(actions, n, id, p) && p(from.msg)
  {
    RunKeepsInv(states, actions, n);
    RunIsTraced(states, actions, n);
    var from := states[n].sends[id].outcome.from;
    assert CameFrom(states[n], id, from);
    assert Answers(actions, n, states[n].reports[from.report]);
  }

  /** What a listener is told about a report is whether it resolved a request. */
  lemma ListenersHearTheTruth(states: seq<State>, actions: seq<Action>, n: nat, i: nat)
    requires IsRun(states, actions) && n < |states| && i < |states[n].calls|
    ensures CallExact(states[n], states[n].calls[i])
  {
    RunKeepsInv(states, actions, n);
  }

  /** No listener hears of one report twice. */
  lemma HeardAtMostOnce(states: seq<State>, actions: seq<Action>, n: nat, i: nat, j: nat)
    requires IsRun(states, actions) && n < |states| && i < j < |states[n].calls|
    ensures states[n].calls[i].report == states[n].calls[j].report ==> states[n].calls[i].hdl != states[n].calls[j].hdl
  {
    RunKeepsInv(states, actions, n);
  }

  /** The calls a read thread owes its snapshot, in order. */
  ghost function CallsOwed(r: Reader): seq<Call>
    requires r.Calling?
  {
    seq(|r.snapshot|, k requires 0 <= k < |r.snapshot| => Call(r.snapshot[k], r.report, r.msg, r.matched))
  }

  /** The last calls made are those owed about the last report. */
  ghost predicate EveryoneCalled(s: State)
    requires s.reader.Calling?
  {
    && s.reader.report + 1 == |s.reports|
    && |s.reader.snapshot| <= |s.calls|
    && s.calls[|s.calls| - |s.reader.snapshot|..] == CallsOwed(s.reader)
  }

  lemma TailIsOwed(s: State)
    requires s.reader.Calling? && s.reader.done == |s.reader.snapshot| <= |s.calls| && TailIsSnapshot(s)
    ensures s.calls[|s.calls| - |s.reader.snapshot|..] == CallsOwed(s.reader)
  {
    var tail := s.calls[|s.calls| - |s.reader.snapshot|..];
    forall k | 0 <= k < |tail| ensures tail[k] == CallsOwed(s.reader)[k] {
      var at := |s.calls| - s.reader.done + k;
      assert tail[k] == s.calls[at];
    }
  }

  /** When the read thread moves on, everyone in its snapshot has been called, in order, about this report. */
  lemma EveryoneIsCalledInOrder(states: seq<State>, actions: seq<Action>, n: nat)
    requires IsRun(states, actions) && n < |states| && Enabled(states[n], Return)
    ensures EveryoneCalled(states[n])
  {
    RunKeepsInv(states, actions, n);
    TailIsOwed(states[n]);
  }
}
