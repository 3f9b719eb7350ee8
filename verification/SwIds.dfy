/**
 What leasing software ids buys the channels that read one shared report
 stream: a machine that interleaves the atomic steps of any number of openers
 with the channels they open, the read threads of those channels, and the drop
 of each channel field by field. The mask is the set of ids it stands for;
 `SwIdPool` ties the program's bit operations to that set.
 */
module SwIds {
  import opened ChannelLife
  import opened LeaseMask
  import opened Queues
  import opened SwIdPool
  import opened Wire
  import opened Wrappers

  // ---------------------------------------------------------------------
  // Openers, channels and the shared stream
  // ---------------------------------------------------------------------

  /** An opener between its atomic steps. */
  datatype Opener = Loaded(seen: set<nat>, free: nat) | Holding(id: nat)

  datatype Holder = AnOpener(opener: nat) | AChannel(channel: nat)

  /** `owner` is history: who last took each id that is out. */
  datatype State = State(
    mask: set<nat>,
    openers: map<nat, Opener>,
    channels: map<nat, Chan>,
    owner: map<nat, Holder>)

  datatype Action =
    | Open(channel: nat)
    | Load(opener: nat, free: Option<nat>)
    | CompareExchange(opener: nat)
    | SetPolicy(opener: nat, channel: nat)
    | Ask(channel: nat, request: Request)
    | Withdraw(channel: nat, position: nat)
    | Arrive(msg: HidppMessage)
    | SignalClose(channel: nat)
    | ExitThread(channel: nat, panicked: bool)
    | JoinThread(channel: nat)
    | DropField(channel: nat)

  const INITIAL: State := State({}, map[], map[], map[])

  ghost predicate Enabled(s: State, a: Action) {
    match a
    case Open(c) => c !in s.channels
    case Load(t, free) => t !in s.openers && IsLowestFree(s.mask, free)
    case CompareExchange(t) => t in s.openers && s.openers[t].Loaded?
    case SetPolicy(t, c) =>
      t in s.openers && s.openers[t].Holding? && c in s.channels && s.channels[c].policy.Default?
      && s.channels[c].owner.Using?
    case Ask(c, r) =>
      c in s.channels && s.channels[c].owner.Using? && WellFormed(r)
      && s.channels[c].policy == Leased(Num(SoftwareId(r)))
    case Withdraw(c, k) => c in s.channels && k < |s.channels[c].pending|
    case Arrive(_) => true
    case SignalClose(c) => c in s.channels && s.channels[c].owner.Using?
    case ExitThread(c, panicked) =>
      c in s.channels && s.channels[c].reader.Running? && (panicked || s.channels[c].told)
    case JoinThread(c) => c in s.channels && s.channels[c].owner.Signalled? && s.channels[c].reader.Exited?
    case DropField(c) => c in s.channels && s.channels[c].owner.Dropping? && s.channels[c].owner.next < |FIELDS|
  }

  /** Position of the queued request a report resolves. */
  ghost function FirstAnswered(pending: seq<Request>, msg: HidppMessage): (at: Option<nat>)
    ensures at.Some? ==> at.value < |pending| && Accepts(pending[at.value], msg)
  {
    FirstWhere(pending, (r: Request) => Accepts(r, msg))
  }

  /** A running read thread takes out the first request that accepts the report. */
  ghost function Hear(c: Chan, msg: HidppMessage): Chan {
    if c.reader.Exited? then c
    else match FirstAnswered(c.pending, msg)
      case None => c
      case Some(pos) => c.(pending := RemoveAt(c.pending, pos))
  }

  /** One channel replaced. */
  function Put(s: State, c: nat, chan: Chan): State { s.(channels := s.channels[c := chan]) }

  /** The step of dropping the policy field of a leased channel gives its id back. */
  predicate FreesLease(c: Chan) {
    c.policy.Leased? && c.owner.Dropping? && c.owner.next < |FIELDS| && FIELDS[c.owner.next].SwIdPolicy?
  }

  ghost function Next(s: State, a: Action): State
    requires Enabled(s, a)
  {
    match a
    case Open(c) => Put(s, c, FRESH_CHANNEL)
    case Load(t, free) =>
      if free.None? then s else s.(openers := s.openers[t := Loaded(s.mask, free.value)])
    case CompareExchange(t) =>
      var o := s.openers[t];
      if s.mask == o.seen then
        s.(mask := s.mask + {o.free},
           openers := s.openers[t := Holding(o.free)],
           owner := s.owner[o.free := AnOpener(t)])
      else s.(openers := s.openers - {t})
    case SetPolicy(t, c) =>
      var id := s.openers[t].id;
      s.(openers := s.openers - {t},
         channels := s.channels[c := s.channels[c].(policy := Leased(id))],
         owner := s.owner[id := AChannel(c)])
    case Ask(c, r) => Put(s, c, s.channels[c].(pending := s.channels[c].pending + [r]))
    case Withdraw(c, k) => Put(s, c, s.channels[c].(pending := RemoveAt(s.channels[c].pending, k)))
    case Arrive(msg) => s.(channels := map c | c in s.channels :: Hear(s.channels[c], msg))
    case SignalClose(c) => Put(s, c, Tell(s.channels[c]))
    case ExitThread(c, _) => Put(s, c, Exit(s.channels[c]))
    case JoinThread(c) => Put(s, c, Join(s.channels[c]))
    case DropField(c) =>
      var t := Put(s, c, DropNext(s.channels[c]));
      if FreesLease(s.channels[c]) then
        var id := s.channels[c].policy.id;
        t.(mask := s.mask - {id}, owner := s.owner - {id})
      else t
  }

  ghost predicate IsRun(states: seq<State>, actions: seq<Action>) {
    && |states| == |actions| + 1
    && states[0] == INITIAL
    && forall i :: 0 <= i < |actions| ==> Enabled(states[i], actions[i]) && states[i + 1] == Next(states[i], actions[i])
  }

  // ---------------------------------------------------------------------
  // The invariant
  // ---------------------------------------------------------------------

  /** `h` holds `id` right now. */
  ghost predicate Holds(s: State, h: Holder, id: nat) {
    match h
    case AnOpener(t) => t in s.openers && s.openers[t] == Holding(id)
    case AChannel(c) => c in s.channels && s.channels[c].policy == Leased(id)
  }

  /** The mask is the ids out, each out to one holder, and they are request ids. */
  ghost predicate LeasesExact(s: State) {
    && s.mask == s.owner.Keys && (forall id :: id in s.mask ==> IsRequestId(id))
    && (forall id :: id in s.owner ==> Holds(s, s.owner[id], id))
    && (forall t :: t in s.openers && s.openers[t].Holding? ==>
          s.openers[t].id in s.owner && s.owner[s.openers[t].id] == AnOpener(t))
    && (forall c :: c in s.channels && s.channels[c].policy.Leased? ==>
          s.channels[c].policy.id in s.owner && s.owner[s.channels[c].policy.id] == AChannel(c))
    && (forall t :: t in s.openers && s.openers[t].Loaded? ==>
          IsRequestId(s.openers[t].free) && s.openers[t].free !in s.openers[t].seen)
  }

  /** Every queued request carries the id its channel was given. */
  ghost predicate CarriesLease(c: Chan) {
    forall r :: r in c.pending ==> WellFormed(r) && !c.policy.Default? && Num(SoftwareId(r)) == c.policy.id
  }

  ghost predicate ChannelsExact(s: State) {
    forall c :: c in s.channels ==> Exact(s.channels[c]) && CarriesLease(s.channels[c])
  }

  ghost predicate Inv(s: State) { LeasesExact(s) && ChannelsExact(s) }

  // ---------------------------------------------------------------------
  // Every step keeps it
  // ---------------------------------------------------------------------

  lemma CompareExchangeStep(s: State, t: nat)
    requires LeasesExact(s) && Enabled(s, CompareExchange(t))
    ensures LeasesExact(Next(s, CompareExchange(t)))
  {
    var s', o := Next(s, CompareExchange(t)), s.openers[t];
    assert s.mask == o.seen ==> o.free !in s.owner;
    forall id | id in s.owner ensures id in s'.owner && s'.owner[id] == s.owner[id] && Holds(s', s'.owner[id], id) {
      assert Holds(s, s.owner[id], id);
      if s.owner[id].AnOpener? {
        assert s.owner[id].opener != t;
      }
    }
  }

  lemma SetPolicyStep(s: State, t: nat, c: nat)
    requires LeasesExact(s) && Enabled(s, SetPolicy(t, c))
    ensures LeasesExact(Next(s, SetPolicy(t, c)))
  {
    var s', mine := Next(s, SetPolicy(t, c)), s.openers[t].id;
    forall id | id in s'.owner ensures Holds(s', s'.owner[id], id) {
      if id != mine {
        assert Holds(s, s.owner[id], id);
      }
    }
  }

  lemma FreeStep(s: State, c: nat)
    requires LeasesExact(s) && Enabled(s, DropField(c)) && FreesLease(s.channels[c])
    ensures LeasesExact(Next(s, DropField(c)))
  {
    var s' := Next(s, DropField(c));
    forall id | id in s'.owner ensures Holds(s', s'.owner[id], id) {
      assert Holds(s, s.owner[id], id);
    }
  }

  /** Steps that leave the mask, every lease and every holder alone. */
  lemma QuietStep(s: State, s': State)
    requires LeasesExact(s) && s'.mask == s.mask && s'.owner == s.owner
    requires forall c :: c in s.channels ==> c in s'.channels && s'.channels[c].policy == s.channels[c].policy
    requires forall c :: c in s'.channels && c !in s.channels ==> s'.channels[c].policy.Default?
    requires forall t :: t in s.openers ==> t in s'.openers && s'.openers[t] == s.openers[t]
    requires forall t :: t in s'.openers && t !in s.openers ==>
               s'.openers[t].Loaded? && IsRequestId(s'.openers[t].free) && s'.openers[t].free !in s'.openers[t].seen
    ensures LeasesExact(s')
  {
    forall id | id in s'.owner ensures Holds(s', s'.owner[id], id) {
      assert Holds(s, s.owner[id], id);
    }
  }

  /** Replacing one channel by another of the same policy leaves the leases alone. */
  lemma PutStep(s: State, c: nat, chan: Chan)
    requires LeasesExact(s)
    requires if c in s.channels then chan.policy == s.channels[c].policy else chan.policy.Default?
    ensures LeasesExact(Put(s, c, chan))
  {
    QuietStep(s, Put(s, c, chan));
  }

  lemma DropStep(s: State, c: nat)
    requires LeasesExact(s) && Enabled(s, DropField(c))
    ensures LeasesExact(Next(s, DropField(c)))
  {
    if FreesLease(s.channels[c]) {
      FreeStep(s, c);
    } else {
      PutStep(s, c, DropNext(s.channels[c]));
    }
  }

  lemma LeasesStep(s: State, a: Action)
    requires LeasesExact(s) && Enabled(s, a)
    ensures LeasesExact(Next(s, a))
  {
    match a
    case Open(c) => PutStep(s, c, FRESH_CHANNEL);
    case Load(_, _) => QuietStep(s, Next(s, a));
    case CompareExchange(t) => CompareExchangeStep(s, t);
    case SetPolicy(t, c) => SetPolicyStep(s, t, c);
    case Ask(c, r) => PutStep(s, c, s.channels[c].(pending := s.channels[c].pending + [r]));
    case Withdraw(c, k) => PutStep(s, c, s.channels[c].(pending := RemoveAt(s.channels[c].pending, k)));
    case Arrive(_) => QuietStep(s, Next(s, a));
    case SignalClose(c) => PutStep(s, c, Tell(s.channels[c]));
    case ExitThread(c, _) => PutStep(s, c, Exit(s.channels[c]));
    case JoinThread(c) => PutStep(s, c, Join(s.channels[c]));
    case DropField(c) => DropStep(s, c);
  }

  lemma RemovedFrom<T>(queue: seq<T>, pos: nat)
    requires pos < |queue|
    ensures forall x <- RemoveAt(queue, pos) :: x in queue
  {}

  lemma HearKeepsExact(c: Chan, msg: HidppMessage)
    requires Exact(c) && CarriesLease(c)
    ensures Exact(Hear(c, msg)) && CarriesLease(Hear(c, msg))
  {
    var at := FirstAnswered(c.pending, msg);
    if c.reader.Running? && at.Some? {
      RemovedFrom(c.pending, at.value);
    }
  }

  lemma QueueKeepsExact(c: Chan, r: Request, k: nat)
    requires Exact(c) && CarriesLease(c)
    ensures WellFormed(r) && c.policy == Leased(Num(SoftwareId(r))) ==>
              Exact(c.(pending := c.pending + [r])) && CarriesLease(c.(pending := c.pending + [r]))
    ensures k < |c.pending| ==>
              Exact(c.(pending := RemoveAt(c.pending, k))) && CarriesLease(c.(pending := RemoveAt(c.pending, k)))
  {
    if k < |c.pending| {
      RemovedFrom(c.pending, k);
    }
  }

  /** The channel a step works on stays exact. */
  lemma OwnStepKeepsExact(s: State, a: Action, c: nat)
    requires ChannelsExact(s) && Enabled(s, a) && c in s.channels
    requires a.Ask? || a.Withdraw? || a.SignalClose? || a.ExitThread? || a.JoinThread? || a.DropField?
    requires a.channel == c
    ensures Exact(Next(s, a).channels[c]) && CarriesLease(Next(s, a).channels[c])
  {
    var chan := s.channels[c];
    match a {
      case Ask(_, r) => QueueKeepsExact(chan, r, 0);
      case Withdraw(_, k) => QueueKeepsExact(chan, chan.pending[k], k);
      case DropField(_) => DropKeepsExact(chan);
      case _ => EndKeepsExact(chan);
    }
  }

  /** The channel a step can work on. */
  function Target(a: Action): Option<nat> {
    match a
    case Load(_, _) => None
    case CompareExchange(_) => None
    case Arrive(_) => None
    case _ => Some(a.channel)
  }

  lemma OthersStay(s: State, a: Action, c: nat)
    requires Enabled(s, a) && c in s.channels && !a.Arrive? && Target(a) != Some(c)
    ensures c in Next(s, a).channels && Next(s, a).channels[c] == s.channels[c]
  {}

  /** Every channel stays exact. */
  lemma StepKeepsExact(s: State, a: Action, c: nat)
    requires ChannelsExact(s) && Enabled(s, a) && c in Next(s, a).channels
    ensures Exact(Next(s, a).channels[c]) && CarriesLease(Next(s, a).channels[c])
  {
    if a.Arrive? {
      HearKeepsExact(s.channels[c], a.msg);
    } else if c in s.channels && Target(a) != Some(c) {
      OthersStay(s, a, c);
    } else if c in s.channels && !a.SetPolicy? {
      OwnStepKeepsExact(s, a, c);
    }
  }

  lemma {:induction false} RunKeepsInv(states: seq<State>, actions: seq<Action>, n: nat)
    requires IsRun(states, actions) && n < |states|
    ensures Inv(states[n])
  {
    if n > 0 {
      RunKeepsInv(states, actions, n - 1);
      LeasesStep(states[n - 1], actions[n - 1]);
      forall c | c in states[n].channels ensures Exact(states[n].channels[c]) && CarriesLease(states[n].channels[c]) {
        StepKeepsExact(states[n - 1], actions[n - 1], c);
      }
    }
  }

  // ---------------------------------------------------------------------
  // What every run guarantees
  // ---------------------------------------------------------------------

  /** The set bits of the mask are exactly the ids held; id 0 is never among them. */
  lemma MaskIsTheIdsHeld(states: seq<State>, actions: seq<Action>, n: nat, id: nat)
    requires IsRun(states, actions) && n < |states|
    ensures id in states[n].mask <==> exists h :: Holds(states[n], h, id)
    ensures forall h, h' :: Holds(states[n], h, id) && Holds(states[n], h', id) ==> h == h'
    ensures id in states[n].mask ==> 1 <= id <= 15
  {
    RunKeepsInv(states, actions, n);
    if id in states[n].mask {
      assert Holds(states[n], states[n].owner[id], id);
    }
  }

  /** The read thread may still deliver, or the transport is still open. */
  predicate Stirs(c: Chan) { c.reader.Running? || IsOpen(c) }

  lemma StirringIsLeased(c: Chan)
    requires Exact(c) && Stirs(c)
    ensures !c.policy.Freed?
  {
    if c.policy.Freed? {
      PolicyIsDroppedLast(c);
    }
  }

  /**
   An id belongs to nobody else for as long as the read thread of the channel it
   was given to runs or the transport is open: it is not on offer, no opener
   holds it, and no other such channel was given it.
   */
  lemma NoIdIsShared(states: seq<State>, actions: seq<Action>, n: nat, c: nat, d: nat)
    requires IsRun(states, actions) && n < |states|
    requires c in states[n].channels && Stirs(states[n].channels[c]) && !states[n].channels[c].policy.Default?
    ensures states[n].channels[c].policy.Leased?
    ensures var id := states[n].channels[c].policy.id;
            && IsRequestId(id)
            && id in states[n].mask
            && (forall h :: Holds(states[n], h, id) ==> h == AChannel(c))
            && (d in states[n].channels && d != c && Stirs(states[n].channels[d]) ==>
                  states[n].channels[d].policy != Leased(id))
  {
    RunKeepsInv(states, actions, n);
    StirringIsLeased(states[n].channels[c]);
    if d in states[n].channels && Stirs(states[n].channels[d]) {
      StirringIsLeased(states[n].channels[d]);
    }
  }

  lemma PolicyStays(s: State, a: Action, c: nat)
    requires Inv(s) && Enabled(s, a) && c in s.channels && s.channels[c].policy.Leased?
    ensures var id := s.channels[c].policy.id;
            id !in Next(s, a).mask <==> a == DropField(c) && FreesLease(s.channels[c])
  {
    if a.DropField? && a.channel != c && FreesLease(s.channels[a.channel]) {
      assert s.owner[s.channels[a.channel].policy.id] == AChannel(a.channel);
    }
  }

  /**
   An id comes back to the pool in one step only, the one that drops its
   channel's policy field, and by then the read thread is over and nobody
   refers to the transport.
   */
  lemma LeaseOutlivesTheReader(states: seq<State>, actions: seq<Action>, n: nat, c: nat)
    requires IsRun(states, actions) && n < |actions|
    requires c in states[n].channels && states[n].channels[c].policy.Leased?
    ensures var id := states[n].channels[c].policy.id;
            && id in states[n].mask
            && (id !in states[n + 1].mask <==> actions[n] == DropField(c) && FreesLease(states[n].channels[c]))
            && (id !in states[n + 1].mask ==>
                  states[n].channels[c].reader.Exited? && states[n].channels[c].references == 0)
  {
    RunKeepsInv(states, actions, n);
    RunKeepsInv(states, actions, n + 1);
    PolicyStays(states[n], actions[n], c);
    if actions[n] == DropField(c) && FreesLease(states[n].channels[c]) {
      var next := states[n].channels[c].owner.next;
      TransportBeforePolicy(next);
      PolicyIsDroppedLast(states[n + 1].channels[c]);
    }
  }

  /** The request of a channel that a report resolves. */
  ghost predicate Resolves(c: Chan, msg: HidppMessage, r: Request) {
    c.reader.Running? && FirstAnswered(c.pending, msg).Some? && c.pending[FirstAnswered(c.pending, msg).value] == r
  }

  /**
   One report, seen by every channel on the stream, resolves requests of one
   channel at most, unless the header of one of the two requests spells the
   error header of the other.
   */
  lemma ReportResolvesOneChannel(
      states: seq<State>, actions: seq<Action>, n: nat, msg: HidppMessage, c: nat, d: nat, a: Request, b: Request)
    requires IsRun(states, actions) && n < |states|
    requires c in states[n].channels && d in states[n].channels && c != d
    requires Resolves(states[n].channels[c], msg, a) && Resolves(states[n].channels[d], msg, b)
    ensures ReadsAsErrorOf(a, b) || ReadsAsErrorOf(b, a)
  {
    RunKeepsInv(states, actions, n);
    assert a in states[n].channels[c].pending && CarriesLease(states[n].channels[c]);
    assert b in states[n].channels[d].pending && CarriesLease(states[n].channels[d]);
    NoIdIsShared(states, actions, n, c, d);
    NoIdIsShared(states, actions, n, d, c);
    DistinctIdsDoNotCrossMatch(a, b, msg);
  }

  ghost predicate Reached(s: State) {
    exists states, actions :: IsRun(states, actions) && states[|actions|] == s
  }

  lemma ReachedNext(s: State, a: Action)
    requires Reached(s) && Enabled(s, a)
    ensures Reached(Next(s, a))
  {
    var states, actions :| IsRun(states, actions) && states[|actions|] == s;
    var states', actions' := states + [Next(s, a)], actions + [a];
    assert IsRun(states', actions');
    assert states'[|actions'|] == Next(s, a);
  }

  lemma ReachedInitially()
    ensures Reached(INITIAL)
  {
    var states, actions: seq<Action> := [INITIAL], [];
    assert IsRun(states, actions) && states[|actions|] == INITIAL;
  }

  /** An opener leases `id` for a channel it opened. */
  lemma LeasedChannel(s: State, c: nat, id: nat) returns (s': State)
    requires Reached(s) && c !in s.channels && c !in s.openers && IsLowestFree(s.mask, Some(id))
    ensures Reached(s') && s'.mask == s.mask + {id} && s'.openers == s.openers
    ensures s'.channels == s.channels[c := FRESH_CHANNEL.(policy := Leased(id))]
  {
    var opening := Next(s, Open(c));
    ReachedNext(s, Open(c));
    var loaded := Next(opening, Load(c, Some(id)));
    ReachedNext(opening, Load(c, Some(id)));
    var held := Next(loaded, CompareExchange(c));
    ReachedNext(loaded, CompareExchange(c));
    ReachedNext(held, SetPolicy(c, c));
    s' := Next(held, SetPolicy(c, c));
  }

  /** The exception happens: one report resolves a request of each of two channels, under different ids. */
  lemma ErrorIndexResolvesTwo() returns (s: State, msg: HidppMessage, a: Request, b: Request)
    ensures Reached(s) && 1 in s.channels && 2 in s.channels
    ensures s.channels[1].policy == Leased(1) && s.channels[2].policy == Leased(2)
    ensures Resolves(s.channels[1], msg, a) && Resolves(s.channels[2], msg, b)
  {
    a, b := Feature(Header(1, ERROR_FEATURE_INDEX, 2, 1)), Feature(Header(1, 0x21, 0, 2));
    msg := Short([1, ERROR_FEATURE_INDEX, 0x21, 0x02, 0, 0]);
    ReachedInitially();
    var one := LeasedChannel(INITIAL, 1, 1);
    var two := LeasedChannel(one, 2, 2);
    var asked := Next(two, Ask(1, a));
    ReachedNext(two, Ask(1, a));
    ReachedNext(asked, Ask(2, b));
    s := Next(asked, Ask(2, b));
    assert s.channels[1].pending == [a] && s.channels[2].pending == [b];
    assert Accepts(a, msg) && Accepts(b, msg);
  }

  /** A report takes the request it resolves out of a queue, or leaves the queue as it was. */
  lemma ReportTakesWhatItResolves(s: State, msg: HidppMessage, c: nat)
    requires c in s.channels
    ensures var before, after := s.channels[c].pending, Next(s, Arrive(msg)).channels[c].pending;
            || (after == before && forall r :: !Resolves(s.channels[c], msg, r))
            || (exists k :: 0 <= k < |before|
                  && Resolves(s.channels[c], msg, before[k]) && after == RemoveAt(before, k)
                  && forall j :: 0 <= j < k ==> !Accepts(before[j], msg))
  {}
}
