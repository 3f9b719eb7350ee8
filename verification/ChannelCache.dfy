/**
 The enumerator's channels: opened once per OS node, retired when a node goes
 away or keeps failing, and forgotten only when nobody else refers to them.
 Nodes and channels are opaque numbers; a channel is quiescent when the cache
 holds its only reference.
 */
module ChannelCache {
  import opened Wrappers

  type Node = nat
  type Handle = nat

  datatype Slot = Active(channel: Handle) | Retiring(channel: Handle)

  type Slots = map<Node, Slot>

  datatype OpenResult = Opened(channel: Handle) | NotHidpp | OpenFailed

  // ---------------------------------------------------------------------
  // What each operation does to the map
  // ---------------------------------------------------------------------

  predicate IsActive(m: Slots, node: Node) { node in m && m[node].Active? }

  function Inserted(m: Slots, node: Node, channel: Handle): Slots {
    if node in m && m[node].Retiring? then m else m[node := Active(channel)]
  }

  function Retired(m: Slots, node: Node): Slots {
    if IsActive(m, node) then m[node := Retiring(m[node].channel)] else m
  }

  /** The map after `prepare_open`; it answers whether the node may be opened. */
  function Prepared(m: Slots, node: Node, quiet: set<Handle>): Slots {
    if node in m && m[node].Retiring? && m[node].channel in quiet then m - {node} else m
  }

  predicate MayOpen(m: Slots, node: Node) { !(node in m && m[node].Retiring?) }

  function AbsentRetired(m: Slots, seen: set<Node>): Slots {
    map n | n in m :: if n in seen then m[n] else Retiring(m[n].channel)
  }

  function AbsentReaped(m: Slots, seen: set<Node>, quiet: set<Handle>): Slots {
    map n | n in m && (m[n].Active? || n in seen || m[n].channel !in quiet) :: m[n]
  }

  /** Enumerated nodes plus those whose cached channel still reports a connection. */
  function Retained(m: Slots, seen: set<Node>, connected: set<Handle>): set<Node> {
    seen + set n | n in m && m[n].Active? && m[n].channel in connected
  }

  /** What handling one candidate does. */
  function Visited(m: Slots, node: Node, quiet: set<Handle>, result: OpenResult): Slots {
    if !MayOpen(m, node) then Prepared(m, node, quiet)
    else if node in m then m
    else if result.Opened? then Inserted(m, node, result.channel)
    else m
  }

  /** What the operating system and the other holders show one pass. */
  datatype Sighting = Sighting(node: Node, quiet: set<Handle>, result: OpenResult)

  function AllVisited(m: Slots, pass: seq<Sighting>): Slots {
    if pass == [] then m
    else
      var last := pass[|pass| - 1];
      Visited(AllVisited(m, pass[..|pass| - 1]), last.node, last.quiet, last.result)
  }

  /** What becomes of one candidate. */
  datatype Handling = Draining | Serving(channel: Handle) | Failed | Ignored

  function HandlingOf(m: Slots, s: Sighting): Handling {
    if !MayOpen(m, s.node) then Draining
    else if s.node in m then Serving(m[s.node].channel)
    else match s.result
      case Opened(channel) => Serving(channel)
      case NotHidpp => Ignored
      case OpenFailed => Failed
  }

  /** The channels served to the candidates, in order. */
  function ServedTo(m: Slots, pass: seq<Sighting>): seq<Handle> {
    if pass == [] then []
    else
      var front := pass[..|pass| - 1];
      var handling := HandlingOf(AllVisited(m, front), pass[|pass| - 1]);
      ServedTo(m, front) + if handling.Serving? then [handling.channel] else []
  }

  /** The nodes of the candidates that ended as `what`, in order. */
  function NodesHandled(m: Slots, pass: seq<Sighting>, what: Handling): seq<Node> {
    if pass == [] then []
    else
      var front, last := pass[..|pass| - 1], pass[|pass| - 1];
      NodesHandled(m, front, what) + if HandlingOf(AllVisited(m, front), last) == what then [last.node] else []
  }

  /** Candidate `i` of the pass makes the enumerator open its node. */
  predicate OpensAt(m: Slots, pass: seq<Sighting>, i: nat)
    requires i < |pass|
  {
    pass[i].node !in AllVisited(m, pass[..i])
  }

  /** Candidate `i` of the pass makes the enumerator drop its retired channel. */
  predicate DropsAt(m: Slots, pass: seq<Sighting>, i: nat)
    requires i < |pass|
  {
    var before := AllVisited(m, pass[..i]);
    var node := pass[i].node;
    node in before && before[node].Retiring? && before[node].channel in pass[i].quiet
  }

  // ---------------------------------------------------------------------
  // The program
  // ---------------------------------------------------------------------

  class Cache {
    var channels: Slots

    constructor ()
      ensures channels == map[]
    {
      channels := map[];
    }

    method Get(node: Node) returns (channel: Option<Handle>)
      ensures channel == if IsActive(channels, node) then Some(channels[node].channel) else None
    {
      if node in channels && channels[node].Active? {
        channel := Some(channels[node].channel);
      } else {
        channel := None;
      }
    }

    method Insert(node: Node, channel: Handle)
      modifies this
      ensures channels == Inserted(old(channels), node, channel)
    {
      if node in channels {
        match channels[node]
        case Active(_) => channels := channels[node := Active(channel)];
        case Retiring(_) => // keep the draining channel and drop the newcomer
      } else {
        channels := channels[node := Active(channel)];
      }
    }

    method RetireNode(node: Node) returns (retired: bool)
      modifies this
      ensures channels == Retired(old(channels), node)
      ensures retired <==> IsActive(old(channels), node)
    {
      if node !in channels || channels[node].Retiring? {
        return false;
      }
      var channel := channels[node].channel;
      channels := channels - {node};
      channels := channels[node := Retiring(channel)];
      retired := true;
    }

    method PrepareOpen(node: Node, quiet: set<Handle>) returns (may: bool)
      modifies this
      ensures channels == Prepared(old(channels), node, quiet)
      ensures may <==> MayOpen(old(channels), node)
    {
      if node !in channels || channels[node].Active? {
        return true;
      }
      if channels[node].channel in quiet {
        channels := channels - {node};
      }
      may := false;
    }

    method RetireAbsent(seen: set<Node>) returns (count: nat)
      modifies this
      ensures channels == AbsentRetired(old(channels), seen)
      ensures count == |set n | n in old(channels) && old(channels)[n].Active? && n !in seen|
    {
      ghost var before := channels;
      ghost var all := set n | n in before && before[n].Active? && n !in seen;
      var absent := set n | n in channels && channels[n].Active? && n !in seen;
      count := 0;
      while absent != {}
        invariant absent <= all && count + |absent| == |all|
        invariant channels.Keys == before.Keys
        invariant forall n :: n in before ==>
                    channels[n] == if n in all - absent then Retiring(before[n].channel) else before[n]
        decreases absent
      {
        var node :| node in absent;
        var retired := RetireNode(node);
        if retired {
          count := count + 1;
        }
        absent := absent - {node};
      }
      assert all == set n | n in old(channels) && old(channels)[n].Active? && n !in seen;
    }

    method ReapAbsent(seen: set<Node>, quiet: set<Handle>)
      modifies this
      ensures channels == AbsentReaped(old(channels), seen, quiet)
    {
      channels := map n
        | n in channels && (channels[n].Active? || n in seen || channels[n].channel !in quiet)
        :: channels[n];
    }

    /** The first part of `prepare_nodes`: every candidate in turn. */
    method VisitNodes(pass: seq<Sighting>)
      returns (active: seq<Handle>, failures: seq<Node>, retiring: seq<Node>, seen: set<Node>)
      modifies this
      ensures channels == AllVisited(old(channels), pass)
      ensures active == ServedTo(old(channels), pass)
      ensures failures == NodesHandled(old(channels), pass, Failed)
      ensures retiring == NodesHandled(old(channels), pass, Draining)
      ensures seen == set s | s in pass :: s.node
    {
      active, failures, retiring := [], [], [];
      seen := {};
      var i := 0;
      while i < |pass|
        invariant i <= |pass|
        invariant channels == AllVisited(old(channels), pass[..i])
        invariant seen == set s | s in pass[..i] :: s.node
        invariant failures == NodesHandled(old(channels), pass[..i], Failed)
        invariant retiring == NodesHandled(old(channels), pass[..i], Draining)
        invariant active == ServedTo(old(channels), pass[..i])
      {
        var node := pass[i].node;
        assert pass[..i + 1][..i] == pass[..i];
        assert pass[..i + 1] == pass[..i] + [pass[i]];
        seen := seen + {node};
        var may := PrepareOpen(node, pass[i].quiet);
        if !may {
          retiring := retiring + [node];
        } else {
          var open := Get(node);
          if open.Some? {
            active := active + [open.value];
          } else {
            match pass[i].result
            case Opened(channel) =>
              Insert(node, channel);
              active := active + [channel];
            case NotHidpp =>
            case OpenFailed => failures := failures + [node];
          }
        }
        i := i + 1;
      }
      assert pass[..i] == pass;
    }

    /** `append_live_cached_channels`: one entry for each omitted node that still reports a connection. */
    method AppendLive(listed: set<Node>, connected: set<Handle>) returns (live: seq<Handle>, seen: set<Node>)
      ensures seen == Retained(channels, listed, connected)
      ensures |live| == |seen - listed|
      ensures forall h :: h in live <==> exists n :: n in seen - listed && channels[n].channel == h
    {
      live := [];
      var kept := set n | n in channels && channels[n].Active? && channels[n].channel in connected;
      seen := listed + kept;
      var omitted := seen - listed;
      while omitted != {}
        invariant omitted <= seen - listed && |live| + |omitted| == |seen - listed|
        invariant forall h :: h in live <==> exists n :: n in (seen - listed) - omitted && channels[n].channel == h
        decreases omitted
      {
        var node :| node in omitted;
        live := live + [channels[node].channel];
        omitted := omitted - {node};
      }
    }

    /**
     `prepare_nodes`: every candidate in turn, then the nodes the operating
     system left out. `pass[i]` is what opening and reference counts answer
     while candidate `i` is handled; `quiet` and `connected` at the end.
     */
    method PrepareNodes(pass: seq<Sighting>, quiet: set<Handle>, connected: set<Handle>)
      returns (active: seq<Handle>, failures: seq<Node>, retiring: seq<Node>)
      modifies this
      ensures var m := AllVisited(old(channels), pass);
              var listed := set s | s in pass :: s.node;
              var seen := Retained(m, listed, connected);
              && channels == AbsentReaped(AbsentRetired(m, seen), seen, quiet)
              && failures == NodesHandled(old(channels), pass, Failed)
              && retiring == NodesHandled(old(channels), pass, Draining)
              && ServedTo(old(channels), pass) <= active
              && var live := active[|ServedTo(old(channels), pass)|..];
                 && |live| == |seen - listed|
                 && forall h :: h in live <==> exists n :: n in seen - listed && m[n].channel == h
    {
      var listed, live, seen;
      active, failures, retiring, listed := VisitNodes(pass);
      live, seen := AppendLive(listed, connected);
      ghost var served := active;
      active := active + live;
      assert active[|served|..] == live;
      var count := RetireAbsent(seen);
      ReapAbsent(seen, quiet);
    }
  }

  // ---------------------------------------------------------------------
  // What a pass reports, candidate by candidate
  // ---------------------------------------------------------------------

  /** The slot of candidate `i` when its turn comes. */
  function SlotAt(m: Slots, pass: seq<Sighting>, i: nat): Option<Slot>
    requires i < |pass|
  {
    var before := AllVisited(m, pass[..i]);
    if pass[i].node in before then Some(before[pass[i].node]) else None
  }

  /** Candidate `i` is to be opened and that fails. */
  predicate FailsAt(m: Slots, pass: seq<Sighting>, i: nat) {
    i < |pass| && OpensAt(m, pass, i) && pass[i].result.OpenFailed?
  }

  /** Candidate `i` waits for its old channel to drain. */
  predicate WaitsAt(m: Slots, pass: seq<Sighting>, i: nat) {
    i < |pass| && SlotAt(m, pass, i).Some? && SlotAt(m, pass, i).value.Retiring?
  }

  /** Candidate `i` is served `h`: its cached channel, or the one just opened. */
  predicate ServesAt(m: Slots, pass: seq<Sighting>, i: nat, h: Handle) {
    && i < |pass|
    && (SlotAt(m, pass, i) == Some(Active(h)) || (OpensAt(m, pass, i) && pass[i].result == Opened(h)))
  }

  /** The nodes of the candidates whose positions fit, in order. */
  function NodesWhere(pass: seq<Sighting>, fits: nat -> bool): seq<Node> {
    if pass == [] then []
    else
      var front := pass[..|pass| - 1];
      NodesWhere(front, fits) + if fits(|front|) then [pass[|front|].node] else []
  }

  lemma {:induction false} SameWhere(pass: seq<Sighting>, fits: nat -> bool, also: nat -> bool)
    requires forall i :: 0 <= i < |pass| ==> fits(i) == also(i)
    ensures NodesWhere(pass, fits) == NodesWhere(pass, also)
  {
    if pass != [] {
      SameWhere(pass[..|pass| - 1], fits, also);
    }
  }

  lemma FrontIsAlike(m: Slots, pass: seq<Sighting>, i: nat)
    requires i + 1 < |pass|
    ensures var front := pass[..|pass| - 1];
            && FailsAt(m, front, i) == FailsAt(m, pass, i) && WaitsAt(m, front, i) == WaitsAt(m, pass, i)
            && forall h :: ServesAt(m, front, i, h) == ServesAt(m, pass, i, h)
  {
    assert pass[..|pass| - 1][..i] == pass[..i];
  }

  lemma LastHandling(m: Slots, pass: seq<Sighting>)
    requires pass != []
    ensures var last := |pass| - 1;
            var handling := HandlingOf(AllVisited(m, pass[..last]), pass[last]);
            && (handling == Failed <==> FailsAt(m, pass, last))
            && (handling == Draining <==> WaitsAt(m, pass, last))
            && forall h :: handling == Serving(h) <==> ServesAt(m, pass, last, h)
  {}

  /**
   The failures of a pass are the nodes that were to be opened and failed, and
   the retiring ones those whose old channel was still draining at their turn,
   each in the order of the candidates.
   */
  lemma {:induction false} ReportsExactly(m: Slots, pass: seq<Sighting>)
    ensures NodesHandled(m, pass, Failed) == NodesWhere(pass, (i: nat) => FailsAt(m, pass, i))
    ensures NodesHandled(m, pass, Draining) == NodesWhere(pass, (i: nat) => WaitsAt(m, pass, i))
  {
    if pass != [] {
      var front := pass[..|pass| - 1];
      ReportsExactly(m, front);
      LastHandling(m, pass);
      forall i | 0 <= i < |front|
        ensures FailsAt(m, front, i) == FailsAt(m, pass, i) && WaitsAt(m, front, i) == WaitsAt(m, pass, i)
      {
        FrontIsAlike(m, pass, i);
      }
      SameWhere(front, (i: nat) => FailsAt(m, front, i), (i: nat) => FailsAt(m, pass, i));
      SameWhere(front, (i: nat) => WaitsAt(m, front, i), (i: nat) => WaitsAt(m, pass, i));
    }
  }

  lemma {:induction false} AmongNodes(pass: seq<Sighting>, fits: nat -> bool, node: Node)
    ensures node in NodesWhere(pass, fits) <==> exists i :: 0 <= i < |pass| && fits(i) && pass[i].node == node
  {
    if pass != [] {
      var last := |pass| - 1;
      AmongNodes(pass[..last], fits, node);
      if i :| 0 <= i < |pass| && fits(i) && pass[i].node == node {
        assert i == last || pass[..last][i].node == node;
      }
    }
  }

  /**
   A node is reported as failed exactly when a candidate of it was to be opened
   and failed, and as retiring exactly when one found its channel draining; a
   node that is no HID++ device is neither.
   */
  lemma ReportedExactly(m: Slots, pass: seq<Sighting>, node: Node)
    ensures node in NodesHandled(m, pass, Failed) <==> exists i: nat :: FailsAt(m, pass, i) && pass[i].node == node
    ensures node in NodesHandled(m, pass, Draining) <==> exists i: nat :: WaitsAt(m, pass, i) && pass[i].node == node
  {
    ReportsExactly(m, pass);
    AmongNodes(pass, (i: nat) => FailsAt(m, pass, i), node);
    AmongNodes(pass, (i: nat) => WaitsAt(m, pass, i), node);
  }

  /** A channel is served to a candidate exactly when one found it cached or opened it. */
  lemma {:induction false} ServedExactly(m: Slots, pass: seq<Sighting>, h: Handle)
    ensures h in ServedTo(m, pass) <==> exists i: nat :: ServesAt(m, pass, i, h)
    decreases |pass|
  {
    if pass != [] {
      var front := pass[..|pass| - 1];
      ServedExactly(m, front, h);
      LastHandling(m, pass);
      forall i | 0 <= i < |front| ensures ServesAt(m, front, i, h) == ServesAt(m, pass, i, h) {
        FrontIsAlike(m, pass, i);
      }
    }
  }

  /** Each candidate is served at most one channel, after those before it: the cached one, or the one it opened. */
  lemma ServedNext(m: Slots, pass: seq<Sighting>, next: Sighting)
    ensures var longer, i := pass + [next], |pass|;
            && (forall h :: ServesAt(m, longer, i, h) ==> ServedTo(m, longer) == ServedTo(m, pass) + [h])
            && ((forall h :: !ServesAt(m, longer, i, h)) ==> ServedTo(m, longer) == ServedTo(m, pass))
  {
    var longer := pass + [next];
    assert longer[..|longer| - 1] == pass;
    LastHandling(m, longer);
    var handling := HandlingOf(AllVisited(m, pass), next);
    if handling.Serving? {
      assert ServesAt(m, longer, |pass|, handling.channel);
    }
  }

  /**
   A candidate changes its own slot only: a draining one is emptied once its
   channel is quiescent, an empty one is filled with what was opened, and an
   active one stays.
   */
  lemma SlotAfterExactly(m: Slots, pass: seq<Sighting>, i: nat, node: Node)
    requires i < |pass|
    ensures var before, after := AllVisited(m, pass[..i]), AllVisited(m, pass[..i + 1]);
            && (node != pass[i].node || IsActive(before, node) ==>
                  (node in after <==> node in before) && (node in before ==> after[node] == before[node]))
            && (WaitsAt(m, pass, i) ==> (pass[i].node in after <==> !DropsAt(m, pass, i)))
            && (WaitsAt(m, pass, i) && !DropsAt(m, pass, i) ==> after[pass[i].node] == before[pass[i].node])
            && (OpensAt(m, pass, i) ==>
                  && (pass[i].node in after <==> pass[i].result.Opened?)
                  && (pass[i].result.Opened? ==> after[pass[i].node] == Active(pass[i].result.channel)))
  {
    assert pass[..i + 1][..i] == pass[..i];
  }

  // ---------------------------------------------------------------------
  // Inserting and retiring
  // ---------------------------------------------------------------------

  /** What a lookup answers for a node. */
  function Found(m: Slots, node: Node): Option<Handle> {
    if IsActive(m, node) then Some(m[node].channel) else None
  }

  /** The channel that still drains on a node. */
  function DrainingOn(m: Slots, node: Node): Option<Handle> {
    if node in m && m[node].Retiring? then Some(m[node].channel) else None
  }

  /** An inserted channel is found, unless an old one still drains on its node, which is kept; other nodes stay. */
  lemma InsertExactly(m: Slots, node: Node, channel: Handle, other: Node)
    ensures var after := Inserted(m, node, channel);
            && DrainingOn(after, node) == DrainingOn(m, node)
            && Found(after, node) == (if DrainingOn(m, node).Some? then None else Some(channel))
            && (other != node ==>
                  Found(after, other) == Found(m, other) && DrainingOn(after, other) == DrainingOn(m, other))
  {}

  /** A retired channel is no longer found and drains from then on; other nodes are not met. */
  lemma RetireExactly(m: Slots, node: Node, other: Node)
    ensures var after := Retired(m, node);
            && Found(after, node) == None
            && DrainingOn(after, node) == (if Found(m, node).Some? then Found(m, node) else DrainingOn(m, node))
            && (other != node ==>
                  Found(after, other) == Found(m, other) && DrainingOn(after, other) == DrainingOn(m, other))
  {}

  // ---------------------------------------------------------------------
  // What the end of a pass leaves
  // ---------------------------------------------------------------------

  /** The system left the node out, and no cached channel of it still reports a connection. */
  predicate IsGone(m: Slots, listed: set<Node>, connected: set<Handle>, node: Node) {
    node !in listed && !(IsActive(m, node) && m[node].channel in connected)
  }

  /** A node that is gone is forgotten once its channel is quiescent and retires until then; the others stay. */
  lemma EndOfPassExactly(m: Slots, listed: set<Node>, connected: set<Handle>, quiet: set<Handle>, node: Node)
    ensures var seen := Retained(m, listed, connected);
            var after := AbsentReaped(AbsentRetired(m, seen), seen, quiet);
            && (node in after <==>
                  node in m && !(IsGone(m, listed, connected, node) && m[node].channel in quiet))
            && (node in after ==>
                  after[node]
                  == if IsGone(m, listed, connected, node) then Retiring(m[node].channel) else m[node])
  {}

  // ---------------------------------------------------------------------
  // Runs: passes interleaved with the other holders
  // ---------------------------------------------------------------------

  /** `others` counts the references outside the cache; `node` remembers what a channel was opened on. */
  datatype State = State(slots: Slots, others: map<Handle, nat>, node: map<Handle, Node>)

  datatype Action =
    | Visit(node: Node, result: OpenResult)
    | EndPass(seen: set<Node>, connected: set<Handle>)
    | Evict(node: Node)
    | Clone(channel: Handle)
    | Release(channel: Handle)

  const INITIAL: State := State(map[], map[], map[])

  function Quiet(s: State): set<Handle> {
    set h | h in s.others && s.others[h] == 0
  }

  predicate Enabled(s: State, a: Action) {
    match a
    case Visit(_, result) => result.Opened? ==> result.channel !in s.node && result.channel !in s.others
    case EndPass(_, _) => true
    case Evict(_) => true
    case Clone(h) => h in s.others && s.others[h] > 0
    case Release(h) => h in s.others && s.others[h] > 0
  }

  /** The channels of nodes the operating system left out that are served from the cache. */
  function ServedFromCache(m: Slots, seen: set<Node>, connected: set<Handle>): set<Handle> {
    set n | n in Retained(m, seen, connected) - seen :: m[n].channel
  }

  /** One more reference of each of `channels`. */
  function AllShared(others: map<Handle, nat>, channels: set<Handle>): map<Handle, nat> {
    map h | h in others :: if h in channels then others[h] + 1 else others[h]
  }

  /** The step hands a reference of `h` to a probe of this pass. */
  function Shared(others: map<Handle, nat>, h: Handle): map<Handle, nat> {
    others[h := (if h in others then others[h] else 0) + 1]
  }

  function Next(s: State, a: Action): State {
    match a
    case Visit(n, result) =>
      var slots := Visited(s.slots, n, Quiet(s), result);
      if n !in s.slots && result.Opened? then
        State(slots, Shared(s.others, result.channel), s.node[result.channel := n])
      else if IsActive(s.slots, n) then
        s.(slots := slots, others := Shared(s.others, s.slots[n].channel))
      else s.(slots := slots)
    case EndPass(seen, connected) =>
      var kept := Retained(s.slots, seen, connected);
      var t := s.(others := AllShared(s.others, ServedFromCache(s.slots, seen, connected)));
      t.(slots := AbsentReaped(AbsentRetired(s.slots, kept), kept, Quiet(t)))
    case Evict(n) => s.(slots := Retired(s.slots, n))
    case Clone(h) => s.(others := Shared(s.others, h))
    case Release(h) => if h in s.others && s.others[h] > 0 then s.(others := s.others[h := s.others[h] - 1]) else s
  }

  ghost predicate IsRun(states: seq<State>, actions: seq<Action>) {
    && |states| == |actions| + 1
    && states[0] == INITIAL
    && forall i :: 0 <= i < |actions| ==> Enabled(states[i], actions[i]) && states[i + 1] == Next(states[i], actions[i])
  }

  /** A channel lives while the cache or anyone else refers to it. */
  ghost predicate Live(s: State, h: Handle) {
    || (h in s.others && s.others[h] > 0)
    || exists n :: n in s.slots && s.slots[n].channel == h
  }

  /** The cache never forgets a channel that anyone else still refers to. */
  ghost predicate Inv(s: State) {
    && s.others.Keys == s.node.Keys
    && (forall n :: n in s.slots ==> s.slots[n].channel in s.node && s.node[s.slots[n].channel] == n)
    && (forall h :: h in s.others && s.others[h] > 0 ==>
          s.node[h] in s.slots && s.slots[s.node[h]].channel == h)
  }

  lemma VisitKeepsInv(s: State, n: Node, result: OpenResult)
    requires Inv(s) && Enabled(s, Visit(n, result))
    ensures Inv(Next(s, Visit(n, result)))
  {}

  /** A channel served from the cache belongs to a slot that the end of the pass keeps. */
  lemma ServedIsKept(m: Slots, seen: set<Node>, connected: set<Handle>, quiet: set<Handle>, h: Handle)
    requires h in ServedFromCache(m, seen, connected)
    ensures var kept := Retained(m, seen, connected);
            exists n :: n in m && m[n].channel == h && n in kept
                        && n in AbsentReaped(AbsentRetired(m, kept), kept, quiet)
  {}

  lemma EndPassKeepsInv(s: State, seen: set<Node>, connected: set<Handle>)
    requires Inv(s)
    ensures Inv(Next(s, EndPass(seen, connected)))
  {
    var t := Next(s, EndPass(seen, connected));
    var quiet := Quiet(s.(others := AllShared(s.others, ServedFromCache(s.slots, seen, connected))));
    forall h | h in t.others && t.others[h] > 0
      ensures t.node[h] in t.slots && t.slots[t.node[h]].channel == h
    {
      if h in ServedFromCache(s.slots, seen, connected) {
        ServedIsKept(s.slots, seen, connected, quiet, h);
      }
      assert h !in quiet;
    }
  }

  lemma NextKeepsInv(s: State, a: Action)
    requires Inv(s) && Enabled(s, a)
    ensures Inv(Next(s, a))
  {
    match a
    case Visit(n, result) => VisitKeepsInv(s, n, result);
    case EndPass(seen, connected) => EndPassKeepsInv(s, seen, connected);
    case Evict(_) =>
    case Clone(_) =>
    case Release(_) =>
  }

  lemma {:induction false} RunKeepsInv(states: seq<State>, actions: seq<Action>, n: nat)
    requires IsRun(states, actions) && n < |states|
    ensures Inv(states[n])
  {
    if n > 0 {
      RunKeepsInv(states, actions, n - 1);
      NextKeepsInv(states[n - 1], actions[n - 1]);
    }
  }

  /** At no moment of any run do two live channels belong to one node. */
  lemma OneLiveChannelPerNode(states: seq<State>, actions: seq<Action>, n: nat, h: Handle, h': Handle)
    requires IsRun(states, actions) && n < |states|
    requires Live(states[n], h) && Live(states[n], h')
    ensures h in states[n].node && h' in states[n].node
    ensures states[n].node[h] == states[n].node[h'] ==> h == h'
  {
    RunKeepsInv(states, actions, n);
  }

  /** A node is opened only when every channel ever opened on it is gone, and those stay gone. */
  lemma OpensOnlyDeadNodes(states: seq<State>, actions: seq<Action>, n: nat, node: Node, result: OpenResult, h: Handle)
    requires IsRun(states, actions) && n < |actions| && actions[n] == Visit(node, result)
    requires node !in states[n].slots && h in states[n].node && states[n].node[h] == node
    ensures !Live(states[n], h) && !Live(states[n + 1], h)
  {
    RunKeepsInv(states, actions, n);
    RunKeepsInv(states, actions, n + 1);
  }

  /**
   Over any run the end of a pass forgets exactly the nodes that are gone and
   whose channel nobody else refers to, and with the node the channel dies.
   */
  lemma ForgottenExactly(states: seq<State>, actions: seq<Action>, n: nat, node: Node)
    requires IsRun(states, actions) && n < |actions| && actions[n].EndPass? && node in states[n].slots
    ensures var s, h := states[n], states[n].slots[node].channel;
            && h in s.others
            && (node !in states[n + 1].slots
                <==> IsGone(s.slots, actions[n].seen, actions[n].connected, node) && s.others[h] == 0)
            && (node !in states[n + 1].slots ==> !Live(states[n + 1], h))
  {
    RunKeepsInv(states, actions, n);
    RunKeepsInv(states, actions, n + 1);
    var s, a := states[n], actions[n];
    var shared := AllShared(s.others, ServedFromCache(s.slots, a.seen, a.connected));
    EndOfPassExactly(s.slots, a.seen, a.connected, Quiet(s.(others := shared)), node);
  }

  lemma DeadStep(s: State, a: Action, h: Handle)
    requires Inv(s) && Enabled(s, a) && h in s.node && !Live(s, h)
    ensures h in Next(s, a).node && Next(s, a).node[h] == s.node[h] && !Live(Next(s, a), h)
  {
    var t := Next(s, a);
    forall n | n in t.slots ensures t.slots[n].channel != h {
      assert n in s.slots ==> s.slots[n].channel != h;
    }
  }

  /** A channel nobody refers to any more never comes back. */
  lemma {:induction false} DeadStaysDead(states: seq<State>, actions: seq<Action>, n: nat, m: nat, h: Handle)
    requires IsRun(states, actions) && n <= m < |states|
    requires h in states[n].node && !Live(states[n], h)
    ensures h in states[m].node && !Live(states[m], h)
    decreases m - n
  {
    if n < m {
      DeadStaysDead(states, actions, n, m - 1, h);
      RunKeepsInv(states, actions, m - 1);
      DeadStep(states[m - 1], actions[m - 1], h);
    }
  }

  /** One open channel of one node: referred to by the cache only, by a probe too, and retired while that lasts. */
  const OPEN: State := State(map[7 := Active(1)], map[1 := 0], map[1 := 7])
  const PROBED: State := State(map[7 := Active(1)], map[1 := 1], map[1 := 7])
  const DRAINING: State := State(map[7 := Retiring(1)], map[1 := 1], map[1 := 7])

  lemma OmittedNodeIsProbed()
    ensures Next(Next(INITIAL, Visit(7, Opened(1))), Release(1)) == OPEN
    ensures Next(OPEN, EndPass({}, {1})) == PROBED
  {
    assert Next(INITIAL, Visit(7, Opened(1))) == PROBED;
    assert Retained(OPEN.slots, {}, {1}) == {7} && ServedFromCache(OPEN.slots, {}, {1}) == {1};
  }

  lemma ProbedNodeDrains()
    ensures Next(PROBED, EndPass({}, {})) == DRAINING
    ensures Next(DRAINING, Visit(7, Opened(2))) == DRAINING
  {
    assert Retained(PROBED.slots, {}, {}) == {} && ServedFromCache(PROBED.slots, {}, {}) == {};
  }

  /**
   A node the operating system leaves out is served from the cache, and when it
   is retired while that reference is still held it may not be opened.
   */
  lemma OmittedNodeIsHeldWhileRetiring()
    ensures IsRun(
              [INITIAL, PROBED, OPEN, PROBED, DRAINING, DRAINING],
              [Visit(7, Opened(1)), Release(1), EndPass({}, {1}), EndPass({}, {}), Visit(7, Opened(2))])
  {
    OmittedNodeIsProbed();
    ProbedNodeDrains();
    assert Next(INITIAL, Visit(7, Opened(1))) == PROBED;
  }

  // ---------------------------------------------------------------------
  // Within one pass
  // ---------------------------------------------------------------------

  /** Candidates on other nodes leave a node's slot alone. */
  lemma {:induction false} OtherCandidates(m: Slots, pass: seq<Sighting>, j: nat, i: nat, node: Node)
    requires j <= i <= |pass|
    requires forall k :: j <= k < i ==> pass[k].node != node
    ensures node in AllVisited(m, pass[..i]) <==> node in AllVisited(m, pass[..j])
    ensures node in AllVisited(m, pass[..j]) ==> AllVisited(m, pass[..i])[node] == AllVisited(m, pass[..j])[node]
    decreases i - j
  {
    if j < i {
      OtherCandidates(m, pass, j, i - 1, node);
      assert pass[..i][..i - 1] == pass[..i - 1];
    }
  }

  /** The step of candidate `i`, seen from the prefix that ends with it. */
  lemma VisitedNext(m: Slots, pass: seq<Sighting>, i: nat)
    requires i < |pass|
    ensures AllVisited(m, pass[..i + 1])
            == Visited(AllVisited(m, pass[..i]), pass[i].node, pass[i].quiet, pass[i].result)
  {
    assert pass[..i + 1][..i] == pass[..i];
  }

  /**
   A node that is retiring when the pass begins is opened in that very pass
   exactly when it is listed again after the candidate that dropped its channel.
   */
  lemma ReopenedInSamePassExactly(m: Slots, pass: seq<Sighting>, node: Node)
    requires node in m && m[node].Retiring?
    ensures (exists i :: 0 <= i < |pass| && pass[i].node == node && OpensAt(m, pass, i))
            <==> exists i, j :: 0 <= i < j < |pass| && pass[i].node == node && pass[j].node == node
                                && DropsAt(m, pass, i)
  {
    if i, j :| 0 <= i < j < |pass| && pass[i].node == node && pass[j].node == node && DropsAt(m, pass, i) {
      var next := FirstAfter(pass, node, i + 1, j);
      VisitedNext(m, pass, i);
      OtherCandidates(m, pass, i + 1, next, node);
      assert OpensAt(m, pass, next);
    }
    if j :| 0 <= j < |pass| && pass[j].node == node && OpensAt(m, pass, j) {
      var i := DroppedBefore(m, pass, node, j);
      assert DropsAt(m, pass, i);
    }
  }

  lemma {:induction false} FirstAfter(pass: seq<Sighting>, node: Node, lo: nat, hi: nat) returns (first: nat)
    requires lo <= hi < |pass| && pass[hi].node == node
    ensures lo <= first <= hi && pass[first].node == node
    ensures forall k :: lo <= k < first ==> pass[k].node != node
    decreases hi - lo
  {
    if pass[lo].node == node {
      first := lo;
    } else {
      first := FirstAfter(pass, node, lo + 1, hi);
    }
  }

  /** A retiring node that is missing at candidate `j` was dropped at an earlier one. */
  lemma {:induction false} DroppedBefore(m: Slots, pass: seq<Sighting>, node: Node, j: nat) returns (i: nat)
    requires node in m && m[node].Retiring? && j <= |pass|
    requires node !in AllVisited(m, pass[..j])
    ensures i < j && pass[i].node == node && DropsAt(m, pass, i)
  {
    VisitedNext(m, pass, j - 1);
    if node !in AllVisited(m, pass[..j - 1]) {
      i := DroppedBefore(m, pass, node, j - 1);
    } else {
      i := j - 1;
    }
  }

  /** So when the candidates are distinct, no pass opens a node it was retiring. */
  lemma DistinctCandidatesDeferReopening(m: Slots, pass: seq<Sighting>, i: nat)
    requires forall a, b :: 0 <= a < b < |pass| ==> pass[a].node != pass[b].node
    requires i < |pass| && pass[i].node in m && m[pass[i].node].Retiring?
    ensures !OpensAt(m, pass, i)
  {
    ReopenedInSamePassExactly(m, pass, pass[i].node);
  }

  /** A node listed twice is reopened in the pass that dropped its channel. */
  lemma RepeatedCandidateReopensAtOnce()
    ensures var m: Slots := map[7 := Retiring(1)];
            var pass := [Sighting(7, {1}, Opened(2)), Sighting(7, {1}, Opened(2))];
            DropsAt(m, pass, 0) && OpensAt(m, pass, 1) && AllVisited(m, pass) == map[7 := Active(2)]
  {
    var m: Slots := map[7 := Retiring(1)];
    var pass := [Sighting(7, {1}, Opened(2)), Sighting(7, {1}, Opened(2))];
    assert pass[..0] == [];
    VisitedNext(m, pass, 0);
    assert AllVisited(m, pass[..1]) == map[];
    VisitedNext(m, pass, 1);
    assert pass[..2] == pass;
  }
}
