/**
 The enumerator's memo of probe results: entries are folded in pass by pass
 and evicted once their device has gone unseen for longer than a short grace.
 */
module ProbeCache {
  /** How many consecutive passes a device may be missing. */
  const CACHE_MISS_GRACE: nat := 3

  datatype Key = Bolt(unit: nat) | UnifyingSlot(receiver: string, slot: nat) | Direct(node: nat)

  /** Keys the store on disk keeps. */
  predicate IsPersistable(key: Key) { key.Bolt? }

  type Probe = nat

  datatype Outcome = Fresh(key: Key, probe: Probe) | Update(key: Key, probe: Probe) | Seen(key: Key) | Unkeyed

  type Pass = seq<Outcome>

  predicate Sees(o: Outcome, key: Key) { !o.Unkeyed? && o.key == key }

  predicate Inserts(o: Outcome, key: Key) { (o.Fresh? || o.Update?) && o.key == key }

  predicate SeenIn(pass: Pass, key: Key) { exists i :: 0 <= i < |pass| && Sees(pass[i], key) }

  predicate InsertedIn(pass: Pass, key: Key) { exists i :: 0 <= i < |pass| && Inserts(pass[i], key) }

  function SeenKeys(pass: Pass): set<Key> {
    set o | o in pass && !o.Unkeyed? :: o.key
  }

  // ---------------------------------------------------------------------
  // One pass, as functions
  // ---------------------------------------------------------------------

  function Applied(cache: map<Key, Probe>, pass: Pass): map<Key, Probe> {
    if pass == [] then cache
    else
      var o := pass[|pass| - 1];
      var before := Applied(cache, pass[..|pass| - 1]);
      if o.Fresh? || o.Update? then before[o.key := o.probe] else before
  }

  datatype Memo = Memo(cache: map<Key, Probe>, misses: map<Key, nat>)

  function MissesOf(m: Memo, key: Key): nat {
    if key in m.misses then m.misses[key] else 0
  }

  /** The keys among `missing` whose next miss exceeds the grace. */
  function Doomed(m: Memo, missing: set<Key>): set<Key> {
    set k | k in missing && MissesOf(m, k) + 1 > CACHE_MISS_GRACE
  }

  /** One more miss for every key of `missing`, evicting those past the grace. */
  function Aged(m: Memo, missing: set<Key>): Memo {
    var doomed := Doomed(m, missing);
    Memo(m.cache - doomed,
         map k | k in m.misses.Keys + missing - doomed :: if k in missing then MissesOf(m, k) + 1 else MissesOf(m, k))
  }

  function Evicted(m: Memo, seen: set<Key>): Memo {
    Aged(Memo(m.cache, m.misses - seen), m.cache.Keys - seen)
  }

  function AfterPass(m: Memo, pass: Pass): Memo {
    Evicted(Memo(Applied(m.cache, pass), m.misses), SeenKeys(pass))
  }

  function AfterPasses(warm: map<Key, Probe>, passes: seq<Pass>): Memo {
    if passes == [] then Memo(warm, map[])
    else AfterPass(AfterPasses(warm, passes[..|passes| - 1]), passes[|passes| - 1])
  }

  // ---------------------------------------------------------------------
  // The program
  // ---------------------------------------------------------------------

  class Enumerator {
    var cache: map<Key, Probe>
    var misses: map<Key, nat>
    var dirty: bool

    /** `with_probe_cache`: the memo starts from what the store kept. */
    constructor (warm: map<Key, Probe>)
      ensures cache == warm && misses == map[] && !dirty
    {
      cache, misses, dirty := warm, map[], false;
    }

    method ApplyOutcomes(pass: Pass) returns (seen: set<Key>)
      modifies this`cache, this`dirty
      ensures cache == Applied(old(cache), pass)
      ensures seen == SeenKeys(pass)
      ensures dirty <==> old(dirty) || exists i :: 0 <= i < |pass| && pass[i].Fresh? && IsPersistable(pass[i].key)
    {
      seen := {};
      var i := 0;
      while i < |pass|
        invariant i <= |pass|
        invariant cache == Applied(old(cache), pass[..i])
        invariant seen == SeenKeys(pass[..i])
        invariant dirty <==> old(dirty) || exists k :: 0 <= k < i && pass[k].Fresh? && IsPersistable(pass[k].key)
      {
        assert pass[..i + 1][..i] == pass[..i];
        assert pass[..i + 1] == pass[..i] + [pass[i]];
        match pass[i] {
          case Fresh(key, probe) =>
            seen := seen + {key};
            dirty := dirty || IsPersistable(key);
            cache := cache[key := probe];
          case Update(key, probe) =>
            seen := seen + {key};
            cache := cache[key := probe];
          case Seen(key) =>
            seen := seen + {key};
          case Unkeyed =>
        }
        i := i + 1;
      }
      assert pass[..i] == pass;
    }

    /** Count one more miss of a key, and evict it past the grace. */
    method MissUnseen(key: Key)
      modifies this
      ensures var count := MissesOf(Memo(old(cache), old(misses)), key) + 1;
              if count > CACHE_MISS_GRACE then
                && cache == old(cache) - {key} && misses == old(misses)[key := count] - {key}
                && dirty == (old(dirty) || IsPersistable(key))
              else cache == old(cache) && misses == old(misses)[key := count] && dirty == old(dirty)
    {
      var count := (if key in misses then misses[key] else 0) + 1;
      misses := misses[key := count];
      if count > CACHE_MISS_GRACE {
        cache := cache - {key};
        misses := misses - {key};
        dirty := dirty || IsPersistable(key);
      }
    }

    method EvictUnseen(seen: set<Key>)
      modifies this
      ensures Memo(cache, misses) == Evicted(Memo(old(cache), old(misses)), seen)
      ensures dirty <==> old(dirty) || AnyPersistable(old(cache).Keys - cache.Keys)
    {
      misses := misses - seen;
      ghost var m := Memo(cache, misses);
      var missing := cache.Keys - seen;
      ghost var aged: set<Key> := {};
      while missing != {}
        invariant aged !! missing && aged + missing == m.cache.Keys - seen
        invariant Memo(cache, misses) == Aged(m, aged)
        invariant dirty <==> old(dirty) || AnyPersistable(Doomed(m, aged))
        decreases missing
      {
        var key :| key in missing;
        AgedOnce(m, aged, key);
        OneMorePersistable(Doomed(m, aged), key);
        MissUnseen(key);
        missing, aged := missing - {key}, aged + {key};
      }
      assert old(cache).Keys - cache.Keys == Doomed(m, aged);
    }
  }

  predicate AnyPersistable(keys: set<Key>) { exists k :: k in keys && IsPersistable(k) }

  lemma OneMorePersistable(keys: set<Key>, key: Key)
    ensures AnyPersistable(keys + {key}) <==> AnyPersistable(keys) || IsPersistable(key)
    ensures keys + {} == keys
  {
    if AnyPersistable(keys) {
      var k :| k in keys && IsPersistable(k);
      assert k in keys + {key};
    }
    if IsPersistable(key) {
      assert key in keys + {key};
    }
  }

  /** Ageing one more key is one step of the eviction loop. */
  lemma AgedOnce(m: Memo, aged: set<Key>, key: Key)
    requires key !in aged && key in m.cache
    ensures var before := Aged(m, aged);
            var count := MissesOf(before, key) + 1;
            && count == MissesOf(m, key) + 1
            && Aged(m, aged + {key}) ==
               (if count > CACHE_MISS_GRACE then Memo(before.cache - {key}, before.misses[key := count] - {key})
                else Memo(before.cache, before.misses[key := count]))
            && Doomed(m, aged + {key}) == Doomed(m, aged) + (if count > CACHE_MISS_GRACE then {key} else {})
  {
    var before := Aged(m, aged);
    var count := MissesOf(before, key) + 1;
    assert Doomed(m, aged + {key}) == Doomed(m, aged) + (if count > CACHE_MISS_GRACE then {key} else {});
  }

  // ---------------------------------------------------------------------
  // Any run of passes
  // ---------------------------------------------------------------------

  /** How many passes at the end of the run did not see `key`. */
  function Streak(passes: seq<Pass>, key: Key): nat {
    if passes == [] || SeenIn(passes[|passes| - 1], key) then 0
    else Streak(passes[..|passes| - 1], key) + 1
  }

  lemma OneMoreInserted(pass: Pass, key: Key)
    requires pass != []
    ensures InsertedIn(pass, key) <==> InsertedIn(pass[..|pass| - 1], key) || Inserts(pass[|pass| - 1], key)
  {
    var front := pass[..|pass| - 1];
    if InsertedIn(front, key) {
      var i :| 0 <= i < |front| && Inserts(front[i], key);
      assert pass[i] == front[i];
    }
    if InsertedIn(pass, key) && !Inserts(pass[|pass| - 1], key) {
      var i :| 0 <= i < |pass| && Inserts(pass[i], key);
      assert front[i] == pass[i];
    }
  }

  lemma {:induction false} AppliedKeys(cache: map<Key, Probe>, pass: Pass, key: Key)
    ensures key in Applied(cache, pass) <==> key in cache || InsertedIn(pass, key)
  {
    if pass != [] {
      var front := pass[..|pass| - 1];
      AppliedKeys(cache, front, key);
      OneMoreInserted(pass, key);
    }
  }

  lemma SeenKeysAre(pass: Pass, key: Key)
    ensures key in SeenKeys(pass) <==> SeenIn(pass, key)
    ensures InsertedIn(pass, key) ==> SeenIn(pass, key)
  {
    if InsertedIn(pass, key) {
      var i :| 0 <= i < |pass| && Inserts(pass[i], key);
      assert Sees(pass[i], key);
    }
  }

  lemma LastPass(warm: map<Key, Probe>, passes: seq<Pass>, key: Key)
    requires passes != []
    ensures var before := AfterPasses(warm, passes[..|passes| - 1]);
            var pass := passes[|passes| - 1];
            var after := AfterPasses(warm, passes);
            && (key in after.cache <==>
                  (key in before.cache || InsertedIn(pass, key))
                  && (SeenIn(pass, key) || MissesOf(before, key) + 1 <= CACHE_MISS_GRACE))
            && (before.misses.Keys <= before.cache.Keys ==> after.misses.Keys <= after.cache.Keys)
            && (key in after.cache ==>
                  MissesOf(after, key) == if SeenIn(pass, key) then 0 else MissesOf(before, key) + 1)
            && (key in after.misses && key in before.cache ==> 1 <= after.misses[key] <= CACHE_MISS_GRACE)
  {
    var before := AfterPasses(warm, passes[..|passes| - 1]);
    var pass := passes[|passes| - 1];
    forall k ensures k in Applied(before.cache, pass) <==> k in before.cache || InsertedIn(pass, k) {
      AppliedKeys(before.cache, pass, k);
    }
    SeenKeysAre(pass, key);
  }

  /**
   Between passes a counter exists only for a cached key that is currently
   missing; it counts the passes missed in a row and never exceeds the grace.
   */
  lemma {:induction false} MissesCountTheStreak(warm: map<Key, Probe>, passes: seq<Pass>, key: Key)
    ensures var m := AfterPasses(warm, passes);
            && m.misses.Keys <= m.cache.Keys
            && (key in m.cache ==> MissesOf(m, key) == Streak(passes, key) <= CACHE_MISS_GRACE)
            && (key in m.misses ==> 1 <= m.misses[key])
  {
    if passes != [] {
      MissesCountTheStreak(warm, passes[..|passes| - 1], key);
      LastPass(warm, passes, key);
    }
  }

  /** `key` entered the cache after `j` passes: from the store, or from pass `j - 1`. */
  predicate EnteredAt(warm: map<Key, Probe>, passes: seq<Pass>, j: nat, key: Key)
    requires j <= |passes|
  {
    if j == 0 then key in warm else InsertedIn(passes[j - 1], key)
  }

  /** From pass `j` on, no grace-exceeding stretch of passes missed `key`. */
  ghost predicate NeverLost(passes: seq<Pass>, j: nat, key: Key) {
    forall w: nat :: j <= w ==> !LostFrom(passes, w, key)
  }

  /** The passes from `w` on that exceed the grace all missed `key`. */
  predicate LostFrom(passes: seq<Pass>, w: nat, key: Key) {
    w + CACHE_MISS_GRACE + 1 <= |passes| && AllMiss(passes, w, w + CACHE_MISS_GRACE + 1, key)
  }

  predicate AllMiss(passes: seq<Pass>, lo: nat, hi: nat, key: Key)
    requires hi <= |passes|
  {
    forall p :: lo <= p < hi ==> !SeenIn(passes[p], key)
  }

  lemma {:induction false} StreakIsTheTail(passes: seq<Pass>, key: Key)
    ensures Streak(passes, key) <= |passes|
    ensures AllMiss(passes, |passes| - Streak(passes, key), |passes|, key)
    ensures Streak(passes, key) < |passes| ==> SeenIn(passes[|passes| - Streak(passes, key) - 1], key)
  {
    if passes != [] && !SeenIn(passes[|passes| - 1], key) {
      StreakIsTheTail(passes[..|passes| - 1], key);
      var front := passes[..|passes| - 1];
      assert forall p :: 0 <= p < |front| ==> front[p] == passes[p];
    }
  }

  ghost predicate Kept(warm: map<Key, Probe>, passes: seq<Pass>, j: nat, key: Key) {
    j <= |passes| && EnteredAt(warm, passes, j, key) && NeverLost(passes, j, key)
  }

  /** One more pass keeps an entry unless it completes a stretch of misses past the grace. */
  lemma KeptLonger(warm: map<Key, Probe>, passes: seq<Pass>, j: nat, key: Key)
    requires passes != [] && j < |passes|
    ensures Kept(warm, passes, j, key)
            <==> Kept(warm, passes[..|passes| - 1], j, key)
                 && (Streak(passes, key) <= CACHE_MISS_GRACE || |passes| - j <= CACHE_MISS_GRACE)
  {
    var front := passes[..|passes| - 1];
    assert forall p :: 0 <= p < |front| ==> front[p] == passes[p];
    StreakIsTheTail(passes, key);
    forall w: nat | w < |passes| - (CACHE_MISS_GRACE + 1)
      ensures LostFrom(passes, w, key) == LostFrom(front, w, key)
    {}
    var last := |passes| - (CACHE_MISS_GRACE + 1);
    if last >= 0 {
      assert LostFrom(passes, last, key) <==> Streak(passes, key) > CACHE_MISS_GRACE;
    }
  }

  /**
   A key is cached exactly when it came from the store or from a probe, and
   since then was never missing for more passes in a row than the grace.
   */
  lemma {:induction false} CachedExactly(warm: map<Key, Probe>, passes: seq<Pass>, key: Key)
    ensures key in AfterPasses(warm, passes).cache <==> exists j: nat :: Kept(warm, passes, j, key)
  {
    if passes == [] {
      assert Kept(warm, passes, 0, key) <==> key in warm;
    } else {
      var front, pass := passes[..|passes| - 1], passes[|passes| - 1];
      CachedExactly(warm, front, key);
      MissesCountTheStreak(warm, front, key);
      LastPass(warm, passes, key);
      SeenKeysAre(pass, key);
      assert Kept(warm, passes, |passes|, key) <==> InsertedIn(pass, key);
      if key in AfterPasses(warm, passes).cache && !InsertedIn(pass, key) {
        var j: nat :| Kept(warm, front, j, key);
        KeptLonger(warm, passes, j, key);
      }
      if exists j: nat :: Kept(warm, passes, j, key) {
        var j: nat :| Kept(warm, passes, j, key);
        if j < |passes| {
          KeptLonger(warm, passes, j, key);
          StreakEndsAtEntry(warm, passes, j, key);
        }
      }
    }
  }

  /** Outcome `i` of pass `j` is the last that stores a probe of the key. */
  predicate StoredLast(passes: seq<Pass>, j: nat, i: nat, key: Key) {
    && j < |passes| && i < |passes[j]| && Inserts(passes[j][i], key)
    && (forall k :: i < k < |passes[j]| ==> !Inserts(passes[j][k], key))
    && forall k :: j < k < |passes| ==> !InsertedIn(passes[k], key)
  }

  lemma {:induction false} AppliedLast(cache: map<Key, Probe>, pass: Pass, i: nat, key: Key)
    requires i < |pass| && Inserts(pass[i], key) && forall k :: i < k < |pass| ==> !Inserts(pass[k], key)
    ensures key in Applied(cache, pass) && Applied(cache, pass)[key] == pass[i].probe
  {
    if i < |pass| - 1 {
      AppliedLast(cache, pass[..|pass| - 1], i, key);
      assert !Inserts(pass[|pass| - 1], key);
    }
  }

  lemma {:induction false} AppliedElsewhere(cache: map<Key, Probe>, pass: Pass, key: Key)
    requires !InsertedIn(pass, key)
    ensures (key in Applied(cache, pass) <==> key in cache)
            && (key in cache ==> Applied(cache, pass)[key] == cache[key])
  {
    if pass != [] {
      var front := pass[..|pass| - 1];
      OneMoreInserted(pass, key);
      AppliedElsewhere(cache, front, key);
    }
  }

  lemma EvictionKeepsProbes(m: Memo, pass: Pass, key: Key)
    requires key in AfterPass(m, pass).cache
    ensures key in Applied(m.cache, pass) && AfterPass(m, pass).cache[key] == Applied(m.cache, pass)[key]
  {}

  lemma StoredLastEarlier(passes: seq<Pass>, j: nat, i: nat, key: Key)
    requires passes != [] && StoredLast(passes, j, i, key)
    ensures InsertedIn(passes[|passes| - 1], key) ==> j == |passes| - 1
    ensures !InsertedIn(passes[|passes| - 1], key) ==>
              j < |passes| - 1 && StoredLast(passes[..|passes| - 1], j, i, key)
  {
    var last := |passes| - 1;
    assert Inserts(passes[j][i], key);
    assert forall k :: 0 <= k < last ==> passes[..last][k] == passes[k];
  }

  /** A cached probe is the last one stored for its key, in whichever pass. */
  lemma {:induction false} CachedProbeIsTheLast(
      warm: map<Key, Probe>, passes: seq<Pass>, key: Key, j: nat, i: nat)
    requires key in AfterPasses(warm, passes).cache && StoredLast(passes, j, i, key)
    ensures AfterPasses(warm, passes).cache[key] == passes[j][i].probe
    decreases |passes|
  {
    var front, pass := passes[..|passes| - 1], passes[|passes| - 1];
    var before := AfterPasses(warm, front);
    EvictionKeepsProbes(before, pass, key);
    StoredLastEarlier(passes, j, i, key);
    if InsertedIn(pass, key) {
      AppliedLast(before.cache, pass, i, key);
    } else {
      AppliedElsewhere(before.cache, pass, key);
      CachedProbeIsTheLast(warm, front, key, j, i);
    }
  }

  /** If none was ever stored, a cached probe is the one the store kept. */
  lemma {:induction false} CachedProbeIsTheStores(warm: map<Key, Probe>, passes: seq<Pass>, key: Key)
    requires key in AfterPasses(warm, passes).cache
    requires forall k :: 0 <= k < |passes| ==> !InsertedIn(passes[k], key)
    ensures key in warm && AfterPasses(warm, passes).cache[key] == warm[key]
    decreases |passes|
  {
    if passes != [] {
      var front, pass := passes[..|passes| - 1], passes[|passes| - 1];
      EvictionKeepsProbes(AfterPasses(warm, front), pass, key);
      AppliedElsewhere(AfterPasses(warm, front).cache, pass, key);
      assert forall k :: 0 <= k < |front| ==> front[k] == passes[k];
      CachedProbeIsTheStores(warm, front, key);
    }
  }

  /** Entering the cache is being seen, so a run of misses starts after it. */
  lemma StreakEndsAtEntry(warm: map<Key, Probe>, passes: seq<Pass>, j: nat, key: Key)
    requires j <= |passes| && EnteredAt(warm, passes, j, key)
    ensures Streak(passes, key) <= |passes| - j
  {
    StreakIsTheTail(passes, key);
    if j > 0 {
      SeenKeysAre(passes[j - 1], key);
    }
  }
}
