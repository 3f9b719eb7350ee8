/** Enumerating once: passes repeated until the inventory is complete, has settled, or the attempts run out. */
module OneShotScan {
  import opened Wrappers

  type Inventory = int

  const ATTEMPTS: nat := 4

  /** What one pass comes back with, unless the enumeration itself fails. */
  datatype Pass = Pass(inventory: Inventory, complete: bool, healthy: bool)

  class Scan {
    var stableCandidate: Option<Inventory>
    var attempt: nat

    constructor ()
      ensures stableCandidate == None && attempt == 1
    {
      stableCandidate, attempt := None, 1;
    }

    predicate IsSettled(pass: Pass)
      reads this
    {
      || pass.complete
      || (pass.healthy && stableCandidate == Some(pass.inventory))
      || attempt >= ATTEMPTS
    }

    method Advance(pass: Pass)
      modifies this
      ensures stableCandidate == (if pass.healthy then Some(pass.inventory) else None)
      ensures attempt == old(attempt) + 1
    {
      stableCandidate := if pass.healthy then Some(pass.inventory) else None;
      attempt := attempt + 1;
    }
  }

  /** Pass `i`, the first being 1, ends the scan. */
  predicate Stops(passes: seq<Option<Pass>>, i: nat)
    requires 0 < i <= |passes|
  {
    || passes[i - 1].None?
    || passes[i - 1].value.complete
    || RepeatsHealthy(passes, i)
    || i >= ATTEMPTS
  }

  /** Two consecutive healthy passes saw the same inventory. */
  predicate RepeatsHealthy(passes: seq<Option<Pass>>, i: nat)
    requires 0 < i <= |passes|
  {
    && i >= 2
    && passes[i - 1].Some? && passes[i - 2].Some?
    && passes[i - 1].value.healthy && passes[i - 2].value.healthy
    && passes[i - 1].value.inventory == passes[i - 2].value.inventory
  }

  /**
   One-shot `enumerate`, given what each pass would come back with: it makes
   the first passes up to the one that stops it, never more than the attempts
   allowed, and returns what that one saw.
   */
  method Enumerate(passes: seq<Option<Pass>>) returns (inventory: Option<Inventory>, made: nat)
    requires |passes| >= ATTEMPTS
    ensures 0 < made <= ATTEMPTS && Stops(passes, made)
    ensures forall i :: 0 < i < made ==> !Stops(passes, i)
    ensures inventory == match passes[made - 1] case Some(pass) => Some(pass.inventory) case None => None
  {
    var scan := new Scan();
    while true
      invariant fresh(scan)
      invariant 0 < scan.attempt <= ATTEMPTS
      invariant forall i :: 0 < i < scan.attempt ==> !Stops(passes, i)
      invariant scan.attempt == 1 ==> scan.stableCandidate.None?
      invariant scan.attempt > 1 ==>
        && passes[scan.attempt - 2].Some?
        && var last := passes[scan.attempt - 2].value;
           scan.stableCandidate == if last.healthy then Some(last.inventory) else None
      decreases ATTEMPTS - scan.attempt
    {
      if passes[scan.attempt - 1].None? {
        return None, scan.attempt;
      }
      var pass := passes[scan.attempt - 1].value;
      if scan.IsSettled(pass) {
        return Some(pass.inventory), scan.attempt;
      }
      scan.Advance(pass);
    }
  }
}
