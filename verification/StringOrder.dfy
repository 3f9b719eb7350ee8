/** The order in which a map keyed by strings is walked: character by character, a prefix first. */
module StringOrder {
  predicate Leq(a: string, b: string) {
    || |a| == 0
    || (|b| > 0 && (a[0] < b[0] || (a[0] == b[0] && Leq(a[1..], b[1..]))))
  }

  /** The strings first differ at `i`, where `a` has the smaller character. */
  predicate SmallerAt(a: string, b: string, i: nat) {
    i < |a| && i < |b| && a[..i] == b[..i] && a[i] < b[i]
  }

  lemma FirstDecides(a: string, b: string)
    requires |a| > 0 && |b| > 0 && a[0] > b[0]
    ensures forall i :: !SmallerAt(a, b, i)
  {
    forall i: nat | i < |a| && i < |b| ensures !SmallerAt(a, b, i) {
      if i > 0 {
        assert a[..i][0] == a[0] && b[..i][0] == b[0];
      }
    }
  }

  /** A prefix comes first, and otherwise the first different character decides. */
  lemma {:induction false} LeqExactly(a: string, b: string)
    ensures Leq(a, b) <==> a <= b || exists i :: SmallerAt(a, b, i)
  {
    if |a| > 0 && |b| > 0 {
      if a[0] == b[0] {
        LeqExactly(a[1..], b[1..]);
        if i: nat :| SmallerAt(a[1..], b[1..], i) {
          assert a[..i + 1] == [a[0]] + a[1..][..i] && b[..i + 1] == [b[0]] + b[1..][..i];
          assert SmallerAt(a, b, i + 1);
        }
        if i: nat :| SmallerAt(a, b, i) {
          assert a[1..][..i - 1] == a[..i][1..] && b[1..][..i - 1] == b[..i][1..];
          assert SmallerAt(a[1..], b[1..], i - 1);
        }
        assert a <= b <==> a[1..] <= b[1..] by {
          if a[1..] <= b[1..] {
            assert forall k :: 0 < k < |a| ==> a[k] == a[1..][k - 1] == b[1..][k - 1];
          }
        }
      } else if a[0] < b[0] {
        assert SmallerAt(a, b, 0);
      } else {
        FirstDecides(a, b);
      }
    }
  }

  lemma {:induction false} Total(a: string, b: string)
    ensures Leq(a, b) || Leq(b, a)
  {
    if |a| > 0 && |b| > 0 && a[0] == b[0] {
      Total(a[1..], b[1..]);
    }
  }

  lemma {:induction false} Antisymmetric(a: string, b: string)
    requires Leq(a, b) && Leq(b, a)
    ensures a == b
  {
    if |a| > 0 && |b| > 0 {
      Antisymmetric(a[1..], b[1..]);
      assert a == [a[0]] + a[1..] && b == [b[0]] + b[1..];
    }
  }

  lemma {:induction false} Transitive(a: string, b: string, c: string)
    requires Leq(a, b) && Leq(b, c)
    ensures Leq(a, c)
  {
    if |a| > 0 && |b| > 0 && |c| > 0 && a[0] == b[0] == c[0] {
      Transitive(a[1..], b[1..], c[1..]);
    }
  }

  predicate IsLeast(keys: set<string>, key: string) {
    key in keys && forall other :: other in keys ==> Leq(key, other)
  }

  lemma {:induction false} HasLeast(keys: set<string>)
    requires keys != {}
    ensures exists key :: IsLeast(keys, key)
    decreases |keys|
  {
    var some :| some in keys;
    var rest := keys - {some};
    Total(some, some);
    if rest == {} {
      assert keys == {some};
      assert IsLeast(keys, some);
    } else {
      HasLeast(rest);
      var least :| IsLeast(rest, least);
      Total(some, least);
      if Leq(some, least) {
        forall other | other in keys ensures Leq(some, other) {
          if other != some {
            Transitive(some, least, other);
          }
        }
        assert IsLeast(keys, some);
      } else {
        assert IsLeast(keys, least);
      }
    }
  }

  /** The key a walk over `keys` meets first. */
  function Least(keys: set<string>): (key: string)
    requires keys != {}
    ensures IsLeast(keys, key)
  {
    HasLeast(keys);
    assert forall x, y :: IsLeast(keys, x) && IsLeast(keys, y) ==> x == y by {
      forall x, y | IsLeast(keys, x) && IsLeast(keys, y) ensures x == y {
        Antisymmetric(x, y);
      }
    }
    var key :| key in keys && IsLeast(keys, key);
    key
  }

  lemma LeastIsUnique(keys: set<string>, key: string)
    requires IsLeast(keys, key)
    ensures Least(keys) == key
  {
    Antisymmetric(Least(keys), key);
  }
}
