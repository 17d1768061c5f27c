/**
 * Enumerating a finite set of ids in ascending order: the order in which the
 * model's store returns rows.
 */
module IdOrder {

  predicate StrictlyIncreasing(s: seq<int>)
  {
    forall i, j :: 0 <= i < j < |s| ==> s[i] < s[j]
  }

  /** Every non-empty finite set of integers has a least element. */
  lemma {:induction false} MinExists(s: set<int>)
    requires s != {}
    ensures exists m :: m in s && forall x :: x in s ==> m <= x
    decreases |s|
  {
    assert (forall x :: x !in s) ==> s == {};
    var y :| y in s;
    var t := s - {y};
    if t == {} {
      forall x | x in s ensures y <= x {
        assert x == y || x in t;
      }
    } else {
      assert |t| < |s| by { assert s == t + {y}; }
      MinExists(t);
      var m :| m in t && forall x :: x in t ==> m <= x;
      var least := if y < m then y else m;
      forall x | x in s ensures least <= x {
        if x != y { assert x in t; }
      }
      assert least in s;
    }
  }

  function Min(s: set<int>): (m: int)
    requires s != {}
    ensures m in s && forall x :: x in s ==> m <= x
  {
    MinExists(s);
    var m :| m in s && forall x :: x in s ==> m <= x;
    m
  }

  /** The elements of `s`, each once, smallest first. */
  function Ascending(s: set<int>): (r: seq<int>)
    ensures |r| == |s|
    ensures forall i :: 0 <= i < |r| ==> r[i] in s
    ensures forall x {:trigger x in r} :: x in s ==> x in r
    ensures StrictlyIncreasing(r)
    decreases s
  {
    if s == {} then []
    else
      var m := Min(s);
      var t := s - {m};
      var rest := Ascending(t);
      assert |t| == |s| - 1 by { assert s == t + {m}; }
      assert forall k :: 0 <= k < |rest| ==> m < rest[k];
      assert forall x :: x in s ==> x == m || x in t;
      [m] + rest
  }
}
