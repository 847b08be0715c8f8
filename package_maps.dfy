/** The package-name to version dictionaries that the mirror parser and the AUR
    scraper fill with `packages[name] = version`, one pair at a time. */
module PackageMaps {
  type Pair = (string, string)

  /** The names occurring as first components of `pairs`. */
  function Names(pairs: seq<Pair>): set<string>
  {
    set p | p in pairs :: p.0
  }

  /** The dictionary left by `d = {}` followed by `d[k] = v` for each `(k, v)`
      of `pairs` in order; its keys are exactly the names of the pairs. */
  function Collected(pairs: seq<Pair>): (m: map<string, string>)
    ensures m.Keys == Names(pairs)
  {
    if pairs == [] then map[]
    else
      var front := pairs[..|pairs| - 1];
      var last := pairs[|pairs| - 1];
      assert pairs == front + [last];
      assert Names(pairs) == Names(front) + {last.0};
      Collected(front)[last.0 := last.1]
  }

  /** One more assignment `d[k] = v` after the pairs already stored. */
  lemma CollectedSnoc(pairs: seq<Pair>, p: Pair)
    ensures Collected(pairs + [p]) == Collected(pairs)[p.0 := p.1]
  {
    assert (pairs + [p])[..|pairs|] == pairs;
  }

  /** A later pair for a name overwrites an earlier one: the value stored for
      the name of `pairs[i]` is `pairs[i]`'s own when no later pair repeats that
      name. */
  lemma {:induction false} LastWins(pairs: seq<Pair>, i: int)
    requires 0 <= i < |pairs|
    requires forall j :: i < j < |pairs| ==> pairs[j].0 != pairs[i].0
    ensures pairs[i].0 in Collected(pairs) && Collected(pairs)[pairs[i].0] == pairs[i].1
    decreases |pairs|
  {
    if i < |pairs| - 1 {
      var front := pairs[..|pairs| - 1];
      LastWins(front, i);
    }
  }

  /** Every stored value comes from the last pair with that name. */
  lemma {:induction false} StoredFromLast(pairs: seq<Pair>, k: string) returns (i: int)
    requires k in Collected(pairs)
    ensures 0 <= i < |pairs| && pairs[i] == (k, Collected(pairs)[k])
    ensures forall j :: i < j < |pairs| ==> pairs[j].0 != k
    decreases |pairs|
  {
    var front := pairs[..|pairs| - 1];
    var last := pairs[|pairs| - 1];
    if last.0 == k {
      i := |pairs| - 1;
    } else {
      i := StoredFromLast(front, k);
    }
  }
}
