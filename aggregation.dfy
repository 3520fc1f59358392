/** `df.groupby(['age', 'gender', 'ethnicity']).size()` in `compare_regions`. */
module Aggregation {
  import opened Types

  /** Number of rows of `rows` that fall into group `k`. */
  function Count(rows: seq<Household>, k: GroupKey): (n: nat)
    ensures n <= |rows|
  {
    if |rows| == 0 then 0
    else Count(rows[..|rows| - 1], k) + (if KeyOf(rows[|rows| - 1]) == k then 1 else 0)
  }

  /** The groups that some row falls into. */
  function ObservedKeys(rows: seq<Household>): set<GroupKey>
  {
    set i | 0 <= i < |rows| :: KeyOf(rows[i])
  }

  /** The group-count series: one entry per observed group, holding its size. */
  function GroupSizes(rows: seq<Household>): (m: map<GroupKey, nat>)
    ensures forall k :: k in m ==> 1 <= m[k] <= |rows|
  {
    assert forall k :: k in ObservedKeys(rows) ==> Count(rows, k) >= 1 by {
      forall k | k in ObservedKeys(rows) ensures Count(rows, k) >= 1 {
        CountPositiveIffObserved(rows, k);
      }
    }
    map k | k in ObservedKeys(rows) :: Count(rows, k)
  }

  /** `m` with the count of `k` raised by one (a missing `k` starts at 0). */
  function Bump(m: map<GroupKey, nat>, k: GroupKey): (m': map<GroupKey, nat>)
    ensures m'.Keys == m.Keys + {k}
    ensures m'[k] == (if k in m then m[k] else 0) + 1
    ensures forall j :: j in m && j != k ==> m'[j] == m[j]
  {
    m[k := (if k in m then m[k] else 0) + 1]
  }

  /** Sum of all counts of a series. */
  ghost function Total(m: map<GroupKey, nat>): nat
    decreases |m|
  {
    if |m| == 0 then 0
    else
      var k :| k in m;
      assert |m - {k}| < |m| by { assert (m - {k}).Keys == m.Keys - {k}; }
      m[k] + Total(m - {k})
  }

  /** Counting one series pass: walks the rows once and bumps the group of each. */
  method Aggregate(rows: seq<Household>) returns (sizes: map<GroupKey, nat>)
    ensures sizes == GroupSizes(rows)
  {
    sizes := map[];
    var i := 0;
    while i < |rows|
      invariant 0 <= i <= |rows|
      invariant sizes == GroupSizes(rows[..i])
    {
      assert rows[..i + 1] == rows[..i] + [rows[i]];
      GroupSizesStep(rows[..i], rows[i]);
      sizes := Bump(sizes, KeyOf(rows[i]));
      i := i + 1;
    }
    assert rows[..|rows|] == rows;
  }

  /** A group has a non-zero count exactly when some row falls into it. */
  lemma {:induction false} CountPositiveIffObserved(rows: seq<Household>, k: GroupKey)
    ensures Count(rows, k) > 0 <==> k in ObservedKeys(rows)
  {
    if |rows| > 0 {
      var init := rows[..|rows| - 1];
      CountPositiveIffObserved(init, k);
      assert ObservedKeys(rows) == ObservedKeys(init) + {KeyOf(rows[|rows| - 1])} by {
        forall j | j in ObservedKeys(rows) ensures j in ObservedKeys(init) + {KeyOf(rows[|rows| - 1])} {
          var i :| 0 <= i < |rows| && KeyOf(rows[i]) == j;
          if i < |rows| - 1 { assert init[i] == rows[i]; }
        }
        forall j | j in ObservedKeys(init) ensures j in ObservedKeys(rows) {
          var i :| 0 <= i < |init| && KeyOf(init[i]) == j;
          assert rows[i] == init[i];
        }
      }
    }
  }

  /** Appending one row to a table bumps exactly that row's group. */
  lemma GroupSizesStep(rows: seq<Household>, h: Household)
    ensures GroupSizes(rows + [h]) == Bump(GroupSizes(rows), KeyOf(h))
  {
    var rows', kh := rows + [h], KeyOf(h);
    assert rows'[..|rows'| - 1] == rows;
    assert ObservedKeys(rows') == ObservedKeys(rows) + {kh} by {
      forall k | k in ObservedKeys(rows') ensures k in ObservedKeys(rows) + {kh} {
        var i :| 0 <= i < |rows'| && KeyOf(rows'[i]) == k;
        if i < |rows| {
          assert rows'[i] == rows[i];
        }
      }
      forall k | k in ObservedKeys(rows) ensures k in ObservedKeys(rows') {
        var i :| 0 <= i < |rows| && KeyOf(rows[i]) == k;
        assert rows'[i] == rows[i];
      }
      assert rows'[|rows|] == h;
    }
    var sizes, sizes', bumped := GroupSizes(rows), GroupSizes(rows'), Bump(GroupSizes(rows), kh);
    assert sizes'.Keys == bumped.Keys;
    forall k | k in sizes' ensures sizes'[k] == bumped[k] {
      if k !in sizes {
        CountPositiveIffObserved(rows, k);
      }
    }
  }

  /** The series holds exactly the observed groups, each with its exact size,
      and no group is empty. */
  lemma GroupSizesExact(rows: seq<Household>)
    ensures forall k :: k in GroupSizes(rows) <==> exists i :: 0 <= i < |rows| && KeyOf(rows[i]) == k
    ensures forall k :: k in GroupSizes(rows) ==> GroupSizes(rows)[k] == Count(rows, k) >= 1
    ensures forall k :: k !in GroupSizes(rows) ==> Count(rows, k) == 0
  {
    forall k ensures Count(rows, k) > 0 <==> k in ObservedKeys(rows) {
      CountPositiveIffObserved(rows, k);
    }
  }

  /** Removing group j from a series that also holds group k keeps k and its
      count, and makes the series smaller. */
  lemma RemoveKeeps(m: map<GroupKey, nat>, j: GroupKey, k: GroupKey)
    requires j in m && k in m && j != k
    ensures k in m - {j} && (m - {j})[k] == m[k]
    ensures |m - {j}| < |m|
  {
    assert (m - {j}).Keys == m.Keys - {j};
  }

  /** Removing two groups does not depend on the order of removal. */
  lemma RemoveCommutes(m: map<GroupKey, nat>, j: GroupKey, k: GroupKey)
    ensures (m - {j}) - {k} == (m - {k}) - {j}
  {
  }

  /** The first choice made by Total. */
  lemma TotalUnfold(m: map<GroupKey, nat>) returns (j: GroupKey)
    requires |m| != 0
    ensures j in m && Total(m) == m[j] + Total(m - {j})
  {
    j :| j in m && Total(m) == m[j] + Total(m - {j});
  }

  /** Removing one group from a series subtracts exactly its count, whichever
      group the definition of Total happened to pick first. */
  lemma TotalRemove(m: map<GroupKey, nat>, k: GroupKey)
    requires k in m
    ensures Total(m) == m[k] + Total(m - {k})
    decreases |m|, 1
  {
    assert |m| != 0 by { assert k in m.Keys; }
    var j := TotalUnfold(m);
    if j != k {
      TotalRemoveOther(m, j, k);
    }
  }

  /** The sum taken from group j first equals the sum taken from group k first. */
  lemma TotalRemoveOther(m: map<GroupKey, nat>, j: GroupKey, k: GroupKey)
    requires j in m && k in m && j != k
    requires Total(m) == m[j] + Total(m - {j})
    ensures Total(m) == m[k] + Total(m - {k})
    decreases |m|, 0
  {
    var mj, mk := m - {j}, m - {k};
    RemoveKeeps(m, j, k);
    RemoveKeeps(m, k, j);
    RemoveCommutes(m, j, k);
    TotalRemove(mj, k);
    TotalRemove(mk, j);
  }

  /** Bumping one group raises the total by one. */
  lemma TotalBump(m: map<GroupKey, nat>, k: GroupKey)
    ensures Total(Bump(m, k)) == Total(m) + 1
  {
    var m' := Bump(m, k);
    TotalRemove(m', k);
    if k in m {
      TotalRemove(m, k);
      assert m' - {k} == m - {k};
    } else {
      assert m' - {k} == m;
    }
  }

  /** The group sizes add up to the number of rows: every row is counted once. */
  lemma {:induction false} TotalIsRowCount(rows: seq<Household>)
    ensures Total(GroupSizes(rows)) == |rows|
  {
    if |rows| == 0 {
      assert GroupSizes(rows) == map[];
    } else {
      var init := rows[..|rows| - 1];
      TotalIsRowCount(init);
      assert rows == init + [rows[|rows| - 1]];
      GroupSizesStep(init, rows[|rows| - 1]);
      TotalBump(GroupSizes(init), KeyOf(rows[|rows| - 1]));
    }
  }
}
