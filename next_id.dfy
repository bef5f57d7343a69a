/**
 * Id allocation for new alarms (`getNextAvailableId`): the smallest positive
 * integer that no alarm in the list uses, so the ids of deleted alarms are
 * handed out again.
 */
module AlarmIds {
  import opened AlarmRecord

  /** The ids in use. */
  function Ids(alarms: seq<Alarm>): set<int> {
    set a | a in alarms :: a.id
  }

  /** No two alarms of the list share an id. */
  predicate UniqueIds(alarms: seq<Alarm>) {
    forall i, j :: 0 <= i < j < |alarms| ==> alarms[i].id != alarms[j].id
  }

  /** A list has at most as many distinct ids as it has alarms. */
  lemma {:induction false} IdsBound(alarms: seq<Alarm>)
    ensures |Ids(alarms)| <= |alarms|
    decreases |alarms|
  {
    if |alarms| > 0 {
      var rest := alarms[1..];
      IdsBound(rest);
      assert Ids(alarms) == Ids(rest) + {alarms[0].id} by {
        forall a | a in alarms ensures a == alarms[0] || a in rest {
          var k :| 0 <= k < |alarms| && alarms[k] == a;
          if k > 0 { assert rest[k - 1] == a; }
        }
      }
    }
  }

  /** Pigeonhole: a set holding every integer 1 .. n-1 has at least n - 1 members. */
  lemma {:induction false} Pigeonhole(used: set<int>, n: nat)
    requires n >= 1
    requires forall k :: 1 <= k < n ==> k in used
    ensures n - 1 <= |used|
    decreases n
  {
    if n > 1 {
      var rest := used - {n - 1};
      Pigeonhole(rest, n - 1);
      assert used == rest + {n - 1};
    }
  }

  /**
   * The first integer from `k` on that `used` lacks, given that it holds every
   * integer 1 .. k-1: the smallest positive integer missing from `used`.
   */
  function LeastFreeFrom(used: set<int>, k: nat): (r: nat)
    requires k >= 1
    requires forall j :: 1 <= j < k ==> j in used
    ensures k <= r <= |used| + 1
    ensures r !in used
    ensures forall j :: 1 <= j < r ==> j in used
    decreases |used| + 1 - k
  {
    Pigeonhole(used, k);
    if k !in used then k
    else
      Pigeonhole(used, k + 1);
      LeastFreeFrom(used, k + 1)
  }

  /** The id `getNextAvailableId` returns for the list. */
  function NextAvailableId(alarms: seq<Alarm>): (r: nat)
    ensures 1 <= r <= |alarms| + 1
    ensures r !in Ids(alarms)
    ensures forall k :: 1 <= k < r ==> k in Ids(alarms)
  {
    IdsBound(alarms);
    LeastFreeFrom(Ids(alarms), 1)
  }

  /** The three properties pin the id down: no other integer is positive, free and below every other free one. */
  lemma LeastFreeIsUnique(alarms: seq<Alarm>, r: int)
    requires r >= 1 && r !in Ids(alarms)
    requires forall k :: 1 <= k < r ==> k in Ids(alarms)
    ensures r == NextAvailableId(alarms)
  {
  }

  /** The allocator: counts up from 1 until it reaches an id no alarm uses. */
  method GetNextAvailableId(alarms: seq<Alarm>) returns (id: int)
    ensures id >= 1
    ensures forall a :: a in alarms ==> a.id != id
    ensures forall k :: 1 <= k < id ==> k in Ids(alarms)
    ensures id <= |alarms| + 1
    ensures id == NextAvailableId(alarms)
  {
    var usedIds := set a | a in alarms :: a.id;
    IdsBound(alarms);
    id := 1;
    while id in usedIds
      invariant 1 <= id <= |usedIds| + 1
      invariant forall k :: 1 <= k < id ==> k in usedIds
      decreases |usedIds| + 1 - id
    {
      Pigeonhole(usedIds, id + 1);
      id := id + 1;
    }
    LeastFreeIsUnique(alarms, id);
  }

  /**
   * The id depends only on the set of ids in use: reordering or repeating
   * alarms, or changing their times and flags, changes nothing.
   */
  lemma NextIdIgnoresOrderAndRepeats(alarms: seq<Alarm>, other: seq<Alarm>)
    requires Ids(alarms) == Ids(other)
    ensures NextAvailableId(alarms) == NextAvailableId(other)
  {
  }

  /** An alarm carrying the allocated id keeps a list of distinct ids distinct. */
  lemma FreshIdKeepsIdsUnique(alarms: seq<Alarm>, time: string, enabled: bool)
    requires UniqueIds(alarms)
    ensures UniqueIds(alarms + [Alarm(NextAvailableId(alarms), time, enabled)])
  {
    var added := alarms + [Alarm(NextAvailableId(alarms), time, enabled)];
    forall i, j | 0 <= i < j < |added| ensures added[i].id != added[j].id {
      if j == |alarms| {
        assert added[i] in alarms;
      }
    }
  }
}
