/**
 * The list edits of the typed alarms screen, as the values they compute:
 * `addAlarm` appends, `deleteAlarmFromList` filters by id and `toggleAlarm`
 * maps over the list setting `enabled` on the matching id.
 */
module AlarmList {
  import opened AlarmRecord
  import opened AlarmIds

  /** `[...alarms, {id: getNextAvailableId(alarms), time, enabled}]`. */
  function WithAlarmAdded(alarms: seq<Alarm>, time: string, enabled: bool): seq<Alarm> {
    alarms + [Alarm(NextAvailableId(alarms), time, enabled)]
  }

  /** `alarms.filter(alarm => alarm.id !== id)`. */
  function WithoutId(alarms: seq<Alarm>, id: int): (r: seq<Alarm>)
    ensures forall a :: multiset(r)[a] == if a.id == id then 0 else multiset(alarms)[a]
    decreases |alarms|
  {
    if |alarms| == 0 then
      []
    else
      assert alarms == [alarms[0]] + alarms[1..];
      (if alarms[0].id == id then [] else [alarms[0]]) + WithoutId(alarms[1..], id)
  }

  /** `alarms.map(alarm => alarm.id === id ? {...alarm, enabled} : alarm)`. */
  function WithEnabled(alarms: seq<Alarm>, id: int, enabled: bool): (r: seq<Alarm>)
    ensures |r| == |alarms|
    ensures forall i :: 0 <= i < |r| ==>
      && r[i].id == alarms[i].id
      && r[i].time == alarms[i].time
      && r[i].enabled == (if alarms[i].id == id then enabled else alarms[i].enabled)
    decreases |alarms|
  {
    if |alarms| == 0 then
      []
    else
      var head := if alarms[0].id == id then alarms[0].(enabled := enabled) else alarms[0];
      [head] + WithEnabled(alarms[1..], id, enabled)
  }

  /** `s` is `t` with some elements left out, the rest in their order. */
  predicate IsSubsequence(s: seq<Alarm>, t: seq<Alarm>)
    decreases |t|
  {
    |s| <= |t| && (|s| == 0 || if s[0] == t[0] then IsSubsequence(s[1..], t[1..]) else IsSubsequence(s, t[1..]))
  }

  /** The new alarm goes at the end, carrying the smallest free id; what was there stays as it was. */
  lemma AddAppendsFreshAlarm(alarms: seq<Alarm>, time: string, enabled: bool)
    ensures var r := WithAlarmAdded(alarms, time, enabled);
      && |r| == |alarms| + 1 && r[..|alarms|] == alarms
      && r[|alarms|].time == time && r[|alarms|].enabled == enabled
      && r[|alarms|].id >= 1 && r[|alarms|].id !in Ids(alarms)
      && (forall k :: 1 <= k < r[|alarms|].id ==> k in Ids(alarms))
      && Ids(r) == Ids(alarms) + {r[|alarms|].id}
      && (UniqueIds(alarms) ==> UniqueIds(r))
  {
    var r := WithAlarmAdded(alarms, time, enabled);
    assert r[..|alarms|] == alarms;
    if UniqueIds(alarms) {
      FreshIdKeepsIdsUnique(alarms, time, enabled);
    }
    assert Ids(r) == Ids(alarms) + {r[|alarms|].id} by {
      forall a | a in r ensures a in alarms || a == r[|alarms|] {
        var k :| 0 <= k < |r| && r[k] == a;
        if k < |alarms| { assert alarms[k] == a; }
      }
    }
  }

  /** Deleting keeps the other alarms in their order. */
  lemma {:induction false} WithoutIdIsSubsequence(alarms: seq<Alarm>, id: int)
    ensures IsSubsequence(WithoutId(alarms, id), alarms)
    decreases |alarms|
  {
    if |alarms| > 0 {
      var rest := WithoutId(alarms[1..], id);
      WithoutIdIsSubsequence(alarms[1..], id);
      if alarms[0].id == id {
        assert WithoutId(alarms, id) == rest;
        SubsequenceOfTail(rest, alarms);
      } else {
        assert WithoutId(alarms, id) == [alarms[0]] + rest;
        assert ([alarms[0]] + rest)[1..] == rest;
      }
    }
  }

  /** A subsequence of the tail is a subsequence of the whole. */
  lemma {:induction false} SubsequenceOfTail(s: seq<Alarm>, t: seq<Alarm>)
    requires |t| > 0 && IsSubsequence(s, t[1..])
    ensures IsSubsequence(s, t)
    decreases |t|, 1
  {
    if |s| > 0 && s[0] == t[0] {
      SubsequenceDropHead(s, t[1..]);
      assert t[1..][1..] == t[2..];
      SubsequenceOfTail(s[1..], t[1..]);
    }
  }

  /** Without its first element a subsequence matches from the second element of the sequence on. */
  lemma {:induction false} SubsequenceDropHead(s: seq<Alarm>, t: seq<Alarm>)
    requires |s| > 0 && IsSubsequence(s, t)
    ensures IsSubsequence(s[1..], t[1..])
    decreases |t|, 0
  {
    if s[0] != t[0] {
      SubsequenceDropHead(s, t[1..]);
      assert t[1..][1..] == t[2..];
      SubsequenceOfTail(s[1..], t[1..]);
    }
  }

  /** Deleting an id no alarm has leaves the list as it was. */
  lemma {:induction false} WithoutAbsentId(alarms: seq<Alarm>, id: int)
    requires id !in Ids(alarms)
    ensures WithoutId(alarms, id) == alarms
    decreases |alarms|
  {
    if |alarms| > 0 {
      assert alarms[0] in alarms;
      assert Ids(alarms[1..]) <= Ids(alarms);
      WithoutAbsentId(alarms[1..], id);
      assert [alarms[0]] + alarms[1..] == alarms;
    }
  }

  /** An alarm survives the delete exactly when it was there and carries another id. */
  lemma WithoutIdMembers(alarms: seq<Alarm>, id: int, a: Alarm)
    ensures a in WithoutId(alarms, id) <==> a in alarms && a.id != id
  {
    var r := WithoutId(alarms, id);
    assert a in r <==> multiset(r)[a] > 0;
    assert a in alarms <==> multiset(alarms)[a] > 0;
  }

  /** After deleting, the id is gone and every other id is still there. */
  lemma WithoutIdIds(alarms: seq<Alarm>, id: int)
    ensures Ids(WithoutId(alarms, id)) == Ids(alarms) - {id}
  {
    var r := WithoutId(alarms, id);
    forall a | a in r ensures a in alarms && a.id != id {
      WithoutIdMembers(alarms, id, a);
    }
    forall a | a in alarms && a.id != id ensures a in r {
      WithoutIdMembers(alarms, id, a);
    }
  }

  /** Distinct ids in front of a list: the list's own are distinct and none equals the first. */
  lemma UniqueIdsCons(a: Alarm, s: seq<Alarm>)
    ensures UniqueIds([a] + s) <==> UniqueIds(s) && forall b :: b in s ==> b.id != a.id
  {
    var t := [a] + s;
    if UniqueIds(t) {
      forall i, j | 0 <= i < j < |s| ensures s[i].id != s[j].id {
        assert s[i] == t[i + 1] && s[j] == t[j + 1];
      }
      forall b | b in s ensures b.id != a.id {
        var k :| 0 <= k < |s| && s[k] == b;
        assert t[0] == a && t[k + 1] == b;
        assert t[0].id != t[k + 1].id;
      }
    }
    if UniqueIds(s) && forall b :: b in s ==> b.id != a.id {
      forall i, j | 0 <= i < j < |t| ensures t[i].id != t[j].id {
        assert t[j] == s[j - 1];
        if i > 0 { assert t[i] == s[i - 1]; }
      }
    }
  }

  /** Deleting keeps distinct ids distinct. */
  lemma {:induction false} WithoutIdKeepsIdsUnique(alarms: seq<Alarm>, id: int)
    requires UniqueIds(alarms)
    ensures UniqueIds(WithoutId(alarms, id))
    decreases |alarms|
  {
    if |alarms| > 0 {
      var tail := alarms[1..];
      var rest := WithoutId(tail, id);
      assert alarms == [alarms[0]] + tail;
      UniqueIdsCons(alarms[0], tail);
      WithoutIdKeepsIdsUnique(tail, id);
      if alarms[0].id != id {
        forall b | b in rest ensures b.id != alarms[0].id {
          WithoutIdMembers(tail, id, b);
        }
        UniqueIdsCons(alarms[0], rest);
      }
    }
  }

  /** Toggling an id no alarm has leaves the list as it was. */
  lemma WithEnabledAbsentId(alarms: seq<Alarm>, id: int, enabled: bool)
    requires id !in Ids(alarms)
    ensures WithEnabled(alarms, id, enabled) == alarms
  {
    var r := WithEnabled(alarms, id, enabled);
    forall i | 0 <= i < |alarms| ensures r[i] == alarms[i] {
      assert alarms[i] in alarms;
    }
  }

  /** Toggling keeps the set of ids. */
  lemma WithEnabledKeepsIds(alarms: seq<Alarm>, id: int, enabled: bool)
    ensures Ids(WithEnabled(alarms, id, enabled)) == Ids(alarms)
  {
    var r := WithEnabled(alarms, id, enabled);
    forall a | a in r ensures a.id in Ids(alarms) {
      var k :| 0 <= k < |r| && r[k] == a;
      assert alarms[k] in alarms;
    }
    forall a | a in alarms ensures a.id in Ids(r) {
      var k :| 0 <= k < |alarms| && alarms[k] == a;
      assert r[k] in r;
    }
  }

  /** Toggling keeps distinct ids distinct. */
  lemma WithEnabledKeepsIdsUnique(alarms: seq<Alarm>, id: int, enabled: bool)
    requires UniqueIds(alarms)
    ensures UniqueIds(WithEnabled(alarms, id, enabled))
  {
  }

  /** Toggling twice keeps only the second value. */
  lemma WithEnabledTwice(alarms: seq<Alarm>, id: int, enabled: bool, again: bool)
    ensures WithEnabled(WithEnabled(alarms, id, enabled), id, again) == WithEnabled(alarms, id, again)
  {
  }

  /** Ids freed by a delete are handed out again: add, add, delete the first, add gives the first id back. */
  lemma FreedIdIsReused(time: string, enabled: bool)
    ensures var first := WithAlarmAdded([], time, enabled);
      var second := WithAlarmAdded(first, time, enabled);
      var third := WithAlarmAdded(WithoutId(second, 1), time, enabled);
      && first[0].id == 1 && second[1].id == 2 && third[1].id == 1
  {
    var first := WithAlarmAdded([], time, enabled);
    LeastFreeIsUnique([], 1);
    assert first == [Alarm(1, time, enabled)];
    assert Ids(first) == {1};
    LeastFreeIsUnique(first, 2);
    var second := WithAlarmAdded(first, time, enabled);
    assert second == [Alarm(1, time, enabled), Alarm(2, time, enabled)];
    var kept := WithoutId(second, 1);
    assert second[1..] == [Alarm(2, time, enabled)];
    assert WithoutId(second[1..], 1) == [Alarm(2, time, enabled)] + WithoutId([], 1);
    assert kept == [Alarm(2, time, enabled)];
    assert Ids(kept) == {2};
    LeastFreeIsUnique(kept, 1);
  }
}
