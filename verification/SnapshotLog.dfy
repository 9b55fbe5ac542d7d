/** Snapshot tables, appended to and read back by `ORDER BY time DESC LIMIT 1`, as
    `lending_positions` and `pool_snapshots` are. Rows with equal times are not
    told apart by the query, so a read may return any of them. */
module SnapshotLog {
  import opened Wrappers

  datatype Row<K, V> = Row(key: K, time: int, value: V)

  /** `row` is a possible answer to "the most recent row for `key`". */
  ghost predicate IsLatest<K, V>(log: seq<Row<K, V>>, key: K, row: Option<Row<K, V>>) {
    match row
    case None => forall r :: r in log ==> r.key != key
    case Some(latest) =>
      latest in log && latest.key == key && forall r :: r in log && r.key == key ==> r.time <= latest.time
  }

  /** One such answer. */
  function PickLatest<K(==), V>(log: seq<Row<K, V>>, key: K): (row: Option<Row<K, V>>)
    ensures IsLatest(log, key, row)
  {
    if log == [] then None
    else
      var front, last := log[..|log| - 1], log[|log| - 1];
      assert log == front + [last];
      var row := PickLatest(front, key);
      if last.key == key && (row.None? || row.value.time <= last.time) then Some(last) else row
  }

  /** The query, free to answer with any of the most recent rows. */
  method ReadLatest<K(==), V>(log: seq<Row<K, V>>, key: K) returns (row: Option<Row<K, V>>)
    ensures IsLatest(log, key, row)
  {
    row := None;
    for i := 0 to |log|
      invariant IsLatest(log[..i], key, row)
    {
      assert log[..i + 1] == log[..i] + [log[i]];
      if log[i].key == key {
        if row.None? || row.value.time < log[i].time {
          row := Some(log[i]);
        } else if row.value.time == log[i].time {
          if * {
            row := Some(log[i]);
          }
        }
      }
    }
    assert log[..|log|] == log;
  }

  /** A row newer than its key's others becomes its only possible answer, and
      changes no other key's. */
  lemma AppendNewest<K, V>(log: seq<Row<K, V>>, added: Row<K, V>, key: K, row: Option<Row<K, V>>)
    requires forall r :: r in log && r.key == added.key ==> r.time < added.time
    ensures IsLatest(log + [added], key, row)
            <==> (if key == added.key then row == Some(added) else IsLatest(log, key, row))
  {
    var more := log + [added];
    assert added in more;
    assert forall r :: r in more <==> r in log || r == added;
  }

  /** The key's own rows, in the order they were stored. */
  function Own<K(==), V>(log: seq<Row<K, V>>, key: K): seq<Row<K, V>> {
    if log == [] then []
    else
      var rest, last := Own(log[..|log| - 1], key), log[|log| - 1];
      if last.key == key then rest + [last] else rest
  }

  lemma {:induction false} OwnRows<K, V>(log: seq<Row<K, V>>, key: K)
    ensures forall r :: r in Own(log, key) <==> r in log && r.key == key
  {
    if log != [] {
      OwnRows(log[..|log| - 1], key);
      assert log == log[..|log| - 1] + [log[|log| - 1]];
    }
  }

  lemma {:induction false} OwnAppends<K, V>(log: seq<Row<K, V>>, more: seq<Row<K, V>>, key: K)
    ensures Own(log + more, key) == Own(log, key) + Own(more, key)
  {
    if more == [] {
      assert log + more == log;
    } else {
      var n := |more| - 1;
      OwnAppends(log, more[..n], key);
      assert (log + more)[..|log + more| - 1] == log + more[..n];
    }
  }

  // ---- exactly when a read returns the row stored last ----

  ghost predicate Stamped<K, V>(log: seq<Row<K, V>>, stamps: seq<(K, int)>) {
    |log| == |stamps| && forall i :: 0 <= i < |log| ==> (log[i].key, log[i].time) == stamps[i]
  }

  /** Over all rows that may carry given keys and times, a key's read can only return
      the row stored last for it if and only if that row's time is later than those
      of all its others. */
  lemma ReadsLastExactly<K, V>(stamps: seq<(K, int)>, n: nat, one: V, other: V)
    requires n < |stamps| && one != other
    requires forall i :: n < i < |stamps| ==> stamps[i].0 != stamps[n].0
    ensures (forall log: seq<Row<K, V>>, answer ::
               Stamped(log, stamps) && IsLatest(log, stamps[n].0, answer) ==> answer == Some(log[n]))
            <==> forall i :: 0 <= i < n && stamps[i].0 == stamps[n].0 ==> stamps[i].1 < stamps[n].1
  {
    var key := stamps[n].0;
    if forall i :: 0 <= i < n && stamps[i].0 == key ==> stamps[i].1 < stamps[n].1 {
      forall log: seq<Row<K, V>>, answer | Stamped(log, stamps) && IsLatest(log, key, answer)
        ensures answer == Some(log[n])
      {
        NewestIsOnlyAnswer(log, n, answer);
      }
    } else {
      var i :| 0 <= i < n && stamps[i].0 == key && stamps[n].1 <= stamps[i].1;
      var log := seq(|stamps|, j requires 0 <= j < |stamps| =>
        Row(stamps[j].0, stamps[j].1, if j == n then one else other));
      assert Stamped(log, stamps);
      TiedOrLaterIsAnswer(log, i, n);
    }
  }

  lemma NewestIsOnlyAnswer<K, V>(log: seq<Row<K, V>>, n: nat, answer: Option<Row<K, V>>)
    requires n < |log| && IsLatest(log, log[n].key, answer)
    requires forall i :: 0 <= i < |log| && i != n && log[i].key == log[n].key ==> log[i].time < log[n].time
    ensures answer == Some(log[n])
  {
    assert log[n] in log;
    var i :| 0 <= i < |log| && log[i] == answer.value;
  }

  lemma TiedOrLaterIsAnswer<K, V>(log: seq<Row<K, V>>, i: nat, n: nat)
    requires i < |log| && n < |log| && log[i].key == log[n].key && log[n].time <= log[i].time && log[i] != log[n]
    ensures exists answer :: IsLatest(log, log[n].key, answer) && answer != Some(log[n])
  {
    var answer := PickLatest(log, log[n].key);
    assert log[i] in log;
    if answer == Some(log[n]) {
      assert IsLatest(log, log[n].key, Some(log[i]));
    }
  }
}
