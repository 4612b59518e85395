/** Building a JavaScript object by assignment in a loop,
    `rows.forEach(r => { obj[k(r)] = v(r) })` starting from `{}`, as a
    function of the `(k(r), v(r))` pairs in row order: a later pair with the
    same key overwrites an earlier one. */
module JsObject {

  /** The pair at index `i` is the last one written under its key. */
  ghost predicate IsLastKey<V>(entries: seq<(string, V)>, i: int)
    requires 0 <= i < |entries|
  {
    forall j :: i < j < |entries| ==> entries[j].0 != entries[i].0
  }

  /** The object after assigning every pair in order. */
  function FromEntries<V>(entries: seq<(string, V)>): map<string, V>
  {
    if |entries| == 0 then map[]
    else FromEntries(entries[..|entries| - 1])[entries[|entries| - 1].0 := entries[|entries| - 1].1]
  }

  /** Its keys are exactly the keys written. */
  lemma {:induction false} FromEntriesKeys<V>(entries: seq<(string, V)>)
    ensures FromEntries(entries).Keys == set i | 0 <= i < |entries| :: entries[i].0
  {
    if |entries| > 0 {
      var n := |entries| - 1;
      var prefix := entries[..n];
      FromEntriesKeys(prefix);
      assert forall i :: 0 <= i < n ==> prefix[i] == entries[i];
      var m := FromEntries(entries);
      forall k | k in m ensures k in set i | 0 <= i < |entries| :: entries[i].0 {
        if k != entries[n].0 {
          var i :| 0 <= i < n && prefix[i].0 == k;
          assert entries[i].0 == k;
        }
      }
      forall k | k in set i | 0 <= i < |entries| :: entries[i].0 ensures k in m {
        var i :| 0 <= i < |entries| && entries[i].0 == k;
        if i < n {
          assert prefix[i].0 == k;
        }
      }
    }
  }

  /** Under each key sits the value of the last pair with that key. */
  lemma {:induction false} FromEntriesLast<V>(entries: seq<(string, V)>, i: int)
    requires 0 <= i < |entries| && IsLastKey(entries, i)
    ensures entries[i].0 in FromEntries(entries) && FromEntries(entries)[entries[i].0] == entries[i].1
  {
    var n := |entries| - 1;
    if i < n {
      var prefix := entries[..n];
      assert prefix[i] == entries[i];
      assert IsLastKey(prefix, i) by {
        forall j | i < j < |prefix| ensures prefix[j].0 != prefix[i].0 {
          assert prefix[j] == entries[j];
        }
      }
      FromEntriesLast(prefix, i);
      assert entries[n].0 != entries[i].0;
    }
  }

  /** Every key of the object was written, and some pair is the last with it. */
  lemma {:induction false} FromEntriesOrigin<V>(entries: seq<(string, V)>, k: string)
    requires k in FromEntries(entries)
    ensures exists i :: 0 <= i < |entries| && entries[i].0 == k && IsLastKey(entries, i)
  {
    var n := |entries| - 1;
    if entries[n].0 == k {
      assert IsLastKey(entries, n);
    } else {
      var prefix := entries[..n];
      FromEntriesOrigin(prefix, k);
      var i :| 0 <= i < |prefix| && prefix[i].0 == k && IsLastKey(prefix, i);
      assert entries[i] == prefix[i];
      assert IsLastKey(entries, i) by {
        forall j | i < j < |entries| ensures entries[j].0 != entries[i].0 {
          if j < n {
            assert prefix[j] == entries[j];
          }
        }
      }
    }
  }
}
