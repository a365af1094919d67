/** The order in which a transaction asks for its per-key locks: byte-wise sorted, no repeats. */
module LockOrder {
  import opened Basics

  /** Byte-wise order of strings. */
  predicate Less(a: Key, b: Key) {
    if b == "" then false
    else if a == "" then true
    else a[0] < b[0] || (a[0] == b[0] && Less(a[1..], b[1..]))
  }

  lemma {:induction false} LessIrreflexive(a: Key)
    ensures !Less(a, a)
  {
    if a != "" { LessIrreflexive(a[1..]); }
  }

  lemma {:induction false} LessTransitive(a: Key, b: Key, c: Key)
    requires Less(a, b) && Less(b, c)
    ensures Less(a, c)
    decreases a
  {
    if a != "" && a[0] == b[0] == c[0] { LessTransitive(a[1..], b[1..], c[1..]); }
  }

  lemma {:induction false} LessTotal(a: Key, b: Key)
    ensures a == b || Less(a, b) || Less(b, a)
    decreases a
  {
    if a != "" && b != "" && a[0] == b[0] {
      LessTotal(a[1..], b[1..]);
      assert a == [a[0]] + a[1..] && b == [b[0]] + b[1..];
    }
  }

  /** The order is that of the first character in which the two differ; a proper prefix comes first. */
  lemma {:induction false} LessByFirstDifference(a: Key, b: Key, i: nat)
    requires i <= |a| && i <= |b| && a[..i] == b[..i] && (i < |a| && i < |b| ==> a[i] != b[i])
    requires i < |a| || i < |b|
    ensures Less(a, b) <==> i < |b| && (i == |a| || a[i] < b[i])
    decreases i
  {
    if i > 0 {
      assert a[0] == a[..i][0] == b[..i][0] == b[0];
      assert a[1..][..i - 1] == a[..i][1..] == b[..i][1..] == b[1..][..i - 1];
      LessByFirstDifference(a[1..], b[1..], i - 1);
    }
  }

  ghost predicate StrictlySorted(q: seq<Key>) {
    forall i, j | 0 <= i < j < |q| :: Less(q[i], q[j])
  }

  ghost predicate Sorted(q: seq<Key>) {
    forall i, j | 0 <= i < j < |q| :: q[i] == q[j] || Less(q[i], q[j])
  }

  function InsertSorted(k: Key, q: seq<Key>): seq<Key> {
    if q == [] then [k]
    else if Less(q[0], k) then [q[0]] + InsertSorted(k, q[1..])
    else [k] + q
  }

  /** sort.Strings */
  function Sort(keys: seq<Key>): seq<Key> {
    if keys == [] then [] else InsertSorted(keys[0], Sort(keys[1..]))
  }

  /** slices.Compact: adjacent repeats become one. */
  function Compact(q: seq<Key>): seq<Key> {
    if |q| <= 1 then q
    else if q[0] == q[1] then Compact(q[1..])
    else [q[0]] + Compact(q[1..])
  }

  /** What `lockKeys` asks for, in order. */
  function LockSequence(keys: seq<Key>): seq<Key> { Compact(Sort(keys)) }

  function Elements(q: seq<Key>): set<Key> { set i | 0 <= i < |q| :: q[i] }

  lemma ConsElements(x: Key, q: seq<Key>)
    ensures Elements([x] + q) == {x} + Elements(q)
  {
    assert forall i | 0 < i < |[x] + q| :: ([x] + q)[i] == q[i - 1];
    assert forall i | 0 <= i < |q| :: q[i] == ([x] + q)[i + 1];
    assert ([x] + q)[0] == x;
  }

  lemma HeadElements(q: seq<Key>)
    requires q != []
    ensures Elements(q) == {q[0]} + Elements(q[1..])
  {
  }

  lemma {:induction false} InsertSortedOk(k: Key, q: seq<Key>)
    requires Sorted(q)
    ensures Sorted(InsertSorted(k, q))
    ensures Elements(InsertSorted(k, q)) == {k} + Elements(q)
  {
    if q == [] {
      assert Elements([k]) == {k} + Elements([]) by { ConsElements(k, []); assert [k] + [] == [k]; }
    } else if Less(q[0], k) {
      var rest := InsertSorted(k, q[1..]);
      InsertSortedOk(k, q[1..]);
      HeadElements(q);
      ConsElements(q[0], rest);
      forall j | 0 <= j < |rest| ensures q[0] == rest[j] || Less(q[0], rest[j]) {
        assert rest[j] in Elements(rest);
        if rest[j] != k {
          var i :| 0 <= i < |q[1..]| && q[1..][i] == rest[j];
          assert q[0] == q[i + 1] || Less(q[0], q[i + 1]);
        }
      }
      SortedCons(q[0], rest);
    } else {
      ConsElements(k, q);
      forall j | 0 <= j < |q| ensures k == q[j] || Less(k, q[j]) {
        LessTotal(k, q[0]);
        if j > 0 && Less(k, q[0]) && q[0] != q[j] { LessTransitive(k, q[0], q[j]); }
      }
      SortedCons(k, q);
    }
  }

  lemma {:induction false} SortedCons(x: Key, q: seq<Key>)
    requires Sorted(q) && forall j | 0 <= j < |q| :: x == q[j] || Less(x, q[j])
    ensures Sorted([x] + q)
  {
  }

  lemma {:induction false} SortOk(keys: seq<Key>)
    ensures Sorted(Sort(keys)) && Elements(Sort(keys)) == Elements(keys)
  {
    if keys != [] {
      SortOk(keys[1..]);
      InsertSortedOk(keys[0], Sort(keys[1..]));
      HeadElements(keys);
    }
  }

  lemma {:induction false} CompactOk(q: seq<Key>)
    requires Sorted(q)
    ensures StrictlySorted(Compact(q)) && Elements(Compact(q)) == Elements(q)
    ensures q != [] ==> Compact(q) != [] && Compact(q)[0] == q[0]
  {
    if |q| > 1 {
      var rest := q[1..];
      CompactOk(rest);
      HeadElements(q);
      HeadElements(rest);
      if q[0] != q[1] {
        var tail := Compact(rest);
        ConsElements(q[0], tail);
        forall j | 0 <= j < |tail| ensures Less(q[0], tail[j]) {
          assert Less(q[0], q[1]);
          if j > 0 { LessTransitive(q[0], q[1], tail[j]); }
        }
      }
    }
  }

  /** The locks asked for are exactly those of the keys, each once, in strictly ascending order. */
  lemma LockSequenceOk(keys: seq<Key>)
    ensures StrictlySorted(LockSequence(keys))
    ensures Elements(LockSequence(keys)) == Elements(keys)
  {
    SortOk(keys);
    CompactOk(Sort(keys));
  }
}
