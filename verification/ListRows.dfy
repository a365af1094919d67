/** Lists kept as rows (idx, value): what a table of rows means, and what the SQL
    statements of the list commands do to it.

    The rows of one key are a map from idx to value, as the primary key (key, idx) demands.
    A row's position in the list is its rank: the number of rows with a smaller idx.
 */
module ListRows {
  import opened Basics

  type Value = string
  type Rows = map<int, Value>

  function Below(m: Rows, idx: int): set<int> { set x | x in m && x < idx }

  /** ROW_NUMBER() OVER (ORDER BY idx) - 1 */
  function Rank(m: Rows, idx: int): nat { |Below(m, idx)| }

  /** The rows, ordered by idx, hold the list s. */
  ghost predicate Represents(m: Rows, s: seq<Value>) {
    |s| == |m| && forall x | x in m :: Rank(m, x) < |s| && s[Rank(m, x)] == m[x]
  }

  ghost predicate IsLeast(m: Rows, idx: int) { idx in m && forall x | x in m :: idx <= x }

  ghost predicate IsGreatest(m: Rows, idx: int) { idx in m && forall x | x in m :: x <= idx }

  // ---------------------------------------------------------------- ranks

  lemma AnyRow(m: Rows) returns (x: int)
    requires |m| > 0
    ensures x in m
  {
    var keys := m.Keys;
    assert (forall y: int :: y !in keys) ==> keys == {};
    x :| x in keys;
  }

  lemma {:induction false} LeastRow(m: Rows) returns (lo: int)
    requires |m| > 0
    ensures IsLeast(m, lo)
    decreases |m|
  {
    lo := AnyRow(m);
    var rest := m - {lo};
    assert forall y | y in m :: y == lo || y in rest;
    if |rest| > 0 {
      var other := LeastRow(rest);
      lo := if lo < other then lo else other;
    }
  }

  lemma {:induction false} GreatestRow(m: Rows) returns (hi: int)
    requires |m| > 0
    ensures IsGreatest(m, hi)
    decreases |m|
  {
    hi := AnyRow(m);
    var rest := m - {hi};
    assert forall y | y in m :: y == hi || y in rest;
    if |rest| > 0 {
      var other := GreatestRow(rest);
      hi := if hi > other then hi else other;
    }
  }

  lemma RankRange(m: Rows, x: int)
    requires x in m
    ensures Rank(m, x) < |m|
  {
    assert Below(m, x) < m.Keys by { assert x !in Below(m, x); }
    SubsetSize(Below(m, x), m.Keys);
  }

  lemma SubsetSize(a: set<int>, b: set<int>)
    requires a < b
    ensures |a| < |b|
  {
    var rest := b - a;
    assert b == a + rest;
    assert rest != {};
  }

  // ---------------------------------------------------------------- both ends

  /** A row below all others is a new head. */
  lemma PushFront(m: Rows, s: seq<Value>, idx: int, v: Value)
    requires Represents(m, s) && forall x | x in m :: idx < x
    ensures Represents(m[idx := v], [v] + s)
  {
    var m' := m[idx := v];
    assert Below(m', idx) == {};
    forall x | x in m ensures Rank(m', x) == Rank(m, x) + 1 {
      assert Below(m', x) == Below(m, x) + {idx};
    }
  }

  /** A row above all others is a new last element. */
  lemma PushBack(m: Rows, s: seq<Value>, idx: int, v: Value)
    requires Represents(m, s) && forall x | x in m :: x < idx
    ensures Represents(m[idx := v], s + [v])
  {
    var m' := m[idx := v];
    assert Below(m', idx) == m.Keys;
    forall x | x in m ensures Rank(m', x) == Rank(m, x) {
      assert Below(m', x) == Below(m, x);
    }
  }

  /** Deleting the row with the least idx removes the head. */
  lemma PopFront(m: Rows, s: seq<Value>, idx: int)
    requires Represents(m, s) && IsLeast(m, idx)
    ensures s != [] && s[0] == m[idx] && Represents(m - {idx}, s[1..])
    ensures Rank(m, idx) == 0
    ensures forall x | x in m && x != idx :: Rank(m, x) == Rank(m - {idx}, x) + 1
  {
    var m' := m - {idx};
    assert Below(m, idx) == {};
    forall x | x in m' ensures Rank(m, x) == Rank(m', x) + 1 {
      assert Below(m, x) == Below(m', x) + {idx};
    }
  }

  /** Deleting the row with the greatest idx removes the last element. */
  lemma PopBack(m: Rows, s: seq<Value>, idx: int)
    requires Represents(m, s) && IsGreatest(m, idx)
    ensures s != [] && s[|s| - 1] == m[idx] && Represents(m - {idx}, s[..|s| - 1])
    ensures Rank(m, idx) == |m| - 1
    ensures forall x | x in m && x != idx :: Rank(m, x) == Rank(m - {idx}, x)
  {
    var m' := m - {idx};
    assert Below(m, idx) == m'.Keys && |m'| == |m| - 1;
    assert Rank(m, idx) == |s| - 1;
    forall x | x in m' ensures Rank(m, x) == Rank(m', x) < |m'| && s[..|s| - 1][Rank(m', x)] == m'[x] {
      assert Below(m, x) == Below(m', x);
      RankRange(m', x);
    }
  }

  /** Rows hold one list only. */
  lemma {:induction false} RepresentsOne(m: Rows, s: seq<Value>, t: seq<Value>)
    requires Represents(m, s) && Represents(m, t)
    ensures s == t
    decreases |m|
  {
    if |m| > 0 {
      var lo := LeastRow(m);
      PopFront(m, s, lo);
      PopFront(m, t, lo);
      RepresentsOne(m - {lo}, s[1..], t[1..]);
    }
  }

  /** Every position of the list is the rank of a row. */
  lemma {:induction false} RowAt(m: Rows, s: seq<Value>, i: nat) returns (idx: int)
    requires Represents(m, s) && i < |s|
    ensures idx in m && Rank(m, idx) == i && m[idx] == s[i]
    decreases |m|
  {
    var lo := LeastRow(m);
    PopFront(m, s, lo);
    if i == 0 {
      idx := lo;
    } else {
      idx := RowAt(m - {lo}, s[1..], i - 1);
    }
  }

  // ---------------------------------------------------------------- statements

  /** INSERT ... SELECT unnest(idxs), unnest(values): all rows, or None on a primary-key violation. */
  function InsertAll(m: Rows, idxs: seq<int>, vs: seq<Value>): Option<Rows>
    requires |idxs| == |vs|
    decreases |idxs|
  {
    if idxs == [] then Some(m)
    else if idxs[0] in m then None
    else InsertAll(m[idxs[0] := vs[0]], idxs[1..], vs[1..])
  }

  function Reversed(s: seq<Value>): (r: seq<Value>)
    ensures |r| == |s| && forall i | 0 <= i < |s| :: r[i] == s[|s| - 1 - i]
  {
    if s == [] then [] else Reversed(s[1..]) + [s[0]]
  }

  /** The batch of LPUSH meets no existing row, and puts the last value first. */
  lemma {:induction false} PushAllFront(m: Rows, s: seq<Value>, idxs: seq<int>, vs: seq<Value>, top: int)
    requires Represents(m, s) && |idxs| == |vs|
    requires forall i | 0 <= i < |idxs| :: idxs[i] == top - (i + 1)
    requires forall x | x in m :: top <= x
    ensures InsertAll(m, idxs, vs).Some?
    ensures Represents(InsertAll(m, idxs, vs).value, Reversed(vs) + s)
    decreases |idxs|
  {
    if idxs == [] {
      assert Reversed(vs) + s == s;
    } else {
      PushFront(m, s, top - 1, vs[0]);
      PushAllFront(m[top - 1 := vs[0]], [vs[0]] + s, idxs[1..], vs[1..], top - 1);
      assert Reversed(vs[1..]) + ([vs[0]] + s) == Reversed(vs) + s;
    }
  }

  lemma {:induction false} PushAllBack(m: Rows, s: seq<Value>, idxs: seq<int>, vs: seq<Value>, bottom: int)
    requires Represents(m, s) && |idxs| == |vs|
    requires forall i | 0 <= i < |idxs| :: idxs[i] == bottom + (i + 1)
    requires forall x | x in m :: x <= bottom
    ensures InsertAll(m, idxs, vs).Some?
    ensures Represents(InsertAll(m, idxs, vs).value, s + vs)
    decreases |idxs|
  {
    if idxs == [] {
      assert s + vs == s;
    } else {
      PushBack(m, s, bottom + 1, vs[0]);
      PushAllBack(m[bottom + 1 := vs[0]], s + [vs[0]], idxs[1..], vs[1..], bottom + 1);
      AppendHead(s, vs);
    }
  }

  lemma AppendHead(s: seq<Value>, vs: seq<Value>)
    requires vs != []
    ensures s + [vs[0]] + vs[1..] == s + vs
  {
  }

  /** DELETE of every row whose position is outside lo..hi-1. */
  function KeepSlice(m: Rows, lo: int, hi: int): Rows {
    map x | x in m && lo <= Rank(m, x) < hi :: m[x]
  }

  ghost function Ranked(m: Rows, lo: int, hi: int): set<int> { set x | x in m && lo <= Rank(m, x) < hi }

  /** There is one row of every rank. */
  lemma {:induction false} RankedSize(m: Rows, s: seq<Value>, lo: nat, hi: nat)
    requires Represents(m, s) && lo <= hi <= |s|
    ensures |Ranked(m, lo, hi)| == hi - lo
    decreases hi - lo
  {
    if lo == hi {
      assert Ranked(m, lo, hi) == {};
    } else {
      RankedSize(m, s, lo, hi - 1);
      var x := RowAt(m, s, hi - 1);
      forall y | y in m && Rank(m, y) == hi - 1 ensures y == x { RankDiffers(m, x, y); }
      assert Ranked(m, lo, hi) == Ranked(m, lo, hi - 1) + {x};
    }
  }

  /** A kept row moves up by as many ranks as were cut off below it. */
  lemma RankInSlice(m: Rows, s: seq<Value>, lo: nat, hi: nat, x: int)
    requires Represents(m, s) && lo <= hi <= |s| && x in KeepSlice(m, lo, hi)
    ensures Rank(KeepSlice(m, lo, hi), x) == Rank(m, x) - lo
  {
    forall y ensures y in Below(KeepSlice(m, lo, hi), x) <==> y in Ranked(m, lo, Rank(m, x)) {
      if y in m { RankDiffers(m, x, y); }
    }
    assert Below(KeepSlice(m, lo, hi), x) == Ranked(m, lo, Rank(m, x));
    RankedSize(m, s, lo, Rank(m, x));
  }

  lemma SliceSize(m: Rows, s: seq<Value>, lo: nat, hi: nat)
    requires Represents(m, s) && lo <= hi <= |s|
    ensures |KeepSlice(m, lo, hi)| == hi - lo
  {
    assert KeepSlice(m, lo, hi).Keys == Ranked(m, lo, hi);
    RankedSize(m, s, lo, hi);
  }

  lemma SliceRow(m: Rows, s: seq<Value>, lo: nat, hi: nat, x: int)
    requires Represents(m, s) && lo <= hi <= |s| && x in KeepSlice(m, lo, hi)
    ensures var kept, slice := KeepSlice(m, lo, hi), s[lo..hi];
            Rank(kept, x) < |slice| && slice[Rank(kept, x)] == kept[x]
  {
    RankInSlice(m, s, lo, hi, x);
  }

  lemma SliceRepresents(m: Rows, s: seq<Value>, lo: nat, hi: nat)
    requires Represents(m, s) && lo <= hi <= |s|
    ensures Represents(KeepSlice(m, lo, hi), s[lo..hi])
  {
    var kept, slice := KeepSlice(m, lo, hi), s[lo..hi];
    SliceSize(m, s, lo, hi);
    forall x | x in kept ensures Rank(kept, x) < |slice| && slice[Rank(kept, x)] == kept[x] {
      SliceRow(m, s, lo, hi, x);
    }
  }

  /** UPDATE of the value of one row. */
  lemma UpdateRow(m: Rows, s: seq<Value>, idx: int, v: Value)
    requires Represents(m, s) && idx in m
    ensures Represents(m[idx := v], s[Rank(m, idx) := v])
  {
    var m' := m[idx := v];
    assert m'.Keys == m.Keys;
    forall x | x in m' ensures Rank(m', x) == Rank(m, x) && (x != idx ==> Rank(m, x) != Rank(m, idx)) {
      assert Below(m', x) == Below(m, x);
      RankDiffers(m, x, idx);
    }
  }

  lemma RankDiffers(m: Rows, x: int, y: int)
    requires x in m && y in m
    ensures x < y ==> Rank(m, x) < Rank(m, y)
    ensures y < x ==> Rank(m, y) < Rank(m, x)
  {
    if x < y {
      assert x in Below(m, y) && x !in Below(m, x);
      SubsetSize(Below(m, x), Below(m, y));
    } else if y < x {
      assert y in Below(m, x) && y !in Below(m, y);
      SubsetSize(Below(m, y), Below(m, x));
    }
  }

  // ---------------------------------------------------------------- LREM

  function Count(s: seq<Value>, v: Value): nat {
    if s == [] then 0 else Count(s[..|s| - 1], v) + if s[|s| - 1] == v then 1 else 0
  }

  lemma {:induction false} CountAtMostLength(s: seq<Value>, v: Value)
    ensures Count(s, v) <= |s|
  {
    if s != [] { CountAtMostLength(s[..|s| - 1], v); }
  }

  /** Without the first n elements equal to v. */
  function RemoveFirst(s: seq<Value>, v: Value, n: nat): (r: seq<Value>)
    ensures |r| <= |s|
  {
    if s == [] then []
    else
      var front, last := s[..|s| - 1], s[|s| - 1];
      if last == v && Count(front, v) < n then RemoveFirst(front, v, n) else RemoveFirst(front, v, n) + [last]
  }

  /** Without the last n elements equal to v. */
  function RemoveLast(s: seq<Value>, v: Value, n: nat): (r: seq<Value>)
    ensures |r| <= |s|
  {
    if s == [] then []
    else if s[0] == v && Count(s[1..], v) < n then RemoveLast(s[1..], v, n)
    else [s[0]] + RemoveLast(s[1..], v, n)
  }

  function Hits(m: Rows, v: Value): set<int> { set x | x in m && m[x] == v }

  /** WHERE value = v ORDER BY idx ASC LIMIT n */
  function FirstHits(m: Rows, v: Value, n: nat): set<int> {
    set x | x in m && m[x] == v && |HitsBelow(m, v, x)| < n
  }

  /** WHERE value = v ORDER BY idx DESC LIMIT n */
  function LastHits(m: Rows, v: Value, n: nat): set<int> {
    set x | x in m && m[x] == v && |HitsAbove(m, v, x)| < n
  }

  function HitsBelow(m: Rows, v: Value, idx: int): set<int> { set x | x in m && m[x] == v && x < idx }

  function HitsAbove(m: Rows, v: Value, idx: int): set<int> { set x | x in m && m[x] == v && x > idx }

  lemma HitsWithout(m: Rows, v: Value, x: int)
    requires x in m
    ensures |Hits(m, v)| == |Hits(m - {x}, v)| + if m[x] == v then 1 else 0
  {
    if m[x] == v {
      assert Hits(m, v) == Hits(m - {x}, v) + {x};
    } else {
      assert Hits(m, v) == Hits(m - {x}, v);
    }
  }

  lemma {:induction false} CountHits(m: Rows, s: seq<Value>, v: Value)
    requires Represents(m, s)
    ensures |Hits(m, v)| == Count(s, v)
    decreases |s|
  {
    if |m| > 0 {
      var hi := GreatestRow(m);
      PopBack(m, s, hi);
      CountHits(m - {hi}, s[..|s| - 1], v);
      HitsWithout(m, v, hi);
    } else {
      assert Hits(m, v) == {};
    }
  }

  /** DELETE of the rows in `gone`. */
  function Without(m: Rows, gone: set<int>): Rows { map x | x in m && x !in gone :: m[x] }

  /** The greatest row is one of the first n hits exactly when fewer than n hits lie before it. */
  lemma FirstHitsOfLast(m: Rows, v: Value, n: nat, hi: int)
    requires IsGreatest(m, hi)
    ensures var rest := m - {hi};
            var kept := Without(rest, FirstHits(rest, v, n));
            Without(m, FirstHits(m, v, n)) ==
              if m[hi] == v && |Hits(rest, v)| < n then kept else kept[hi := m[hi]]
  {
    var rest := m - {hi};
    assert HitsBelow(m, v, hi) == Hits(rest, v);
    forall x | x in rest ensures x in FirstHits(m, v, n) <==> x in FirstHits(rest, v, n) {
      assert HitsBelow(m, v, x) == HitsBelow(rest, v, x);
    }
  }

  lemma LastHitsOfFirst(m: Rows, v: Value, n: nat, lo: int)
    requires IsLeast(m, lo)
    ensures var rest := m - {lo};
            var kept := Without(rest, LastHits(rest, v, n));
            Without(m, LastHits(m, v, n)) ==
              if m[lo] == v && |Hits(rest, v)| < n then kept else kept[lo := m[lo]]
  {
    var rest := m - {lo};
    assert HitsAbove(m, v, lo) == Hits(rest, v);
    forall x | x in rest ensures x in LastHits(m, v, n) <==> x in LastHits(rest, v, n) {
      assert HitsAbove(m, v, x) == HitsAbove(rest, v, x);
    }
  }

  lemma {:induction false} WithoutFirst(m: Rows, s: seq<Value>, v: Value, n: nat)
    requires Represents(m, s)
    ensures Represents(Without(m, FirstHits(m, v, n)), RemoveFirst(s, v, n))
    decreases |s|
  {
    if |m| > 0 {
      var hi := GreatestRow(m);
      var rest, front := m - {hi}, s[..|s| - 1];
      PopBack(m, s, hi);
      WithoutFirst(rest, front, v, n);
      CountHits(rest, front, v);
      FirstHitsOfLast(m, v, n, hi);
      PushBack(Without(rest, FirstHits(rest, v, n)), RemoveFirst(front, v, n), hi, m[hi]);
    } else {
      assert Without(m, FirstHits(m, v, n)) == map[];
    }
  }

  lemma {:induction false} WithoutLast(m: Rows, s: seq<Value>, v: Value, n: nat)
    requires Represents(m, s)
    ensures Represents(Without(m, LastHits(m, v, n)), RemoveLast(s, v, n))
    decreases |s|
  {
    if |m| > 0 {
      var lo := LeastRow(m);
      var rest, tail := m - {lo}, s[1..];
      PopFront(m, s, lo);
      WithoutLast(rest, tail, v, n);
      CountHits(rest, tail, v);
      LastHitsOfFirst(m, v, n, lo);
      PushFront(Without(rest, LastHits(rest, v, n)), RemoveLast(tail, v, n), lo, m[lo]);
    } else {
      assert Without(m, LastHits(m, v, n)) == map[];
    }
  }

  lemma SizeWithout(m: Rows, gone: set<int>)
    requires gone <= m.Keys
    ensures |Without(m, gone)| == |m| - |gone|
  {
    assert Without(m, gone).Keys == m.Keys - gone;
  }

  /** Every hit is among the first |m| hits. */
  lemma AllHitsAreFirst(m: Rows, v: Value)
    ensures FirstHits(m, v, |m|) == Hits(m, v)
  {
    forall x | x in Hits(m, v) ensures |HitsBelow(m, v, x)| < |m| {
      assert HitsBelow(m, v, x) < m.Keys by { assert x !in HitsBelow(m, v, x); }
      SubsetSize(HitsBelow(m, v, x), m.Keys);
    }
  }

  // ---------------------------------------------------------------- what removal removes

  function AtMost(n: nat, count: nat): nat { if count < n then count else n }

  /** Exactly min(n, occurrences) elements go, all equal to v, and the others keep their order. */
  lemma {:induction false} RemoveFirstCount(s: seq<Value>, v: Value, n: nat)
    ensures |RemoveFirst(s, v, n)| == |s| - AtMost(n, Count(s, v))
    ensures Others(RemoveFirst(s, v, n), v) == Others(s, v)
  {
    if s != [] {
      var front, last := s[..|s| - 1], s[|s| - 1];
      RemoveFirstCount(front, v, n);
      OthersAppend(RemoveFirst(front, v, n), last, v);
      OthersAppend(front, last, v);
      assert s == front + [last];
    }
  }

  lemma {:induction false} RemoveLastCount(s: seq<Value>, v: Value, n: nat)
    ensures |RemoveLast(s, v, n)| == |s| - AtMost(n, Count(s, v))
    ensures Others(RemoveLast(s, v, n), v) == Others(s, v)
  {
    if s != [] {
      RemoveLastCount(s[1..], v, n);
      CountHead(s, v);
    }
  }

  lemma {:induction false} RemoveFirstAll(s: seq<Value>, v: Value, n: nat)
    requires Count(s, v) <= n
    ensures RemoveFirst(s, v, n) == Others(s, v)
  {
    if s != [] {
      var front, last := s[..|s| - 1], s[|s| - 1];
      RemoveFirstAll(front, v, n);
      OthersAppend(front, last, v);
      assert s == front + [last];
    }
  }

  lemma {:induction false} RemoveLastAll(s: seq<Value>, v: Value, n: nat)
    requires Count(s, v) <= n
    ensures RemoveLast(s, v, n) == Others(s, v)
  {
    if s != [] {
      CountHead(s, v);
      RemoveLastAll(s[1..], v, n);
    }
  }

  /** The first min(n, occurrences) elements equal to v go: up to some position all of them, and from
      there on none. */
  lemma {:induction false} RemoveFirstLaw(s: seq<Value>, v: Value, n: nat) returns (i: nat)
    ensures i <= |s| && Count(s[..i], v) == AtMost(n, Count(s, v))
    ensures RemoveFirst(s, v, n) == Others(s[..i], v) + s[i..]
    decreases |s|
  {
    if Count(s, v) <= n {
      i := |s|;
      RemoveFirstAll(s, v, n);
      assert s[..i] == s && s[i..] == [];
    } else {
      var front, last := s[..|s| - 1], s[|s| - 1];
      i := RemoveFirstLaw(front, v, n);
      assert s[..i] == front[..i] && s[i..] == front[i..] + [last];
    }
  }

  /** The last min(n, occurrences) elements equal to v go: up to some position none of them, and from
      there on all. */
  lemma {:induction false} RemoveLastLaw(s: seq<Value>, v: Value, n: nat) returns (i: nat)
    ensures i <= |s| && Count(s[i..], v) == AtMost(n, Count(s, v))
    ensures RemoveLast(s, v, n) == s[..i] + Others(s[i..], v)
    decreases |s|
  {
    if Count(s, v) <= n {
      i := 0;
      RemoveLastAll(s, v, n);
      assert s[..i] == [] && s[i..] == s;
    } else {
      CountHead(s, v);
      i := RemoveLastLaw(s[1..], v, n);
      TailSlices(s, i);
      i := i + 1;
    }
  }

  lemma TailSlices(s: seq<Value>, i: nat)
    requires i < |s|
    ensures s[i + 1..] == s[1..][i..]
    ensures forall t: seq<Value> :: s[..i + 1] + t == [s[0]] + (s[1..][..i] + t)
  {
    assert s[..i + 1] == [s[0]] + s[1..][..i];
  }

  /** The elements different from v, in order. */
  function Others(s: seq<Value>, v: Value): seq<Value> {
    if s == [] then [] else (if s[0] == v then [] else [s[0]]) + Others(s[1..], v)
  }

  lemma {:induction false} OthersAppend(s: seq<Value>, x: Value, v: Value)
    ensures Others(s + [x], v) == Others(s, v) + if x == v then [] else [x]
  {
    if s == [] {
      assert s + [x] == [x];
    } else {
      assert (s + [x])[1..] == s[1..] + [x];
      OthersAppend(s[1..], x, v);
    }
  }

  lemma {:induction false} CountHead(s: seq<Value>, v: Value)
    requires s != []
    ensures Count(s, v) == Count(s[1..], v) + if s[0] == v then 1 else 0
  {
    if |s| > 1 {
      CountHead(s[..|s| - 1], v);
      assert s[..|s| - 1][1..] == s[1..][..|s| - 2];
    }
  }
}
