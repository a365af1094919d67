/** The list commands over rows, against Redis lists as sequences.

    ListStore holds the rows and the key types; `lists` is the Redis view, a ghost that
    Valid() ties to the rows.  Each SQL statement is one simultaneous update.  Keys have no
    expiry here.
 */
module Lists {
  import opened Basics
  import opened ListRows

  datatype KeyType = ListType | OtherType

  datatype Error = WrongType | NoSuchKey | IndexOutOfRange | NegativeLimit | DuplicateIndex

  datatype Reply =
    | Length(n: nat)
    | Nil
    | Bulk(value: Value)
    | Popped(key: Key, values: seq<Value>)
    | Many(values: seq<Value>)
    | Ok
    | Fails(error: Error)

  // ---------------------------------------------------------------- Redis meaning

  /** All lists; a missing key is the empty list. */
  type Redis = map<Key, seq<Value>>

  function At(r: Redis, k: Key): seq<Value> { if k in r then r[k] else [] }

  function Slice(s: seq<Value>, start: int, stop: int): seq<Value> {
    var b := Normalised(start, stop, |s|);
    if b.lo > b.hi then [] else s[b.lo..b.hi + 1]
  }

  datatype Command =
    | LPush(key: Key, values: seq<Value>)
    | RPush(key: Key, values: seq<Value>)
    | LPop(key: Key)
    | RPop(key: Key)
    | MPop(keys: seq<Key>, left: bool, count: int)
    | LTrim(key: Key, start: int, stop: int)
    | LRem(key: Key, count: int, value: Value)
    | LSet(key: Key, index: int, value: Value)
    | RPopLPush(source: Key, destination: Key)
    | LRange(key: Key, start: int, stop: int)

  datatype Outcome = Outcome(after: Redis, reply: Reply)

  function FirstNonEmpty(r: Redis, keys: seq<Key>): Option<Key> {
    if keys == [] then None
    else if At(r, keys[0]) != [] then Some(keys[0])
    else FirstNonEmpty(r, keys[1..])
  }

  /** LREM: positive counts from the head, negative from the tail, zero all. */
  function Removed(s: seq<Value>, v: Value, count: int): (r: seq<Value>)
    ensures |r| <= |s|
  {
    if count > 0 then RemoveFirst(s, v, count)
    else if count < 0 then RemoveLast(s, v, -count)
    else RemoveFirst(s, v, |s|)
  }

  function RunPush(r: Redis, k: Key, vs: seq<Value>, left: bool): Outcome {
    var s := if left then Reversed(vs) + At(r, k) else At(r, k) + vs;
    Outcome(r[k := s], Length(|s|))
  }

  function RunTrim(r: Redis, k: Key, start: int, stop: int): Outcome {
    Outcome(r[k := Slice(At(r, k), start, stop)], Ok)
  }

  function RunPop(r: Redis, k: Key, left: bool): Outcome {
    var s := At(r, k);
    if s == [] then Outcome(r, Nil)
    else if left then Outcome(r[k := s[1..]], Bulk(s[0]))
    else Outcome(r[k := s[..|s| - 1]], Bulk(s[|s| - 1]))
  }

  function RunMPop(r: Redis, keys: seq<Key>, left: bool, count: int): Outcome {
    var k := FirstNonEmpty(r, keys);
    if k.None? || count <= 0 then Outcome(r, Nil)
    else
      var s := At(r, k.value);
      var n := AtMost(|s|, count);
      if left then Outcome(r[k.value := s[n..]], Popped(k.value, s[..n]))
      else Outcome(r[k.value := s[..|s| - n]], Popped(k.value, Reversed(s[|s| - n..])))
  }

  function RunRem(r: Redis, k: Key, count: int, v: Value): Outcome {
    var s := At(r, k);
    if count == MIN_INT64 then Outcome(r, Fails(NegativeLimit))
    else Outcome(r[k := Removed(s, v, count)], Length(|s| - |Removed(s, v, count)|))
  }

  function RunSet(r: Redis, k: Key, index: int, v: Value): Outcome {
    var s := At(r, k);
    var i := if index < 0 then |s| + index else index;
    if s == [] then Outcome(r, Fails(NoSuchKey))
    else if i < 0 || i >= |s| then Outcome(r, Fails(IndexOutOfRange))
    else Outcome(r[k := s[i := v]], Ok)
  }

  function RunMove(r: Redis, source: Key, destination: Key): Outcome {
    var s := At(r, source);
    if s == [] then Outcome(r, Nil)
    else
      var v, r1 := s[|s| - 1], r[source := s[..|s| - 1]];
      Outcome(r1[destination := [v] + At(r1, destination)], Bulk(v))
  }

  /** What Redis does. */
  function Run(r: Redis, c: Command): Outcome {
    match c
    case LPush(k, vs) => RunPush(r, k, vs, true)
    case RPush(k, vs) => RunPush(r, k, vs, false)
    case LPop(k) => RunPop(r, k, true)
    case RPop(k) => RunPop(r, k, false)
    case MPop(ks, left, n) => RunMPop(r, ks, left, n)
    case LTrim(k, a, b) => RunTrim(r, k, a, b)
    case LRem(k, n, v) => RunRem(r, k, n, v)
    case LSet(k, i, v) => RunSet(r, k, i, v)
    case RPopLPush(s, d) => RunMove(r, s, d)
    case LRange(k, a, b) => Outcome(r, Many(Slice(At(r, k), a, b)))
  }

  datatype Replies = Replies(after: Redis, replies: seq<Reply>)

  function RunAll(r: Redis, cs: seq<Command>): Replies {
    if cs == [] then Replies(r, [])
    else
      var before := RunAll(r, cs[..|cs| - 1]);
      var last := Run(before.after, cs[|cs| - 1]);
      Replies(last.after, before.replies + [last.reply])
  }

  // ---------------------------------------------------------------- statements on one key's rows

  /** SELECT value ... ORDER BY idx ASC */
  method SelectValues(m: Rows, ghost s: seq<Value>) returns (values: seq<Value>)
    requires Represents(m, s)
    ensures values == s
  {
    values := [];
    var rest := m;
    ghost var left := s;
    while |rest| > 0
      invariant Represents(rest, left) && s == values + left
      decreases |left|
    {
      ghost var lo := LeastRow(rest);
      assert IsLeast(rest, lo);
      var idx :| idx in rest && forall x | x in rest :: idx <= x;
      PopFront(rest, left, idx);
      MoveHead(values, left);
      values := values + [rest[idx]];
      rest, left := rest - {idx}, left[1..];
    }
    assert values + left == values;
  }

  lemma MoveHead(a: seq<Value>, b: seq<Value>)
    requires b != []
    ensures a + b == (a + [b[0]]) + b[1..]
  {
  }

  /** SELECT value ... ORDER BY idx LIMIT hi-lo OFFSET lo */
  method SelectSlice(m: Rows, ghost s: seq<Value>, lo: nat, hi: nat) returns (values: seq<Value>)
    requires Represents(m, s) && lo <= hi <= |s|
    ensures values == s[lo..hi]
  {
    SliceRepresents(m, s, lo, hi);
    values := SelectValues(KeepSlice(m, lo, hi), s[lo..hi]);
  }

  /** DELETE of every row whose position is outside lo..hi-1 */
  method DeleteOutside(m: Rows, ghost s: seq<Value>, lo: nat, hi: nat) returns (kept: Rows)
    requires Represents(m, s) && lo <= hi <= |s|
    ensures Represents(kept, s[lo..hi])
  {
    SliceRepresents(m, s, lo, hi);
    kept := KeepSlice(m, lo, hi);
  }

  /** DELETE of the n first or last rows, returning their values in pop order. */
  method TakeRows(m: Rows, ghost s: seq<Value>, left: bool, n: nat) returns (kept: Rows, values: seq<Value>)
    requires Represents(m, s) && n <= |s|
    ensures left ==> Represents(kept, s[n..]) && values == s[..n]
    ensures !left ==> Represents(kept, s[..|s| - n]) && values == Reversed(s[|s| - n..])
  {
    if left {
      kept, values := TakeFront(m, s, n);
    } else {
      kept, values := TakeBack(m, s, n);
    }
  }

  method TakeFront(m: Rows, ghost s: seq<Value>, n: nat) returns (kept: Rows, values: seq<Value>)
    requires Represents(m, s) && n <= |s|
    ensures Represents(kept, s[n..]) && values == s[..n]
  {
    values := SelectSlice(m, s, 0, n);
    kept := DeleteOutside(m, s, n, |m|);
  }

  method TakeBack(m: Rows, ghost s: seq<Value>, n: nat) returns (kept: Rows, values: seq<Value>)
    requires Represents(m, s) && n <= |s|
    ensures Represents(kept, s[..|s| - n]) && values == Reversed(s[|s| - n..])
  {
    var ascending := SelectSlice(m, s, |m| - n, |m|);
    assert ascending == s[|s| - n..];
    kept := DeleteOutside(m, s, 0, |m| - n);
    values := Reversed(ascending);
  }

  /** LTRIM's DELETE; `all` when nothing is left. */
  method TrimRows(m: Rows, ghost s: seq<Value>, start: int, stop: int) returns (kept: Rows, all: bool)
    requires Represents(m, s)
    ensures Represents(kept, Slice(s, start, stop)) && (all <==> Slice(s, start, stop) == [])
  {
    var b := Normalised(start, stop, |m|);
    if b.lo > b.hi {
      return map[], true;
    }
    kept := DeleteOutside(m, s, b.lo, b.hi + 1);
    all := false;
  }

  /** The three DELETE forms of LREM, with the number of affected rows. */
  method RemoveRows(m: Rows, ghost s: seq<Value>, v: Value, count: int) returns (kept: Rows, removed: nat)
    requires Represents(m, s)
    ensures Represents(kept, Removed(s, v, count)) && removed == |s| - |Removed(s, v, count)|
  {
    var gone: set<int>;
    if count == 0 {
      gone := Hits(m, v);
      AllHitsAreFirst(m, v);
      WithoutFirst(m, s, v, |m|);
    } else if count > 0 {
      gone := FirstHits(m, v, count);
      WithoutFirst(m, s, v, count);
    } else {
      gone := LastHits(m, v, -count);
      WithoutLast(m, s, v, -count);
    }
    SizeWithout(m, gone);
    kept := Without(m, gone);
    removed := |gone|;
  }

  /** The batch insert of LPUSH: the first value goes right below the old head. */
  method InsertFront(m: Rows, ghost s: seq<Value>, values: seq<Value>, minIdx: int) returns (inserted: Option<Rows>)
    requires Represents(m, s) && forall x | x in m :: minIdx <= x
    ensures inserted.Some? && Represents(inserted.value, Reversed(values) + s)
  {
    var indices: seq<int> := [];
    var i := 0;
    while i < |values|
      invariant 0 <= i <= |values| && |indices| == i
      invariant forall j | 0 <= j < i :: indices[j] == minIdx - (j + 1)
    {
      indices := indices + [minIdx - (i + 1)];
      i := i + 1;
    }
    PushAllFront(m, s, indices, values, minIdx);
    inserted := InsertAll(m, indices, values);
  }

  /** The single-row insert of RPOPLPUSH. */
  method InsertHead(m: Rows, ghost s: seq<Value>, idx: int, v: Value) returns (inserted: Option<Rows>)
    requires Represents(m, s) && forall x | x in m :: idx < x
    ensures inserted.Some? && Represents(inserted.value, [v] + s)
  {
    PushFront(m, s, idx, v);
    inserted := if idx in m then None else Some(m[idx := v]);
  }

  method InsertBack(m: Rows, ghost s: seq<Value>, values: seq<Value>, maxIdx: int) returns (inserted: Option<Rows>)
    requires Represents(m, s) && forall x | x in m :: x <= maxIdx
    ensures inserted.Some? && Represents(inserted.value, s + values)
  {
    var indices: seq<int> := [];
    var i := 0;
    while i < |values|
      invariant 0 <= i <= |values| && |indices| == i
      invariant forall j | 0 <= j < i :: indices[j] == maxIdx + (j + 1)
    {
      indices := indices + [maxIdx + (i + 1)];
      i := i + 1;
    }
    PushAllBack(m, s, indices, values, maxIdx);
    inserted := InsertAll(m, indices, values);
  }

  // ---------------------------------------------------------------- the store

  class ListStore {
    var meta: map<Key, KeyType>
    var rows: map<Key, Rows>
    ghost var lists: Redis

    function RowsOf(k: Key): Rows reads this { if k in rows then rows[k] else map[] }

    ghost predicate Valid() reads this { forall k: Key :: Represents(RowsOf(k), At(lists, k)) }

    /** No key holds anything but a list. */
    ghost predicate ListsOnly() reads this { forall k | k in meta :: meta[k].ListType? }

    constructor ()
      ensures Valid() && ListsOnly() && lists == map[]
    {
      meta, rows, lists := map[], map[], map[];
    }

    /** Replaces the rows of one key, which now hold s. */
    method Store(k: Key, m: Rows, ghost s: seq<Value>)
      requires Valid() && Represents(m, s)
      modifies this`rows, this`lists
      ensures Valid() && lists == old(lists)[k := s]
      ensures RowsOf(k) == m && forall j | j != k :: RowsOf(j) == old(RowsOf(j))
    {
      rows := rows[k := m];
      lists := lists[k := s];
      forall j: Key ensures Represents(RowsOf(j), At(lists, j)) {
        assert old(Represents(RowsOf(j), At(lists, j)));
      }
    }

    /** A missing key is the empty list: writing the list back changes nothing. */
    ghost method Unchanged(k: Key)
      requires Valid()
      modifies this`lists
      ensures Valid() && lists == old(lists)[k := At(old(lists), k)]
    {
      lists := lists[k := At(lists, k)];
      forall j: Key ensures Represents(RowsOf(j), At(lists, j)) {
        assert old(Represents(RowsOf(j), At(lists, j)));
      }
    }

    /** COALESCE(MIN(idx), 0) */
    method MinIdx(k: Key) returns (idx: int)
      ensures forall x | x in RowsOf(k) :: idx <= x
      ensures if |RowsOf(k)| == 0 then idx == 0 else IsLeast(RowsOf(k), idx)
    {
      var m := RowsOf(k);
      if |m| == 0 {
        idx := 0;
      } else {
        ghost var lo := LeastRow(m);
        assert IsLeast(m, lo);
        idx :| idx in m && forall x | x in m :: idx <= x;
      }
    }

    /** COALESCE(MAX(idx), -1) */
    method MaxIdx(k: Key) returns (idx: int)
      ensures forall x | x in RowsOf(k) :: x <= idx
      ensures if |RowsOf(k)| == 0 then idx == -1 else IsGreatest(RowsOf(k), idx)
    {
      var m := RowsOf(k);
      if |m| == 0 {
        idx := -1;
      } else {
        ghost var hi := GreatestRow(m);
        assert IsGreatest(m, hi);
        idx :| idx in m && forall x | x in m :: x <= idx;
      }
    }

    method LPush(k: Key, values: seq<Value>) returns (reply: Reply)
      requires Valid()
      modifies this
      ensures Valid()
      ensures old(k in meta && !meta[k].ListType?) ==> reply == Fails(WrongType) && unchanged(this)
      ensures old(k !in meta || meta[k].ListType?) ==>
                && Outcome(lists, reply) == RunPush(old(lists), k, values, true)
                && meta == if values == [] then old(meta) else old(meta)[k := ListType]
      ensures old(ListsOnly()) ==> ListsOnly()
    {
      if k in meta && !meta[k].ListType? { return Fails(WrongType); }
      assert Represents(RowsOf(k), At(lists, k));
      if |values| == 0 {
        assert Reversed(values) + At(lists, k) == At(lists, k);
        Unchanged(k);
        return Length(|RowsOf(k)|);
      }
      var minIdx := MinIdx(k);
      meta := meta[k := ListType];
      var inserted := InsertFront(RowsOf(k), At(lists, k), values, minIdx);
      if inserted.None? { return Fails(DuplicateIndex); }
      Store(k, inserted.value, Reversed(values) + At(lists, k));
      return Length(|RowsOf(k)|);
    }

    method RPush(k: Key, values: seq<Value>) returns (reply: Reply)
      requires Valid()
      modifies this
      ensures Valid()
      ensures old(k in meta && !meta[k].ListType?) ==> reply == Fails(WrongType) && unchanged(this)
      ensures old(k !in meta || meta[k].ListType?) ==>
                && Outcome(lists, reply) == RunPush(old(lists), k, values, false)
                && meta == if values == [] then old(meta) else old(meta)[k := ListType]
      ensures old(ListsOnly()) ==> ListsOnly()
    {
      if k in meta && !meta[k].ListType? { return Fails(WrongType); }
      assert Represents(RowsOf(k), At(lists, k));
      if |values| == 0 {
        assert At(lists, k) + values == At(lists, k);
        Unchanged(k);
        return Length(|RowsOf(k)|);
      }
      var maxIdx := MaxIdx(k);
      meta := meta[k := ListType];
      var inserted := InsertBack(RowsOf(k), At(lists, k), values, maxIdx);
      if inserted.None? { return Fails(DuplicateIndex); }
      Store(k, inserted.value, At(lists, k) + values);
      return Length(|RowsOf(k)|);
    }

    /** LPOP and RPOP: delete the row with the least or greatest idx and return its value. */
    method Pop(k: Key, left: bool) returns (reply: Reply)
      requires Valid()
      modifies this`rows, this`lists
      ensures Valid()
      ensures Outcome(lists, reply) == RunPop(old(lists), k, left)
    {
      var m := RowsOf(k);
      ghost var s := At(lists, k);
      assert Represents(m, s);
      if |m| == 0 { return Nil; }
      if left {
        var idx := MinIdx(k);
        PopFront(m, s, idx);
        Store(k, m - {idx}, s[1..]);
        return Bulk(m[idx]);
      } else {
        var idx := MaxIdx(k);
        PopBack(m, s, idx);
        Store(k, m - {idx}, s[..|s| - 1]);
        return Bulk(m[idx]);
      }
    }

    /** array_position($1, key): the earliest of the keys that has rows. */
    function Winner(keys: seq<Key>): (w: Option<Key>)
      requires Valid()
      reads this
      ensures w == FirstNonEmpty(lists, keys)
    {
      if keys == [] then None
      else
        assert Represents(RowsOf(keys[0]), At(lists, keys[0]));
        if |RowsOf(keys[0])| > 0 then Some(keys[0]) else Winner(keys[1..])
    }

    /** LMPOP and its right-hand form: one statement over the first non-empty key. */
    method MPop(keys: seq<Key>, left: bool, count: int) returns (reply: Reply)
      requires Valid()
      modifies this`rows, this`lists
      ensures Valid()
      ensures Outcome(lists, reply) == RunMPop(old(lists), keys, left, count)
    {
      if |keys| == 0 || count <= 0 { return Nil; }
      var winner := Winner(keys);
      if winner.None? { return Nil; }
      var k := winner.value;
      var m := RowsOf(k);
      ghost var s := At(lists, k);
      assert Represents(m, s);
      var n := AtMost(|m|, count);
      var kept, values := TakeRows(m, s, left, n);
      Store(k, kept, if left then s[n..] else s[..|s| - n]);
      return Popped(k, values);
    }

    method LRange(k: Key, start: int, stop: int) returns (reply: Reply)
      requires Valid()
      ensures k in meta && !meta[k].ListType? ==> reply == Fails(WrongType)
      ensures k !in meta || meta[k].ListType? ==> reply == Many(Slice(At(lists, k), start, stop))
    {
      if k in meta && !meta[k].ListType? { return Fails(WrongType); }
      var m := RowsOf(k);
      assert Represents(m, At(lists, k));
      var b := Normalised(start, stop, |m|);
      if b.lo > b.hi { return Many([]); }
      var values := SelectSlice(m, At(lists, k), b.lo, b.hi + 1);
      return Many(values);
    }

    method LTrim(k: Key, start: int, stop: int) returns (reply: Reply)
      requires Valid()
      modifies this
      ensures Valid()
      ensures Outcome(lists, reply) == RunTrim(old(lists), k, start, stop)
      ensures meta == if old(At(lists, k)) != [] && At(lists, k) == [] then old(meta) - {k} else old(meta)
      ensures old(ListsOnly()) ==> ListsOnly()
    {
      var m := RowsOf(k);
      ghost var s := At(lists, k);
      assert Represents(m, s);
      if |m| == 0 {
        Unchanged(k);
        return Ok;
      }
      var kept, all := TrimRows(m, s, start, stop);
      if all { meta := meta - {k}; }
      Store(k, kept, Slice(s, start, stop));
      return Ok;
    }

    method LRem(k: Key, count: int, v: Value) returns (reply: Reply)
      requires Valid()
      modifies this`rows, this`lists
      ensures Valid()
      ensures Outcome(lists, reply) == RunRem(old(lists), k, count, v)
    {
      var m := RowsOf(k);
      ghost var s := At(lists, k);
      assert Represents(m, s);
      // Negating the smallest 64-bit integer leaves it negative.
      if count == MIN_INT64 { return Fails(NegativeLimit); }
      var kept, removed := RemoveRows(m, s, v, count);
      Store(k, kept, Removed(s, v, count));
      return Length(removed);
    }

    method LSet(k: Key, index: int, v: Value) returns (reply: Reply)
      requires Valid()
      modifies this`rows, this`lists
      ensures Valid()
      ensures Outcome(lists, reply) == RunSet(old(lists), k, index, v)
    {
      var m := RowsOf(k);
      ghost var s := At(lists, k);
      assert Represents(m, s);
      if |m| == 0 { return Fails(NoSuchKey); }
      var i := if index < 0 then |m| + index else index;
      if i < 0 || i >= |m| { return Fails(IndexOutOfRange); }
      ghost var row := RowAt(m, s, i);
      var idx :| idx in m && Rank(m, idx) == i;
      UpdateRow(m, s, idx, v);
      Store(k, m[idx := v], s[i := v]);
      return Ok;
    }

    /** The insert half of RPOPLPUSH: a meta row if there is none, then a row below the least idx. */
    method PushHead(k: Key, value: Value) returns (ok: bool)
      requires Valid()
      modifies this
      ensures ok && Valid() && lists == old(lists)[k := [value] + At(old(lists), k)]
      ensures meta == if k in old(meta) then old(meta) else old(meta)[k := ListType]
    {
      if k !in meta { meta := meta[k := ListType]; }
      assert Represents(RowsOf(k), At(lists, k));
      var minIdx := MinIdx(k);
      var inserted := InsertHead(RowsOf(k), At(lists, k), minIdx - 1, value);
      if inserted.None? { return false; }
      Store(k, inserted.value, [value] + At(lists, k));
      return true;
    }

    method RPopLPush(source: Key, destination: Key) returns (reply: Reply)
      requires Valid()
      modifies this
      ensures Valid()
      ensures Outcome(lists, reply) == RunMove(old(lists), source, destination)
      ensures meta == if reply.Nil? || old(destination in meta) then old(meta) else old(meta)[destination := ListType]
      ensures old(ListsOnly()) ==> ListsOnly()
    {
      reply := Pop(source, false);
      if reply.Nil? { return; }
      var ok := PushHead(destination, reply.value);
      if !ok { return Fails(DuplicateIndex); }
    }

    /** The commands that leave the key types alone. */
    method ExecuteOnRows(c: Command) returns (reply: Reply)
      requires Valid() && ListsOnly()
      requires c.LPop? || c.RPop? || c.MPop? || c.LRem? || c.LSet? || c.LRange?
      modifies this`rows, this`lists
      ensures Valid() && ListsOnly()
      ensures Outcome(lists, reply) == Run(old(lists), c)
    {
      match c
      case LPop(k) => reply := Pop(k, true);
      case RPop(k) => reply := Pop(k, false);
      case MPop(ks, left, n) => reply := MPop(ks, left, n);
      case LRem(k, n, v) => reply := LRem(k, n, v);
      case LSet(k, i, v) => reply := LSet(k, i, v);
      case LRange(k, a, b) => reply := LRange(k, a, b);
    }

    method Execute(c: Command) returns (reply: Reply)
      requires Valid() && ListsOnly()
      modifies this
      ensures Valid() && ListsOnly()
      ensures Outcome(lists, reply) == Run(old(lists), c)
    {
      match c
      case LPush(k, vs) => reply := LPush(k, vs);
      case RPush(k, vs) => reply := RPush(k, vs);
      case LTrim(k, a, b) => reply := LTrim(k, a, b);
      case RPopLPush(s, d) => reply := RPopLPush(s, d);
      case _ => reply := ExecuteOnRows(c);
    }

    /** Every run of list commands gives Redis's replies and leaves Redis's lists. */
    method ExecuteAll(cs: seq<Command>) returns (replies: seq<Reply>)
      requires Valid() && ListsOnly()
      modifies this
      ensures Valid() && ListsOnly()
      ensures RunAll(old(lists), cs) == Replies(lists, replies)
    {
      replies := [];
      ghost var start := lists;
      var i := 0;
      assert cs[..0] == [];
      while i < |cs|
        invariant 0 <= i <= |cs| && Valid() && ListsOnly()
        invariant RunAll(start, cs[..i]) == Replies(lists, replies)
      {
        var reply := Execute(cs[i]);
        assert cs[..i + 1][..i] == cs[..i] && cs[..i + 1][i] == cs[i];
        replies := replies + [reply];
        i := i + 1;
      }
      assert cs[..i] == cs;
    }
  }

  // ---------------------------------------------------------------- laws of the meaning

  /** What LRANGE answers, told without its arithmetic: inside the list the elements from start to stop; a
      negative end in the list is the index counted from the end; a start before the head is the head and a
      stop past the end is the last index; and otherwise nothing. */
  lemma RangeEnds(r: Redis, k: Key, start: int, stop: int)
    ensures var s, reply := At(r, k), Run(r, LRange(k, start, stop)).reply;
            && (0 <= start <= stop < |s| ==> reply == Many(s[start..stop + 1]))
            && (0 <= stop < start ==> reply == Many([]))
            && (start >= |s| || stop < -|s| ==> reply == Many([]))
            && (-|s| <= start < 0 ==> reply == Run(r, LRange(k, |s| + start, stop)).reply)
            && (-|s| <= stop < 0 ==> reply == Run(r, LRange(k, start, |s| + stop)).reply)
            && (start < -|s| ==> reply == Run(r, LRange(k, 0, stop)).reply)
            && (stop >= |s| > 0 ==> reply == Run(r, LRange(k, start, |s| - 1)).reply)
  {
  }

  /** -n..-1 is the last n elements, 0..n-1 the first n, and 0..-1 all. */
  lemma RangeFromTheEnd(r: Redis, k: Key, n: nat)
    requires 1 <= n <= |At(r, k)|
    ensures var s := At(r, k);
            && Run(r, LRange(k, 0 - n, -1)).reply == Many(s[|s| - n..])
            && Run(r, LRange(k, 0, n - 1)).reply == Many(s[..n])
            && Run(r, LRange(k, 0, -1)).reply == Many(s)
  {
    var s := At(r, k);
    assert s[|s| - n..] == s[|s| - n..|s|] && s[..|s|] == s;
  }

  /** LTRIM keeps what LRANGE answers for the same ends, and touches no other key. */
  lemma TrimKeepsRange(r: Redis, k: Key, start: int, stop: int)
    ensures Run(r, LRange(k, start, stop)).reply == Many(At(Run(r, LTrim(k, start, stop)).after, k))
    ensures forall x | x != k :: At(Run(r, LTrim(k, start, stop)).after, x) == At(r, x)
  {
  }

  lemma EndsAre(r: Redis, k: Key, t: seq<Value>)
    requires t != []
    ensures Run(r[k := t], LRange(k, 0, 0)).reply == Many([t[0]])
    ensures Run(r[k := t], LRange(k, -1, -1)).reply == Many([t[|t| - 1]])
  {
    assert t[..1] == [t[0]] && t[|t| - 1..] == [t[|t| - 1]];
    RangeFromTheEnd(r[k := t], k, 1);
  }

  /** LPUSH puts an element where LRANGE 0 0 finds it, RPUSH where LRANGE -1 -1 does; the rest stays. */
  lemma LeftPushIsFirst(r: Redis, k: Key, v: Value)
    ensures var after := Run(r, LPush(k, [v])).after;
            after == r[k := [v] + At(r, k)] && Run(after, LRange(k, 0, 0)).reply == Many([v])
  {
    assert Reversed([v]) == [v];
    EndsAre(r, k, [v] + At(r, k));
  }

  lemma RightPushIsLast(r: Redis, k: Key, v: Value)
    ensures var after := Run(r, RPush(k, [v])).after;
            after == r[k := At(r, k) + [v]] && Run(after, LRange(k, -1, -1)).reply == Many([v])
  {
    EndsAre(r, k, At(r, k) + [v]);
  }

  /** LPOP takes what LRANGE 0 0 answers and leaves the rest, RPOP what LRANGE -1 -1 does. */
  lemma LeftPopTakesFirst(r: Redis, k: Key)
    requires At(r, k) != []
    ensures var out := Run(r, LPop(k));
            && out.reply.Bulk? && Run(r, LRange(k, 0, 0)).reply == Many([out.reply.value])
            && exists rest :: out.after == r[k := rest] && At(r, k) == [out.reply.value] + rest
  {
    var s := At(r, k);
    assert r[k := s] == r;
    EndsAre(r, k, s);
    PopOf(r, k, s);
    assert s == [s[0]] + s[1..];
  }

  lemma RightPopTakesLast(r: Redis, k: Key)
    requires At(r, k) != []
    ensures var out := Run(r, RPop(k));
            && out.reply.Bulk? && Run(r, LRange(k, -1, -1)).reply == Many([out.reply.value])
            && exists rest :: out.after == r[k := rest] && At(r, k) == rest + [out.reply.value]
  {
    var s := At(r, k);
    assert r[k := s] == r;
    EndsAre(r, k, s);
    PopOf(r, k, s);
    assert s == s[..|s| - 1] + [s[|s| - 1]];
  }

  /** LMPOP serves a key exactly when it is not empty and every key before its first place is. */
  lemma {:induction false} FirstNonEmptyIsFirst(r: Redis, keys: seq<Key>, i: nat)
    requires i < |keys| && At(r, keys[i]) != [] && forall j | 0 <= j < i :: At(r, keys[j]) == []
    ensures FirstNonEmpty(r, keys) == Some(keys[i])
    decreases i
  {
    if i > 0 {
      assert forall j | 0 <= j < i - 1 :: keys[1..][j] == keys[j + 1];
      FirstNonEmptyIsFirst(r, keys[1..], i - 1);
    }
  }

  lemma {:induction false} NoneNonEmpty(r: Redis, keys: seq<Key>)
    requires forall j | 0 <= j < |keys| :: At(r, keys[j]) == []
    ensures FirstNonEmpty(r, keys).None?
  {
    if keys != [] {
      assert forall j | 0 <= j < |keys| - 1 :: keys[1..][j] == keys[j + 1];
      NoneNonEmpty(r, keys[1..]);
    }
  }

  /** LMPOP answers nil exactly when all its lists are empty or the count is not positive. */
  lemma MPopNil(r: Redis, keys: seq<Key>, left: bool, count: int)
    ensures Run(r, MPop(keys, left, count)).reply == Nil
       <==> count <= 0 || forall j | 0 <= j < |keys| :: At(r, keys[j]) == []
  {
    if forall j | 0 <= j < |keys| :: At(r, keys[j]) == [] {
      NoneNonEmpty(r, keys);
    } else {
      var i := FirstIndex(r, keys);
      FirstNonEmptyIsFirst(r, keys, i);
    }
  }

  lemma {:induction false} FirstIndex(r: Redis, keys: seq<Key>) returns (i: nat)
    requires exists j :: 0 <= j < |keys| && At(r, keys[j]) != []
    ensures i < |keys| && At(r, keys[i]) != [] && forall j | 0 <= j < i :: At(r, keys[j]) == []
  {
    i := 0;
    while At(r, keys[i]) == []
      invariant i < |keys| && forall j | 0 <= j < i :: At(r, keys[j]) == []
      decreases |keys| - i
    {
      i := i + 1;
    }
  }

  function Times(c: Command, n: nat): seq<Command> { seq(n, _ => c) }

  ghost predicate Bulks(replies: seq<Reply>, values: seq<Value>) {
    |replies| == |values| && forall i | 0 <= i < |values| :: replies[i] == Bulk(values[i])
  }

  /** n times `c` leaves `after` and answers `values`. */
  ghost predicate Answers(r: Redis, c: Command, n: nat, after: Redis, values: seq<Value>) {
    var run := RunAll(r, Times(c, n));
    run.after == after && Bulks(run.replies, values)
  }

  lemma AnswersOneMore(r: Redis, c: Command, n: nat, mid: Redis, values: seq<Value>, after: Redis, v: Value)
    requires Answers(r, c, n, mid, values) && Run(mid, c) == Outcome(after, Bulk(v))
    ensures Answers(r, c, n + 1, after, values + [v])
  {
    assert Times(c, n + 1)[..n] == Times(c, n);
  }

  lemma PopOf(r: Redis, k: Key, s: seq<Value>)
    requires s != []
    ensures Run(r[k := s], LPop(k)) == Outcome(r[k := s[1..]], Bulk(s[0]))
    ensures Run(r[k := s], RPop(k)) == Outcome(r[k := s[..|s| - 1]], Bulk(s[|s| - 1]))
  {
    assert r[k := s][k := s[1..]] == r[k := s[1..]];
    assert r[k := s][k := s[..|s| - 1]] == r[k := s[..|s| - 1]];
  }

  /** n LPOPs answer the first n elements, and n RPOPs the last n from the end. */
  lemma {:induction false} PopsFromTheLeft(r: Redis, k: Key, s: seq<Value>, n: nat)
    requires n <= |s|
    ensures Answers(r[k := s], LPop(k), n, r[k := s[n..]], s[..n])
  {
    if n == 0 {
      assert s[0..] == s;
    } else {
      PopsFromTheLeft(r, k, s, n - 1);
      PopOf(r, k, s[n - 1..]);
      assert s[n - 1..][1..] == s[n..] && s[..n] == s[..n - 1] + [s[n - 1]];
      AnswersOneMore(r[k := s], LPop(k), n - 1, r[k := s[n - 1..]], s[..n - 1], r[k := s[n..]], s[n - 1]);
    }
  }

  lemma {:induction false} PopsFromTheRight(r: Redis, k: Key, s: seq<Value>, n: nat)
    requires n <= |s|
    ensures Answers(r[k := s], RPop(k), n, r[k := s[..|s| - n]], Reversed(s[|s| - n..]))
  {
    if n == 0 {
      assert s[..|s|] == s;
    } else {
      var m := |s| - n;
      PopsFromTheRight(r, k, s, n - 1);
      PopOf(r, k, s[..m + 1]);
      assert s[..m + 1][..m] == s[..m];
      assert s[m..][1..] == s[m + 1..];
      AnswersOneMore(r[k := s], RPop(k), n - 1, r[k := s[..m + 1]], Reversed(s[m + 1..]), r[k := s[..m]], s[m]);
    }
  }

  lemma MPopOut(r: Redis, keys: seq<Key>, left: bool, count: nat, i: nat)
    requires i < |keys| && At(r, keys[i]) != [] && forall j | 0 <= j < i :: At(r, keys[j]) == []
    requires count > 0
    ensures var k, s := keys[i], At(r, keys[i]);
            var n := AtMost(|s|, count);
            Run(r, MPop(keys, left, count))
            == if left then Outcome(r[k := s[n..]], Popped(k, s[..n]))
               else Outcome(r[k := s[..|s| - n]], Popped(k, Reversed(s[|s| - n..])))
  {
    FirstNonEmptyIsFirst(r, keys, i);
  }

  /** LMPOP is as many pops of the first list that is not empty as it has elements, up to the count. */
  lemma MPopIsPops(r: Redis, keys: seq<Key>, left: bool, count: nat, i: nat)
    requires i < |keys| && At(r, keys[i]) != [] && forall j | 0 <= j < i :: At(r, keys[j]) == []
    requires count > 0
    ensures var k, out := keys[i], Run(r, MPop(keys, left, count));
            && out.reply.Popped? && out.reply.key == k
            && Answers(r, if left then LPop(k) else RPop(k), AtMost(|At(r, k)|, count), out.after, out.reply.values)
  {
    MPopOut(r, keys, left, count, i);
    PopsFromAnEnd(r, keys[i], left, AtMost(|At(r, keys[i])|, count));
  }

  lemma PopsFromAnEnd(r: Redis, k: Key, left: bool, n: nat)
    requires At(r, k) != [] && n <= |At(r, k)|
    ensures var s := At(r, k);
            if left then Answers(r, LPop(k), n, r[k := s[n..]], s[..n])
            else Answers(r, RPop(k), n, r[k := s[..|s| - n]], Reversed(s[|s| - n..]))
  {
    assert r[k := At(r, k)] == r;
    if left { PopsFromTheLeft(r, k, At(r, k), n); } else { PopsFromTheRight(r, k, At(r, k), n); }
  }

  /** LSET changes the one place that LRANGE answers for the same index, counted from either end, and an index
      outside the list, or a list that is not there, changes nothing. */
  lemma SetChangesOnePlace(r: Redis, k: Key, index: int, v: Value)
    ensures var s, after, reply := At(r, k), At(Run(r, LSet(k, index, v)).after, k), Run(r, LSet(k, index, v)).reply;
            && (reply == Ok <==> -|s| <= index < |s|)
            && (reply == Ok ==>
                  && |after| == |s| && Run(Run(r, LSet(k, index, v)).after, LRange(k, index, index)).reply == Many([v])
                  && forall i | 0 <= i < |s| && i != index && i != |s| + index :: after[i] == s[i])
            && (reply != Ok ==> after == s && reply == Fails(if s == [] then NoSuchKey else IndexOutOfRange))
            && forall x | x != k :: At(Run(r, LSet(k, index, v)).after, x) == At(r, x)
  {
  }

  /** LREM takes the first, the last or all occurrences, by the sign of its count, and answers how many. */
  lemma RemTakesOccurrences(r: Redis, k: Key, count: int, v: Value) returns (i: nat)
    requires count != MIN_INT64
    ensures var s, after := At(r, k), At(Run(r, LRem(k, count, v)).after, k);
            && i <= |s| && Run(r, LRem(k, count, v)).reply == Length(|s| - |after|)
            && (count > 0 ==> after == Others(s[..i], v) + s[i..] && Count(s[..i], v) == AtMost(count, Count(s, v)))
            && (count < 0 ==> after == s[..i] + Others(s[i..], v) && Count(s[i..], v) == AtMost(-count, Count(s, v)))
            && (count == 0 ==> after == Others(s, v))
            && forall x | x != k :: At(Run(r, LRem(k, count, v)).after, x) == At(r, x)
  {
    var s := At(r, k);
    if count > 0 {
      i := RemoveFirstLaw(s, v, count);
    } else if count < 0 {
      i := RemoveLastLaw(s, v, -count);
    } else {
      i := 0;
      CountAtMostLength(s, v);
      RemoveFirstAll(s, v, |s|);
    }
  }

  /** RPOPLPUSH moves one element: nothing is lost or invented, also when both keys are one. */
  lemma MoveConserves(r: Redis, source: Key, destination: Key)
    ensures var after := RunMove(r, source, destination).after;
            && (source == destination ==> multiset(At(after, source)) == multiset(At(r, source)))
            && (source != destination ==>
                  multiset(At(after, source)) + multiset(At(after, destination))
                  == multiset(At(r, source)) + multiset(At(r, destination)))
  {
    var s, after := At(r, source), RunMove(r, source, destination).after;
    if s != [] {
      var v, front := s[|s| - 1], s[..|s| - 1];
      assert s == front + [v];
      if source == destination {
        assert At(after, source) == [v] + front;
      } else {
        assert At(after, destination) == [v] + At(r, destination);
      }
    }
  }

  /** n times RPOPLPUSH from a key to itself. */
  function Turned(r: Redis, k: Key, n: nat): Redis {
    if n == 0 then r else RunMove(Turned(r, k, n - 1), k, k).after
  }

  /** The last n elements first. */
  function Rotated(s: seq<Value>, n: nat): seq<Value>
    requires n <= |s|
  {
    s[|s| - n..] + s[..|s| - n]
  }

  lemma TurnOnce(s: seq<Value>, n: nat)
    requires 0 < n <= |s|
    ensures var t := Rotated(s, n - 1); [t[|t| - 1]] + t[..|t| - 1] == Rotated(s, n)
  {
    var i := |s| - n;
    assert s[..i + 1] == s[..i] + [s[i]] && s[i..] == [s[i]] + s[i + 1..];
    assert (s[i + 1..] + s[..i + 1])[..|s| - 1] == s[i + 1..] + s[..i];
  }

  lemma MoveOnce(r: Redis, k: Key)
    requires At(r, k) != []
    ensures var s := At(r, k); At(RunMove(r, k, k).after, k) == [s[|s| - 1]] + s[..|s| - 1]
  {
  }

  /** That turns the list by n places. */
  lemma {:induction false} MoveRotates(r: Redis, k: Key, n: nat)
    requires n <= |At(r, k)|
    ensures At(Turned(r, k, n), k) == Rotated(At(r, k), n)
  {
    var s := At(r, k);
    if n == 0 {
      assert s[|s|..] + s[..|s|] == s;
    } else {
      MoveRotates(r, k, n - 1);
      MoveOnce(Turned(r, k, n - 1), k);
      TurnOnce(s, n);
    }
  }

  /** As many turns as the list is long give it back. */
  lemma {:induction false} FullTurn(r: Redis, k: Key)
    ensures At(Turned(r, k, |At(r, k)|), k) == At(r, k)
  {
    var s := At(r, k);
    MoveRotates(r, k, |s|);
    assert s[0..] + s[..0] == s;
  }

  lemma Halves(a: seq<Value>, b: seq<Value>)
    ensures (a + b)[..|a|] == a && (a + b)[|a|..] == b
  {
  }

  /** Popping as many elements as were just pushed at that end gives them back, the last one first, and
      restores the list. */
  lemma {:induction false} PushThenPop(r: Redis, k: Key, vs: seq<Value>, left: bool)
    requires vs != []
    ensures var pushed := RunPush(r, k, vs, left).after;
            var popped := RunMPop(pushed, [k], left, |vs|);
            popped.reply == Popped(k, Reversed(vs)) && At(popped.after, k) == At(r, k)
  {
    var pushed := RunPush(r, k, vs, left).after;
    assert FirstNonEmpty(pushed, [k]) == Some(k);
    if left { Halves(Reversed(vs), At(r, k)); } else { Halves(At(r, k), vs); }
  }
}
