/** The storage operations as far as GET can tell them apart: which string rows they leave.

    Keys have no expiry here.  What a collection command computes is a parameter; that it leaves the
    string table alone, and when it refuses, is not.
 */
module Backend {
  import opened Basics
  import opened LockOrder

  datatype Item = Item(kind: Kind, key: Key, member: string, value: string)
  datatype Tables = Tables(meta: map<Key, Kind>, strings: map<Key, string>, rows: set<Item>)

  datatype Reply = Nil | Text(text: string) | Number(number: int) | Many(elements: seq<Reply>) | Failure(error: string)

  /** What a command makes of a string value. */
  datatype Computed = Changed(value: string, reply: Reply) | Unchanged(reply: Reply) | Rejected(error: string)

  /** The writing commands on collections that are not stores of a whole result. */
  datatype Collection =
    | HSet | HDel | HIncrBy | HIncrByFloat | HSetNX
    | LPush | RPush | LPop | RPop | LMPop | LRem | LTrim | LSet | LInsert
    | SAdd | SRem
    | ZAdd | ZRem | ZIncrBy | ZRemRange | ZPopMin | ZPopMax | ZMPop
    | PFAdd | PFMerge

  /** What such a command makes of the collection rows.  `registers`: it writes the key's meta row;
      `changed`: its reply says that it set or popped something; `emptied`: the whole list goes.
      Refused is an error of the command, Broken one of a statement. */
  datatype Collected =
    | Collected(added: set<Item>, removed: set<Item>, registers: bool, changed: bool, emptied: bool, reply: Reply)
    | Refused(error: string)
    | Broken(error: string)

  datatype Command =
    | Get(key: Key)
    | Query(ask: Tables -> Reply)                                        // every other read
    | Set(key: Key, value: string)
    | SetNX(key: Key, value: string)
    | MSet(pairs: map<Key, string>)
    // INCR, APPEND, SETRANGE, SETBIT; checked: INCRBYFLOAT
    | Update(key: Key, checked: bool, change: Option<string> -> Computed)
    | BitField(key: Key, change: Option<string> -> Computed)             // with a SET or INCRBY
    | GetEx(key: Key)
    | GetDel(key: Key)
    | GetSet(key: Key, value: string)
    | Persist(key: Key)
    | Del(keys: seq<Key>)
    | Rename(from: Key, to: Key)
    | Copy(from: Key, to: Key, replace: bool, rowsCopied: bool)          // rowsCopied: no row insert failed
    | BitOp(to: Key, combine: map<Key, string> -> Computed)
    | Store(to: Key, kind: Kind, compute: Tables -> Collected)           // SINTERSTORE, ZUNIONSTORE, ...
    | ZRangeStore(to: Key, compute: Tables -> Collected)
    | Collect(op: Collection, key: Key, compute: Tables -> Collected)
    | RPopLPush(from: Key, to: Key, compute: Tables -> Collected)

  /** Fails: the reply is an error; what was written before it is undone only with the transaction.
      Aborts: a statement failed, so the transaction can only be rolled back. */
  datatype Outcome = Succeeds | Fails | Aborts
  datatype Done = Done(tables: Tables, reply: Reply, outcome: Outcome)

  const WRONG_TYPE := "WRONGTYPE Operation against a key holding the wrong kind of value"

  function Value(t: Tables, k: Key): Option<string> { if k in t.strings then Some(t.strings[k]) else None }

  function Found(v: Option<string>): Reply { if v.Some? then Text(v.value) else Nil }

  function DeleteAll(t: Tables, k: Key): Tables {
    Tables(t.meta - {k}, t.strings - {k}, set r | r in t.rows && r.key != k)
  }

  /** What deleting a key that may not be there leaves. */
  function Dropped(t: Tables, k: Key): Tables { if k in t.meta then DeleteAll(t, k) else t }

  function PutString(t: Tables, k: Key, v: string): Tables {
    t.(meta := t.meta[k := StringKind], strings := t.strings[k := v])
  }

  function DeleteEach(t: Tables, keys: seq<Key>): (Tables, nat)
    decreases |keys|
  {
    if keys == [] then (t, 0)
    else
      var (t', n) := DeleteEach(Dropped(t, keys[0]), keys[1..]);
      (t', n + if keys[0] in t.meta then 1 else 0)
  }

  function Ok(t: Tables, reply: Reply): Done { Done(t, reply, Succeeds) }
  function Fail(t: Tables, error: string): Done { Done(t, Failure(error), Fails) }

  function DoRename(t: Tables, from: Key, to: Key): Done {
    if from !in t.meta then Fail(t, "no such key")
    else
      var kind, t1 := t.meta[from], DeleteAll(t, to);
      if kind.HyperLogLogKind? then Fail(t1, "unsupported key type for rename: hyperloglog")
      else
        var meta := if from in t1.meta then (t1.meta - {from})[to := t1.meta[from]] else t1.meta;
        if kind.StringKind?
        then Ok(t1.(meta := meta,
                    strings := if from in t1.strings then (t1.strings - {from})[to := t1.strings[from]]
                               else t1.strings),
                Text("OK"))
        else Ok(t1.(meta := meta,
                    rows := set r | r in t1.rows :: if r.kind == kind && r.key == from then r.(key := to) else r),
                Text("OK"))
  }

  function DoCopy(t: Tables, from: Key, to: Key, replace: bool, rowsCopied: bool): Done {
    if from !in t.meta || (to in t.meta && !replace) then Ok(t, Number(0))
    else
      var t1 := if to in t.meta then DeleteAll(t, to) else t;
      match t.meta[from]
      case StringKind =>
        if from !in t1.strings then Fail(t1, "no rows in result set")
        else if to in t1.strings then Done(t1, Failure("duplicate key"), Aborts)
        else Ok(PutString(t1, to, t1.strings[from]), Number(1))
      case HyperLogLogKind => Ok(t1, Number(1))
      case kind =>
        var t2 := t1.(meta := t1.meta[to := kind]);
        if !rowsCopied then Fail(t2, "copy failed")
        else
          var moved := set r | r in t1.rows && r.kind == kind && r.key == from :: r.(key := to);
          Ok(t2.(rows := t1.rows + moved), Number(1))
  }

  function DoUpdate(t: Tables, k: Key, checked: bool, change: Option<string> -> Computed): Done {
    if checked && k in t.meta && !t.meta[k].StringKind? then Fail(t, WRONG_TYPE)
    else
      match change(Value(t, k))
      case Changed(v, reply) => Ok(PutString(t, k, v), reply)
      case Unchanged(reply) => Ok(t, reply)
      case Rejected(e) => Fail(t, e)
  }

  /** An existing string keeps its meta row. */
  function DoBitField(t: Tables, k: Key, change: Option<string> -> Computed): Done {
    match change(Value(t, k))
    case Changed(v, reply) => Ok(if k in t.strings then t.(strings := t.strings[k := v]) else PutString(t, k, v), reply)
    case Unchanged(reply) => Ok(t, reply)
    case Rejected(e) => Fail(t, e)
  }

  /** The result of a store replaces the destination, which is gone already. */
  function StoreRows(t: Tables, to: Key, kind: Kind, c: Collected): Done {
    match c
    case Refused(e) => Fail(t, e)
    case Broken(e) => Done(t, Failure(e), Aborts)
    case Collected(added, _, _, _, _, reply) =>
      Ok(if added == {} then t else t.(meta := t.meta[to := kind], rows := t.rows + added), reply)
  }

  /** The kind a command insists on; the others look at no meta row. */
  function Checked(op: Collection): Option<Kind> {
    match op
    case HSet | HIncrBy | HIncrByFloat | HSetNX => Some(HashKind)
    case LPush | RPush => Some(ListKind)
    case SAdd => Some(SetKind)
    case ZAdd => Some(ZSetKind)
    case PFAdd | PFMerge => Some(HyperLogLogKind)
    case _ => None
  }

  /** ZINCRBY only fills in a missing meta row; LTRIM to nothing removes it. */
  function MetaAfter(meta: map<Key, Kind>, op: Collection, k: Key, c: Collected): map<Key, Kind>
    requires c.Collected?
  {
    if Checked(op).Some? then (if c.registers then meta[k := Checked(op).value] else meta)
    else if op.ZIncrBy? then (if k in meta then meta else meta[k := ZSetKind])
    else if op.LTrim? && c.emptied then meta - {k}
    else meta
  }

  /** No collection command touches the string table. */
  function DoCollect(t: Tables, op: Collection, k: Key, c: Collected): Done {
    if Checked(op).Some? && k in t.meta && t.meta[k] != Checked(op).value then Fail(t, WRONG_TYPE)
    else
      match c
      case Refused(e) => Fail(t, e)
      case Broken(e) => Done(t, Failure(e), Aborts)
      case Collected(added, removed, _, _, _, reply) =>
        Ok(t.(meta := MetaAfter(t.meta, op, k, c), rows := t.rows - removed + added), reply)
  }

  /** RPOPLPUSH checks no type and fills in a missing meta row of the destination. */
  function DoMove(t: Tables, to: Key, c: Collected): Done {
    match c
    case Refused(e) => Fail(t, e)
    case Broken(e) => Done(t, Failure(e), Aborts)
    case Collected(added, removed, _, changed, _, reply) =>
      Ok(if !changed then t
         else t.(meta := if to in t.meta then t.meta else t.meta[to := ListKind], rows := t.rows - removed + added),
         reply)
  }

  /** A command inside an open transaction. */
  function Raw(t: Tables, c: Command): Done {
    match c
    case Get(k) => Ok(t, Found(Value(t, k)))
    case Query(ask) => Ok(t, ask(t))
    case Set(k, v) => Ok(PutString(DeleteAll(t, k), k, v), Text("OK"))
    case SetNX(k, v) => if k in t.meta then Ok(t, Number(0)) else Ok(PutString(DeleteAll(t, k), k, v), Number(1))
    case MSet(pairs) =>
      Ok(Tables(t.meta + (map k | k in pairs :: StringKind), t.strings + pairs, set r | r in t.rows && r.key !in pairs),
         Text("OK"))
    case Update(k, checked, change) => DoUpdate(t, k, checked, change)
    case BitField(k, change) => DoBitField(t, k, change)
    case GetEx(k) => Ok(t, Found(Value(t, k)))
    case GetDel(k) =>
      if k !in t.strings then Ok(t, Nil)
      else Ok(t.(meta := t.meta - {k}, strings := t.strings - {k}), Text(t.strings[k]))
    case GetSet(k, v) => Ok(PutString(t, k, v), Found(Value(t, k)))
    case Persist(k) => Ok(t, Number(0))
    case Del(keys) => var (t', n) := DeleteEach(t, keys); Ok(t', Number(n))
    case Rename(from, to) => DoRename(t, from, to)
    case Copy(from, to, replace, rowsCopied) => DoCopy(t, from, to, replace, rowsCopied)
    case BitOp(to, combine) =>
      (match combine(t.strings)
       case Changed(v, reply) => Ok(PutString(DeleteAll(t, to), to, v), reply)
       case Unchanged(reply) => Ok(t, reply)
       case Rejected(e) => Fail(t, e))
    case Store(to, kind, compute) =>
      var c := compute(t);
      StoreRows(if c.Collected? then DeleteAll(t, to) else t, to, kind, c)
    case ZRangeStore(to, compute) =>
      var t1 := DeleteAll(t, to);
      var c := compute(t1);
      if c.Collected? then StoreRows(t1, to, ZSetKind, c) else Done(t1, Failure(c.error), Aborts)
    case Collect(op, k, compute) => DoCollect(t, op, k, compute(t))
    case RPopLPush(_, to, compute) => DoMove(t, to, compute(t))
  }

  /** A command on its own: in a transaction that is rolled back on any error. */
  function Run(t: Tables, c: Command): (Tables, Reply) {
    var d := Raw(t, c);
    (if d.outcome.Succeeds? then d.tables else t, d.reply)
  }

  datatype TxDone = TxDone(tables: Tables, replies: seq<Reply>, aborted: bool)

  /** After a failed statement the rest of the transaction only fails. */
  function RawNext(d: TxDone, c: Command): TxDone {
    if d.aborted then d.(replies := d.replies + [Failure("current transaction is aborted")])
    else
      var next := Raw(d.tables, c);
      TxDone(next.tables, d.replies + [next.reply], next.outcome.Aborts?)
  }

  function RawAll(t: Tables, cs: seq<Command>): TxDone {
    if cs == [] then TxDone(t, [], false) else RawNext(RawAll(t, cs[..|cs| - 1]), cs[|cs| - 1])
  }

  /** The whole transaction: an aborted one leaves nothing and gives one error. */
  function RunTx(t: Tables, cs: seq<Command>): (Tables, Reply) {
    var d := RawAll(t, cs);
    if d.aborted then (t, Failure("transaction commit failed")) else (d.tables, Many(d.replies))
  }

  // ---------------------------------------------------------------- what GET answers afterwards

  function After(t: Tables, c: Command): Tables { Run(t, c).0 }
  function Answer(t: Tables, c: Command): Reply { Run(t, c).1 }

  /** The reads of every other key are as before. */
  ghost predicate OnlyReads(t: Tables, t': Tables, keys: set<Key>) {
    forall x | x !in keys :: Answer(t', Get(x)) == Answer(t, Get(x))
  }

  /** SET, GETSET, and SETNX of a key that is not there, are read back; SETNX of one that is does nothing. */
  lemma SetIsRead(t: Tables, k: Key, v: string)
    ensures Answer(After(t, Set(k, v)), Get(k)) == Text(v) && OnlyReads(t, After(t, Set(k, v)), {k})
    ensures Answer(After(t, GetSet(k, v)), Get(k)) == Text(v) && OnlyReads(t, After(t, GetSet(k, v)), {k})
    ensures Answer(t, GetSet(k, v)) == Answer(t, Get(k))
    ensures if Answer(t, SetNX(k, v)) == Number(1)
            then && k !in t.meta && Answer(After(t, SetNX(k, v)), Get(k)) == Text(v)
                 && OnlyReads(t, After(t, SetNX(k, v)), {k})
            else k in t.meta && After(t, SetNX(k, v)) == t
  {
  }

  /** MSET sets every pair and nothing else. */
  lemma MSetIsRead(t: Tables, pairs: map<Key, string>)
    ensures forall k | k in pairs :: Answer(After(t, MSet(pairs)), Get(k)) == Text(pairs[k])
    ensures OnlyReads(t, After(t, MSet(pairs)), pairs.Keys)
  {
  }

  /** GETDEL answers what GET does, and the key is gone. */
  lemma GetDelIsGone(t: Tables, k: Key)
    ensures Answer(t, GetDel(k)) == Answer(t, Get(k)) && Answer(After(t, GetDel(k)), Get(k)) == Nil
    ensures OnlyReads(t, After(t, GetDel(k)), {k})
  {
  }

  /** What INCR, APPEND and their like compute from what GET answers is what GET answers next. */
  lemma UpdateIsRead(t: Tables, k: Key, checked: bool, change: Option<string> -> Computed)
    requires checked && k in t.meta ==> t.meta[k].StringKind?
    ensures var computed := change(Value(t, k));
            && Answer(t, Get(k)) == Found(Value(t, k))
            && Answer(After(t, Update(k, checked, change)), Get(k))
               == (if computed.Changed? then Text(computed.value) else Answer(t, Get(k)))
            && Answer(t, Update(k, checked, change))
               == (if computed.Rejected? then Failure(computed.error) else computed.reply)
            && OnlyReads(t, After(t, Update(k, checked, change)), {k})
  {
  }

  /** Those of the keys that are there. */
  ghost function There(t: Tables, keys: set<Key>): set<Key> { set k | k in keys && k in t.meta }

  lemma ThereOneMore(t: Tables, t1: Tables, k: Key, rest: set<Key>)
    requires forall x :: x in t1.meta <==> x in t.meta && x != k
    ensures |There(t, {k} + rest)| == |There(t1, rest)| + if k in t.meta then 1 else 0
  {
    var before, after := There(t1, rest), There(t, {k} + rest);
    if k in t.meta {
      assert k !in before && after == before + {k};
    } else {
      assert after == before;
    }
  }

  lemma DroppedLeaves(t: Tables, k: Key)
    ensures forall x :: x in Dropped(t, k).meta <==> x in t.meta && x != k
    ensures forall x :: Value(Dropped(t, k), x) == if x == k && k in t.meta then None else Value(t, x)
  {
  }

  lemma {:induction false} DeleteEachCounts(t: Tables, keys: seq<Key>)
    ensures DeleteEach(t, keys).1 == |There(t, Elements(keys))|
    decreases |keys|
  {
    if keys == [] {
      assert There(t, Elements(keys)) == {};
    } else {
      var k := keys[0];
      DroppedLeaves(t, k);
      DeleteEachCounts(Dropped(t, k), keys[1..]);
      ThereOneMore(t, Dropped(t, k), k, Elements(keys[1..]));
      assert keys == [k] + keys[1..];
      ConsElements(k, keys[1..]);
    }
  }

  lemma {:induction false} DeleteEachLeaves(t: Tables, keys: seq<Key>, x: Key)
    ensures Value(DeleteEach(t, keys).0, x) == if x in keys && x in t.meta then None else Value(t, x)
    decreases |keys|
  {
    if keys != [] {
      DroppedLeaves(t, keys[0]);
      DeleteEachLeaves(Dropped(t, keys[0]), keys[1..], x);
    }
  }

  /** DEL answers how many of its keys were there, each once, and exactly they are gone. */
  lemma DelTakesAll(t: Tables, keys: seq<Key>, x: Key)
    ensures Answer(t, Del(keys)) == Number(|There(t, Elements(keys))|)
    ensures Answer(After(t, Del(keys)), Get(x)) == if x in keys && x in t.meta then Nil else Answer(t, Get(x))
  {
    DeleteEachCounts(t, keys);
    DeleteEachLeaves(t, keys, x);
  }

  /** RENAME of a string moves its value, if and only if the two keys differ: renaming a key to itself loses it. */
  lemma RenameMovesExactly(t: Tables, from: Key, to: Key)
    requires from in t.meta && t.meta[from].StringKind? && from in t.strings
    ensures Answer(t, Rename(from, to)) == Text("OK")
    ensures Answer(After(t, Rename(from, to)), Get(to)) == Answer(t, Get(from)) <==> from != to
    ensures Answer(After(t, Rename(from, to)), Get(from)) == Nil
    ensures OnlyReads(t, After(t, Rename(from, to)), {from, to})
  {
  }

  /** COPY of a string to another key copies its value, if that key is free or is to be replaced. */
  lemma CopyIsRead(t: Tables, from: Key, to: Key, replace: bool, rowsCopied: bool)
    requires from in t.meta && t.meta[from].StringKind? && from in t.strings && from != to
    requires to in t.strings ==> to in t.meta
    ensures Answer(t, Copy(from, to, replace, rowsCopied)) == Number(if to !in t.meta || replace then 1 else 0)
    ensures Answer(After(t, Copy(from, to, replace, rowsCopied)), Get(to))
         == Answer(t, Get(if to !in t.meta || replace then from else to))
    ensures OnlyReads(t, After(t, Copy(from, to, replace, rowsCopied)), {to})
  {
  }

  /** A store over a key takes its string away, and no other. */
  lemma StoreTakesString(t: Tables, to: Key, kind: Kind, compute: Tables -> Collected, x: Key)
    ensures var t' := After(t, Store(to, kind, compute));
            if !compute(t).Collected? then t' == t
            else Answer(t', Get(x)) == if x == to then Nil else Answer(t, Get(x))
  {
  }

  lemma ZRangeStoreTakesString(t: Tables, to: Key, compute: Tables -> Collected, x: Key)
    ensures var t' := After(t, ZRangeStore(to, compute));
            if !compute(DeleteAll(t, to)).Collected? then t' == t
            else Answer(t', Get(x)) == if x == to then Nil else Answer(t, Get(x))
  {
  }

  /** BITOP and BITFIELD are read back. */
  lemma BitOpIsRead(t: Tables, k: Key, combine: map<Key, string> -> Computed, x: Key)
    ensures var computed := combine(t.strings);
            Answer(After(t, BitOp(k, combine)), Get(x))
            == if x == k && computed.Changed? then Text(computed.value) else Answer(t, Get(x))
  {
  }

  lemma BitFieldIsRead(t: Tables, k: Key, change: Option<string> -> Computed, x: Key)
    ensures var computed := change(Value(t, k));
            Answer(After(t, BitField(k, change)), Get(x))
            == if x == k && computed.Changed? then Text(computed.value) else Answer(t, Get(x))
  {
  }

  /** GETEX answers like GET; it, PERSIST, reads and the collection commands change no string. */
  lemma OthersKeepStrings(t: Tables, c: Command)
    requires c.Get? || c.Query? || c.GetEx? || c.Persist? || c.Collect? || c.RPopLPush?
    ensures OnlyReads(t, After(t, c), {}) && (c.GetEx? ==> Answer(t, c) == Answer(t, Get(c.key)))
  {
  }

  /** The writes that create a collection refuse a key of another kind and change nothing. */
  lemma WrongTypeIsRefused(t: Tables, op: Collection, k: Key, compute: Tables -> Collected)
    requires k in t.meta
    requires match op
             case HSet | HIncrBy | HIncrByFloat | HSetNX => !t.meta[k].HashKind?
             case LPush | RPush => !t.meta[k].ListKind?
             case SAdd => !t.meta[k].SetKind?
             case ZAdd => !t.meta[k].ZSetKind?
             case PFAdd | PFMerge => !t.meta[k].HyperLogLogKind?
             case _ => false
    ensures Answer(t, Collect(op, k, compute)) == Failure(WRONG_TYPE) && After(t, Collect(op, k, compute)) == t
  {
  }

  /** A transaction answers each command what it would answer after the ones before it. */
  lemma {:induction false} TxAnswersInOrder(t: Tables, cs: seq<Command>, i: nat)
    requires i < |cs| && !RawAll(t, cs).aborted
    ensures |RawAll(t, cs).replies| == |cs| && !RawAll(t, cs[..i]).aborted
    ensures RawAll(t, cs).replies[i] == Raw(RawAll(t, cs[..i]).tables, cs[i]).reply
    decreases |cs|
  {
    var n := |cs| - 1;
    RawAllLength(t, cs[..n]);
    LastAnswer(RawAll(t, cs[..n]), cs[n]);
    if i < n {
      TxAnswersInOrder(t, cs[..n], i);
      assert cs[..n][..i] == cs[..i];
    }
  }

  lemma LastAnswer(d: TxDone, c: Command)
    requires !RawNext(d, c).aborted
    ensures !d.aborted && RawNext(d, c).replies == d.replies + [Raw(d.tables, c).reply]
  {
  }

  lemma {:induction false} RawAllLength(t: Tables, cs: seq<Command>)
    ensures |RawAll(t, cs).replies| == |cs|
    decreases |cs|
  {
    if cs != [] { RawAllLength(t, cs[..|cs| - 1]); }
  }
}
