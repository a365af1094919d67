/** Which keys a command is locked for, and which keys its handler passes to the storage.

    Numbers are unbounded: a numkeys near the 64-bit limit is not modelled.
 */
module Footprint {
  import opened Basics
  import opened LockOrder
  import T = Transactions
  import D = Deadlock

  /** Commands by handler; Single stands for every command with one key first, Keyless for those
      with none. */
  datatype Name =
    | Keyless
    | Single
    | Del | Unlink | Exists | MGet | SInter | SUnion | SDiff
    | SInterStore | SUnionStore | SDiffStore | PFCount | PFMerge
    | MSet
    | Rename | Copy | RPopLPush | ZRangeStore
    | BLPop | BRPop
    | LMPop | ZMPop | SInterCard
    | BLMPop | BZMPop
    | ZUnionStore | ZInterStore
    | BitOp
    | Eval | EvalSha

  type Args = seq<string>

  /** The text functions both sides call. */
  datatype Text = Text(number: string -> Option<int>, isFloat: string -> bool, upper: string -> string,
                       scriptKnown: string -> bool)

  // ---------------------------------------------------------------- keys.go

  function NumKeysAt(x: Text, args: Args, i: nat): seq<Key> {
    if |args| <= i then []
    else
      var n := x.number(args[i]);
      if n.None? || n.value < 0 || |args| < i + 1 + n.value then [] else args[i + 1..i + 1 + n.value]
  }

  function EvenOnes(args: Args): seq<Key> {
    if args == [] then [] else if |args| == 1 then [args[0]] else [args[0]] + EvenOnes(args[2..])
  }

  /** commandKeys */
  function Declared(x: Text, c: Name, args: Args): seq<Key> {
    match c
    case Keyless => []
    case Del | Unlink | Exists | MGet | SInter | SUnion | SDiff => args
    case SInterStore | SUnionStore | SDiffStore | PFCount | PFMerge => args
    case MSet => EvenOnes(args)
    case Rename | Copy | RPopLPush | ZRangeStore => if |args| < 2 then [] else args[..2]
    case BLPop | BRPop => if |args| < 1 then [] else args[..|args| - 1]
    case LMPop | ZMPop | SInterCard => NumKeysAt(x, args, 0)
    case BLMPop | BZMPop => NumKeysAt(x, args, 1)
    case ZUnionStore | ZInterStore => if |args| < 1 then [] else [args[0]] + NumKeysAt(x, args, 1)
    case BitOp => if |args| < 2 then [] else args[1..]
    case Eval | EvalSha => NumKeysAt(x, args, 1)
    case Single => if |args| < 1 then [] else [args[0]]
  }

  /** The loop of MSET: every second argument from the first. */
  method MSetKeys(args: Args) returns (keys: seq<Key>)
    ensures keys == EvenOnes(args)
  {
    keys := [];
    var i := 0;
    while i < |args|
      invariant 0 <= i <= |args| + 1
      invariant keys + EvenOnes(if i <= |args| then args[i..] else []) == EvenOnes(args)
    {
      keys := keys + [args[i]];
      i := i + 2;
    }
  }

  // ---------------------------------------------------------------- handlers

  datatype MPopHead = MPopHead(keys: seq<Key>, where: string, count: int)

  /** The common head of LMPOP, BLMPOP, ZMPOP and BZMPOP; an error is None. */
  method ParseMPopHead(x: Text, args: Args, allowed: set<string>) returns (head: Option<MPopHead>)
    ensures head.Some? <==> MPopAccepted(x, args, allowed)
    ensures head.Some? ==>
              var n := x.number(args[0]).value;
              && head.value.keys == args[1..1 + n] && head.value.where == x.upper(args[1 + n])
              && head.value.count == (if |args| == 2 + n then 1 else x.number(args[3 + n]).value)
    ensures allowed == {"LEFT", "RIGHT"} ==> Touched(x, LMPop, args) == Parsed(head)
    ensures allowed == {"MIN", "MAX"} ==> Touched(x, ZMPop, args) == Parsed(head)
  {
    if |args| < 2 { return None; }
    var n := x.number(args[0]);
    if n.None? || n.value < 1 { return None; }
    var numkeys := n.value;
    if |args| < 1 + numkeys + 1 { return None; }
    var keys := [];
    for i := 0 to numkeys
      invariant keys == args[1..1 + i]
    {
      keys := keys + [args[1 + i]];
    }
    var where := x.upper(args[1 + numkeys]);
    if where !in allowed { return None; }
    var rest, count := args[2 + numkeys..], 1;
    if |rest| > 0 {
      if |rest| != 2 || x.upper(rest[0]) != "COUNT" { return None; }
      var c := x.number(rest[1]);
      if c.None? || c.value < 1 { return None; }
      count := c.value;
    }
    NumberedIsSlice(x, args);
    return Some(MPopHead(keys, where, count));
  }

  /** The keys of a parsed head. */
  function Parsed(head: Option<MPopHead>): Option<set<Key>> {
    if head.None? then None else Some(Elements(head.value.keys))
  }

  lemma NumberedIsSlice(x: Text, args: Args)
    requires |args| > 0 && x.number(args[0]).Some? && 0 <= x.number(args[0]).value < |args|
    ensures Numbered(x, args) == Elements(args[1..1 + x.number(args[0]).value])
  {
    var n := x.number(args[0]).value;
    var keys := args[1..1 + n];
    assert forall j | 0 <= j < n :: keys[j] == args[j + 1];
    assert forall j | 1 <= j < 1 + n :: args[j] == keys[j - 1];
  }

  predicate NumKeysAccepted(x: Text, args: Args, least: int, after: nat) {
    && |args| > 0 && x.number(args[0]).Some?
    && x.number(args[0]).value >= least && |args| >= 1 + x.number(args[0]).value + after
  }

  /** numkeys key [key ...] WHERE [COUNT count], nothing more. */
  predicate MPopAccepted(x: Text, args: Args, allowed: set<string>) {
    && |args| >= 2 && NumKeysAccepted(x, args, 1, 1)
    && var n := x.number(args[0]).value;
       && x.upper(args[1 + n]) in allowed
       && OptionAccepted(x, args[2 + n..], "COUNT", 1)
  }

  predicate OptionAccepted(x: Text, rest: Args, word: string, least: int) {
    |rest| == 0
    || (|rest| == 2 && x.upper(rest[0]) == word && x.number(rest[1]).Some? && x.number(rest[1]).value >= least)
  }

  function Numbered(x: Text, args: Args): set<Key>
    requires |args| > 0 && x.number(args[0]).Some? && 0 <= x.number(args[0]).value < |args|
  {
    set i | 1 <= i < 1 + x.number(args[0]).value :: args[i]
  }

  function EvenOf(args: Args): set<Key> { set i | 0 <= i < |args| && i % 2 == 0 :: args[i] }

  function When(accepted: bool, keys: set<Key>): Option<set<Key>> { if accepted then Some(keys) else None }

  /** The keys the handler passes to the storage, or None when it refuses the arguments. */
  function Touched(x: Text, c: Name, args: Args): Option<set<Key>> {
    match c
    case Keyless => Some({})
    case Single => if |args| < 1 then None else Some({args[0]})
    case Del | Unlink | Exists | MGet | SInter | SUnion | SDiff | PFCount => When(|args| >= 1, Elements(args))
    case SInterStore | SUnionStore | SDiffStore | PFMerge =>
      if |args| < 2 then None else Some({args[0]} + Elements(args[1..]))
    case MSet => When(|args| >= 2 && |args| % 2 == 0, EvenOf(args))
    case Rename | RPopLPush => if |args| != 2 then None else Some({args[0], args[1]})
    case Copy => if |args| < 2 then None else Some({args[0], args[1]})
    case ZRangeStore => if |args| < 4 then None else Some({args[0], args[1]})
    case BLPop | BRPop =>
      if |args| < 2 || !x.isFloat(args[|args| - 1]) then None else Some(Elements(args[..|args| - 1]))
    case LMPop => if !MPopAccepted(x, args, {"LEFT", "RIGHT"}) then None else Some(Numbered(x, args))
    case ZMPop => if !MPopAccepted(x, args, {"MIN", "MAX"}) then None else Some(Numbered(x, args))
    case SInterCard =>
      if |args| < 2 || !NumKeysAccepted(x, args, 1, 0)
         || !OptionAccepted(x, args[1 + x.number(args[0]).value..], "LIMIT", 0) then None
      else Some(Numbered(x, args))
    case BLMPop =>
      if |args| < 4 || !x.isFloat(args[0]) || !MPopAccepted(x, args[1..], {"LEFT", "RIGHT"}) then None
      else Some(Numbered(x, args[1..]))
    case BZMPop =>
      if |args| < 4 || !x.isFloat(args[0]) || !MPopAccepted(x, args[1..], {"MIN", "MAX"}) then None
      else Some(Numbered(x, args[1..]))
    case ZUnionStore | ZInterStore =>
      if |args| < 3 || !NumKeysAccepted(x, args[1..], 1, 0) then None
      else Some({args[0]} + Numbered(x, args[1..]))
    case BitOp =>
      if |args| < 3 || x.upper(args[0]) !in {"AND", "OR", "XOR", "NOT"}
         || (x.upper(args[0]) == "NOT" && |args| != 3) then None
      else Some({args[1]} + Elements(args[2..]))
    case Eval => if |args| < 2 || !NumKeysAccepted(x, args[1..], 0, 0) then None else Some(Numbered(x, args[1..]))
    case EvalSha =>
      if |args| < 2 || !NumKeysAccepted(x, args[1..], 0, 0) || !x.scriptKnown(args[0]) then None
      else Some(Numbered(x, args[1..]))
  }

  // ---------------------------------------------------------------- coverage

  lemma {:induction false} EvenOnesOk(args: Args)
    ensures Elements(EvenOnes(args)) == EvenOf(args)
    decreases |args|
  {
    if |args| == 1 {
      assert args[0] in EvenOf(args);
      ConsElements(args[0], []);
      assert [args[0]] + [] == [args[0]];
    } else if |args| > 1 {
      EvenOnesOk(args[2..]);
      ConsElements(args[0], EvenOnes(args[2..]));
      assert EvenOf(args) == {args[0]} + EvenOf(args[2..]) by {
        assert forall i | 2 <= i < |args| :: args[i] == args[2..][i - 2];
        assert forall i | 0 <= i < |args[2..]| :: args[2..][i] == args[i + 2];
      }
    }
  }

  lemma NumKeysOk(x: Text, args: Args, i: nat)
    requires i < |args| && NumKeysAccepted(x, args[i..], 0, 0)
    ensures Elements(NumKeysAt(x, args, i)) == Numbered(x, args[i..])
  {
    var n := x.number(args[i]).value;
    NumberedIsSlice(x, args[i..]);
    assert args[i + 1..i + 1 + n] == args[i..][1..1 + n];
  }

  lemma ElementsOfTwo(args: Args)
    requires |args| >= 2
    ensures Elements(args[..2]) == {args[0], args[1]}
  {
  }

  lemma NumKeysCommand(x: Text, c: Name, args: Args)
    requires c.LMPop? || c.ZMPop? || c.SInterCard? || c.BLMPop? || c.BZMPop? || c.Eval? || c.EvalSha?
    requires Touched(x, c, args).Some?
    ensures Elements(Declared(x, c, args)) == Touched(x, c, args).value
  {
    if c.LMPop? || c.ZMPop? || c.SInterCard? {
      assert args[0..] == args;
      NumKeysOk(x, args, 0);
    } else {
      NumKeysOk(x, args, 1);
    }
  }

  lemma StoreCommand(x: Text, c: Name, args: Args)
    requires || c.ZUnionStore? || c.ZInterStore? || c.SInterStore? || c.SUnionStore? || c.SDiffStore?
             || c.PFMerge? || c.BitOp?
    requires Touched(x, c, args).Some?
    ensures Elements(Declared(x, c, args)) == Touched(x, c, args).value
  {
    if c.ZUnionStore? || c.ZInterStore? {
      NumKeysOk(x, args, 1);
      ConsElements(args[0], NumKeysAt(x, args, 1));
    } else if c.BitOp? {
      HeadElements(args[1..]);
      assert args[1..][1..] == args[2..];
    } else {
      HeadElements(args);
    }
  }

  /** For every argument list a handler accepts, the keys locked are exactly the keys it touches. */
  lemma DeclaredIsTouched(x: Text, c: Name, args: Args)
    requires Touched(x, c, args).Some?
    ensures Elements(Declared(x, c, args)) == Touched(x, c, args).value
  {
    match c
    case MSet => EvenOnesOk(args);
    case Single => HeadElements([args[0]]);
    case Rename | Copy | RPopLPush | ZRangeStore => ElementsOfTwo(args);
    case LMPop | ZMPop | SInterCard | BLMPop | BZMPop | Eval | EvalSha => NumKeysCommand(x, c, args);
    case ZUnionStore | ZInterStore | SInterStore | SUnionStore | SDiffStore | PFMerge | BitOp =>
      StoreCommand(x, c, args);
    case _ =>
  }

  // ---------------------------------------------------------------- EXEC

  datatype Queued = Queued(name: Name, args: Args)

  /** What HandleExec locks for the queued commands. */
  function ExecKeys(x: Text, batch: seq<Queued>): seq<Key> {
    if batch == [] then []
    else ExecKeys(x, batch[..|batch| - 1]) + Declared(x, batch[|batch| - 1].name, batch[|batch| - 1].args)
  }

  lemma AppendElements(a: seq<Key>, b: seq<Key>)
    ensures Elements(a + b) == Elements(a) + Elements(b)
  {
    assert forall i | 0 <= i < |a| :: (a + b)[i] == a[i];
    assert forall i | 0 <= i < |b| :: (a + b)[|a| + i] == b[i];
  }

  lemma {:induction false} ExecCovers(x: Text, batch: seq<Queued>, i: nat)
    requires i < |batch|
    ensures Elements(Declared(x, batch[i].name, batch[i].args)) <= Elements(ExecKeys(x, batch))
    decreases |batch|
  {
    var front, last := batch[..|batch| - 1], batch[|batch| - 1];
    AppendElements(ExecKeys(x, front), Declared(x, last.name, last.args));
    if i < |front| { ExecCovers(x, front, i); }
  }

  /** k is touched by a command of the batch whose arguments are accepted. */
  ghost predicate TouchedBy(x: Text, batch: seq<Queued>, k: Key) {
    exists i | 0 <= i < |batch| :: Touches(x, batch[i], k)
  }

  ghost predicate Touches(x: Text, q: Queued, k: Key) {
    var keys := Touched(x, q.name, q.args);
    keys.Some? && k in keys.value
  }

  lemma {:induction false} TouchedIsLocked(x: Text, batch: seq<Queued>, k: Key)
    requires TouchedBy(x, batch, k)
    ensures k in Elements(ExecKeys(x, batch))
  {
    var i :| 0 <= i < |batch| && Touches(x, batch[i], k);
    DeclaredIsTouched(x, batch[i].name, batch[i].args);
    ExecCovers(x, batch, i);
  }

  ghost predicate ActsThrough(x: Text, batch: seq<Queued>, a: T.Action) {
    match a
    case Read(k) => TouchedBy(x, batch, k)
    case Write(k, _) => TouchedBy(x, batch, k)
    case Reply(_) => true
  }

  /** Whatever a program does that reads and writes only through the commands of a batch, it stays
      inside the keys EXEC locked: the assumption of the serializability result. */
  lemma {:induction false} ExecStaysInside(x: Text, batch: seq<Queued>, r: T.Request)
    requires r.keys == ExecKeys(x, batch)
    requires forall t: T.Trace :: ActsThrough(x, batch, r.next(t))
    ensures T.StaysInside(r)
  {
    forall t: T.Trace ensures T.Inside(Elements(r.keys), r.next(t)) {
      assert ActsThrough(x, batch, r.next(t));
      match r.next(t)
      case Read(k) => TouchedIsLocked(x, batch, k);
      case Write(k, _) => TouchedIsLocked(x, batch, k);
      case Reply(_) =>
    }
  }

  /** And whatever keys its commands lock again, in whatever order, the lock order is kept: the
      assumption of the deadlock result. */
  lemma {:induction false} ExecIsDisciplined(x: Text, batch: seq<Queued>, asks: seq<Key>)
    requires forall i | 0 <= i < |asks| :: TouchedBy(x, batch, asks[i])
    ensures D.Disciplined({}, LockSequence(ExecKeys(x, batch)) + asks)
  {
    forall k | k in Elements(asks) ensures k in Elements(ExecKeys(x, batch)) { TouchedIsLocked(x, batch, k); }
    D.UpFrontIsDisciplined(ExecKeys(x, batch), asks);
  }
}
