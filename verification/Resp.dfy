/** Reading and writing RESP values (simple strings, errors, integers, bulk strings, arrays).

    `Encode` and `Decode` say what the writer appends and what the reader consumes; the
    classes Writer and Reader are the imperative forms, proved against them.
 */
module Resp {
  import opened Basics

  type Bytes = seq<byte>

  const CR: byte := 13
  const LF: byte := 10
  const SPACE: byte := 32
  const CRLF: Bytes := [CR, LF]

  const PLUS: byte := 43
  const MINUS: byte := 45
  const COLON: byte := 58
  const DOLLAR: byte := 36
  const STAR: byte := 42
  const DIGIT_0: byte := 48

  const MAX_BULK_LEN: int := 512 * 1024 * 1024
  const MAX_ARRAY_LEN: int := 0x10_0000

  datatype Value =
    | SimpleString(str: Bytes)
    | Error(str: Bytes)
    | Integer(num: int)
    | Bulk(bulk: Bytes)
    | NullBulk
    | Array(elems: seq<Value>)
    | NullArray

  // ---------------------------------------------------------------- decimal numbers

  predicate IsDigit(b: byte) { DIGIT_0 <= b <= DIGIT_0 + 9 }

  function FormatNat(n: nat): (r: Bytes)
    ensures r != [] && forall b | b in r :: IsDigit(b)
  {
    if n < 10 then [DIGIT_0 + n] else FormatNat(n / 10) + [DIGIT_0 + n % 10]
  }

  function FormatInt(n: int): Bytes {
    if n < 0 then [MINUS] + FormatNat(-n) else FormatNat(n)
  }

  function NatValue(s: Bytes): nat
    requires forall b | b in s :: IsDigit(b)
  {
    if s == [] then 0 else
    var last: int := s[|s| - 1];
    assert IsDigit(last);
    10 * NatValue(s[..|s| - 1]) + (last - DIGIT_0)
  }

  /** Base-10 parsing of a signed 64-bit integer; None is a syntax or range error. */
  function ParseInt(s: Bytes): Option<int> {
    if s == [] then None else
    var body := if s[0] == PLUS || s[0] == MINUS then s[1..] else s;
    if body == [] || exists b | b in body :: !IsDigit(b) then None else
    var n: int := if s[0] == MINUS then -(NatValue(body) as int) else NatValue(body);
    if MIN_INT64 <= n <= MAX_INT64 then Some(n) else None
  }

  lemma {:induction false} NatRoundTrip(n: nat)
    ensures NatValue(FormatNat(n)) == n
  {
    if n >= 10 {
      NatRoundTrip(n / 10);
      var s := FormatNat(n);
      assert s[..|s| - 1] == FormatNat(n / 10);
    } else {
      assert FormatNat(n)[..0] == [];
    }
  }

  lemma IntRoundTrip(n: int)
    requires MIN_INT64 <= n <= MAX_INT64
    ensures ParseInt(FormatInt(n)) == Some(n)
  {
    var digits := FormatNat(if n < 0 then -n else n);
    NatRoundTrip(if n < 0 then -n else n);
    assert FormatInt(n) == if n < 0 then [MINUS] + digits else digits;
    if n < 0 { ParseNegative(digits); } else { ParseDigits(digits); }
  }

  lemma {:induction false} ParseDigits(s: Bytes)
    requires s != [] && (forall b | b in s :: IsDigit(b)) && NatValue(s) <= MAX_INT64
    ensures ParseInt(s) == Some(NatValue(s))
  {
    assert IsDigit(s[0]);
  }

  lemma {:induction false} ParseNegative(s: Bytes)
    requires s != [] && (forall b | b in s :: IsDigit(b)) && NatValue(s) <= MAX_INT64 + 1
    ensures ParseInt([MINUS] + s) == Some(0 - NatValue(s))
  {
    assert ([MINUS] + s)[1..] == s;
  }

  predicate OneLine(s: Bytes) { forall b | b in s :: b != CR && b != LF }

  lemma IntIsOneLine(n: int)
    ensures OneLine(FormatInt(n))
  {
  }

  /** The digits are the ASCII ones, most significant first, without leading zeros; a minus is byte 45. */
  lemma DecimalDigits(n: nat, d: nat)
    requires d < 10
    ensures FormatInt(d) == [48 + d]
    ensures n > 0 ==> FormatInt(10 * n + d) == FormatInt(n) + [48 + d] && FormatInt(0 - n) == [45] + FormatInt(n)
  {
    assert (10 * n + d) / 10 == n && (10 * n + d) % 10 == d;
  }

  // ---------------------------------------------------------------- writing

  /** CR and LF become spaces in simple strings and errors. */
  function NoBreaks(s: Bytes): (r: Bytes)
    ensures |r| == |s| && OneLine(r)
    ensures forall i | 0 <= i < |s| :: r[i] == if s[i] == CR || s[i] == LF then SPACE else s[i]
  {
    if s == [] then [] else [if s[0] == CR || s[0] == LF then SPACE else s[0]] + NoBreaks(s[1..])
  }

  function Encode(v: Value): Bytes
    decreases v, 1
  {
    match v
    case SimpleString(s) => [PLUS] + NoBreaks(s) + CRLF
    case Error(s) => [MINUS] + NoBreaks(s) + CRLF
    case Integer(n) => [COLON] + FormatInt(n) + CRLF
    case Bulk(s) => [DOLLAR] + FormatInt(|s|) + CRLF + (s + CRLF)
    case NullBulk => [DOLLAR] + [MINUS, DIGIT_0 + 1] + CRLF
    case Array(vs) => [STAR] + FormatInt(|vs|) + CRLF + EncodeAll(vs)
    case NullArray => [STAR] + [MINUS, DIGIT_0 + 1] + CRLF
  }

  function EncodeAll(vs: seq<Value>): Bytes
    decreases vs, 0
  {
    if vs == [] then [] else Encode(vs[0]) + EncodeAll(vs[1..])
  }

  lemma {:induction false} OneLineStays(s: Bytes)
    requires OneLine(s)
    ensures NoBreaks(s) == s
  {
    forall i | 0 <= i < |s| ensures NoBreaks(s)[i] == s[i] { assert s[i] in s; }
  }

  /** The bytes on the wire, as the protocol has them: a type byte, a line and, for bulk strings and arrays,
      as many bytes or values as the line says. */
  lemma {:induction false} WireBytes(s: Bytes, n: int, vs: seq<Value>)
    ensures OneLine(s) ==> Encode(SimpleString(s)) == [43] + s + [13, 10] && Encode(Error(s)) == [45] + s + [13, 10]
    ensures Encode(Integer(n)) == [58] + FormatInt(n) + [13, 10]
    ensures Encode(Bulk(s)) == [36] + FormatInt(|s|) + [13, 10] + s + [13, 10]
    ensures Encode(NullBulk) == [36, 45, 49, 13, 10] && Encode(NullArray) == [42, 45, 49, 13, 10]
    ensures Encode(Array(vs)) == [42] + FormatInt(|vs|) + [13, 10] + EncodeAll(vs)
  {
    if OneLine(s) { LineBytes(s); }
    BulkBytes(s);
    NullBytes();
  }

  lemma LineBytes(s: Bytes)
    requires OneLine(s)
    ensures Encode(SimpleString(s)) == [43] + s + [13, 10] && Encode(Error(s)) == [45] + s + [13, 10]
  {
    OneLineStays(s);
  }

  lemma NullBytes()
    ensures Encode(NullBulk) == [36, 45, 49, 13, 10] && Encode(NullArray) == [42, 45, 49, 13, 10]
  {
  }

  lemma BulkBytes(s: Bytes)
    ensures Encode(Bulk(s)) == [36] + FormatInt(|s|) + [13, 10] + s + [13, 10]
  {
    var head := [DOLLAR] + FormatInt(|s|) + CRLF;
    assert head + (s + CRLF) == head + s + CRLF;
  }

  /** The value a client gets back: line breaks in simple strings and errors are gone. */
  function Received(v: Value): Value
    decreases v, 1
  {
    match v
    case SimpleString(s) => SimpleString(NoBreaks(s))
    case Error(s) => Error(NoBreaks(s))
    case Array(vs) => Array(ReceivedAll(vs))
    case _ => v
  }

  function ReceivedAll(vs: seq<Value>): (r: seq<Value>)
    ensures |r| == |vs|
    decreases vs, 0
  {
    if vs == [] then [] else [Received(vs[0])] + ReceivedAll(vs[1..])
  }

  // ---------------------------------------------------------------- reading

  datatype Line = Line(text: Bytes, rest: Bytes)
  datatype Parsed<+T> = Parsed(value: T, rest: Bytes)

  /** Everything up to the first LF, which must follow a CR; None is end of input or a bad line ending. */
  function ReadLine(s: Bytes): (r: Option<Line>)
    ensures r.Some? ==> |r.value.rest| < |s|
  {
    var n := LineEnd(s);
    if n == |s| || n == 0 || s[n - 1] != CR then None
    else Some(Line(s[..n - 1], s[n + 1..]))
  }

  /** Index of the first LF, or the length if there is none. */
  function LineEnd(s: Bytes): (n: nat)
    ensures n <= |s| && LF !in s[..n] && (n < |s| ==> s[n] == LF)
  {
    if s == [] then 0
    else if s[0] == LF then 0
    else
      var n := 1 + LineEnd(s[1..]);
      assert s[..n] == [s[0]] + s[1..][..n - 1];
      n
  }

  lemma {:induction false} LineEndUnique(s: Bytes, n: nat)
    requires n <= |s| && LF !in s[..n] && (n < |s| ==> s[n] == LF)
    ensures LineEnd(s) == n
  {
  }

  /** One value from the front of the stream; None is any error. */
  function Decode(s: Bytes): (r: Option<Parsed<Value>>)
    ensures r.Some? ==> |r.value.rest| < |s|
    decreases |s|, 0
  {
    if s == [] then None else
    var line := ReadLine(s[1..]);
    if line.None? then None else
    var Line(text, rest) := line.value;
    if s[0] == PLUS then Some(Parsed(SimpleString(text), rest))
    else if s[0] == MINUS then Some(Parsed(Error(text), rest))
    else if s[0] == COLON then
      var n := ParseInt(text);
      if n.None? then None else Some(Parsed(Integer(n.value), rest))
    else if s[0] == DOLLAR then DecodeBulk(text, rest)
    else if s[0] == STAR then
      var n := ParseInt(text);
      if n.None? then None
      else if n.value == -1 then Some(Parsed(NullArray, rest))
      else if n.value < 0 || n.value > MAX_ARRAY_LEN then None
      else
        var elems := DecodeMany(rest, n.value);
        if elems.None? then None else Some(Parsed(Array(elems.value.value), elems.value.rest))
    else None
  }

  /** The two bytes after the payload are consumed without being looked at. */
  function DecodeBulk(text: Bytes, rest: Bytes): (r: Option<Parsed<Value>>)
    ensures r.Some? ==> |r.value.rest| <= |rest|
  {
    var n := ParseInt(text);
    if n.None? then None
    else if n.value == -1 then Some(Parsed(NullBulk, rest))
    else if n.value < 0 || n.value > MAX_BULK_LEN then None
    else if |rest| < n.value + 2 then None
    else Some(Parsed(Bulk(rest[..n.value]), rest[n.value + 2..]))
  }

  function DecodeMany(s: Bytes, n: nat): (r: Option<Parsed<seq<Value>>>)
    ensures r.Some? ==> |r.value.rest| <= |s| && |r.value.value| == n
    decreases |s|, n + 1
  {
    if n == 0 then Some(Parsed([], s)) else
    var head := Decode(s);
    if head.None? then None else
    var tail := DecodeMany(head.value.rest, n - 1);
    if tail.None? then None
    else Some(Parsed([head.value.value] + tail.value.value, tail.value.rest))
  }

  /** A bulk string may have 512 MiB and an array 2^20 elements, not more. */
  lemma {:induction false} LengthLimits(text: Bytes, rest: Bytes, n: int)
    requires ParseInt(text) == Some(n) && n >= 0
    ensures DecodeBulk(text, rest).Some? <==> n <= 536_870_912 && |rest| >= n + 2
    ensures DecodeBulk(text, rest).Some? ==> DecodeBulk(text, rest).value == Parsed(Bulk(rest[..n]), rest[n + 2..])
    ensures OneLine(text) ==>
              Decode([42] + text + [13, 10] + rest)
              == var many := DecodeMany(rest, n);
                 if n > 1_048_576 || many.None? then None else Some(Parsed(Array(many.value.value), many.value.rest))
  {
    if OneLine(text) {
      var s := [42] + text + [13, 10] + rest;
      assert s[1..] == text + CRLF + rest;
      LineRoundTrip(text, rest);
    }
  }

  /** Elements already read, followed by the outcome of reading the others. */
  function Resumed(done: seq<Value>, more: Option<Parsed<seq<Value>>>): Option<Parsed<seq<Value>>> {
    if more.None? then None else Some(Parsed(done + more.value.value, more.value.rest))
  }

  lemma ResumedFromStart(more: Option<Parsed<seq<Value>>>)
    ensures Resumed([], more) == more
  {
    if more.Some? { assert [] + more.value.value == more.value.value; }
  }

  lemma {:induction false} ResumedAtEnd(done: seq<Value>, rest: Bytes)
    ensures Resumed(done, DecodeMany(rest, 0)) == Some(Parsed(done, rest))
  {
    assert done + [] == done;
  }

  lemma {:induction false} NoneStays(done: seq<Value>, s: Bytes, n: nat)
    requires n > 0 && Decode(s).None?
    ensures Resumed(done, DecodeMany(s, n)).None?
  {
  }

  lemma ResumedOnce(done: seq<Value>, v: Value, more: Option<Parsed<seq<Value>>>)
    ensures Resumed(done + [v], more) == Resumed(done, Resumed([v], more))
  {
    if more.Some? { assert done + [v] + more.value.value == done + ([v] + more.value.value); }
  }

  // ---------------------------------------------------------------- round trip

  lemma LineRoundTrip(text: Bytes, rest: Bytes)
    requires OneLine(text)
    ensures ReadLine(text + CRLF + rest) == Some(Line(text, rest))
  {
    var s := text + CRLF + rest;
    var n := |text| + 1;
    assert s[..n] == text + [CR];
    LineEndUnique(s, n);
    assert s[..n - 1] == text && s[n + 1..] == rest;
  }

  /** The values the reader's limits let through; integers are 64-bit. */
  ghost predicate WithinLimits(v: Value)
    decreases v, 1
  {
    match v
    case Integer(n) => MIN_INT64 <= n <= MAX_INT64
    case Bulk(s) => |s| <= MAX_BULK_LEN
    case Array(vs) => |vs| <= MAX_ARRAY_LEN && AllWithinLimits(vs)
    case _ => true
  }

  ghost predicate AllWithinLimits(vs: seq<Value>)
    decreases vs, 0
  {
    vs == [] || (WithinLimits(vs[0]) && AllWithinLimits(vs[1..]))
  }

  lemma HeaderRoundTrip(kind: byte, text: Bytes, rest: Bytes)
    requires OneLine(text)
    ensures var s := [kind] + text + CRLF + rest;
            s != [] && s[0] == kind && ReadLine(s[1..]) == Some(Line(text, rest))
  {
    var s := [kind] + text + CRLF + rest;
    assert s[1..] == text + CRLF + rest;
    LineRoundTrip(text, rest);
  }

  lemma {:induction false} BulkRoundTrip(s: Bytes, rest: Bytes)
    requires |s| <= MAX_BULK_LEN
    ensures Decode(Encode(Bulk(s)) + rest) == Some(Parsed(Bulk(s), rest))
  {
    IntIsOneLine(|s|);
    IntRoundTrip(|s|);
    var tail := s + CRLF + rest;
    HeaderRoundTrip(DOLLAR, FormatInt(|s|), tail);
    BulkIsHeaderAndTail(s, rest);
    BulkTail(s, rest);
  }

  lemma BulkIsHeaderAndTail(s: Bytes, rest: Bytes)
    ensures Encode(Bulk(s)) + rest == [DOLLAR] + FormatInt(|s|) + CRLF + (s + CRLF + rest)
  {
    var head, body := [DOLLAR] + FormatInt(|s|) + CRLF, s + CRLF;
    assert Encode(Bulk(s)) == head + body;
    assert head + body + rest == head + (body + rest);
  }

  lemma BulkTail(s: Bytes, rest: Bytes)
    ensures var tail := s + CRLF + rest; |tail| >= |s| + 2 && tail[..|s|] == s && tail[|s| + 2..] == rest
  {
  }

  /** Reading what was written, followed by anything, gives the value back and leaves exactly the rest. */
  lemma {:induction false} RoundTrip(v: Value, rest: Bytes)
    requires WithinLimits(v)
    ensures Decode(Encode(v) + rest) == Some(Parsed(Received(v), rest))
    decreases v, 1
  {
    match v
    case SimpleString(s) => LineValueRoundTrip(v, rest);
    case Error(s) => LineValueRoundTrip(v, rest);
    case Integer(n) => LineValueRoundTrip(v, rest);
    case Bulk(s) => BulkRoundTrip(s, rest);
    case NullBulk => NullRoundTrip(DOLLAR, rest);
    case NullArray => NullRoundTrip(STAR, rest);
    case Array(vs) =>
      ManyRoundTrip(vs, rest);
      ArrayRoundTrip(vs, rest);
  }

  lemma {:induction false} LineValueRoundTrip(v: Value, rest: Bytes)
    requires WithinLimits(v) && (v.SimpleString? || v.Error? || v.Integer?)
    ensures Decode(Encode(v) + rest) == Some(Parsed(Received(v), rest))
  {
    match v
    case SimpleString(s) => HeaderRoundTrip(PLUS, NoBreaks(s), rest);
    case Error(s) => HeaderRoundTrip(MINUS, NoBreaks(s), rest);
    case Integer(n) =>
      IntIsOneLine(n);
      IntRoundTrip(n);
      HeaderRoundTrip(COLON, FormatInt(n), rest);
  }

  lemma {:induction false} ArrayRoundTrip(vs: seq<Value>, rest: Bytes)
    requires |vs| <= MAX_ARRAY_LEN
    requires DecodeMany(EncodeAll(vs) + rest, |vs|) == Some(Parsed(ReceivedAll(vs), rest))
    ensures Decode(Encode(Array(vs)) + rest) == Some(Parsed(Received(Array(vs)), rest))
  {
    IntIsOneLine(|vs|);
    IntRoundTrip(|vs|);
    var header, body := [STAR] + FormatInt(|vs|) + CRLF, EncodeAll(vs) + rest;
    HeaderRoundTrip(STAR, FormatInt(|vs|), body);
    DecodeArray(header + body, FormatInt(|vs|), body, |vs|);
    Assoc(header, EncodeAll(vs), rest);
  }

  lemma {:induction false} DecodeArray(s: Bytes, text: Bytes, rest: Bytes, n: nat)
    requires s != [] && s[0] == STAR && ReadLine(s[1..]) == Some(Line(text, rest))
    requires ParseInt(text) == Some(n) && n <= MAX_ARRAY_LEN && DecodeMany(rest, n).Some?
    ensures Decode(s) == Some(Parsed(Array(DecodeMany(rest, n).value.value), DecodeMany(rest, n).value.rest))
  {
  }

  lemma NullRoundTrip(kind: byte, rest: Bytes)
    requires kind == DOLLAR || kind == STAR
    ensures var s := [kind] + [MINUS, DIGIT_0 + 1] + CRLF + rest;
            Decode(s) == Some(Parsed(if kind == DOLLAR then NullBulk else NullArray, rest))
  {
    IntRoundTrip(-1);
    assert FormatInt(-1) == [MINUS, DIGIT_0 + 1];
    HeaderRoundTrip(kind, FormatInt(-1), rest);
  }

  lemma {:induction false} ManyRoundTrip(vs: seq<Value>, rest: Bytes)
    requires AllWithinLimits(vs)
    ensures DecodeMany(EncodeAll(vs) + rest, |vs|) == Some(Parsed(ReceivedAll(vs), rest))
    decreases vs, 0
  {
    if vs == [] {
      assert EncodeAll(vs) + rest == rest;
    } else {
      RoundTrip(vs[0], EncodeAll(vs[1..]) + rest);
      ManyRoundTrip(vs[1..], rest);
      ConsRoundTrip(vs, rest);
    }
  }

  lemma {:induction false} ConsRoundTrip(vs: seq<Value>, rest: Bytes)
    requires vs != []
    requires var tail := EncodeAll(vs[1..]) + rest;
             && Decode(Encode(vs[0]) + tail) == Some(Parsed(Received(vs[0]), tail))
             && DecodeMany(tail, |vs| - 1) == Some(Parsed(ReceivedAll(vs[1..]), rest))
    ensures DecodeMany(EncodeAll(vs) + rest, |vs|) == Some(Parsed(ReceivedAll(vs), rest))
  {
    Assoc(Encode(vs[0]), EncodeAll(vs[1..]), rest);
    DecodeManyStep(Encode(vs[0]) + (EncodeAll(vs[1..]) + rest), |vs|);
  }

  lemma Assoc(a: Bytes, b: Bytes, c: Bytes)
    ensures (a + b) + c == a + (b + c)
  {
  }

  lemma DecodeManyStep(s: Bytes, n: nat)
    requires n > 0 && Decode(s).Some?
    ensures DecodeMany(s, n) == Resumed([Decode(s).value.value], DecodeMany(Decode(s).value.rest, n - 1))
  {
  }

  lemma ResumedStep(done: seq<Value>, s: Bytes, n: nat)
    requires n > 0 && Decode(s).Some?
    ensures Resumed(done, DecodeMany(s, n))
            == Resumed(done + [Decode(s).value.value], DecodeMany(Decode(s).value.rest, n - 1))
  {
    DecodeManyStep(s, n);
    ResumedOnce(done, Decode(s).value.value, DecodeMany(Decode(s).value.rest, n - 1));
  }

  /** Any pipeline of replies parses back value by value, and nothing is left over. */
  lemma {:induction false} PipelineRoundTrip(vs: seq<Value>)
    requires AllWithinLimits(vs)
    ensures DecodeMany(EncodeAll(vs), |vs|) == Some(Parsed(ReceivedAll(vs), []))
  {
    ManyRoundTrip(vs, []);
    assert EncodeAll(vs) + [] == EncodeAll(vs);
  }

  // ---------------------------------------------------------------- framing

  lemma LineStable(s: Bytes, t: Bytes)
    requires ReadLine(s).Some?
    ensures ReadLine(s + t) == Some(Line(ReadLine(s).value.text, ReadLine(s).value.rest + t))
  {
    var n := LineEnd(s);
    assert (s + t)[..n] == s[..n];
    LineEndUnique(s + t, n);
    assert (s + t)[..n - 1] == s[..n - 1] && (s + t)[n + 1..] == s[n + 1..] + t;
  }

  lemma BulkStable(text: Bytes, rest: Bytes, t: Bytes)
    requires DecodeBulk(text, rest).Some?
    ensures DecodeBulk(text, rest + t)
            == Some(Parsed(DecodeBulk(text, rest).value.value, DecodeBulk(text, rest).value.rest + t))
  {
    var n := ParseInt(text).value;
    if n != -1 {
      assert (rest + t)[..n] == rest[..n] && (rest + t)[n + 2..] == rest[n + 2..] + t;
    }
  }

  lemma {:induction false} ArrayStable(s: Bytes, t: Bytes, text: Bytes, rest: Bytes, n: nat)
    requires s != [] && s[0] == STAR && ReadLine(s[1..]) == Some(Line(text, rest))
    requires ReadLine((s + t)[1..]) == Some(Line(text, rest + t))
    requires ParseInt(text) == Some(n) && n <= MAX_ARRAY_LEN && DecodeMany(rest, n).Some?
    requires DecodeMany(rest + t, n)
          == Some(Parsed(DecodeMany(rest, n).value.value, DecodeMany(rest, n).value.rest + t))
    ensures Decode(s).Some? && Decode(s + t) == Some(Parsed(Decode(s).value.value, Decode(s).value.rest + t))
  {
    DecodeArray(s, text, rest, n);
    DecodeArray(s + t, text, rest + t, n);
  }

  /** More input behind a complete value changes neither the value nor where it ends. */
  lemma {:induction false} DecodeStable(s: Bytes, t: Bytes)
    requires Decode(s).Some?
    ensures Decode(s + t) == Some(Parsed(Decode(s).value.value, Decode(s).value.rest + t))
    decreases |s|, 0
  {
    assert (s + t)[1..] == s[1..] + t;
    LineStable(s[1..], t);
    var Line(text, rest) := ReadLine(s[1..]).value;
    if s[0] == STAR && ParseInt(text).value != -1 {
      ManyStable(rest, ParseInt(text).value, t);
      ArrayStable(s, t, text, rest, ParseInt(text).value);
    } else if s[0] == DOLLAR {
      BulkStable(text, rest, t);
    }
  }

  lemma {:induction false} ManyStable(s: Bytes, n: nat, t: Bytes)
    requires DecodeMany(s, n).Some?
    ensures DecodeMany(s + t, n) == Some(Parsed(DecodeMany(s, n).value.value, DecodeMany(s, n).value.rest + t))
    decreases |s|, n + 1
  {
    if n > 0 {
      DecodeStable(s, t);
      ManyStable(Decode(s).value.rest, n - 1, t);
    }
  }

  /** No proper prefix of a written value is taken for a value: the reader waits for the rest. */
  lemma {:induction false} NoEarlyValue(v: Value, k: nat)
    requires WithinLimits(v) && k < |Encode(v)|
    ensures Decode(Encode(v)[..k]).None?
  {
    var s := Encode(v);
    RoundTrip(v, []);
    assert s + [] == s && s == s[..k] + s[k..];
    if Decode(s[..k]).Some? {
      DecodeStable(s[..k], s[k..]);
    }
  }

  /** Two written streams that agree start with the same received value and the same rest. */
  lemma {:induction false} FramingIsUnique(v: Value, w: Value, rest: Bytes, rest': Bytes)
    requires WithinLimits(v) && WithinLimits(w)
    requires Encode(v) + rest == Encode(w) + rest'
    ensures Received(v) == Received(w) && rest == rest'
  {
    RoundTrip(v, rest);
    RoundTrip(w, rest');
  }

  // ---------------------------------------------------------------- the imperative forms

  class Writer {
    var out: Bytes

    constructor ()
      ensures out == []
    {
      out := [];
    }

    method WriteValue(v: Value)
      modifies this
      ensures out == old(out) + Encode(v)
      decreases v, 1
    {
      match v
      case SimpleString(s) => out := out + ([PLUS] + NoBreaks(s) + CRLF);
      case Error(s) => out := out + ([MINUS] + NoBreaks(s) + CRLF);
      case Integer(n) => out := out + ([COLON] + FormatInt(n) + CRLF);
      case Bulk(s) => out := out + ([DOLLAR] + FormatInt(|s|) + CRLF + (s + CRLF));
      case NullBulk => out := out + ([DOLLAR] + [MINUS, DIGIT_0 + 1] + CRLF);
      case NullArray => out := out + ([STAR] + [MINUS, DIGIT_0 + 1] + CRLF);
      case Array(vs) => WriteArray(vs);
    }

    method WriteArray(vs: seq<Value>)
      modifies this
      ensures out == old(out) + ([STAR] + FormatInt(|vs|) + CRLF + EncodeAll(vs))
      decreases vs, 0
    {
      out := out + ([STAR] + FormatInt(|vs|) + CRLF);
      ghost var header := out;
      var i := 0;
      assert vs[..0] == [];
      while i < |vs|
        invariant 0 <= i <= |vs|
        invariant out == header + EncodeAll(vs[..i])
      {
        WriteValue(vs[i]);
        EncodeAllAppend(vs[..i], vs[i]);
        Assoc(header, EncodeAll(vs[..i]), Encode(vs[i]));
        assert vs[..i + 1] == vs[..i] + [vs[i]];
        i := i + 1;
      }
      assert vs[..i] == vs;
      Assoc(old(out), [STAR] + FormatInt(|vs|) + CRLF, EncodeAll(vs));
    }
  }

  lemma {:induction false} EncodeAllAppend(vs: seq<Value>, v: Value)
    ensures EncodeAll(vs + [v]) == EncodeAll(vs) + Encode(v)
  {
    if vs == [] {
      assert vs + [v] == [v] && [v][1..] == [];
    } else {
      EncodeAllAppend(vs[1..], v);
      Assoc(Encode(vs[0]), EncodeAll(vs[1..]), Encode(v));
      assert (vs + [v])[0] == vs[0] && (vs + [v])[1..] == vs[1..] + [v];
    }
  }

  class Reader {
    var input: Bytes

    constructor (s: Bytes)
      ensures input == s
    {
      input := s;
    }

    method NextLine() returns (text: Option<Bytes>)
      modifies this
      ensures match ReadLine(old(input))
              case Some(line) => text == Some(line.text) && input == line.rest
              case None => text == None && |input| <= |old(input)|
    {
      var n := 0;
      while n < |input| && input[n] != LF
        invariant n <= |input| && LF !in input[..n] && input == old(input)
      {
        assert input[..n + 1] == input[..n] + [input[n]];
        n := n + 1;
      }
      LineEndUnique(input, n);
      if n == |input| {
        input := [];
        return None;
      }
      var line, bad := input[..n], n == 0 || input[n - 1] != CR;
      input := input[n + 1..];
      if bad { return None; }
      assert line[..n - 1] == old(input)[..n - 1];
      return Some(line[..n - 1]);
    }

    /** On success the value is what Decode says and the stream is left behind it. */
    method Read() returns (v: Option<Value>)
      modifies this
      ensures match Decode(old(input))
              case Some(p) => v == Some(p.value) && input == p.rest
              case None => v == None && |input| <= |old(input)|
      decreases |input|, 0
    {
      if input == [] { return None; }
      var kind := input[0];
      input := input[1..];
      var text := NextLine();
      if text.None? { return None; }
      if kind == PLUS { return Some(SimpleString(text.value)); }
      if kind == MINUS { return Some(Error(text.value)); }
      var n := ParseInt(text.value);
      if n.None? { return None; }
      if kind == COLON { return Some(Integer(n.value)); }
      if kind == DOLLAR {
        v := ReadBulkBody(n.value);
      } else if kind == STAR {
        v := ReadArrayBody(n.value);
      } else {
        return None;
      }
    }

    method ReadBulkBody(n: int) returns (v: Option<Value>)
      modifies this
      ensures |input| <= |old(input)|
      ensures n == -1 ==> v == Some(NullBulk) && input == old(input)
      ensures 0 <= n <= MAX_BULK_LEN && n + 2 <= |old(input)| ==>
                v == Some(Bulk(old(input)[..n])) && input == old(input)[n + 2..]
      ensures n < -1 || n > MAX_BULK_LEN || (n >= 0 && n + 2 > |old(input)|) ==> v == None
    {
      if n == -1 { return Some(NullBulk); }
      if n < 0 || n > MAX_BULK_LEN || |input| < n + 2 { return None; }
      var buf := input[..n + 2];
      input := input[n + 2..];
      assert buf[..n] == old(input)[..n];
      return Some(Bulk(buf[..n]));
    }

    method ReadArrayBody(count: int) returns (v: Option<Value>)
      modifies this
      ensures |input| <= |old(input)|
      ensures count == -1 ==> v == Some(NullArray) && input == old(input)
      ensures count < -1 || count > MAX_ARRAY_LEN ==> v == None
      ensures 0 <= count <= MAX_ARRAY_LEN ==>
                match DecodeMany(old(input), count)
                case Some(p) => v == Some(Array(p.value)) && input == p.rest
                case None => v == None
      decreases |input|, 3
    {
      if count == -1 { return Some(NullArray); }
      if count < 0 || count > MAX_ARRAY_LEN { return None; }
      var elems := ReadElements(count);
      if elems.None? { return None; }
      return Some(Array(elems.value));
    }

    /** One turn of the element loop. */
    method ReadElement(ghost done: seq<Value>, ghost todo: nat) returns (v: Option<Value>)
      requires todo > 0
      modifies this
      ensures |input| <= |old(input)|
      ensures v.None? ==> Resumed(done, DecodeMany(old(input), todo)).None?
      ensures v.Some? ==>
                Resumed(done, DecodeMany(old(input), todo)) == Resumed(done + [v.value], DecodeMany(input, todo - 1))
      decreases |input|, 1
    {
      v := Read();
      if v.None? { NoneStays(done, old(input), todo); } else { ResumedStep(done, old(input), todo); }
    }

    method ReadElements(count: nat) returns (elems: Option<seq<Value>>)
      modifies this
      ensures |input| <= |old(input)|
      ensures match DecodeMany(old(input), count)
              case Some(p) => elems == Some(p.value) && input == p.rest
              case None => elems == None
      decreases |input|, 2
    {
      ghost var all := DecodeMany(input, count);
      var values: seq<Value> := [];
      ResumedFromStart(all);
      for i := 0 to count
        invariant |input| <= |old(input)|
        invariant Resumed(values, DecodeMany(input, count - i)) == all
      {
        var val := ReadElement(values, count - i);
        if val.None? { return None; }
        values := values + [val.value];
      }
      ResumedAtEnd(values, input);
      return Some(values);
    }
  }
}
