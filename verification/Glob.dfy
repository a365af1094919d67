/** The glob matcher with `*` and `?`.

    The same loop appears three times in the repository: the SCAN family of the handler,
    the key and member scans of the storage layer, and PSUBSCRIBE patterns of the hub.
    `Matches` is the declarative meaning; `Accepts` is the loop as a function.
 */
module Glob {

  type Bytes = string

  /** What a pattern means: `*` is any run of bytes, `?` any one byte, the rest is literal. */
  ghost predicate Matches(p: Bytes, s: Bytes)
    decreases |p|
  {
    if p == "" then s == ""
    else if p[0] == '*' then exists k :: 0 <= k <= |s| && Matches(p[1..], s[k..])
    else s != "" && (p[0] == '?' || p[0] == s[0]) && Matches(p[1..], s[1..])
  }

  predicate AllStars(p: Bytes) { forall i | 0 <= i < |p| :: p[i] == '*' }

  /** The loop from an intermediate state: pattern index, subject index, the last star seen
      (-1 for none) and the subject index where that star's match currently ends. */
  function Loop(p: Bytes, s: Bytes, px: int, sx: int, star: int, mark: int): bool
    requires LoopState(p, s, px, sx, star, mark)
    decreases |p| - star, |s| - mark, |p| - px
  {
    if sx >= |s| then AllStars(p[px..])
    else if px < |p| && (p[px] == '?' || p[px] == s[sx]) then Loop(p, s, px + 1, sx + 1, star, mark)
    else if px < |p| && p[px] == '*' then Loop(p, s, px + 1, sx, px, sx)
    else if star != -1 then Loop(p, s, star + 1, mark + 1, star, mark + 1)
    else false
  }

  predicate LoopState(p: Bytes, s: Bytes, px: int, sx: int, star: int, mark: int) {
    0 <= px <= |p| && 0 <= mark <= sx <= |s| && -1 <= star < px
  }

  predicate Accepts(p: Bytes, s: Bytes) { Loop(p, s, 0, 0, -1, 0) }

  /** The loop of the source, with its four indices. */
  method GlobMatch(p: Bytes, s: Bytes) returns (r: bool)
    ensures r == Accepts(p, s)
  {
    var px, sx := 0, 0;
    var star, mark := -1, 0;
    while sx < |s|
      invariant LoopState(p, s, px, sx, star, mark)
      invariant Loop(p, s, px, sx, star, mark) == Accepts(p, s)
      decreases |p| - star, |s| - mark, |p| - px
    {
      if px < |p| && (p[px] == '?' || p[px] == s[sx]) {
        px := px + 1;
        sx := sx + 1;
      } else if px < |p| && p[px] == '*' {
        star := px;
        mark := sx;
        px := px + 1;
      } else if star != -1 {
        px := star + 1;
        mark := mark + 1;
        sx := mark;
      } else {
        return false;
      }
    }
    ghost var px0 := px;
    while px < |p| && p[px] == '*'
      invariant px0 <= px <= |p|
      invariant forall i | px0 <= i < px :: p[i] == '*'
    {
      px := px + 1;
    }
    assert AllStars(p[px0..]) <==> px == |p| by {
      if px < |p| { assert p[px0..][px - px0] == p[px]; }
    }
    return px == |p|;
  }

  // ---------------------------------------------------------------- facts about the meaning

  lemma {:induction false} MatchesEmpty(p: Bytes)
    ensures Matches(p, "") <==> AllStars(p)
  {
    if p != "" {
      MatchesEmpty(p[1..]);
      if p[0] == '*' {
        assert AllStars(p) <==> AllStars(p[1..]) by {
          assert forall i | 0 <= i < |p[1..]| :: p[1..][i] == p[i + 1];
          assert forall i | 1 <= i < |p| :: p[i] == p[1..][i - 1];
        }
        if Matches(p[1..], "") { assert ""[0..] == ""; }
      }
    }
  }

  lemma {:induction false} StarTakesNothing(p: Bytes, s: Bytes)
    requires p != "" && p[0] == '*' && Matches(p[1..], s)
    ensures Matches(p, s)
  {
    assert s[0..] == s;
  }

  /** A star may also take the next byte. */
  lemma {:induction false} StarTakesOne(p: Bytes, s: Bytes)
    requires p != "" && p[0] == '*' && s != "" && Matches(p, s[1..])
    ensures Matches(p, s)
  {
  }

  /** `seg` without stars matches `t` byte by byte. */
  predicate Literal(seg: Bytes, t: Bytes) {
    |seg| == |t| && forall i | 0 <= i < |seg| :: seg[i] != '*' && (seg[i] == '?' || seg[i] == t[i])
  }

  /** A star-free prefix of a pattern must take exactly as many bytes as it is long. */
  lemma {:induction false} StarFreePrefix(seg: Bytes, rest: Bytes, s: Bytes)
    requires forall i | 0 <= i < |seg| :: seg[i] != '*'
    requires Matches(seg + rest, s)
    ensures |seg| <= |s| && Literal(seg, s[..|seg|]) && Matches(rest, s[|seg|..])
  {
    if seg == "" {
      assert seg + rest == rest && s[0..] == s;
    } else {
      var p := seg + rest;
      assert p[0] == seg[0] && p[1..] == seg[1..] + rest;
      StarFreePrefix(seg[1..], rest, s[1..]);
      assert s[1..][|seg| - 1..] == s[|seg|..];
      forall i | 0 <= i < |seg| ensures seg[i] != '*' && (seg[i] == '?' || seg[i] == s[..|seg|][i]) {
        if i > 0 { assert seg[i] == seg[1..][i - 1] && s[1..][..|seg| - 1][i - 1] == s[i]; }
      }
    }
  }

  // ---------------------------------------------------------------- soundness

  /** From a sound loop state the loop accepts only what the whole pattern matches. */
  lemma {:induction false} LoopSound(p: Bytes, s: Bytes, px: int, sx: int, star: int, mark: int)
    requires LoopState(p, s, px, sx, star, mark)
    requires Matches(p[px..], s[sx..]) ==> Matches(p, s)
    requires star != -1 ==> forall j | mark <= j <= |s| :: Matches(p[star + 1..], s[j..]) ==> Matches(p, s)
    requires Loop(p, s, px, sx, star, mark)
    ensures Matches(p, s)
    decreases |p| - star, |s| - mark, |p| - px
  {
    if sx >= |s| {
      assert s[sx..] == "";
      MatchesEmpty(p[px..]);
    } else {
      assert s[sx..][1..] == s[sx + 1..];
      if px < |p| {
        assert p[px..][1..] == p[px + 1..];
      }
      if px < |p| && (p[px] == '?' || p[px] == s[sx]) {
        if Matches(p[px + 1..], s[sx + 1..]) && p[px] == '*' {
          StarTakesNothing(p[px..], s[sx..][1..]);
          StarTakesOne(p[px..], s[sx..]);
        }
        LoopSound(p, s, px + 1, sx + 1, star, mark);
      } else if px < |p| && p[px] == '*' {
        forall j | sx <= j <= |s| && Matches(p[px + 1..], s[j..]) ensures Matches(p, s) {
          assert s[sx..][j - sx..] == s[j..];
        }
        LoopSound(p, s, px + 1, sx, px, sx);
      } else {
        LoopSound(p, s, star + 1, mark + 1, star, mark + 1);
      }
    }
  }

  /** Whatever the loop accepts matches, for all patterns and subjects. */
  lemma {:induction false} Sound(p: Bytes, s: Bytes)
    requires Accepts(p, s)
    ensures Matches(p, s)
  {
    assert p[0..] == p && s[0..] == s;
    LoopSound(p, s, 0, 0, -1, 0);
  }

  // ---------------------------------------------------------------- completeness

  /** Where a match of the whole pattern can still be found from this loop state. */
  ghost predicate MatchLeft(p: Bytes, s: Bytes, px: int, sx: int, star: int, mark: int)
    requires LoopState(p, s, px, sx, star, mark)
  {
    if star == -1 then Matches(p[px..], s[sx..])
    else exists j :: mark <= j <= |s| && Matches(p[star + 1..], s[j..])
  }

  /** Since the last star the pattern was matched byte by byte. */
  ghost predicate Segment(p: Bytes, s: Bytes, px: int, sx: int, star: int, mark: int)
    requires LoopState(p, s, px, sx, star, mark)
  {
    star != -1 ==> Literal(p[star + 1..px], s[mark..sx])
  }

  /** The bytes after the segment: what a match starting at j leaves for p[px..]. */
  lemma AfterSegment(p: Bytes, s: Bytes, px: int, sx: int, star: int, mark: int, j: int)
    requires LoopState(p, s, px, sx, star, mark) && star != -1
    requires Segment(p, s, px, sx, star, mark)
    requires mark <= j <= |s| && Matches(p[star + 1..], s[j..])
    ensures j + (sx - mark) <= |s| && Matches(p[px..], s[j + (sx - mark)..])
  {
    var seg := p[star + 1..px];
    assert p[star + 1..] == seg + p[px..];
    StarFreePrefix(seg, p[px..], s[j..]);
    assert s[j..][|seg|..] == s[j + |seg|..];
  }

  /** At the end of the subject only stars are left. */
  lemma CompleteAtEnd(p: Bytes, s: Bytes, px: int, sx: int, star: int, mark: int)
    requires LoopState(p, s, px, sx, star, mark) && sx >= |s|
    requires MatchLeft(p, s, px, sx, star, mark) && Segment(p, s, px, sx, star, mark)
    ensures AllStars(p[px..])
  {
    if star != -1 {
      var j :| mark <= j <= |s| && Matches(p[star + 1..], s[j..]);
      AfterSegment(p, s, px, sx, star, mark, j);
    }
    assert s[sx..] == "";
    MatchesEmpty(p[px..]);
  }

  /** A byte that fits moves both indices on. */
  lemma CompleteAfterFit(p: Bytes, s: Bytes, px: int, sx: int, star: int, mark: int)
    requires LoopState(p, s, px, sx, star, mark) && sx < |s| && px < |p|
    requires p[px] != '*' && (p[px] == '?' || p[px] == s[sx])
    requires MatchLeft(p, s, px, sx, star, mark) && Segment(p, s, px, sx, star, mark)
    ensures MatchLeft(p, s, px + 1, sx + 1, star, mark) && Segment(p, s, px + 1, sx + 1, star, mark)
  {
    if star == -1 {
      assert p[px..][1..] == p[px + 1..] && s[sx..][1..] == s[sx + 1..];
    } else {
      assert p[star + 1..px + 1] == p[star + 1..px] + [p[px]];
      assert s[mark..sx + 1] == s[mark..sx] + [s[sx]];
    }
  }

  /** Where the byte does not fit, the last star takes one more. */
  lemma CompleteAfterRetreat(p: Bytes, s: Bytes, px: int, sx: int, star: int, mark: int)
    requires LoopState(p, s, px, sx, star, mark) && sx < |s| && star != -1
    requires px < |p| ==> p[px] != '*' && p[px] != '?' && p[px] != s[sx]
    requires MatchLeft(p, s, px, sx, star, mark) && Segment(p, s, px, sx, star, mark)
    ensures MatchLeft(p, s, star + 1, mark + 1, star, mark + 1) && Segment(p, s, star + 1, mark + 1, star, mark + 1)
  {
    var j :| mark <= j <= |s| && Matches(p[star + 1..], s[j..]);
    AfterSegment(p, s, px, sx, star, mark, j);
    assert j != mark;
    assert p[star + 1..star + 1] == "" && s[mark + 1..mark + 1] == "";
  }

  lemma {:induction false} LoopComplete(p: Bytes, s: Bytes, px: int, sx: int, star: int, mark: int)
    requires forall i | 0 <= i < |s| :: s[i] != '*'
    requires LoopState(p, s, px, sx, star, mark)
    requires MatchLeft(p, s, px, sx, star, mark) && Segment(p, s, px, sx, star, mark)
    ensures Loop(p, s, px, sx, star, mark)
    decreases |p| - star, |s| - mark, |p| - px
  {
    if sx >= |s| {
      CompleteAtEnd(p, s, px, sx, star, mark);
    } else if px < |p| && (p[px] == '?' || p[px] == s[sx]) {
      CompleteAfterFit(p, s, px, sx, star, mark);
      LoopComplete(p, s, px + 1, sx + 1, star, mark);
    } else if px < |p| && p[px] == '*' {
      NewStar(p, s, px, sx, star, mark);
      assert p[px + 1..px + 1] == "" && s[sx..sx] == "";
      LoopComplete(p, s, px + 1, sx, px, sx);
    } else if star != -1 {
      CompleteAfterRetreat(p, s, px, sx, star, mark);
      LoopComplete(p, s, star + 1, mark + 1, star, mark + 1);
    }
  }

  /** The earliest placement of the segment leaves the new star every choice it needs. */
  lemma NewStar(p: Bytes, s: Bytes, px: int, sx: int, star: int, mark: int)
    requires LoopState(p, s, px, sx, star, mark) && px < |p| && p[px] == '*'
    requires MatchLeft(p, s, px, sx, star, mark) && Segment(p, s, px, sx, star, mark)
    ensures exists j :: sx <= j <= |s| && Matches(p[px + 1..], s[j..])
  {
    var at := sx;
    if star != -1 {
      var j :| mark <= j <= |s| && Matches(p[star + 1..], s[j..]);
      AfterSegment(p, s, px, sx, star, mark, j);
      at := j + (sx - mark);
    }
    assert p[px..][1..] == p[px + 1..];
    var k :| 0 <= k <= |s[at..]| && Matches(p[px + 1..], s[at..][k..]);
    assert s[at..][k..] == s[at + k..];
  }

  /** On a subject without `*` the loop decides exactly the declarative meaning. */
  lemma {:induction false} Complete(p: Bytes, s: Bytes)
    requires '*' !in s
    ensures Accepts(p, s) <==> Matches(p, s)
  {
    assert p[0..] == p && s[0..] == s;
    if Matches(p, s) { LoopComplete(p, s, 0, 0, -1, 0); }
    if Accepts(p, s) { Sound(p, s); }
  }

  // ---------------------------------------------------------------- the exact condition

  function Repeat(c: char, n: nat): (r: Bytes)
    ensures |r| == n && forall i | 0 <= i < n :: r[i] == c
  {
    if n == 0 then "" else [c] + Repeat(c, n - 1)
  }

  lemma {:induction false} QuestionsMatch(s: Bytes)
    ensures Matches(Repeat('?', |s|), s)
  {
    if s != "" {
      QuestionsMatch(s[1..]);
      assert Repeat('?', |s|)[1..] == Repeat('?', |s| - 1);
    }
  }

  lemma {:induction false} LiteralPrefixMatches(u: Bytes, p: Bytes, s: Bytes)
    requires '*' !in u && Matches(p, s)
    ensures Matches(u + p, u + s)
  {
    if u == "" {
      assert u + p == p && u + s == s;
    } else {
      LiteralPrefixMatches(u[1..], p, s);
      assert (u + p)[1..] == u[1..] + p && (u + s)[1..] == u[1..] + s;
    }
  }

  /** The loop walks through a literal prefix without touching its stars. */
  lemma {:induction false} WalkLiteral(p: Bytes, s: Bytes, i: nat, n: nat)
    requires i <= n <= |p| && n <= |s|
    requires forall k | i <= k < n :: p[k] == s[k]
    ensures Loop(p, s, i, i, -1, 0) == Loop(p, s, n, n, -1, 0)
    decreases n - i
  {
    if i < n { WalkLiteral(p, s, i + 1, n); }
  }

  /** With no star to fall back to, a tail of `?` longer than the subject fails. */
  lemma {:induction false} QuestionsRunOut(p: Bytes, s: Bytes, px: nat, sx: nat)
    requires px < |p| && sx <= |s| && |p| - px > |s| - sx
    requires forall k | px <= k < |p| :: p[k] == '?'
    ensures !Loop(p, s, px, sx, -1, 0)
    decreases |s| - sx
  {
    if sx < |s| {
      QuestionsRunOut(p, s, px + 1, sx + 1);
    } else {
      assert p[px..][0] == '?';
    }
  }

  /** A pattern that matches a subject holding `*` at i but that the loop rejects. */
  function Rejected(s: Bytes, i: nat): Bytes
    requires i < |s|
  {
    s[..i] + ("*" + Repeat('?', |s| - i))
  }

  lemma {:induction false} RejectedMatches(s: Bytes, i: nat)
    requires i < |s| && '*' !in s[..i]
    ensures Matches(Rejected(s, i), s)
  {
    var tail := Repeat('?', |s| - i);
    QuestionsMatch(s[i..]);
    assert ("*" + tail)[1..] == tail;
    StarTakesNothing("*" + tail, s[i..]);
    LiteralPrefixMatches(s[..i], "*" + tail, s[i..]);
    assert s[..i] + s[i..] == s;
  }

  lemma RejectedIsRejected(s: Bytes, i: nat)
    requires i < |s| && s[i] == '*'
    ensures !Accepts(Rejected(s, i), s)
  {
    var p := Rejected(s, i);
    WalkLiteral(p, s, 0, i);
    assert p[i] == '*' && forall k | i + 1 <= k < |p| :: p[k] == '?';
    QuestionsRunOut(p, s, i + 1, i + 1);
  }

  lemma {:induction false} StarInSubjectFails(s: Bytes, i: nat)
    requires i < |s| && s[i] == '*' && '*' !in s[..i]
    ensures Matches(Rejected(s, i), s) && !Accepts(Rejected(s, i), s)
  {
    RejectedMatches(s, i);
    RejectedIsRejected(s, i);
  }

  lemma FirstStar(s: Bytes) returns (i: nat)
    requires '*' in s
    ensures i < |s| && s[i] == '*' && '*' !in s[..i]
  {
    i := 0;
    while s[i] != '*'
      invariant i < |s| && '*' !in s[..i] && '*' in s[i..]
      decreases |s| - i
    {
      assert s[i..] == [s[i]] + s[i + 1..];
      assert s[..i + 1] == s[..i] + [s[i]];
      i := i + 1;
    }
  }

  /** The loop decides the declarative meaning of every pattern on a subject
      if and only if that subject holds no `*` byte. */
  lemma {:induction false} DecidesExactlyStarFreeSubjects(s: Bytes)
    ensures (forall p: Bytes :: Accepts(p, s) <==> Matches(p, s)) <==> '*' !in s
  {
    if '*' in s {
      var i := FirstStar(s);
      StarInSubjectFails(s, i);
      assert Matches(Rejected(s, i), s);
    } else {
      forall p: Bytes ensures Accepts(p, s) <==> Matches(p, s) { Complete(p, s); }
    }
  }
}
