/** The retry loop around one transaction, and the transaction object that ends only once.

    Between the attempts other clients may commit: what they write, and how the server answers each
    attempt, is a parameter.
 */
module Retry {
  import opened T = Transactions

  /** How the server answers one attempt. */
  datatype Fate =
    | NotBegun                                            // cancelled during the backoff, or BeginTx fails
    | LockFails(retryable: bool)
    | StatementFails(reply: string, errorReply: bool)     // the body's reply carries the error
    | CommitFails(retryable: bool)                        // nothing applied
    | CommitUnknown                                       // applied, but the client gets an error
    | CommitSucceeds

  /** What the others commit before this attempt holds its locks, and what happens to it then. */
  datatype Attempt = Attempt(others: Overlay, fate: Fate)

  /** What a body replies over the database it finds, whether that is an error reply, and its writes. */
  datatype Result = Result(reply: string, errorReply: bool, writes: Overlay)

  datatype Answer = Answer(text: string) | Failed
  datatype Ended = Ok | Refused(retryable: bool) | AlreadyCompleted

  /** Every key written holds what was written, and every other key what it held. */
  ghost predicate Wrote(before: Database, writes: Overlay, after: Database) {
    && (forall k | k in writes :: Lookup(after, k) == writes[k])
    && (forall k | k !in writes :: Lookup(after, k) == Lookup(before, k))
  }

  class Backend {
    var rows: Database

    constructor (rows: Database)
      ensures this.rows == rows
    {
      this.rows := rows;
    }
  }

  /** A transaction: whatever is asked of it and how often, it ends once. */
  class TxStore {
    const backend: Backend
    var pending: Overlay
    var aborted: bool     // a statement failed; the server will only roll back
    var done: bool

    constructor (backend: Backend)
      ensures this.backend == backend && pending == map[] && !aborted && !done
    {
      this.backend, pending, aborted, done := backend, map[], false, false;
    }

    method Commit(fate: Fate) returns (r: Ended)
      modifies this`done, backend
      ensures done
      ensures if !old(done) && !aborted && (fate.CommitSucceeds? || fate.CommitUnknown?)
              then Wrote(old(backend.rows), pending, backend.rows) else backend.rows == old(backend.rows)
      ensures r == if old(done) then AlreadyCompleted
                   else if !aborted && fate.CommitSucceeds? then Ok
                   else Refused(!aborted && fate == CommitFails(true))
    {
      if done { return AlreadyCompleted; }
      done := true;
      if aborted { return Refused(false); }
      match fate
      case CommitSucceeds => backend.rows := Merge(backend.rows, pending); return Ok;
      case CommitUnknown => backend.rows := Merge(backend.rows, pending); return Refused(false);
      case CommitFails(again) => return Refused(again);
      case _ => return Refused(false);
    }

    method Rollback()
      modifies this
      ensures done && backend.rows == old(backend.rows)
      ensures pending == if old(done) then old(pending) else map[]
    {
      if done { return; }
      done := true;
      pending := map[];
    }
  }

  /** The database as the others leave it. */
  function Others(db: Database, attempts: seq<Attempt>): Database {
    if attempts == [] then db
    else Merge(Others(db, attempts[..|attempts| - 1]), attempts[|attempts| - 1].others)
  }

  /** The database attempt i finds once it holds its locks. */
  function Found(db: Database, attempts: seq<Attempt>, i: nat): Database
    requires i < |attempts|
  {
    Others(db, attempts[..i + 1])
  }

  /** Attempt i reports a deadlock or serialization failure. */
  predicate Conflict(body: Database -> Result, retryable: string -> bool, db: Database, fate: Fate) {
    match fate
    case NotBegun => false
    case LockFails(again) => again
    case StatementFails(reply, _) => retryable(reply)
    case CommitFails(again) => again || retryable(body(db).reply)
    case _ => retryable(body(db).reply)
  }

  /** The attempt's commit is applied. */
  predicate Applied(body: Database -> Result, retryable: string -> bool, db: Database, fate: Fate) {
    (fate.CommitSucceeds? || fate.CommitUnknown?) && !retryable(body(db).reply)
  }

  /** What the body of an attempt replies. */
  function Replied(body: Database -> Result, db: Database, fate: Fate): Result {
    if fate.StatementFails? then Result(fate.reply, fate.errorReply, map[]) else body(db)
  }

  /** One attempt over the database it finds; `again` when it reports a conflict. */
  method Try(backend: Backend, body: Database -> Result, retryable: string -> bool, fate: Fate)
    returns (answer: Answer, again: bool)
    modifies backend
    ensures again <==> Conflict(body, retryable, old(backend.rows), fate)
    ensures if Applied(body, retryable, old(backend.rows), fate)
            then Wrote(old(backend.rows), body(old(backend.rows)).writes, backend.rows)
            else backend.rows == old(backend.rows)
    ensures TruthfulAnswer(body, retryable, old(backend.rows), fate, answer)
  {
    if fate.NotBegun? { return Failed, false; }
    var tx := new TxStore(backend);
    if fate.LockFails? {
      tx.Rollback();
      return Failed, fate.retryable;
    }
    var result;
    if fate.StatementFails? {
      tx.aborted := true;
      result := Result(fate.reply, fate.errorReply, map[]);
    } else {
      result := body(backend.rows);
      tx.pending := result.writes;
    }
    if retryable(result.reply) {
      tx.Rollback();
      return Answer(result.reply), true;
    }
    var r := tx.Commit(fate);
    if !r.Ok? {
      tx.Rollback();
      return if result.errorReply then Answer(result.reply) else Failed, r == Refused(true);
    }
    return Answer(result.reply), false;
  }

  /** An answer is the body's reply; a reply that is no error means the writes are there; and there is
      none exactly when the body did not run, or the commit was not confirmed and the reply is no error. */
  predicate TruthfulAnswer(body: Database -> Result, retryable: string -> bool,
                           db: Database, fate: Fate, answer: Answer) {
    var result := Replied(body, db, fate);
    && (answer.Answer? ==>
          && answer.text == result.reply
          && (Applied(body, retryable, db, fate) || result.errorReply || retryable(result.reply)))
    && (answer.Failed? <==> || fate.NotBegun? || fate.LockFails?
                            || (!fate.CommitSucceeds? && !result.errorReply && !retryable(result.reply)))
  }

  /** The first n attempts all report a conflict. */
  ghost predicate AllConflict(body: Database -> Result, retryable: string -> bool,
                              db: Database, attempts: seq<Attempt>, n: nat)
    requires n <= |attempts|
  {
    forall i | 0 <= i < n :: Conflict(body, retryable, Found(db, attempts, i), attempts[i].fate)
  }

  lemma {:induction false} FoundStep(db: Database, attempts: seq<Attempt>, i: nat)
    requires i < |attempts|
    ensures Found(db, attempts, i) == Merge(Others(db, attempts[..i]), attempts[i].others)
  {
    assert attempts[..i + 1][..i] == attempts[..i];
  }

  /** What attempt i leaves when it is the last: its own writes over the database it found, or only
      that database, and an answer that fits. */
  ghost predicate EndsWith(body: Database -> Result, retryable: string -> bool, db: Database, fate: Fate,
                     rows: Database, answer: Answer) {
    && (if Applied(body, retryable, db, fate) then Wrote(db, body(db).writes, rows) else rows == db)
    && TruthfulAnswer(body, retryable, db, fate, answer)
  }

  /** The first n attempts meet a deadlock or serialization failure while locking or committing, and the
      next one meets nothing. */
  ghost predicate SucceedsAt(body: Database -> Result, retryable: string -> bool,
                             db: Database, attempts: seq<Attempt>, n: nat)
  {
    && n < |attempts|
    && (forall i | 0 <= i < n :: attempts[i].fate == LockFails(true) || attempts[i].fate == CommitFails(true))
    && attempts[n].fate == CommitSucceeds && !retryable(body(Found(db, attempts, n)).reply)
  }

  lemma StopsAtSuccess(body: Database -> Result, retryable: string -> bool,
                       db: Database, attempts: seq<Attempt>, tries: nat)
    requires 1 <= tries <= |attempts| && AllConflict(body, retryable, db, attempts, tries - 1)
    requires tries < |attempts| ==> !AllConflict(body, retryable, db, attempts, tries)
    ensures forall n: nat | SucceedsAt(body, retryable, db, attempts, n) :: tries == n + 1
  {
    forall n: nat | SucceedsAt(body, retryable, db, attempts, n) ensures tries == n + 1 {
      assert !Conflict(body, retryable, Found(db, attempts, n), attempts[n].fate);
      assert forall i | 0 <= i < n :: Conflict(body, retryable, Found(db, attempts, i), attempts[i].fate);
    }
  }

  /** An answer that is no error is the body's, and every write of the body can be looked up; a commit the
      server confirmed is answered. */
  ghost predicate SuccessIsThere(body: Database -> Result, retryable: string -> bool, db: Database, fate: Fate,
                                 rows: Database, answer: Answer) {
    var result := Replied(body, db, fate);
    && (answer.Answer? && !result.errorReply && !retryable(result.reply) ==>
          answer.text == body(db).reply && forall k | k in body(db).writes :: Lookup(rows, k) == body(db).writes[k])
    && (fate.CommitSucceeds? ==> answer == Answer(body(db).reply))
  }

  lemma EndIsTrue(body: Database -> Result, retryable: string -> bool, db: Database, fate: Fate,
                  rows: Database, answer: Answer)
    requires EndsWith(body, retryable, db, fate, rows, answer)
    ensures SuccessIsThere(body, retryable, db, fate, rows, answer)
  {
  }

  lemma ConflictsOneMore(body: Database -> Result, retryable: string -> bool,
                         db: Database, attempts: seq<Attempt>, n: nat)
    requires n < |attempts|
    ensures AllConflict(body, retryable, db, attempts, n + 1)
       <==> && AllConflict(body, retryable, db, attempts, n)
            && Conflict(body, retryable, Found(db, attempts, n), attempts[n].fate)
  {
  }

  /** What the others commit before attempt i, and then the attempt. */
  method Turn(backend: Backend, body: Database -> Result, retryable: string -> bool,
              ghost db: Database, attempts: seq<Attempt>, i: nat)
    returns (answer: Answer, again: bool)
    requires i < |attempts| && backend.rows == Others(db, attempts[..i])
    modifies backend
    ensures again <==> Conflict(body, retryable, Found(db, attempts, i), attempts[i].fate)
    ensures EndsWith(body, retryable, Found(db, attempts, i), attempts[i].fate, backend.rows, answer)
    ensures SuccessIsThere(body, retryable, Found(db, attempts, i), attempts[i].fate, backend.rows, answer)
    ensures again ==> backend.rows == Others(db, attempts[..i + 1])
  {
    ghost var found := Found(db, attempts, i);
    FoundStep(db, attempts, i);
    backend.rows := Merge(backend.rows, attempts[i].others);
    answer, again := Try(backend, body, retryable, attempts[i].fate);
    EndIsTrue(body, retryable, found, attempts[i].fate, backend.rows, answer);
    if again { ConflictAppliesNothing(body, retryable, found, attempts[i].fate); }
  }

  /** The loop tries again after a conflict, at most three times; the attempt it stops at is the only
      one whose writes can be in the database.  An answer that is no error means they are there. */
  method RunTx(backend: Backend, body: Database -> Result, retryable: string -> bool, attempts: seq<Attempt>)
    returns (answer: Answer, tries: nat)
    requires |attempts| == 4
    modifies backend
    ensures 1 <= tries <= 4
    ensures AllConflict(body, retryable, old(backend.rows), attempts, tries - 1)
    ensures tries < 4 ==> !AllConflict(body, retryable, old(backend.rows), attempts, tries)
    ensures forall n: nat | SucceedsAt(body, retryable, old(backend.rows), attempts, n) :: tries == n + 1
    ensures var found := Found(old(backend.rows), attempts, tries - 1);
            SuccessIsThere(body, retryable, found, attempts[tries - 1].fate, backend.rows, answer)
    ensures var found := Found(old(backend.rows), attempts, tries - 1);
            EndsWith(body, retryable, found, attempts[tries - 1].fate, backend.rows, answer)
  {
    var attempt, last := 0, MAX_EXEC_RETRIES;
    while true
      invariant 0 <= attempt <= last && backend.rows == Others(old(backend.rows), attempts[..attempt])
      invariant AllConflict(body, retryable, old(backend.rows), attempts, attempt)
      decreases last - attempt
    {
      ConflictsOneMore(body, retryable, old(backend.rows), attempts, attempt);
      var again;
      answer, again := Turn(backend, body, retryable, old(backend.rows), attempts, attempt);
      if !again || attempt == last {
        StopsAtSuccess(body, retryable, old(backend.rows), attempts, attempt + 1);
        return answer, attempt + 1;
      }
      attempt := attempt + 1;
    }
  }

  /** What is retried has left no trace. */
  lemma ConflictAppliesNothing(body: Database -> Result, retryable: string -> bool, db: Database, fate: Fate)
    requires Conflict(body, retryable, db, fate)
    ensures !Applied(body, retryable, db, fate)
  {
  }
}
