/**
 * The start-up migration: the migration file's text is cut at every `;`,
 * each piece is trimmed, empty pieces and pieces opening with a `--`
 * comment are dropped, and the rest run one after the other. A failure stops
 * the run and is reported, never raised: an "already exists" or "duplicate"
 * error means the migration was applied before.
 */
module Migrate {
  import opened Wrappers
  import opened JsText

  /** What the filter keeps: a non-empty piece that does not open with `--`. */
  predicate Kept(piece: string) {
    |piece| > 0 && !StartsWith(piece, "--")
  }

  /** The trimmed pieces that the filter keeps, in order. */
  function Cleaned(pieces: seq<string>): (r: seq<string>)
    ensures |r| <= |pieces|
  {
    if pieces == [] then [] else KeptPiece(pieces[0]) + Cleaned(pieces[1..])
  }

  /** Every piece the filter lets through is trimmed, non-empty and not a comment. */
  lemma {:induction false} CleanedIsClean(pieces: seq<string>)
    ensures forall i :: 0 <= i < |Cleaned(pieces)| ==> IsTrimmed(Cleaned(pieces)[i]) && Kept(Cleaned(pieces)[i])
  {
    if pieces != [] {
      CleanedIsClean(pieces[1..]);
      KeptPieceIsClean(pieces[0]);
      AllCleanAppend(KeptPiece(pieces[0]), Cleaned(pieces[1..]));
    }
  }

  /** Every piece of `pieces` is trimmed and kept. */
  predicate AllClean(pieces: seq<string>) {
    forall i :: 0 <= i < |pieces| ==> IsTrimmed(pieces[i]) && Kept(pieces[i])
  }

  /** What one piece contributes is clean. */
  lemma KeptPieceIsClean(piece: string)
    ensures AllClean(KeptPiece(piece))
  {
  }

  /** Joining two clean lists gives a clean list. */
  lemma AllCleanAppend(front: seq<string>, back: seq<string>)
    requires AllClean(front) && AllClean(back)
    ensures AllClean(front + back)
  {
    forall i | 0 <= i < |front + back| ensures IsTrimmed((front + back)[i]) && Kept((front + back)[i]) {
      if i >= |front| {
        assert (front + back)[i] == back[i - |front|];
      }
    }
  }

  /** One piece after trimming: itself when the filter keeps it, nothing otherwise. */
  function KeptPiece(piece: string): (r: seq<string>)
    ensures |r| <= 1
    ensures r == [Trim(piece)] <==> Kept(Trim(piece))
    ensures r == [] <==> !Kept(Trim(piece))
  {
    if Kept(Trim(piece)) then [Trim(piece)] else []
  }

  /** Trimming only removes characters, so pieces without `;` give statements without `;`. */
  lemma {:induction false} CleanedKeepsOut(pieces: seq<string>, c: char)
    requires forall i :: 0 <= i < |pieces| ==> c !in pieces[i]
    ensures forall i :: 0 <= i < |Cleaned(pieces)| ==> c !in Cleaned(pieces)[i]
  {
    if pieces != [] {
      assert c !in pieces[0];
      TrimKeepsCharacters(pieces[0]);
      assert c !in Trim(pieces[0]);
      assert forall i :: 0 <= i < |KeptPiece(pieces[0])| ==> c !in KeptPiece(pieces[0])[i];
      assert forall i :: 0 <= i < |pieces[1..]| ==> c !in pieces[1..][i] by {
        forall i | 0 <= i < |pieces[1..]| ensures c !in pieces[1..][i] {
          assert pieces[1..][i] == pieces[i + 1];
        }
      }
      CleanedKeepsOut(pieces[1..], c);
    }
  }

  /** The statements of a migration file. */
  function Statements(sql: string): (r: seq<string>)
    ensures |r| <= Count(sql, ';') + 1
  {
    Cleaned(Split(sql, ';'))
  }

  /** Every statement is trimmed, non-empty, not a comment, and holds no `;`. */
  lemma StatementsAreClean(sql: string)
    ensures forall i :: 0 <= i < |Statements(sql)| ==>
      && IsTrimmed(Statements(sql)[i]) && |Statements(sql)[i]| > 0
      && !StartsWith(Statements(sql)[i], "--") && ';' !in Statements(sql)[i]
  {
    CleanedIsClean(Split(sql, ';'));
    CleanedKeepsOut(Split(sql, ';'), ';');
  }

  lemma {:induction false} CleanedAppend(a: seq<string>, b: seq<string>)
    ensures Cleaned(a + b) == Cleaned(a) + Cleaned(b)
  {
    if a == [] {
      assert a + b == b;
    } else {
      var ab := a + b;
      assert ab[0] == a[0];
      assert ab[1..] == a[1..] + b;
      var k := KeptPiece(a[0]);
      assert Cleaned(ab) == k + Cleaned(a[1..] + b);
      CleanedAppend(a[1..], b);
      JoinRegroups(k, Cleaned(a[1..]), Cleaned(b));
    }
  }

  /** The statements of two texts joined by `;` are those of the first followed by those of the second. */
  lemma StatementsAppend(a: string, b: string)
    ensures Statements(a + [';'] + b) == Statements(a) + Statements(b)
  {
    SplitAppend(a, b, ';');
    CleanedAppend(Split(a, ';'), Split(b, ';'));
  }

  /** A text without `;` is one statement, its trimmed self, unless that is empty or opens with `--`. */
  lemma StatementsOfOnePiece(piece: string)
    requires ';' !in piece
    ensures Statements(piece) == if Kept(Trim(piece)) then [Trim(piece)] else []
  {
    SplitWithoutSeparator(piece, ';');
    assert Split(piece, ';')[1..] == [];
  }

  /** A piece opening with a comment is dropped whole, with whatever SQL follows on its later lines. */
  lemma CommentedPieceDropped(before: string, piece: string, after: string)
    requires ';' !in piece
    requires StartsWith(Trim(piece), "--")
    ensures Statements(before + [';'] + piece + [';'] + after) == Statements(before) + Statements(after)
  {
    var tail := piece + [';'] + after;
    JoinRegroups(before + [';'], piece + [';'], after);
    JoinRegroups(before + [';'], piece, [';']);
    StatementsAppend(piece, after);
    StatementsOfOnePiece(piece);
    assert Statements(tail) == Statements(after);
    StatementsAppend(before, tail);
  }

  /** How a run ends. */
  datatype Outcome =
    | NoPendingMigrations
    | Applied
    | AlreadyApplied
    | Failed(message: string)

  /** A failure whose message mentions "already exists" or "duplicate" means the migration is in place. */
  function Classify(message: string): (r: Outcome)
    ensures r == AlreadyApplied <==> Contains(message, "already exists") || Contains(message, "duplicate")
    ensures r != AlreadyApplied ==> r == Failed(message)
  {
    if Contains(message, "already exists") || Contains(message, "duplicate") then AlreadyApplied
    else Failed(message)
  }

  /**
   * The loop of `runMigrations`: each statement is sent in order until one
   * fails. Returns the statements sent and the failing statement's error.
   */
  method ExecuteInOrder(statements: seq<string>, execute: (nat, string) -> Option<string>)
    returns (executed: seq<string>, error: Option<string>)
    ensures |executed| <= |statements| && executed == statements[..|executed|]
    ensures SucceededBeforeLast(executed, execute)
    ensures error.None? <==> AllSucceed(statements, execute)
    ensures error.None? ==> executed == statements
    ensures error.Some? ==> |executed| > 0 && error == execute(|executed| - 1, executed[|executed| - 1])
  {
    executed := [];
    var i := 0;
    while i < |statements|
      invariant 0 <= i <= |statements|
      invariant executed == statements[..i]
      invariant forall j :: 0 <= j < i ==> execute(j, statements[j]).None?
    {
      var statement := statements[i];
      executed := executed + [statement];
      error := execute(i, statement);
      if error.Some? {
        assert executed == statements[..i + 1];
        return;
      }
      i := i + 1;
    }
    assert statements[..i] == statements;
    error := None;
  }

  /**
   * `runMigrations`: `file` is the migration file's text, `None` when it does
   * not exist; `execute(i, s)` is the database's answer to the `i`-th
   * statement `s`, `None` for success and `Some(message)` for an error.
   * Returns the statements sent, in order, and how the run ended; an error
   * ends the run and becomes its outcome.
   */
  method RunMigrations(file: Option<string>, execute: (nat, string) -> Option<string>)
    returns (executed: seq<string>, outcome: Outcome)
    ensures file.None? ==> executed == [] && outcome == NoPendingMigrations
    ensures file.Some? ==> |executed| <= |Statements(file.value)|
    ensures file.Some? ==> executed == Statements(file.value)[..|executed|]
    ensures SucceededBeforeLast(executed, execute)
    ensures file.Some? ==> (outcome == Applied <==> AllSucceed(Statements(file.value), execute))
    ensures outcome == Applied ==> file.Some? && executed == Statements(file.value)
    ensures file.Some? && outcome != Applied ==> LastFailedWith(executed, execute, outcome)
  {
    if file.None? {
      return [], NoPendingMigrations;
    }
    var statements := Statements(file.value);
    var error;
    executed, error := ExecuteInOrder(statements, execute);
    if error.Some? {
      outcome := Classify(error.value);
      assert outcome != Applied;
    } else {
      outcome := Applied;
    }
  }

  /** Every statement sent before the last one succeeded. */
  predicate SucceededBeforeLast(executed: seq<string>, execute: (nat, string) -> Option<string>) {
    forall i :: 0 <= i < |executed| - 1 ==> execute(i, executed[i]).None?
  }

  /** Every statement, sent at its position, succeeds. */
  predicate AllSucceed(statements: seq<string>, execute: (nat, string) -> Option<string>) {
    forall i :: 0 <= i < |statements| ==> execute(i, statements[i]).None?
  }

  /** The last statement sent failed, and the outcome is what its error message says. */
  predicate LastFailedWith(executed: seq<string>, execute: (nat, string) -> Option<string>, outcome: Outcome) {
    && |executed| > 0
    && var error := execute(|executed| - 1, executed[|executed| - 1]);
    && error.Some? && outcome == Classify(error.value)
  }
}
