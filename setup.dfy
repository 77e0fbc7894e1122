/**
 * The database setup script (dbsetup.py): the SQL script is cut into
 * commands at `;`, database-level commands are dropped, and the rest are
 * executed one by one, a failing command being reported and skipped.
 */
module DbSetup {
  import opened Text

  /**
   * The script's own database-level commands, recognised case-insensitively
   * by their upper-cased prefix; the setup code issues its own instead.
   */
  predicate Excluded(cmd: string) {
    || UpperStartsWith(cmd, "DROP DATABASE")
    || UpperStartsWith(cmd, "CREATE DATABASE")
    || UpperStartsWith(cmd, "USE")
  }

  /** The comprehension's filter, applied to an already stripped piece. */
  predicate Kept(cmd: string) {
    cmd != "" && !Excluded(cmd)
  }

  /** The comprehension over the pieces of a script, in order. */
  function Commands(pieces: seq<string>): (cmds: seq<string>)
    ensures |cmds| <= |pieces|
  {
    if pieces == [] then []
    else
      var head := Strip(pieces[0]);
      if Kept(head) then [head] + Commands(pieces[1..]) else Commands(pieces[1..])
  }

  /** Every command is a stripped piece (soundness of the comprehension). */
  lemma {:induction false} CommandFromPiece(pieces: seq<string>, c: string) returns (k: nat)
    requires c in Commands(pieces)
    ensures k < |pieces| && c == Strip(pieces[k]) && Kept(c)
    decreases |pieces|
  {
    if Kept(Strip(pieces[0])) && c == Strip(pieces[0]) {
      k := 0;
    } else {
      var j := CommandFromPiece(pieces[1..], c);
      k := j + 1;
    }
  }

  /** Every kept stripped piece is a command (completeness of the comprehension). */
  lemma {:induction false} PieceIsCommand(pieces: seq<string>, k: nat)
    requires k < |pieces| && Kept(Strip(pieces[k]))
    ensures Strip(pieces[k]) in Commands(pieces)
    decreases |pieces|
  {
    var head := Strip(pieces[0]);
    var rest := Commands(pieces[1..]);
    if k == 0 {
      assert Commands(pieces) == [head] + rest;
    } else {
      var c := Strip(pieces[k]);
      assert pieces[1..][k - 1] == pieces[k];
      PieceIsCommand(pieces[1..], k - 1);
      assert c in rest;
      assert Commands(pieces) == [head] + rest || Commands(pieces) == rest;
    }
  }

  /** The commands of a SQL script (dbsetup.py, line 40). */
  function SqlCommands(script: string): (cmds: seq<string>)
    ensures forall c :: c in cmds ==>
              && c != ""
              && !IsSpace(c[0]) && !IsSpace(c[|c| - 1])
              && ';' !in c
              && !Excluded(c)
    ensures forall k :: 0 <= k < |Split(script, ';')| && Kept(Strip(Split(script, ';')[k])) ==>
              Strip(Split(script, ';')[k]) in cmds
  {
    var pieces := Split(script, ';');
    var cmds := Commands(pieces);
    forall c | c in cmds ensures Kept(c) && ';' !in c && !IsSpace(c[0]) && !IsSpace(c[|c| - 1]) {
      CommandShape(script, c);
    }
    forall k | 0 <= k < |pieces| && Kept(Strip(pieces[k])) ensures Strip(pieces[k]) in cmds {
      PieceIsCommand(pieces, k);
    }
    cmds
  }

  /** A command of a script is a kept, stripped piece, so it holds no `;`. */
  lemma CommandShape(script: string, c: string)
    requires c in Commands(Split(script, ';'))
    ensures Kept(c) && ';' !in c && !IsSpace(c[0]) && !IsSpace(c[|c| - 1])
  {
    var pieces := Split(script, ';');
    var k := CommandFromPiece(pieces, c);
    StripKeepsCharacters(pieces[k], ';');
  }

  /** Stripping only removes characters. */
  lemma StripKeepsCharacters(p: string, x: char)
    requires x !in p
    ensures x !in Strip(p)
  {
    var r := Strip(p);
    var i := StripIsInfix(p);
    forall j | 0 <= j < |r| ensures r[j] != x {
      assert r[j] == p[i + j];
    }
  }

  lemma {:induction false} CommandsAppend(xs: seq<string>, ys: seq<string>)
    ensures Commands(xs + ys) == Commands(xs) + Commands(ys)
    decreases |xs|
  {
    if xs != [] {
      assert (xs + ys)[1..] == xs[1..] + ys;
      CommandsAppend(xs[1..], ys);
    } else {
      assert xs + ys == ys;
    }
  }

  /**
   * The commands keep the script's order: the commands of two scripts joined
   * at a `;` are those of the first followed by those of the second.
   */
  lemma SqlCommandsAppend(a: string, b: string)
    ensures SqlCommands(a + ";" + b) == SqlCommands(a) + SqlCommands(b)
  {
    SplitAppend(a, b, ';');
    CommandsAppend(Split(a, ';'), Split(b, ';'));
  }

  /** A script with no `;` is one command, kept unless blank or excluded. */
  lemma SqlCommandsOnePiece(s: string)
    requires ';' !in s
    ensures SqlCommands(s) == if Kept(Strip(s)) then [Strip(s)] else []
  {
    SplitNoSeparator(s, ';');
  }

  /** What happened to one command, and the final commit. */
  datatype Event = Executed(command: string) | Reported(command: string) | Committed

  /**
   * The execution loop of dbsetup.py, lines 42-49: each command is executed
   * once, in order; one whose execution raises a database error (its
   * position is in `failing`) is reported and skipped, the loop goes on with
   * the next, and a single commit follows the last command.
   */
  method RunCommands(commands: seq<string>, failing: set<nat>) returns (log: seq<Event>)
    ensures |log| == |commands| + 1 && log[|commands|] == Committed
    ensures forall i :: 0 <= i < |commands| ==>
              log[i] == if i in failing then Reported(commands[i]) else Executed(commands[i])
  {
    log := [];
    var i := 0;
    while i < |commands|
      invariant 0 <= i <= |commands| && |log| == i
      invariant forall j :: 0 <= j < i ==>
                  log[j] == if j in failing then Reported(commands[j]) else Executed(commands[j])
    {
      if i in failing {
        log := log + [Reported(commands[i])];
      } else {
        log := log + [Executed(commands[i])];
      }
      i := i + 1;
    }
    log := log + [Committed];
  }

  /**
   * `setup_database` after the database has been (re)created: the script's
   * commands are run; with no connection nothing is executed or committed.
   */
  method SetupDatabase(script: string, connected: bool, failing: set<nat>) returns (log: seq<Event>)
    ensures !connected ==> log == []
    ensures connected ==> |log| == |SqlCommands(script)| + 1 && log[|log| - 1] == Committed
    ensures connected ==> forall i :: 0 <= i < |log| - 1 ==>
              log[i] == if i in failing then Reported(SqlCommands(script)[i])
                        else Executed(SqlCommands(script)[i])
  {
    if !connected {
      return [];
    }
    log := RunCommands(SqlCommands(script), failing);
  }
}
