/** The record of agent runs: one row per execution, pruned per agent (backend/app/agents.py). */
module Runs {
  import opened Wrappers
  import opened Text
  import opened Sets

  // ------------------------------------------------------------ the error text

  /** The first line of a non-empty string. */
  function FirstLine(s: string): string {
    if s == "" || IsLineBreak(s[0]) then "" else [s[0]] + FirstLine(s[1..])
  }

  function Truncate(s: string, n: nat): string { if |s| <= n then s else s[..n] }

  /** The first line of the exception's message, or the name of its type if there is no message, cut short. */
  function ErrorText(message: string, typeName: string): string {
    var stripped := Strip(message);
    Truncate(if stripped == "" then typeName else FirstLine(stripped), 300)
  }

  /** A failed run always says something, so a crash is never taken for success for want of a
      message; and what it says is one line of at most 300 characters. */
  lemma ErrorIsNeverEmpty(message: string, typeName: string)
    requires typeName != ""
    ensures 0 < |ErrorText(message, typeName)| <= 300
    ensures Strip(message) != "" ==> forall c :: c in ErrorText(message, typeName) ==> !IsLineBreak(c)
  {
    StripLeftStart(message);
    StripRightStart(StripLeft(message));
    FirstLineHasNoBreak(Strip(message));
  }

  /** `line` is where `s` begins, up to its first line break or its end. */
  ghost predicate IsFirstLine(line: string, s: string) {
    && line <= s && (forall c :: c in line ==> !IsLineBreak(c))
    && (line == s || IsLineBreak(s[|line|]))
  }

  lemma {:induction false} FirstLineIs(s: string)
    ensures IsFirstLine(FirstLine(s), s)
  {
    hide IsLineBreak;
    if s != "" && !IsLineBreak(s[0]) {
      FirstLineIs(s[1..]);
      assert s == [s[0]] + s[1..];
    }
  }

  /** What the text is: the first line of the stripped message, or the type's name when there is no
      message, and if that is longer than 300 characters its first 300. */
  lemma ErrorTextIs(message: string, typeName: string)
    ensures exists line :: (if Strip(message) == "" then line == typeName else IsFirstLine(line, Strip(message)))
                           && ErrorText(message, typeName) <= line
                           && |ErrorText(message, typeName)| == (if |line| < 300 then |line| else 300)
  {
    FirstLineIs(Strip(message));
    var line := if Strip(message) == "" then typeName else FirstLine(Strip(message));
    assert ErrorText(message, typeName) <= line;
  }

  lemma {:induction false} FirstLineHasNoBreak(s: string)
    ensures forall c :: c in FirstLine(s) ==> !IsLineBreak(c)
  {
    if s != "" && !IsLineBreak(s[0]) {
      FirstLineHasNoBreak(s[1..]);
    }
  }

  // ------------------------------------------------------------ the table

  datatype RunStatus = Succeeded | Failed

  datatype RunRow = RunRow(id: nat, agent: string, status: RunStatus, startedAt: int, finishedAt: int, error: Option<string>)

  /** How the agent's function ended. */
  datatype Outcome = Returned | Raised(message: string, typeName: string)

  ghost predicate UniqueIds(rows: set<RunRow>) {
    forall a, b :: a in rows && b in rows && a.id == b.id ==> a == b
  }

  function OfAgent(rows: set<RunRow>, name: string): set<RunRow> { set r | r in rows && r.agent == name }

  /** `kept` are `keep` newest of `all` by start time, or all of them when there are fewer. */
  ghost predicate AreNewest(kept: set<RunRow>, all: set<RunRow>, keep: nat) {
    && kept <= all
    && |kept| == (if |all| < keep then |all| else keep)
    && forall k, d :: k in kept && d in all - kept ==> d.startedAt <= k.startedAt
  }

  /** Keeping the newest of what was kept, plus one more, is keeping the newest of everything
      there ever was. */
  lemma NewestOfNewest(kept: set<RunRow>, all: set<RunRow>, r: RunRow, next: set<RunRow>, keep: nat)
    requires AreNewest(kept, all, keep) && r !in all && AreNewest(next, kept + {r}, keep)
    ensures AreNewest(next, all + {r}, keep)
  {
    assert |kept + {r}| == |kept| + 1 && |all + {r}| == |all| + 1;
    if |all| < keep {
      SubsetFull(kept, all);
    }
    forall k, d | k in next && d in (all + {r}) - next
      ensures d.startedAt <= k.startedAt
    {
      if d !in kept + {r} {
        if k == r {
          // `r` took the place of some kept row that was no older than `d`.
          var x := Displaced(kept, next, r, keep);
          assert d.startedAt <= x.startedAt <= r.startedAt;
        }
      }
    }
  }

  lemma Displaced(kept: set<RunRow>, next: set<RunRow>, r: RunRow, keep: nat) returns (x: RunRow)
    requires r !in kept && r in next && next <= kept + {r} && |next| <= |kept|
    ensures x in kept && x !in next
  {
    if kept <= next {
      SubsetSize(kept + {r}, next);
    }
    x :| x in kept && x !in next;
  }

  predicate WellRecorded(r: RunRow) {
    (r.status == Failed <==> r.error.Some?) && (r.error.Some? ==> r.error.value != "")
  }

  ghost predicate HistoryOk(history: set<RunRow>, nextId: nat) {
    && UniqueIds(history)
    && forall r :: r in history ==> r.id < nextId && WellRecorded(r)
  }

  lemma HistoryGrows(history: set<RunRow>, nextId: nat, run: RunRow)
    requires HistoryOk(history, nextId) && run.id == nextId && WellRecorded(run)
    ensures run !in history && HistoryOk(history + {run}, nextId + 1)
  {
  }

  class RunTable {
    var rows: set<RunRow>
    var nextId: nat
    // Every run ever recorded, for stating what the pruned table still holds.
    ghost var history: set<RunRow>

    ghost predicate Valid(keep: nat)
      reads this
    {
      && HistoryOk(history, nextId)
      && forall name :: AreNewest(OfAgent(rows, name), OfAgent(history, name), keep)
    }

    constructor ()
      ensures rows == {} && history == {} && nextId == 0
    {
      rows, nextId, history := {}, 0, {};
    }

    /** Add the row of one execution, failed or not, and let the agent's oldest rows go. */
    method Execute(name: string, outcome: Outcome, started: int, finished: int, keep: nat) returns (run: RunRow)
      requires Valid(keep) && (outcome.Raised? ==> outcome.typeName != "")
      modifies this
      ensures Valid(keep)
      ensures run.agent == name && run.startedAt == started && run.finishedAt == finished && run.id == old(nextId)
      ensures run.status == Failed <==> outcome.Raised?
      ensures outcome.Raised? ==> run.error == Some(ErrorText(outcome.message, outcome.typeName))
      ensures history == old(history) + {run} && run !in old(history)
      ensures AreNewest(OfAgent(rows, name), OfAgent(old(rows), name) + {run}, keep)
      ensures forall other :: other != name ==> OfAgent(rows, other) == OfAgent(old(rows), other)
    {
      hide AreNewest, OfAgent, ErrorText;
      var error: Option<string> := None;
      if outcome.Raised? {
        ErrorIsNeverEmpty(outcome.message, outcome.typeName);
        error := Some(ErrorText(outcome.message, outcome.typeName));
      }
      var failed := error.Some? && error.value != "";
      run := RunRow(nextId, name, if failed then Failed else Succeeded, started, finished, error);
      HistoryGrows(history, nextId, run);
      hide HistoryOk;
      rows := rows + {run};
      nextId := nextId + 1;
      history := history + {run};
      Prune(name, keep);
      OneRunRecorded(old(rows), old(history), run, rows, keep);
    }

    /** Keep only the newest runs of this agent. */
    method Prune(name: string, keep: nat)
      modifies this`rows
      ensures AreNewest(OfAgent(rows, name), OfAgent(old(rows), name), keep)
      ensures rows == (old(rows) - OfAgent(old(rows), name)) + OfAgent(rows, name)
    {
      var mine := OfAgent(rows, name);
      var kept := Newest(mine, keep);
      rows := set r | r in rows && (r.agent != name || r in kept);
      assert OfAgent(rows, name) == kept;
    }
  }

  /** The newest by start time, ties in any order. */
  method Newest(all: set<RunRow>, keep: nat) returns (kept: set<RunRow>)
    ensures AreNewest(kept, all, keep)
  {
    kept := {};
    var rest := all;
    while |kept| < keep && rest != {}
      invariant kept + rest == all && kept !! rest
      invariant |kept| <= keep
      invariant forall k, d :: k in kept && d in rest ==> d.startedAt <= k.startedAt
      decreases |rest|
    {
      var r := Latest(rest);
      kept, rest := kept + {r}, rest - {r};
    }
    assert all - kept == rest;
    assert |kept + rest| == |kept| + |rest|;
  }

  method Latest(rows: set<RunRow>) returns (r: RunRow)
    requires rows != {}
    ensures r in rows && forall x :: x in rows ==> x.startedAt <= r.startedAt
  {
    r :| r in rows;
    var rest := rows - {r};
    while rest != {}
      invariant rest <= rows && r in rows
      invariant forall x :: x in rows - rest ==> x.startedAt <= r.startedAt
      decreases |rest|
    {
      var x :| x in rest;
      if x.startedAt > r.startedAt {
        r := x;
      }
      rest := rest - {x};
    }
  }

  /** The run-level claim, one execution at a time: each agent's rows stay the newest of its
      whole history, and an execution touches no other agent's rows. */
  lemma OneRunRecorded(before: set<RunRow>, history: set<RunRow>, run: RunRow, after: set<RunRow>, keep: nat)
    requires forall name :: AreNewest(OfAgent(before, name), OfAgent(history, name), keep)
    requires run !in history
    requires AreNewest(OfAgent(after, run.agent), OfAgent(before + {run}, run.agent), keep)
    requires after == ((before + {run}) - OfAgent(before + {run}, run.agent)) + OfAgent(after, run.agent)
    ensures forall name :: AreNewest(OfAgent(after, name), OfAgent(history + {run}, name), keep)
    ensures AreNewest(OfAgent(after, run.agent), OfAgent(before, run.agent) + {run}, keep)
    ensures forall other :: other != run.agent ==> OfAgent(after, other) == OfAgent(before, other)
  {
    hide AreNewest, OfAgent;
    var name := run.agent;
    AddOne(before, run, name);
    AddOne(history, run, name);
    NewestOfNewest(OfAgent(before, name), OfAgent(history, name), run, OfAgent(after, name), keep);
    forall other | other != name
      ensures OfAgent(after, other) == OfAgent(before, other) && OfAgent(history + {run}, other) == OfAgent(history, other)
    {
      AddOne(history, run, other);
      AddOne(before, run, other);
      OthersUntouched(before + {run}, after, name, other);
    }
  }

  lemma AddOne(rows: set<RunRow>, run: RunRow, name: string)
    ensures OfAgent(rows + {run}, name) == OfAgent(rows, name) + (if run.agent == name then {run} else {})
    ensures OfAgent(rows, name) <= rows
  {
  }

  lemma OthersUntouched(before: set<RunRow>, after: set<RunRow>, name: string, other: string)
    requires other != name && after == (before - OfAgent(before, name)) + OfAgent(after, name)
    ensures OfAgent(after, other) == OfAgent(before, other)
  {
    forall r
      ensures r in OfAgent(after, other) <==> r in OfAgent(before, other)
    {
    }
  }
}
