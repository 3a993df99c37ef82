// The matching loops miss nothing.

module RegexMatches {
  import opened Wrappers
  import opened RegexLoops

  // The answers are the leftmost longest matches from each offset on, where `matches` says which
  // stretches of the subject the pattern matches, wherever the search begins.
  ghost predicate AnswersLeftmost(exec: Exec, matches: (int, int) -> bool, size: nat) {
    forall at: nat {:trigger exec(at)} :: at <= size ==>
      if exec(at).None? then forall i, j :: at <= i <= j <= size ==> !matches(i, j)
      else
        && exec(at).value != []
        && matches(at + exec(at).value[0].so, at + exec(at).value[0].eo)
        && forall i, j :: at <= i <= j <= size && matches(i, j) ==>
             var so, eo := at + exec(at).value[0].so, at + exec(at).value[0].eo;
             so < i || (so == i && j <= eo)
  }

  // A match lies in what was found, or starts with it.
  predicate IsCovered(founds: seq<Found>, k: nat, i: int) {
    k < |founds| && founds[k].spans != [] && (Begin(founds[k]) <= i < End(founds[k]) || i == Begin(founds[k]))
  }

  lemma AnswerAt(exec: Exec, matches: (int, int) -> bool, size: nat, at: nat, i: nat, j: nat)
    requires AnswersLeftmost(exec, matches, size) && at <= i <= j <= size && matches(i, j)
    ensures exec(at).Some? && exec(at).value != []
    ensures var so, eo := at + exec(at).value[0].so, at + exec(at).value[0].eo;
            so < i || (so == i && j <= eo)
  {
  }

  // The first match that is found, and where the search goes on.
  lemma FindsFirst(exec: Exec, size: nat, count: nat, offset: nat) returns (next: nat)
    requires ExecOk(exec, size, count) && offset <= size && exec(offset).Some?
    ensures var found, founds := Found(offset, exec(offset).value), Finds(exec, size, count, offset);
            && found.spans != [] && offset <= Begin(found) <= End(found) <= size
            && next == (if Begin(found) < End(found) then End(found) else End(found) + 1)
            && founds != [] && founds[0] == found && founds[1..] == Finds(exec, size, count, next)
  {
    var found := Found(offset, exec(offset).value);
    assert SpanOk(found.spans[0], size - offset);
    next := if Begin(found) < End(found) then End(found) else End(found) + 1;
    assert next > size ==> Finds(exec, size, count, next) == [];
  }

  // Main result: every match of the pattern starts inside a match that the loop has found, or
  // with it.
  lemma {:induction false} NothingMissed(
    exec: Exec, matches: (int, int) -> bool, size: nat, count: nat, offset: nat, i: nat, j: nat) returns (k: nat)
    requires ExecOk(exec, size, count) && AnswersLeftmost(exec, matches, size)
    requires offset <= i <= j <= size && matches(i, j)
    ensures IsCovered(Finds(exec, size, count, offset), k, i)
    decreases size + 1 - offset
  {
    AnswerAt(exec, matches, size, offset, i, j);
    hide ExecOk, AnswersLeftmost, Finds;
    var next := FindsFirst(exec, size, count, offset);
    var found := Found(offset, exec(offset).value);
    k := 0;
    if i > Begin(found) && i >= End(found) {
      k := NothingMissed(exec, matches, size, count, next, i, j);
      assert Finds(exec, size, count, offset)[k + 1] == Finds(exec, size, count, offset)[1..][k];
      k := k + 1;
    }
  }

  // And each of them is a match of the pattern.
  lemma {:induction false} FoundsMatch(
    exec: Exec, matches: (int, int) -> bool, size: nat, count: nat, offset: nat, k: nat)
    requires ExecOk(exec, size, count) && AnswersLeftmost(exec, matches, size)
    requires k < |Finds(exec, size, count, offset)|
    ensures Finds(exec, size, count, offset)[k].spans != []
    ensures matches(Begin(Finds(exec, size, count, offset)[k]), End(Finds(exec, size, count, offset)[k]))
    decreases size + 1 - offset
  {
    assert offset <= size && exec(offset).Some?;
    assert matches(offset + exec(offset).value[0].so, offset + exec(offset).value[0].eo);
    hide ExecOk, AnswersLeftmost, Finds;
    var next := FindsFirst(exec, size, count, offset);
    if k > 0 {
      FoundsMatch(exec, matches, size, count, next, k - 1);
      assert Finds(exec, size, count, offset)[k] == Finds(exec, size, count, offset)[1..][k - 1];
    }
  }
}
