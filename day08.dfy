/** Day 8: walk a graph of nodes with a left and a right successor, following the
    instructions 'L'/'R' cyclically from "AAA" until "ZZZ" is reached (day08.py).  The
    source loops forever on a walk that never arrives; the model gives the walk a
    budget of steps and reports `OutOfFuel` when it is spent. */
module Day08 {
  import opened Common

  type Graph = map<string, (string, string)>

  const Start := "AAA"
  const Target := "ZZZ"

  /** Step number `i + 1`: look up the node, then follow instruction `dirs[i mod len]`. */
  function Step(dirs: string, graph: Graph, cur: string, i: nat): (res: Result<string>)
    requires |dirs| > 0
    ensures res.Err? <==> cur !in graph || (dirs[i % |dirs|] != 'L' && dirs[i % |dirs|] != 'R')
    ensures res.Err? && cur !in graph ==> res.fault == KeyError
    ensures res.Ok? && dirs[i % |dirs|] == 'L' ==> res.value == graph[cur].0
    ensures res.Ok? && dirs[i % |dirs|] == 'R' ==> res.value == graph[cur].1
  {
    if cur !in graph then Err(KeyError)
    else
      var (left, right) := graph[cur];
      match dirs[i % |dirs|]
      case 'L' => Ok(left)
      case 'R' => Ok(right)
      case _ => Err(ValueError)
  }

  /** Reference definition: the node after `n` steps from the start. */
  function NodeAfter(dirs: string, graph: Graph, n: nat): Result<string>
    requires |dirs| > 0
  {
    if n == 0 then Ok(Start)
    else
      match NodeAfter(dirs, graph, n - 1)
      case Err(f) => Err(f)
      case Ok(cur) => Step(dirs, graph, cur, n - 1)
  }

  /** The loop from node `cur` after `i` steps, with `fuel` more steps allowed. */
  function WalkFrom(dirs: string, graph: Graph, cur: string, i: nat, fuel: nat): Result<nat>
    requires |dirs| > 0
    decreases fuel
  {
    if fuel == 0 then Err(OutOfFuel)
    else
      match Step(dirs, graph, cur, i)
      case Err(f) => Err(f)
      case Ok(next) => if next == Target then Ok(i + 1) else WalkFrom(dirs, graph, next, i + 1, fuel - 1)
  }

  /** `solve`: the number of the first step that reaches "ZZZ".  With no instructions
      `itertools.cycle` yields nothing and the function returns None. */
  function Walk(dirs: string, graph: Graph, fuel: nat): Result<Option<nat>>
  {
    if |dirs| == 0 then Ok(None)
    else
      match WalkFrom(dirs, graph, Start, 0, fuel)
      case Err(f) => Err(f)
      case Ok(i) => Ok(Some(i))
  }

  /** The walk finds the first step at which the walk from "AAA" is at "ZZZ"; the
      start itself never counts. */
  lemma {:induction false} WalkFromFirst(dirs: string, graph: Graph, cur: string, i: nat, fuel: nat)
    requires |dirs| > 0 && NodeAfter(dirs, graph, i) == Ok(cur) && WalkFrom(dirs, graph, cur, i, fuel).Ok?
    ensures var m := WalkFrom(dirs, graph, cur, i, fuel).value;
            i < m <= i + fuel && NodeAfter(dirs, graph, m) == Ok(Target) &&
            forall j :: i < j < m ==> NodeAfter(dirs, graph, j).Ok? && NodeAfter(dirs, graph, j) != Ok(Target)
    decreases fuel
  {
    var next := Step(dirs, graph, cur, i).value;
    assert NodeAfter(dirs, graph, i + 1) == Ok(next);
    if next != Target {
      WalkFromFirst(dirs, graph, next, i + 1, fuel - 1);
    }
  }

  /** Conversely, a walk that reaches "ZZZ" within the budget is found, at that step or
      an earlier one. */
  lemma {:induction false} WalkFromComplete(dirs: string, graph: Graph, cur: string, i: nat, fuel: nat, m: nat)
    requires |dirs| > 0 && NodeAfter(dirs, graph, i) == Ok(cur)
    requires i < m <= i + fuel && NodeAfter(dirs, graph, m) == Ok(Target)
    ensures WalkFrom(dirs, graph, cur, i, fuel).Ok? && WalkFrom(dirs, graph, cur, i, fuel).value <= m
    decreases fuel
  {
    NodeAfterOkBefore(dirs, graph, i + 1, m);
    var next := Step(dirs, graph, cur, i).value;
    assert NodeAfter(dirs, graph, i + 1) == Ok(next);
    if next != Target {
      WalkFromComplete(dirs, graph, next, i + 1, fuel - 1, m);
    }
  }

  /** A walk that stands at some node after `m` steps stood at some node at each
      earlier step. */
  lemma {:induction false} NodeAfterOkBefore(dirs: string, graph: Graph, j: nat, m: nat)
    requires |dirs| > 0 && j <= m && NodeAfter(dirs, graph, m).Ok?
    ensures NodeAfter(dirs, graph, j).Ok?
    decreases m - j
  {
    if j < m {
      NodeAfterOkBefore(dirs, graph, j, m - 1);
    }
  }

  /** The answer, when there is one, is the first step at the target, and at least 1. */
  lemma WalkFinds(dirs: string, graph: Graph, fuel: nat)
    requires Walk(dirs, graph, fuel).Ok? && Walk(dirs, graph, fuel).value.Some?
    ensures var m := Walk(dirs, graph, fuel).value.value;
            1 <= m <= fuel && NodeAfter(dirs, graph, m) == Ok(Target) &&
            forall j :: 0 < j < m ==> NodeAfter(dirs, graph, j) != Ok(Target)
  {
    WalkFromFirst(dirs, graph, Start, 0, fuel);
  }

  lemma WalkComplete(dirs: string, graph: Graph, fuel: nat, m: nat)
    requires |dirs| > 0 && 0 < m <= fuel && NodeAfter(dirs, graph, m) == Ok(Target)
    ensures Walk(dirs, graph, fuel).Ok? && Walk(dirs, graph, fuel).value.Some?
    ensures Walk(dirs, graph, fuel).value.value <= m
  {
    WalkFromComplete(dirs, graph, Start, 0, fuel, m);
  }

  /** `solve`, with a budget of `fuel` steps. */
  method Solve(dirs: string, graph: Graph, fuel: nat) returns (res: Result<Option<nat>>)
    ensures res == Walk(dirs, graph, fuel)
  {
    if |dirs| == 0 {
      return Ok(None);
    }
    var cur := Start;
    var i := 0;
    while i < fuel
      invariant i <= fuel
      invariant WalkFrom(dirs, graph, Start, 0, fuel) == WalkFrom(dirs, graph, cur, i, fuel - i)
    {
      if cur !in graph {
        return Err(KeyError);
      }
      var (left, right) := graph[cur];
      var direction := dirs[i % |dirs|];
      if direction == 'L' {
        cur := left;
      } else if direction == 'R' {
        cur := right;
      } else {
        return Err(ValueError);
      }
      i := i + 1;
      if cur == Target {
        return Ok(Some(i));
      }
    }
    return Err(OutOfFuel);
  }
}
