// The repetition planner of the real-world benchmark reports: _budget_plan and
// _repetition_cost.  Durations are exact here; the script uses floating point.

module BudgetPlan {
  import opened Wrappers

  type Project = string
  type Mode = string

  datatype Error = UnknownProject(project: Project) | NoRuntime(project: Project, mode: Mode) | OverBudget(minimum: real)

  // expected_seconds of every project; estimates are not negative.
  type Seconds = s: real | s >= 0.0

  type Estimates = map<Project, map<Mode, Seconds>>

  datatype Plan = Plan(reps: map<Project, nat>, costs: map<Project, real>)

  // ----- Costs.

  function SumModes(seconds: map<Mode, Seconds>, modes: seq<Mode>): (sum: real)
    requires forall i :: 0 <= i < |modes| ==> modes[i] in seconds
    ensures sum >= 0.0
  {
    if modes == [] then 0.0
    else SumModes(seconds, modes[..|modes| - 1]) + seconds[modes[|modes| - 1]]
  }

  predicate HasModes(estimates: Estimates, project: Project, modes: seq<Mode>) {
    project in estimates && forall i :: 0 <= i < |modes| ==> modes[i] in estimates[project]
  }

  // What one repetition builds: both variants, in every mode.
  function Cost(estimates: Estimates, project: Project, modes: seq<Mode>): (cost: real)
    requires HasModes(estimates, project, modes)
    ensures cost >= 0.0
  {
    2.0 * SumModes(estimates[project], modes)
  }

  // One mode more is one build more of each variant.
  lemma ModeAdded(estimates: Estimates, project: Project, modes: seq<Mode>, mode: Mode)
    requires HasModes(estimates, project, modes + [mode])
    ensures HasModes(estimates, project, modes) && mode in estimates[project]
    ensures Cost(estimates, project, []) == 0.0
    ensures Cost(estimates, project, modes + [mode])
            == Cost(estimates, project, modes) + estimates[project][mode] + estimates[project][mode]
  {
    var all := modes + [mode];
    assert all[|modes|] == mode && forall i :: 0 <= i < |modes| ==> all[i] == modes[i];
    assert all[..|all| - 1] == modes;
  }

  method RepetitionCost(estimates: Estimates, project: Project, modes: seq<Mode>) returns (result: Result<real, Error>)
    ensures result.Ok? <==> HasModes(estimates, project, modes)
    ensures result.Ok? ==> result.value == Cost(estimates, project, modes)
    ensures result.Err? && project !in estimates ==> result.error == UnknownProject(project)
    ensures result.Err? && project in estimates ==>
              exists i :: 0 <= i < |modes| && result.error == NoRuntime(project, modes[i])
                          && modes[i] !in estimates[project]
                          && forall k :: 0 <= k < i ==> modes[k] in estimates[project]
  {
    if project !in estimates {
      return Err(UnknownProject(project));
    }
    var sum := 0.0;
    for i := 0 to |modes|
      invariant forall k :: 0 <= k < i ==> modes[k] in estimates[project]
      invariant sum == SumModes(estimates[project], modes[..i])
    {
      if modes[i] !in estimates[project] {
        return Err(NoRuntime(project, modes[i]));
      }
      assert modes[..i + 1][..i] == modes[..i];
      sum := sum + estimates[project][modes[i]];
    }
    assert modes[..|modes|] == modes;
    result := Ok(2.0 * sum);
  }

  // ----- Totals over the projects, each counted once.

  function Distinct(projects: seq<Project>): (distinct: seq<Project>)
    ensures forall p :: p in projects <==> p in distinct
    ensures forall i, j :: 0 <= i < j < |distinct| ==> distinct[i] != distinct[j]
  {
    if projects == [] then []
    else
      var before := Distinct(projects[..|projects| - 1]);
      var last := projects[|projects| - 1];
      assert projects == projects[..|projects| - 1] + [last];
      if last in before then before else before + [last]
  }

  predicate Covers(keys: set<Project>, projects: seq<Project>) {
    forall i :: 0 <= i < |projects| ==> projects[i] in keys
  }

  function Spent(n: nat, cost: real): real {
    n as real * cost
  }

  // The time that the repetitions are estimated to take.
  ghost function Total(projects: seq<Project>, reps: map<Project, nat>, costs: map<Project, real>): real
    requires Covers(reps.Keys, projects) && Covers(costs.Keys, projects)
  {
    if projects == [] then 0.0
    else
      var last := projects[|projects| - 1];
      Total(projects[..|projects| - 1], reps, costs) + Spent(reps[last], costs[last])
  }

  lemma {:induction false} TotalElsewhere(
    projects: seq<Project>, reps: map<Project, nat>, costs: map<Project, real>, p: Project, n: nat)
    requires Covers(reps.Keys, projects) && Covers(costs.Keys, projects)
    requires forall i :: 0 <= i < |projects| ==> projects[i] != p
    ensures Total(projects, reps[p := n], costs) == Total(projects, reps, costs)
  {
    if projects != [] {
      TotalElsewhere(projects[..|projects| - 1], reps, costs, p, n);
    }
  }

  lemma OneMore(n: nat, cost: real)
    ensures Spent(n + 1, cost) == Spent(n, cost) + cost
  {
    assert (n + 1) as real == n as real + 1.0;
  }

  // One more repetition of a project costs what one repetition of it costs.
  lemma {:induction false} TotalStep(
    projects: seq<Project>, reps: map<Project, nat>, costs: map<Project, real>, p: Project)
    requires Covers(reps.Keys, projects) && Covers(costs.Keys, projects) && p in reps && p in costs
    requires forall i, j :: 0 <= i < j < |projects| ==> projects[i] != projects[j]
    requires p in projects
    ensures Total(projects, reps[p := reps[p] + 1], costs) == Total(projects, reps, costs) + costs[p]
  {
    hide Spent;
    var before, last := projects[..|projects| - 1], projects[|projects| - 1];
    if last == p {
      TotalElsewhere(before, reps, costs, p, reps[p] + 1);
      OneMore(reps[p], costs[p]);
    } else {
      assert p in before by {
        assert projects == before + [last];
      }
      TotalStep(before, reps, costs, p);
    }
  }

  // What is missing to the cap, for termination.
  ghost function Slack(projects: seq<Project>, reps: map<Project, nat>, cap: nat): nat
    requires Covers(reps.Keys, projects)
  {
    if projects == [] then 0
    else
      var last := projects[|projects| - 1];
      Slack(projects[..|projects| - 1], reps, cap) + (if reps[last] < cap then cap - reps[last] else 0)
  }

  lemma {:induction false} SlackShrinks(projects: seq<Project>, reps: map<Project, nat>, cap: nat, p: Project)
    requires Covers(reps.Keys, projects) && p in reps && reps[p] < cap
    ensures Slack(projects, reps[p := reps[p] + 1], cap) <= Slack(projects, reps, cap)
    ensures p in projects ==> Slack(projects, reps[p := reps[p] + 1], cap) < Slack(projects, reps, cap)
  {
    if projects != [] {
      var before, last := projects[..|projects| - 1], projects[|projects| - 1];
      SlackShrinks(before, reps, cap, p);
      assert projects == before + [last];
    }
  }

  // ----- The plan.

  predicate IsCandidate(reps: map<Project, nat>, costs: map<Project, real>, remaining: real, cap: nat, p: Project) {
    p in reps && p in costs && reps[p] < cap && costs[p] <= remaining
  }

  // The candidates in the order of the projects.
  function Candidates(
    projects: seq<Project>, reps: map<Project, nat>, costs: map<Project, real>, remaining: real, cap: nat)
    : (candidates: seq<Project>)
    ensures forall p :: p in candidates <==> p in projects && IsCandidate(reps, costs, remaining, cap, p)
  {
    if projects == [] then []
    else
      var last := projects[|projects| - 1];
      var before := Candidates(projects[..|projects| - 1], reps, costs, remaining, cap);
      assert projects == projects[..|projects| - 1] + [last];
      if IsCandidate(reps, costs, remaining, cap, last) then before + [last] else before
  }

  function Time(reps: map<Project, nat>, costs: map<Project, real>, p: Project): real
    requires p in reps && p in costs
  {
    Spent(reps[p], costs[p])
  }

  // min(candidates, key=...): the first of those with the least time.
  method Cheapest(candidates: seq<Project>, reps: map<Project, nat>, costs: map<Project, real>)
    returns (best: nat)
    requires candidates != []
    requires forall i :: 0 <= i < |candidates| ==> candidates[i] in reps && candidates[i] in costs
    ensures best < |candidates|
    ensures forall i :: 0 <= i < |candidates| ==> Time(reps, costs, candidates[best]) <= Time(reps, costs, candidates[i])
    ensures forall i :: 0 <= i < best ==> Time(reps, costs, candidates[best]) < Time(reps, costs, candidates[i])
  {
    best := 0;
    for i := 1 to |candidates|
      invariant best < i
      invariant forall k :: 0 <= k < i ==> Time(reps, costs, candidates[best]) <= Time(reps, costs, candidates[k])
      invariant forall k :: 0 <= k < best ==> Time(reps, costs, candidates[best]) < Time(reps, costs, candidates[k])
    {
      if Time(reps, costs, candidates[i]) < Time(reps, costs, candidates[best]) {
        best := i;
      }
    }
  }

  // While q could still be repeated and costs no more than p, the last repetition of p left it
  // no further ahead than q is.
  ghost predicate FairPair(reps: map<Project, nat>, costs: map<Project, real>, cap: nat, p: Project, q: Project)
    requires p in reps && p in costs && q in reps && q in costs
  {
    reps[p] >= 2 && costs[q] <= costs[p] && reps[q] < cap
    ==> Spent(reps[p] - 1, costs[p]) <= Time(reps, costs, q)
  }

  ghost predicate Known(projects: seq<Project>, reps: map<Project, nat>, costs: map<Project, real>) {
    forall p :: p in projects ==> p in reps && p in costs && costs[p] >= 0.0
  }

  ghost predicate Fair(projects: seq<Project>, reps: map<Project, nat>, costs: map<Project, real>, cap: nat)
    requires Known(projects, reps, costs)
  {
    forall p, q :: p in projects && q in projects ==> FairPair(reps, costs, cap, p, q)
  }

  ghost predicate Within(projects: seq<Project>, reps: map<Project, nat>, cap: nat) {
    forall p :: p in projects ==> p in reps && 1 <= reps[p] <= cap
  }

  // Nothing that is left of the budget pays for another repetition below the cap.
  ghost predicate Maximal(
    projects: seq<Project>, reps: map<Project, nat>, costs: map<Project, real>, remaining: real, cap: nat) {
    forall p :: p in projects ==> !IsCandidate(reps, costs, remaining, cap, p)
  }

  lemma TimeGrows(a: nat, b: nat, cost: real)
    requires a <= b && cost >= 0.0
    ensures Spent(a, cost) <= Spent(b, cost)
  {
  }

  lemma FairStep(
    projects: seq<Project>, reps: map<Project, nat>, costs: map<Project, real>, remaining: real, cap: nat, best: Project,
    p: Project, q: Project)
    requires Known(projects, reps, costs) && Fair(projects, reps, costs, cap)
    requires best in projects && IsCandidate(reps, costs, remaining, cap, best)
    requires forall c :: c in projects && IsCandidate(reps, costs, remaining, cap, c) ==>
               Time(reps, costs, best) <= Time(reps, costs, c)
    requires p in projects && q in projects
    ensures FairPair(reps[best := reps[best] + 1], costs, cap, p, q)
  {
    hide Spent;
    assert FairPair(reps, costs, cap, p, q);
    TimeGrows(reps[best], reps[best] + 1, costs[best]);
    if p == best && reps[q] < cap && costs[q] <= costs[p] {
      assert IsCandidate(reps, costs, remaining, cap, q);
    }
  }

  // ----- The planner.

  ghost predicate CostsOf(estimates: Estimates, projects: seq<Project>, modes: seq<Mode>, costs: map<Project, real>) {
    && (forall p :: p in costs <==> p in projects)
    && forall p :: p in projects ==> HasModes(estimates, p, modes) && costs[p] == Cost(estimates, p, modes)
  }

  ghost predicate AllHaveModes(estimates: Estimates, projects: seq<Project>, modes: seq<Mode>) {
    forall p :: p in projects ==> HasModes(estimates, p, modes)
  }

  method Costs(estimates: Estimates, projects: seq<Project>, modes: seq<Mode>)
    returns (result: Result<map<Project, real>, Error>)
    ensures result.Ok? <==> AllHaveModes(estimates, projects, modes)
    ensures result.Ok? ==> CostsOf(estimates, projects, modes, result.value)
    ensures result.Err? ==> !result.error.OverBudget?
  {
    var costs: map<Project, real> := map[];
    for i := 0 to |projects|
      invariant CostsOf(estimates, projects[..i], modes, costs)
    {
      var cost := RepetitionCost(estimates, projects[i], modes);
      assert projects[..i + 1] == projects[..i] + [projects[i]];
      if cost.Err? {
        assert projects[i] in projects;
        return Err(cost.error);
      }
      costs := costs[projects[i] := cost.value];
    }
    assert projects[..|projects|] == projects;
    result := Ok(costs);
  }

  function Once(projects: seq<Project>): (reps: map<Project, nat>)
    ensures forall p :: p in reps <==> p in projects
    ensures forall p :: p in projects ==> reps[p] == 1
  {
    map p | p in projects :: 1
  }

  // One repetition of every project.
  ghost function Minimum(projects: seq<Project>, costs: map<Project, real>): real
    requires Covers(costs.Keys, Distinct(projects))
  {
    Total(Distinct(projects), Once(projects), costs)
  }

  method SumCosts(projects: seq<Project>, costs: map<Project, real>) returns (sum: real)
    requires Covers(costs.Keys, Distinct(projects))
    ensures sum == Minimum(projects, costs)
  {
    var distinct := Distinct(projects);
    var reps := Once(projects);
    sum := 0.0;
    for i := 0 to |distinct|
      invariant sum == Total(distinct[..i], reps, costs)
    {
      assert distinct[..i + 1][..i] == distinct[..i];
      assert reps[distinct[i]] == 1 && Spent(1, costs[distinct[i]]) == costs[distinct[i]];
      sum := sum + costs[distinct[i]];
    }
    assert distinct[..|distinct|] == distinct;
  }

  method Fill(projects: seq<Project>, costs: map<Project, real>, budget: real, cap: nat)
    returns (reps: map<Project, nat>)
    requires cap >= 1 && Known(projects, Once(projects), costs)
    requires Covers(costs.Keys, Distinct(projects)) && Minimum(projects, costs) <= budget
    ensures Known(projects, reps, costs) && Covers(reps.Keys, Distinct(projects))
    ensures Within(projects, reps, cap) && Fair(projects, reps, costs, cap)
    ensures Total(Distinct(projects), reps, costs) <= budget
    ensures Maximal(projects, reps, costs, budget - Total(Distinct(projects), reps, costs), cap)
  {
    hide Spent, Total, Slack, Fair, Candidates, Distinct, Time;
    reps := Once(projects);
    FairAtFirst(projects, costs, cap);
    var minimum := SumCosts(projects, costs);
    var remaining := budget - minimum;
    ghost var distinct := Distinct(projects);
    while true
      invariant Known(projects, reps, costs) && Covers(reps.Keys, distinct)
      invariant Within(projects, reps, cap) && Fair(projects, reps, costs, cap)
      invariant remaining == budget - Total(distinct, reps, costs) >= 0.0
      decreases Slack(distinct, reps, cap)
    {
      var candidates := Candidates(projects, reps, costs, remaining, cap);
      if candidates == [] {
        break;
      }
      var best := Cheapest(candidates, reps, costs);
      var project := candidates[best];
      TotalStep(distinct, reps, costs, project);
      SlackShrinks(distinct, reps, cap, project);
      StaysFair(projects, reps, costs, remaining, cap, candidates, best);
      reps := reps[project := reps[project] + 1];
      remaining := remaining - costs[project];
    }
    AllTried(projects, reps, costs, remaining, cap);
  }

  lemma FairAtFirst(projects: seq<Project>, costs: map<Project, real>, cap: nat)
    requires Known(projects, Once(projects), costs)
    ensures Fair(projects, Once(projects), costs, cap)
  {
  }

  lemma AllTried(projects: seq<Project>, reps: map<Project, nat>, costs: map<Project, real>, remaining: real, cap: nat)
    requires Candidates(projects, reps, costs, remaining, cap) == []
    ensures Maximal(projects, reps, costs, remaining, cap)
  {
  }

  lemma StaysFair(
    projects: seq<Project>, reps: map<Project, nat>, costs: map<Project, real>, remaining: real, cap: nat,
    candidates: seq<Project>, best: nat)
    requires Known(projects, reps, costs) && Fair(projects, reps, costs, cap)
    requires candidates == Candidates(projects, reps, costs, remaining, cap) && best < |candidates|
    requires forall i :: 0 <= i < |candidates| ==> Time(reps, costs, candidates[best]) <= Time(reps, costs, candidates[i])
    ensures Known(projects, reps[candidates[best] := reps[candidates[best]] + 1], costs)
    ensures Fair(projects, reps[candidates[best] := reps[candidates[best]] + 1], costs, cap)
  {
    var project := candidates[best];
    forall p, q | p in projects && q in projects
      ensures FairPair(reps[project := reps[project] + 1], costs, cap, p, q)
    {
      FairStep(projects, reps, costs, remaining, cap, project, p, q);
    }
  }

  // Everything that a plan promises.
  ghost predicate IsPlan(projects: seq<Project>, plan: Plan, budget: real, cap: nat)
  {
    && Known(projects, plan.reps, plan.costs)
    && Covers(plan.reps.Keys, Distinct(projects)) && Covers(plan.costs.Keys, Distinct(projects))
    && Within(projects, plan.reps, cap) && Fair(projects, plan.reps, plan.costs, cap)
    && Total(Distinct(projects), plan.reps, plan.costs) <= budget
    && Maximal(projects, plan.reps, plan.costs, budget - Total(Distinct(projects), plan.reps, plan.costs), cap)
  }

  method MakePlan(estimates: Estimates, projects: seq<Project>, modes: seq<Mode>, budget: real, cap: nat)
    returns (result: Result<Plan, Error>)
    requires cap >= 1
    ensures result.Ok? ==> CostsOf(estimates, projects, modes, result.value.costs) && IsPlan(projects, result.value, budget, cap)
    ensures result.Ok? ==> Minimum(projects, result.value.costs) <= budget
    ensures result.Err? && result.error.OverBudget? ==>
              exists costs :: CostsOf(estimates, projects, modes, costs) && Covers(costs.Keys, Distinct(projects))
                              && result.error.minimum == Minimum(projects, costs) > budget
    ensures result.Err? && !result.error.OverBudget? <==> !AllHaveModes(estimates, projects, modes)
  {
    var costs := Costs(estimates, projects, modes);
    if costs.Err? {
      return Err(costs.error);
    }
    var minimum := SumCosts(projects, costs.value);
    if minimum > budget {
      return Err(OverBudget(minimum));
    }
    var reps := Fill(projects, costs.value, budget, cap);
    result := Ok(Plan(reps, costs.value));
  }
}
