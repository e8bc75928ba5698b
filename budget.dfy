/** The iteration budget of one MCTS move request (agent.h:142-170): a hand-tuned step
    function of the number of legal placements for the searching side. */
module IterationBudget {

  /** The budget when no threshold matches (the initial value of maxN). */
  const Default: nat := 3000

  /** The threshold chain as data, largest threshold first: a row (t, v) gives v
      iterations when the count is strictly above t. */
  const Table: seq<(nat, nat)> := [(60, 70000), (30, 100000), (20, 90000), (10, 70000), (0, 50000)]

  /** Reference reading of a threshold table: the value of the first row whose threshold
      the count exceeds, `default` when none does. */
  function FirstAbove(table: seq<(nat, nat)>, n: nat, default: nat): (r: nat)
    ensures (forall i :: 0 <= i < |table| ==> n <= table[i].0) ==> r == default
    ensures forall i :: 0 <= i < |table| && n > table[i].0 && (forall j :: 0 <= j < i ==> n <= table[j].0) ==>
              r == table[i].1
  {
    FirstAboveFrom(table, n, default, 0)
  }

  /** `FirstAbove` on the rows from `from` on. */
  function FirstAboveFrom(table: seq<(nat, nat)>, n: nat, default: nat, from: nat): (r: nat)
    requires from <= |table|
    ensures (forall i :: from <= i < |table| ==> n <= table[i].0) ==> r == default
    ensures forall i :: from <= i < |table| && n > table[i].0 && (forall j :: from <= j < i ==> n <= table[j].0) ==>
              r == table[i].1
    decreases |table| - from
  {
    if from == |table| then default
    else if n > table[from].0 then table[from].1
    else FirstAboveFrom(table, n, default, from + 1)
  }

  /** The budget as the source computes it, by the if / else-if chain. */
  function Budget(n: nat): (r: nat)
    ensures r in {3000, 50000, 70000, 90000, 100000}
    ensures r == Default <==> n == 0
  {
    if n > 60 then 70000
    else if n > 30 then 100000
    else if n > 20 then 90000
    else if n > 10 then 70000
    else if n > 0 then 50000
    else Default
  }

  /** The chain and the table agree on every count. */
  lemma BudgetIsTable(n: nat)
    ensures Budget(n) == FirstAbove(Table, n, Default)
  {
    assert Table[0] == (60, 70000) && Table[1] == (30, 100000) && Table[2] == (20, 90000);
    assert Table[3] == (10, 70000) && Table[4] == (0, 50000) && |Table| == 5;
    if n <= 60 {
      assert FirstAboveFrom(Table, n, Default, 0) == FirstAboveFrom(Table, n, Default, 1);
      if n <= 30 {
        assert FirstAboveFrom(Table, n, Default, 1) == FirstAboveFrom(Table, n, Default, 2);
        if n <= 20 {
          assert FirstAboveFrom(Table, n, Default, 2) == FirstAboveFrom(Table, n, Default, 3);
          if n <= 10 {
            assert FirstAboveFrom(Table, n, Default, 3) == FirstAboveFrom(Table, n, Default, 4);
            if n == 0 {
              assert FirstAboveFrom(Table, n, Default, 4) == FirstAboveFrom(Table, n, Default, 5) == Default;
            }
          }
        }
      }
    }
  }

  /** Boundaries belong to the lower bucket (strict tests). */
  lemma BudgetBoundaries()
    ensures Budget(61) == 70000 && Budget(60) == 100000
    ensures Budget(31) == 100000 && Budget(30) == 90000
    ensures Budget(21) == 90000 && Budget(20) == 70000
    ensures Budget(11) == 70000 && Budget(10) == 50000
    ensures Budget(1) == 50000 && Budget(0) == 3000
  {
  }

  /** The budget is not monotone: it rises from the sparse to the middle game, then falls. */
  lemma BudgetNotMonotone()
    ensures exists a: nat, b: nat :: a < b && Budget(a) > Budget(b)
    ensures exists a: nat, b: nat :: a < b && Budget(a) < Budget(b)
  {
    assert Budget(31) > Budget(61);
    assert Budget(1) < Budget(31);
  }
}
