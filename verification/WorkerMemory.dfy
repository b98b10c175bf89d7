/**
 How much import residue a worker child may keep, and where its heap ceiling and
 its soft threshold lie. Quantities are bytes in 64-bit unsigned integers.
 */
module WorkerMemory {
  import opened Wrappers

  const GIB: nat := 1024 * MIB

  const IMPORT_HEADROOM: nat := 4608 * MIB
  const HEAP_HEADROOM_FLOOR: nat := 8 * GIB
  const RESIDUE_FLOOR: nat := 9 * GIB
  const RESIDUE_CEILING: nat := 12 * GIB
  const RESIDUE_MIN: nat := MIB
  const RESIDUE_RAM_DIVISOR: nat := 4
  const RESIDUE_SOFT_PERCENT: nat := 60

  function Max(a: nat, b: nat): nat {
    if a >= b then a else b
  }

  function Min(a: nat, b: nat): nat {
    if a <= b then a else b
  }

  function Share(total: nat, parts: nat): nat
    requires parts > 0
  {
    total / parts
  }

  /** The residue budget of one child, from the machine's RAM and the size of the pool. */
  function ImportResidueBudget(ram: nat, maxProjects: nat): nat {
    var projects := Max(maxProjects, 1);
    var perProject := Share(ram / RESIDUE_RAM_DIVISOR, projects);
    var affordable := Max(SatSub(Share(ram, projects), IMPORT_HEADROOM), RESIDUE_MIN);
    Min(Min(Max(perProject, RESIDUE_FLOOR), RESIDUE_CEILING), affordable)
  }

  /** The heap ceiling of a child, in KiB. */
  function LeanMaxMemoryKib(budget: nat): nat {
    SatAdd(budget, if budget > HEAP_HEADROOM_FLOOR then budget else HEAP_HEADROOM_FLOOR) / 1024
  }

  /** The residue at which an idle child is cycled. */
  function ImportResidueSoft(budget: nat): nat {
    SatMul(budget / 100, RESIDUE_SOFT_PERCENT)
  }

  // --- division ------------------------------------------------------------------------------

  lemma DivGrows(a: nat, b: nat, d: nat)
    requires a <= b && d > 0
    ensures a / d <= b / d
  {
    if a / d > b / d {
      MulGrows(b / d + 1, a / d, d);
      DivMul(a, d);
      DivMul(b, d);
    }
  }

  lemma DivShrinks(a: nat, d: nat, e: nat)
    requires 0 < d <= e
    ensures a / e <= a / d
  {
    DivMul(a, d);
    DivMul(a, e);
    if a / e > a / d {
      MulGrows(a / d + 1, a / e, d);
      MulGrows(d, e, a / e);
    }
  }

  lemma MulGrows(a: nat, b: nat, c: nat)
    requires a <= b
    ensures a * c <= b * c
  {
  }

  lemma DivMul(a: nat, d: nat)
    requires d > 0
    ensures a / d * d <= a < (a / d + 1) * d
  {
  }

  // --- the budget ------------------------------------------------------------------------------

  /** Whatever the machine and the pool, the budget lies between its minimum and its ceiling. */
  lemma BudgetIsBounded(ram: nat, maxProjects: nat)
    ensures RESIDUE_MIN <= ImportResidueBudget(ram, maxProjects) <= RESIDUE_CEILING
  {
  }

  /** More RAM never means a smaller budget. */
  lemma BudgetGrowsWithRam(ram: nat, more: nat, maxProjects: nat)
    requires ram <= more
    ensures ImportResidueBudget(ram, maxProjects) <= ImportResidueBudget(more, maxProjects)
  {
    var projects := Max(maxProjects, 1);
    DivGrows(ram, more, RESIDUE_RAM_DIVISOR);
    DivGrows(ram / RESIDUE_RAM_DIVISOR, more / RESIDUE_RAM_DIVISOR, projects);
    DivGrows(ram, more, projects);
  }

  /** A larger pool never means a larger budget. */
  lemma BudgetShrinksWithPool(ram: nat, maxProjects: nat, more: nat)
    requires maxProjects <= more
    ensures ImportResidueBudget(ram, more) <= ImportResidueBudget(ram, maxProjects)
  {
    DivShrinks(ram / RESIDUE_RAM_DIVISOR, Max(maxProjects, 1), Max(more, 1));
    DivShrinks(ram, Max(maxProjects, 1), Max(more, 1));
  }

  /** Between its bounds, and where the machine affords it, the budget is a quarter of one project's share. */
  lemma BudgetIsQuarterShare(ram: nat, maxProjects: nat)
    requires RESIDUE_FLOOR < ImportResidueBudget(ram, maxProjects) < RESIDUE_CEILING
    requires ImportResidueBudget(ram, maxProjects) + IMPORT_HEADROOM < Share(ram, Max(maxProjects, 1))
    ensures var (budget, projects) := (ImportResidueBudget(ram, maxProjects), Max(maxProjects, 1));
            4 * (projects * budget) <= ram < 4 * (projects * (budget + 1))
  {
    var (budget, projects, quarter) := (ImportResidueBudget(ram, maxProjects), Max(maxProjects, 1), ram / 4);
    assert budget == quarter / projects;
    DivMul(quarter, projects);
  }

  /**
   The whole pool fits in RAM, every child at its budget with one import in
   flight, exactly when one child's share of the RAM covers the headroom and the
   least budget.
   */
  lemma PoolFitsExactly(ram: nat, maxProjects: nat)
    ensures var projects := Max(maxProjects, 1);
            projects * (ImportResidueBudget(ram, maxProjects) + IMPORT_HEADROOM) <= ram
            <==> ram / projects >= IMPORT_HEADROOM + RESIDUE_MIN
  {
    var projects := Max(maxProjects, 1);
    var (share, need) := (ram / projects, ImportResidueBudget(ram, maxProjects) + IMPORT_HEADROOM);
    DivMul(ram, projects);
    BudgetIsBounded(ram, maxProjects);
    if share >= IMPORT_HEADROOM + RESIDUE_MIN {
      assert need <= share;
      MulGrows(need, share, projects);
    } else {
      assert need > share;
      MulGrows(share + 1, need, projects);
    }
  }

  // --- the ceilings ------------------------------------------------------------------------------

  /**
   The clean recycle wins: the heap ceiling stands at least 8 GiB above the
   budget, less the rounding to KiB, for exactly the budgets that leave 8 GiB of
   the 64-bit range. Beyond them the sum saturates.
   */
  lemma HeapCeilingClearsBudget(budget: nat)
    requires budget <= U64_MAX
    ensures LeanMaxMemoryKib(budget) * 1024 >= budget + 8 * GIB - 1023 <==> budget + 8 * GIB <= U64_MAX
  {
  }

  /** Nor does it stand higher than it must: twice the budget, or 8 GiB above it, whichever is more. */
  lemma HeapCeilingIsNoHigher(budget: nat)
    requires budget < 0x8000_0000_0000_0000
    ensures LeanMaxMemoryKib(budget) * 1024 <= Max(2 * budget, budget + 8 * GIB) < LeanMaxMemoryKib(budget) * 1024 + 1024
  {
  }

  /** An idle child is cycled strictly before its budget is reached. */
  lemma SoftIsBelowBudget(budget: nat)
    requires 0 < budget <= U64_MAX
    ensures ImportResidueSoft(budget) < budget
    ensures ImportResidueSoft(budget) == budget / 100 * 60
  {
    assert budget / 100 * 100 <= budget;
  }
}
