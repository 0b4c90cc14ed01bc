/** When the compiled meaning of a pipeline is the structured one. */
module Agreement {
  import opened Options
  import opened Accesses
  import opened Frames
  import opened Operators
  import opened Commute
  import opened Calls
  import opened ControlFlow

  // ----- the condition -----

  /** The conditions of `branches` find their fields in the frame of `o`. */
  predicate Covered(branches: Branches, o: Outcome) {
    branches.ElseIf? ==> Knows(o, branches.cond) && Covered(branches.more, o)
  }

  /** Along the structured run, in each block that is entered, the conditions behind the branch that is taken find their
      fields once that branch has run. */
  predicate Provided(code: Code, o: Outcome) {
    match code
    case Done => true
    case Do(call, next) => Provided(next, ExecOne(call, o))
    case If(cond, body, more, next) =>
      && (o.frame.None? || Judge(cond, o.frame.value.common).None?
          || if Judge(cond, o.frame.value.common).value then Provided(body, o) && Covered(more, Perform(body, o))
             else ProvidedBranches(more, o))
      && Provided(next, PerformBlock(code, o))
    case Include(_, body, next) => Provided(body, o) && Provided(next, Perform(body, o))
  }

  predicate ProvidedBranches(branches: Branches, o: Outcome) {
    match branches
    case EndIf => true
    case ElseIf(cond, body, more) =>
      || o.frame.None? || Judge(cond, o.frame.value.common).None?
      || if Judge(cond, o.frame.value.common).value then Provided(body, o) && Covered(more, Perform(body, o))
         else ProvidedBranches(more, o)
    case Else(body) => Provided(body, o)
  }

  function PerformBlock(code: Code, o: Outcome): (r: Outcome)
    requires code.If?
    ensures Perform(code, o) == Perform(code.next, r)
  {
    if o.frame.None? then o else
      match Judge(code.cond, o.frame.value.common)
      case None => Fail(o)
      case Some(holds) => if holds then Perform(code.body, o) else PerformBranches(code.more, o)
  }

  // ----- it decides -----

  lemma {:induction false} RechecksCovered(branches: Branches, o: Outcome)
    ensures if Covered(branches, o) then Recheck(branches, o) == o else Recheck(branches, o).frame.None?
  {
    if branches.ElseIf? {
      RechecksCovered(branches.more, o);
    }
  }

  /** Enacting a fragment is performing it when its conditions are provided for, and fails when it is not. */
  lemma {:induction false} EnactedIffProvided(code: Code, o: Outcome)
    ensures if Provided(code, o) then Enact(code, o) == Perform(code, o) else Enact(code, o).frame.None?
    decreases code, 0
  {
    match code
    case Done =>
    case Do(call, next) => EnactedIffProvided(next, ExecOne(call, o));
    case If(cond, body, more, next) =>
      if o.frame.Some? && Judge(cond, o.frame.value.common).Some? {
        BranchEnacted(body, more, o);
        BranchesEnacted(more, o);
      }
      if EnactBlock(code, o).frame.None? {
        EnactNothing(next, EnactBlock(code, o));
      }
      EnactedIffProvided(next, PerformBlock(code, o));
    case Include(_, body, next) =>
      EnactedIffProvided(body, o);
      if Enact(body, o).frame.None? {
        EnactNothing(next, Enact(body, o));
      }
      EnactedIffProvided(next, Perform(body, o));
  }

  /** A branch that is taken. */
  lemma {:induction false} BranchEnacted(body: Code, more: Branches, o: Outcome)
    ensures if Provided(body, o) && Covered(more, Perform(body, o)) then Recheck(more, Enact(body, o)) == Perform(body, o)
            else Recheck(more, Enact(body, o)).frame.None?
    decreases body, 1
  {
    EnactedIffProvided(body, o);
    RechecksCovered(more, Enact(body, o));
    if Enact(body, o).frame.None? {
      RecheckNothing(more, Enact(body, o));
    }
  }

  lemma {:induction false} BranchesEnacted(branches: Branches, o: Outcome)
    ensures if ProvidedBranches(branches, o) then EnactBranches(branches, o) == PerformBranches(branches, o)
            else EnactBranches(branches, o).frame.None?
    decreases branches, 0
  {
    match branches
    case EndIf =>
    case ElseIf(cond, body, more) =>
      BranchEnacted(body, more, o);
      BranchesEnacted(more, o);
    case Else(body) => EnactedIffProvided(body, o);
  }

  // ----- what a caller can check -----

  /** In each block that is entered, all its conditions find their fields on entry. */
  predicate Furnished(code: Code, o: Outcome) {
    match code
    case Done => true
    case Do(call, next) => Furnished(next, ExecOne(call, o))
    case If(cond, body, more, next) =>
      && Knows(o, cond) && Covered(more, o)
      && (o.frame.None? || Judge(cond, o.frame.value.common).None?
          || if Judge(cond, o.frame.value.common).value then Furnished(body, o) else FurnishedBranches(more, o))
      && Furnished(next, PerformBlock(code, o))
    case Include(_, body, next) => Furnished(body, o) && Furnished(next, Perform(body, o))
  }

  /** The body of the branch that is due. */
  predicate FurnishedBranches(branches: Branches, o: Outcome) {
    match branches
    case EndIf => true
    case ElseIf(cond, body, more) =>
      || o.frame.None? || Judge(cond, o.frame.value.common).None?
      || if Judge(cond, o.frame.value.common).value then Furnished(body, o) else FurnishedBranches(more, o)
    case Else(body) => Furnished(body, o)
  }

  /** Common fields are never removed. */
  predicate Grows(o: Outcome, o1: Outcome) {
    o1.frame.Some? ==> o.frame.Some? && o.frame.value.common.Keys <= o1.frame.value.common.Keys
  }

  lemma {:induction false} StepGrows(call: OpCall, o: Outcome)
    ensures Grows(o, ExecOne(call, o))
  {
    if o.frame.Some? && LogOf(OperatorOf(call), o.frame.value).Some? {
      CommitSplits(OperatorOf(call), o.frame.value, LogOf(OperatorOf(call), o.frame.value).value);
    }
  }

  lemma {:induction false} PerformGrows(code: Code, o: Outcome)
    ensures Grows(o, Perform(code, o))
    decreases code
  {
    match code
    case Done =>
    case Do(call, next) =>
      StepGrows(call, o);
      PerformGrows(next, ExecOne(call, o));
    case If(cond, body, more, next) =>
      PerformGrows(body, o);
      BranchesGrow(more, o);
      PerformGrows(next, PerformBlock(code, o));
    case Include(_, body, next) =>
      PerformGrows(body, o);
      PerformGrows(next, Perform(body, o));
  }

  lemma {:induction false} BranchesGrow(branches: Branches, o: Outcome)
    ensures Grows(o, PerformBranches(branches, o))
    decreases branches
  {
    match branches
    case EndIf =>
    case ElseIf(_, body, more) =>
      PerformGrows(body, o);
      BranchesGrow(more, o);
    case Else(body) => PerformGrows(body, o);
  }

  lemma {:induction false} CoverageGrows(branches: Branches, o: Outcome, o1: Outcome)
    requires Covered(branches, o) && Grows(o, o1)
    ensures Covered(branches, o1)
  {
    if branches.ElseIf? { CoverageGrows(branches.more, o, o1); }
  }

  /** Fields that are present when a block is entered are enough. */
  lemma {:induction false} FurnishedProvides(code: Code, o: Outcome)
    requires Furnished(code, o)
    ensures Provided(code, o)
    decreases code
  {
    match code
    case Done =>
    case Do(call, next) => FurnishedProvides(next, ExecOne(call, o));
    case If(cond, body, more, next) =>
      if o.frame.Some? && Judge(cond, o.frame.value.common).Some? {
        if Judge(cond, o.frame.value.common).value {
          FurnishedProvides(body, o);
          PerformGrows(body, o);
          CoverageGrows(more, o, Perform(body, o));
        } else {
          FurnishedBranchesProvide(more, o);
        }
      }
      FurnishedProvides(next, PerformBlock(code, o));
    case Include(_, body, next) =>
      FurnishedProvides(body, o);
      FurnishedProvides(next, Perform(body, o));
  }

  lemma {:induction false} FurnishedBranchesProvide(branches: Branches, o: Outcome)
    requires FurnishedBranches(branches, o) && Covered(branches, o)
    ensures ProvidedBranches(branches, o)
    decreases branches
  {
    match branches
    case EndIf =>
    case ElseIf(cond, body, more) =>
      if o.frame.Some? && Judge(cond, o.frame.value.common).Some? {
        if Judge(cond, o.frame.value.common).value {
          FurnishedProvides(body, o);
          PerformGrows(body, o);
          CoverageGrows(more, o, Perform(body, o));
        } else {
          FurnishedBranchesProvide(more, o);
        }
      }
    case Else(body) => FurnishedProvides(body, o);
  }

  /** The fields that any condition asks for. */
  function Asked(code: Code): set<string> {
    match code
    case Done => {}
    case Do(_, next) => Asked(next)
    case If(cond, body, more, next) => Elements(cond.fields) + Asked(body) + AskedByBranches(more) + Asked(next)
    case Include(_, body, next) => Asked(body) + Asked(next)
  }

  function AskedByBranches(branches: Branches): set<string> {
    match branches
    case EndIf => {}
    case ElseIf(cond, body, more) => Elements(cond.fields) + Asked(body) + AskedByBranches(more)
    case Else(body) => Asked(body)
  }

  predicate Holding(fields: set<string>, o: Outcome) {
    o.frame.Some? ==> fields <= o.frame.value.common.Keys
  }

  /** A request that supplies every field that conditions ask for is served as declared, whatever the operators do. */
  lemma {:induction false} SuppliedFurnishes(code: Code, o: Outcome)
    requires Holding(Asked(code), o)
    ensures Furnished(code, o)
    decreases code
  {
    match code
    case Done =>
    case Do(call, next) =>
      StepGrows(call, o);
      SuppliedFurnishes(next, ExecOne(call, o));
    case If(cond, body, more, next) =>
      SuppliedFurnishes(body, o);
      SuppliedBranches(more, o);
      PerformGrows(body, o);
      BranchesGrow(more, o);
      SuppliedFurnishes(next, PerformBlock(code, o));
    case Include(_, body, next) =>
      SuppliedFurnishes(body, o);
      PerformGrows(body, o);
      SuppliedFurnishes(next, Perform(body, o));
  }

  lemma {:induction false} SuppliedBranches(branches: Branches, o: Outcome)
    requires Holding(AskedByBranches(branches), o)
    ensures FurnishedBranches(branches, o) && Covered(branches, o)
    decreases branches
  {
    match branches
    case EndIf =>
    case ElseIf(_, body, more) =>
      SuppliedFurnishes(body, o);
      SuppliedBranches(more, o);
    case Else(body) => SuppliedFurnishes(body, o);
  }
}
