/** What hooks can do to a bulk save: when every mutation in the batch is checked,
    when the save is all or nothing, and when the dropped error of defaults is
    reported all the same (backend/ent/account_create.go:2386-2443). */
module BulkCreateLaws {
  import opened Wrappers
  import opened AccountRow
  import opened BulkCreate

  // ----------------------------------------------------------- what is checked

  /** Hooks hand on the mutation they were given, changed or not. */
  predicate KeepsMutation(hooks: seq<Hook>) {
    forall i :: 0 <= i < |hooks| ==> hooks[i].swaps.None?
  }

  lemma {:induction false} KeptIsOwn(hooks: seq<Hook>, m: Mutation)
    requires KeepsMutation(hooks)
    ensures Passed(hooks, m) == OwnAfter(hooks, m)
    decreases |hooks|
  {
    if hooks != [] {
      assert forall i :: 0 <= i < |hooks[1..]| ==> hooks[1..][i] == hooks[i + 1];
      KeptIsOwn(hooks[1..], hooks[0].edits(m));
    }
  }

  /** The batch holds the specs of the builders in order. When no hook hands on
      another mutation, each of them is the spec of a mutation that passed its
      check. */
  lemma BatchIsChecked(s: Setup)
    requires s.Valid() && s.PlanOf().Sent()
    requires forall i :: 0 <= i < |s.hooks| ==> KeepsMutation(s.hooks[i])
    ensures forall i :: 0 <= i < |s.mutations| ==>
              s.Batch()[i] == SpecOf(s.Checked(i)) && Checks(s.Checked(i).fields, s.accepts)
  {
    forall i | 0 <= i < |s.mutations|
      ensures s.Batch()[i] == SpecOf(s.Checked(i)) && Checks(s.Checked(i).fields, s.accepts)
    {
      KeptIsOwn(s.hooks[i], s.mutations[i]);
      assert s.PlanOf().checks[i];
    }
  }

  /** Every spec in the batch is of a mutation that would pass its check. */
  ghost predicate BatchPasses(s: Setup)
    requires s.Valid()
  {
    forall i :: 0 <= i < |s.mutations| ==> Checks(s.Handed(i).fields, s.accepts)
  }

  /** With these hooks no batch is ever sent with a mutation that would not pass. */
  ghost predicate AlwaysChecked(hooks: seq<seq<Hook>>) {
    forall s: Setup :: s.Valid() && s.hooks == hooks && s.PlanOf().Sent() ==> BatchPasses(s)
  }

  /** What a builder's check sees behind its hooks. */
  function OwnFields(stack: seq<Hook>, m: Mutation): Fields {
    OwnAfter(stack, m).fields
  }

  /** Some mutation can pass the check behind these hooks. */
  ghost predicate CanPass(stack: seq<Hook>) {
    exists m :: RequiredSet(OwnFields(stack, m))
  }

  ghost predicate AllCanPass(hooks: seq<seq<Hook>>) {
    forall j :: 0 <= j < |hooks| ==> CanPass(hooks[j])
  }

  /** Behind these hooks the check sees value `v` in column `c` of any complete
      mutation. */
  ghost predicate Forces(stack: seq<Hook>, c: Column, v: Value) {
    forall m: Mutation :: RequiredSet(OwnFields(stack, m)) ==> Lookup(OwnFields(stack, m), c) == Some(v)
  }

  ghost predicate Forced(hooks: seq<seq<Hook>>, c: Column, v: Value) {
    exists j :: 0 <= j < |hooks| && Forces(hooks[j], c, v)
  }

  /** What builder `i` hands on from `m` is complete, and each value of it that has
      a validator is the builder's own or one that some builder's hooks force:
      either way a check sees it. */
  ghost predicate Vetted(hooks: seq<seq<Hook>>, i: nat, m: Mutation)
    requires i < |hooks|
  {
    var f, own := Passed(hooks[i], m).fields, OwnFields(hooks[i], m);
    && RequiredSet(f)
    && forall c :: IsValidated(c) && c in f ==> Lookup(own, c) == Some(f[c]) || Forced(hooks, c, f[c])
  }

  ghost predicate AlwaysVetted(hooks: seq<seq<Hook>>) {
    AllCanPass(hooks) ==>
      forall i, m :: 0 <= i < |hooks| && RequiredSet(OwnFields(hooks[i], m)) ==> Vetted(hooks, i, m)
  }

  lemma SentIsComplete(s: Setup, j: nat)
    requires s.Valid() && s.PlanOf().Sent() && j < |s.mutations|
    ensures RequiredSet(OwnFields(s.hooks[j], s.mutations[j]))
    ensures ValidatedOk(OwnFields(s.hooks[j], s.mutations[j]), s.accepts)
  {
    assert s.PlanOf().checks[j];
    ChecksExactly(s.Checked(j).fields, s.accepts);
  }

  lemma VettedPasses(s: Setup, i: nat)
    requires s.Valid() && s.PlanOf().Sent() && i < |s.mutations| && Vetted(s.hooks, i, s.mutations[i])
    ensures Checks(s.Handed(i).fields, s.accepts)
  {
    var f := s.Handed(i).fields;
    SentIsComplete(s, i);
    forall c | IsValidated(c) && c in f ensures s.accepts(c, f[c]) {
      if Lookup(OwnFields(s.hooks[i], s.mutations[i]), c) != Some(f[c]) {
        var j :| 0 <= j < |s.hooks| && Forces(s.hooks[j], c, f[c]);
        SentIsComplete(s, j);
      }
    }
    ChecksExactly(f, s.accepts);
  }

  lemma VettedAreChecked(hooks: seq<seq<Hook>>)
    requires AlwaysVetted(hooks)
    ensures AlwaysChecked(hooks)
  {
    forall s: Setup | s.Valid() && s.hooks == hooks && s.PlanOf().Sent() ensures BatchPasses(s) {
      forall j | 0 <= j < |s.mutations| ensures RequiredSet(OwnFields(s.hooks[j], s.mutations[j])) {
        SentIsComplete(s, j);
      }
      forall i | 0 <= i < |s.mutations| ensures Checks(s.Handed(i).fields, s.accepts) {
        VettedPasses(s, i);
      }
    }
  }

  /** Validators that reject nothing but value `v` in column `c`. */
  function Rejecting(c: Column, v: Value): (Column, Value) -> bool {
    (d: Column, w: Value) => d != c || w != v
  }

  /** A batch of complete mutations in which no check sees that value is sent; so
      none of them may hand on a mutation that fails. */
  lemma UnseenFails(hooks: seq<seq<Hook>>, ms: seq<Mutation>, i: nat, c: Column, v: Value)
    requires |ms| == |hooks| && i < |hooks|
    requires forall j :: 0 <= j < |hooks| ==> RequiredSet(OwnFields(hooks[j], ms[j]))
    requires forall j :: 0 <= j < |hooks| ==> IsValidated(c) ==> Lookup(OwnFields(hooks[j], ms[j]), c) != Some(v)
    requires !Checks(Passed(hooks[i], ms[i]).fields, Rejecting(c, v))
    ensures !AlwaysChecked(hooks)
  {
    var s := Setup(ms, hooks, Rejecting(c, v), None);
    forall j | 0 <= j < |hooks| ensures s.PlanOf().checks[j] {
      ChecksExactly(OwnFields(hooks[j], ms[j]), Rejecting(c, v));
    }
    assert s.Valid() && s.PlanOf().Sent();
    assert !Checks(s.Handed(i).fields, s.accepts);
    assert !BatchPasses(s);
  }

  ghost function Passing(stack: seq<Hook>): (m: Mutation)
    requires CanPass(stack)
    ensures RequiredSet(OwnFields(stack, m))
  {
    var m :| RequiredSet(OwnFields(stack, m));
    m
  }

  ghost function PassingWithout(stack: seq<Hook>, c: Column, v: Value): (m: Mutation)
    requires !Forces(stack, c, v)
    ensures RequiredSet(OwnFields(stack, m)) && Lookup(OwnFields(stack, m), c) != Some(v)
  {
    var m :| RequiredSet(OwnFields(stack, m)) && Lookup(OwnFields(stack, m), c) != Some(v);
    m
  }

  lemma IncompleteFails(hooks: seq<seq<Hook>>, i: nat, m: Mutation)
    requires i < |hooks| && AllCanPass(hooks) && RequiredSet(OwnFields(hooks[i], m))
    requires !RequiredSet(Passed(hooks[i], m).fields)
    ensures !AlwaysChecked(hooks)
  {
    var ms := seq(|hooks|, j requires 0 <= j < |hooks| => if j == i then m else Passing(hooks[j]));
    ChecksExactly(Passed(hooks[i], m).fields, Rejecting(Id, Str("")));
    UnseenFails(hooks, ms, i, Id, Str(""));
  }

  /** Mutations of the other builders in which their checks do not see `v`. */
  ghost function OthersWithout(hooks: seq<seq<Hook>>, i: nat, m: Mutation, c: Column, v: Value): (ms: seq<Mutation>)
    requires !Forced(hooks, c, v)
    ensures |ms| == |hooks| && (i < |hooks| ==> ms[i] == m)
    ensures forall j :: 0 <= j < |hooks| && j != i ==>
              RequiredSet(OwnFields(hooks[j], ms[j])) && Lookup(OwnFields(hooks[j], ms[j]), c) != Some(v)
  {
    seq(|hooks|, j requires 0 <= j < |hooks| => if j == i then m else PassingWithout(hooks[j], c, v))
  }

  lemma UnforcedFails(hooks: seq<seq<Hook>>, i: nat, m: Mutation, c: Column, v: Value)
    requires i < |hooks| && RequiredSet(OwnFields(hooks[i], m))
    requires IsValidated(c) && Lookup(Passed(hooks[i], m).fields, c) == Some(v)
    requires Lookup(OwnFields(hooks[i], m), c) != Some(v) && !Forced(hooks, c, v)
    ensures !AlwaysChecked(hooks)
  {
    var f := Passed(hooks[i], m).fields;
    ChecksExactly(f, Rejecting(c, v));
    assert c in f && f[c] == v;
    UnseenFails(hooks, OthersWithout(hooks, i, m, c, v), i, c, v);
  }

  lemma CheckedAreVetted(hooks: seq<seq<Hook>>, i: nat, m: Mutation)
    requires AlwaysChecked(hooks) && AllCanPass(hooks) && i < |hooks| && RequiredSet(OwnFields(hooks[i], m))
    ensures Vetted(hooks, i, m)
  {
    var f, own := Passed(hooks[i], m).fields, OwnFields(hooks[i], m);
    if !RequiredSet(f) {
      IncompleteFails(hooks, i, m);
    } else if c :| IsValidated(c) && c in f && Lookup(own, c) != Some(f[c]) && !Forced(hooks, c, f[c]) {
      UnforcedFails(hooks, i, m, c, f[c]);
    }
  }

  /** Exactly when: with given hooks no mutation that fails its check ever enters a
      batch, if and only if no batch can be sent at all, or whatever a builder
      hands on from a mutation that can pass is complete and has only validated
      values that its own mutation has too, or that some builder's hooks force on
      every mutation. */
  lemma CheckedExactly(hooks: seq<seq<Hook>>)
    ensures AlwaysChecked(hooks) <==> AlwaysVetted(hooks)
  {
    if AlwaysChecked(hooks) && AllCanPass(hooks) {
      forall i, m | 0 <= i < |hooks| && RequiredSet(OwnFields(hooks[i], m)) ensures Vetted(hooks, i, m) {
        CheckedAreVetted(hooks, i, m);
      }
    }
    if AlwaysVetted(hooks) {
      VettedAreChecked(hooks);
    }
  }

  // ------------------------------------------------- hooks that change nothing in place

  ghost predicate Unedited(stack: seq<Hook>) {
    forall k, m :: 0 <= k < |stack| ==> stack[k].edits(m) == m
  }

  lemma {:induction false} UneditedIsOwn(stack: seq<Hook>, m: Mutation)
    requires Unedited(stack)
    ensures OwnAfter(stack, m) == m
    decreases |stack|
  {
    if stack != [] {
      assert stack[0].edits(m) == m;
      assert Unedited(stack[1..]) by {
        forall k, n | 0 <= k < |stack[1..]| ensures stack[1..][k].edits(n) == n {
          assert stack[1..][k] == stack[k + 1];
        }
      }
      UneditedIsOwn(stack[1..], m);
    }
  }

  /** All required columns set, none to `v`. */
  function Complete(v: Value): Mutation {
    var w := if v == Str("") then Str("x") else Str("");
    Mutation(map[
      CreatedAt := w, UpdatedAt := w, Name := w, Platform := w, Type := w, Credentials := w, Extra := w,
      Concurrency := w, Priority := w, RateMultiplier := w, Status := w, AutoPauseOnExpired := w, Schedulable := w,
      QuotaDimension := w, ConfigVersion := w], None, None, None, map[])
  }

  lemma CompleteIs(v: Value)
    ensures RequiredSet(Complete(v).fields)
    ensures forall c :: Lookup(Complete(v).fields, c) != Some(v)
  {}

  lemma UneditedForcesNothing(stack: seq<Hook>, c: Column, v: Value)
    requires Unedited(stack)
    ensures CanPass(stack) && !Forces(stack, c, v)
  {
    CompleteIs(v);
    UneditedIsOwn(stack, Complete(v));
    assert RequiredSet(OwnFields(stack, Complete(v)));
  }

  /** `f` is complete and has no validated value that `own` has not. */
  ghost predicate PassesWhen(f: Fields, own: Fields) {
    RequiredSet(f) && forall c :: IsValidated(c) && c in f ==> Lookup(own, c) == Some(f[c])
  }

  /** Whatever a builder hands on from a complete mutation is complete and has no
      validated value that mutation has not. */
  ghost predicate HandsOnChecked(hooks: seq<seq<Hook>>) {
    forall i, m: Mutation :: 0 <= i < |hooks| && RequiredSet(m.fields) ==> PassesWhen(Passed(hooks[i], m).fields, m.fields)
  }

  lemma UneditedVetted(hooks: seq<seq<Hook>>, i: nat, m: Mutation)
    requires i < |hooks| && forall j :: 0 <= j < |hooks| ==> Unedited(hooks[j])
    ensures OwnFields(hooks[i], m) == m.fields
    ensures Vetted(hooks, i, m) <==> PassesWhen(Passed(hooks[i], m).fields, m.fields)
  {
    UneditedIsOwn(hooks[i], m);
    forall j, c, v | 0 <= j < |hooks| ensures !Forces(hooks[j], c, v) {
      UneditedForcesNothing(hooks[j], c, v);
    }
  }

  lemma VettedHandOn(hooks: seq<seq<Hook>>)
    requires forall i :: 0 <= i < |hooks| ==> Unedited(hooks[i])
    requires AlwaysVetted(hooks)
    ensures HandsOnChecked(hooks)
  {
    forall i | 0 <= i < |hooks| ensures CanPass(hooks[i]) {
      UneditedForcesNothing(hooks[i], Name, Str(""));
    }
    forall i, m: Mutation | 0 <= i < |hooks| && RequiredSet(m.fields)
      ensures PassesWhen(Passed(hooks[i], m).fields, m.fields)
    {
      UneditedVetted(hooks, i, m);
    }
  }

  lemma HandedOnVetted(hooks: seq<seq<Hook>>)
    requires forall i :: 0 <= i < |hooks| ==> Unedited(hooks[i])
    requires HandsOnChecked(hooks)
    ensures AlwaysVetted(hooks)
  {
    if !AlwaysVetted(hooks) {
      var i, m := Unvetted(hooks);
      HandsOnAt(hooks, i, m);
    }
  }

  lemma Unvetted(hooks: seq<seq<Hook>>) returns (i: nat, m: Mutation)
    requires !AlwaysVetted(hooks)
    ensures i < |hooks| && RequiredSet(OwnFields(hooks[i], m)) && !Vetted(hooks, i, m)
  {
    i, m :| 0 <= i < |hooks| && RequiredSet(OwnFields(hooks[i], m)) && !Vetted(hooks, i, m);
  }

  lemma HandsOnAt(hooks: seq<seq<Hook>>, i: nat, m: Mutation)
    requires forall j :: 0 <= j < |hooks| ==> Unedited(hooks[j])
    requires HandsOnChecked(hooks) && i < |hooks| && RequiredSet(OwnFields(hooks[i], m))
    ensures Vetted(hooks, i, m)
  {
    UneditedVetted(hooks, i, m);
    assert PassesWhen(Passed(hooks[i], m).fields, m.fields);
  }

  /** For hooks that change nothing in place: if and only if that holds of what
      they hand on. */
  lemma UneditedCheckedExactly(hooks: seq<seq<Hook>>)
    requires forall i :: 0 <= i < |hooks| ==> Unedited(hooks[i])
    ensures AlwaysChecked(hooks) <==> HandsOnChecked(hooks)
  {
    CheckedExactly(hooks);
    if AlwaysVetted(hooks) {
      VettedHandOn(hooks);
    }
    if HandsOnChecked(hooks) {
      HandedOnVetted(hooks);
    }
  }

  /** A hook that hands on a copy of the mutation is always checked. */
  lemma CopyIsChecked(judges: (Mutation, bool) -> bool)
    ensures AlwaysChecked([[Hook(m => m, Some(m => m), judges)]])
  {
    var stack := [Hook(m => m, Some(m => m), judges)];
    assert stack[1..] == [];
    forall m ensures Passed(stack, m) == m {
      assert Passed(stack, m) == Passed([], m);
    }
    UneditedCheckedExactly([stack]);
  }

  /** The check looks at the builder's own mutation, before it is replaced by
      the one a hook handed on: that one enters the batch unchecked. */
  lemma SwappedMutationIsUnchecked(m: Mutation, other: Mutation, accepts: (Column, Value) -> bool)
    requires Checks(m.fields, accepts)
    ensures var s := Setup([m], [[Hook(n => n, Some(n => other), (n, ok) => ok)]], accepts, None);
            s.Valid() && s.PlanOf().Sent() && s.Batch() == [SpecOf(other)]
  {
    var hooks := [Hook(n => n, Some(n => other), (n, ok) => ok)];
    var s := Setup([m], [hooks], accepts, None);
    assert OwnAfter(hooks, m) == m;
    assert s.PlanOf().checks[0];
    assert hooks[1..] == [];
    assert Passed(hooks, m) == Passed([], other) == other;
    assert s.Batch()[0] == SpecOf(other);
  }

  // -------------------------------------------------------- all or nothing by hooks

  /** With these hooks a bulk save is all or nothing, whatever the mutations, the
      validators and the database. */
  ghost predicate AlwaysAllOrNothing(hooks: seq<seq<Hook>>) {
    forall s: Setup :: s.Valid() && s.hooks == hooks ==> s.PlanOf().AllOrNothing()
  }

  ghost predicate ReportsErrors(stack: seq<Hook>) {
    forall m :: !Returned(VerdictsOf(stack, m), false)
  }

  ghost predicate KeepsSuccess(stack: seq<Hook>) {
    forall m :: RequiredSet(OwnFields(stack, m)) ==> Returned(VerdictsOf(stack, m), true)
  }

  /** Some save calls mutator `i`. */
  ghost predicate CanReach(hooks: seq<seq<Hook>>, i: nat)
    requires i <= |hooks|
  {
    forall j :: 0 <= j < i ==> CanPass(hooks[j])
  }

  /** Stacks that can be called report every error, and if a batch can be sent at
      all, no stack fails after a mutation that can pass. */
  ghost predicate Faithful(hooks: seq<seq<Hook>>) {
    && (forall i :: 0 <= i < |hooks| && CanReach(hooks, i) ==> ReportsErrors(hooks[i]))
    && (AllCanPass(hooks) ==> forall i :: 0 <= i < |hooks| ==> KeepsSuccess(hooks[i]))
  }

  lemma CheckedCanPass(s: Setup, j: nat)
    requires s.Valid() && j < |s.mutations| && s.PlanOf().checks[j]
    ensures RequiredSet(OwnFields(s.hooks[j], s.mutations[j])) && CanPass(s.hooks[j])
  {
    ChecksExactly(s.Checked(j).fields, s.accepts);
  }

  lemma ReachedCanReach(s: Setup, i: nat)
    requires s.Valid() && i <= |s.mutations| && s.PlanOf().Reached(i)
    ensures CanReach(s.hooks, i)
  {
    forall j | 0 <= j < i ensures CanPass(s.hooks[j]) {
      CheckedCanPass(s, j);
    }
  }

  /** Every mutator that is called succeeds exactly when the batch is sent and
      accepted, if the verdicts behind it lose no error and no success of a batch. */
  lemma {:induction false} FateOfPlan(p: Plan, i: nat)
    requires p.Valid() && i < |p.checks| && p.Reached(i)
    requires forall j :: i < j < |p.checks| && p.Reached(j) ==> !Returned(p.verdicts[j], false)
    requires forall j :: i < j < |p.checks| && p.Sent() ==> Returned(p.verdicts[j], true)
    ensures p.InnerOk(i) <==> p.Sent() && p.answered
    decreases |p.checks| - i
  {
    if p.checks[i] && i + 1 < |p.checks| {
      assert p.Reached(i + 1);
      FateOfPlan(p, i + 1);
    }
  }

  lemma FateOf(s: Setup, i: nat)
    requires s.Valid() && Faithful(s.hooks) && i < |s.mutations| && s.PlanOf().Reached(i)
    ensures s.PlanOf().InnerOk(i) <==> s.PlanOf().Sent() && s.PlanOf().answered
  {
    var p := s.PlanOf();
    forall j | i < j < |p.checks| && p.Reached(j) ensures !Returned(p.verdicts[j], false) {
      FaithfulReturns(s, j);
    }
    forall j | i < j < |p.checks| && p.Sent() ensures Returned(p.verdicts[j], true) {
      assert p.Reached(j);
      FaithfulReturns(s, j);
    }
    FateOfPlan(p, i);
  }

  lemma FaithfulReturns(s: Setup, i: nat)
    requires s.Valid() && Faithful(s.hooks) && i < |s.mutations| && s.PlanOf().Reached(i)
    ensures !Returned(s.PlanOf().verdicts[i], false)
    ensures s.PlanOf().Sent() ==> Returned(s.PlanOf().verdicts[i], true)
  {
    ReachedCanReach(s, i);
    assert !Returned(VerdictsOf(s.hooks[i], s.mutations[i]), false);
    if s.PlanOf().Sent() {
      ReachedCanReach(s, |s.mutations|);
      CheckedCanPass(s, i);
      assert KeepsSuccess(s.hooks[i]);
    }
  }

  lemma FaithfulIsAllOrNothing(s: Setup)
    requires s.Valid() && Faithful(s.hooks)
    ensures s.PlanOf().AllOrNothing()
  {
    var p := s.PlanOf();
    if |s.mutations| > 0 {
      FateOf(s, 0);
      FaithfulReturns(s, 0);
      forall i | 0 <= i < |s.mutations| ensures p.Done(i) <==> p.Sent() && p.answered {
        if p.Reached(i) {
          FateOf(s, i);
        }
      }
    }
  }

  /** Builder `i` has mutation `m`, the others have ones that can pass, if any can;
      validators accept everything. */
  ghost function Lenient(hooks: seq<seq<Hook>>, i: nat, m: Mutation, answered: bool): (s: Setup)
    ensures s.Valid() && s.hooks == hooks && s.accepts == AcceptAll() && (s.answer.Some? <==> answered)
    ensures i < |hooks| ==> s.mutations[i] == m
    ensures forall j :: 0 <= j < |hooks| && j != i && CanPass(hooks[j]) ==>
              RequiredSet(OwnFields(hooks[j], s.mutations[j]))
  {
    Setup(seq(|hooks|, j requires 0 <= j < |hooks| => if j != i && CanPass(hooks[j]) then Passing(hooks[j]) else m),
          hooks, AcceptAll(), if answered then Some(seq(|hooks|, _ => None)) else None)
  }

  lemma LenientChecks(s: Setup, j: nat)
    requires s.Valid() && j < |s.mutations| && s.accepts == AcceptAll()
    ensures s.PlanOf().checks[j] <==> RequiredSet(OwnFields(s.hooks[j], s.mutations[j]))
  {
    ChecksExactly(s.Checked(j).fields, s.accepts);
  }

  /** Without an answer nothing succeeds from mutator `i` on, if later stacks report errors. */
  lemma {:induction false} UnansweredFails(s: Setup, i: nat)
    requires s.Valid() && i < |s.mutations| && s.answer.None? && CanReach(s.hooks, i)
    requires forall j :: i < j < |s.hooks| && CanReach(s.hooks, j) ==> ReportsErrors(s.hooks[j])
    ensures !s.PlanOf().InnerOk(i)
    decreases |s.mutations| - i
  {
    if s.PlanOf().checks[i] && i + 1 < |s.mutations| {
      CheckedCanPass(s, i);
      UnansweredFails(s, i + 1);
      assert !Returned(VerdictsOf(s.hooks[i + 1], s.mutations[i + 1]), false);
    }
  }

  /** An error that stack `i` hides shows: the mutation before it is done, or the
      save succeeds, without an answer. */
  lemma HiddenErrorShows(s: Setup, i: nat)
    requires s.Valid() && i < |s.mutations| && s.answer.None? && s.PlanOf().Reached(i)
    requires !s.PlanOf().InnerOk(i) && Returned(s.PlanOf().verdicts[i], false)
    ensures !s.PlanOf().AllOrNothing()
  {
    if i > 0 {
      assert s.PlanOf().InnerOk(i - 1);
      assert s.PlanOf().Done(i - 1);
    }
  }

  lemma {:induction false} ErrorsAreReported(hooks: seq<seq<Hook>>, i: nat)
    requires AlwaysAllOrNothing(hooks) && i < |hooks| && CanReach(hooks, i)
    ensures ReportsErrors(hooks[i])
    decreases |hooks| - i
  {
    forall j | i < j < |hooks| && CanReach(hooks, j) ensures ReportsErrors(hooks[j]) {
      ErrorsAreReported(hooks, j);
    }
    forall m ensures !Returned(VerdictsOf(hooks[i], m), false) {
      var s := Lenient(hooks, i, m, false);
      forall j | 0 <= j < i ensures s.PlanOf().checks[j] {
        LenientChecks(s, j);
      }
      UnansweredFails(s, i);
      assert s.PlanOf().AllOrNothing();
      if Returned(s.PlanOf().verdicts[i], false) {
        HiddenErrorShows(s, i);
      }
    }
  }

  /** In an accepted batch everything succeeds from mutator `i` on, if later verdicts keep success. */
  lemma {:induction false} AnsweredSucceeds(p: Plan, i: nat)
    requires p.Valid() && i < |p.checks| && p.answered
    requires forall j :: 0 <= j < |p.checks| ==> p.checks[j]
    requires forall j :: i < j < |p.checks| ==> Returned(p.verdicts[j], true)
    ensures p.InnerOk(i)
    decreases |p.checks| - i
  {
    if i + 1 < |p.checks| {
      AnsweredSucceeds(p, i + 1);
    }
  }

  /** A success that stack `i` turns into an error shows: its mutation is done, and
      the save fails or the mutation before it is not done. */
  lemma LostSuccessShows(s: Setup, i: nat)
    requires s.Valid() && i < |s.mutations| && s.PlanOf().Reached(i)
    requires s.PlanOf().InnerOk(i) && !Returned(s.PlanOf().verdicts[i], true)
    ensures !s.PlanOf().AllOrNothing()
  {
    assert s.PlanOf().Done(i);
    if i > 0 {
      assert !s.PlanOf().Done(i - 1);
    }
  }

  lemma {:induction false} SuccessIsKept(hooks: seq<seq<Hook>>, i: nat)
    requires AlwaysAllOrNothing(hooks) && AllCanPass(hooks) && i < |hooks|
    ensures KeepsSuccess(hooks[i])
    decreases |hooks| - i
  {
    forall j | i < j < |hooks| ensures KeepsSuccess(hooks[j]) {
      SuccessIsKept(hooks, j);
    }
    forall m | RequiredSet(OwnFields(hooks[i], m)) ensures Returned(VerdictsOf(hooks[i], m), true) {
      var s := Lenient(hooks, i, m, true);
      forall j | 0 <= j < |hooks| ensures s.PlanOf().checks[j] {
        LenientChecks(s, j);
      }
      forall j | i < j < |hooks| ensures Returned(s.PlanOf().verdicts[j], true) {
        CheckedCanPass(s, j);
        assert KeepsSuccess(s.hooks[j]);
      }
      AnsweredSucceeds(s.PlanOf(), i);
      assert s.PlanOf().AllOrNothing();
      if !Returned(s.PlanOf().verdicts[i], true) {
        LostSuccessShows(s, i);
      }
    }
  }

  /** Exactly when: with given hooks, which may judge by the mutation they are given,
      a bulk save is all or nothing whatever the mutations, the validators and the
      database, if and only if every stack that can be called reports every error,
      and no stack fails after a mutation that can pass, unless no batch can be
      sent at all. */
  lemma HooksAllOrNothingExactly(hooks: seq<seq<Hook>>)
    ensures AlwaysAllOrNothing(hooks) <==> Faithful(hooks)
  {
    if AlwaysAllOrNothing(hooks) {
      forall i | 0 <= i < |hooks| && CanReach(hooks, i) ensures ReportsErrors(hooks[i]) {
        ErrorsAreReported(hooks, i);
      }
      if AllCanPass(hooks) {
        forall i | 0 <= i < |hooks| ensures KeepsSuccess(hooks[i]) {
          SuccessIsKept(hooks, i);
        }
      }
    }
    if Faithful(hooks) {
      forall s: Setup | s.Valid() && s.hooks == hooks ensures s.PlanOf().AllOrNothing() {
        FaithfulIsAllOrNothing(s);
      }
    }
  }

  // ------------------------------------------------------ the dropped error of defaults

  /** Behind these hooks the check refuses every builder whose defaults ended with
      an error, whatever was set, whichever default functions are missing and
      whatever the validators accept. */
  ghost predicate ErrorIsReported(stack: seq<Hook>) {
    forall draft: Fields, given: Fields, m: Mutation, accepts: (Column, Value) -> bool ::
      ConstantsGiven(given) && Defaulted(draft, given, m.fields, false) ==> !Checks(OwnFields(stack, m), accepts)
  }

  ghost predicate ConstantsGiven(given: Fields) {
    forall c :: c in CONSTANT ==> c in given
  }

  /** The hooks leave a mutation incomplete that lacks a computed default. */
  ghost predicate LeavesIncomplete(stack: seq<Hook>) {
    forall m: Mutation :: RequiredSet(OwnFields(stack, m)) ==> forall c :: c in COMPUTED ==> c in m.fields
  }

  function AcceptAll(): (Column, Value) -> bool {
    (c: Column, v: Value) => true
  }

  function OnlyConstants(): Fields {
    map c | c in CONSTANT :: Str("")
  }

  lemma CompletedIsUnreported(stack: seq<Hook>, m: Mutation, c: Column)
    requires RequiredSet(OwnFields(stack, m)) && c in COMPUTED && c !in m.fields
    ensures !ErrorIsReported(stack)
  {
    var given := OnlyConstants();
    assert c !in given by {
      InComputed(c);
      InConstant(c);
    }
    assert ConstantsGiven(given) && Defaulted(m.fields, given, m.fields, false);
    ChecksExactly(OwnFields(stack, m), AcceptAll());
  }

  /** Exactly when: a bulk save drops the error of defaults, and its check refuses
      the same builders if and only if no hook completes a mutation that lacks a
      computed default. */
  lemma ErrorIsReportedExactly(stack: seq<Hook>)
    ensures ErrorIsReported(stack) <==> LeavesIncomplete(stack)
  {
    if ErrorIsReported(stack) {
      forall m: Mutation, c | RequiredSet(OwnFields(stack, m)) && c in COMPUTED ensures c in m.fields {
        if c !in m.fields {
          CompletedIsUnreported(stack, m, c);
        }
      }
    }
    if LeavesIncomplete(stack) {
      forall draft: Fields, given: Fields, m: Mutation, accepts: (Column, Value) -> bool |
        ConstantsGiven(given) && Defaulted(draft, given, m.fields, false)
        ensures !Checks(OwnFields(stack, m), accepts)
      {
        ChecksExactly(OwnFields(stack, m), accepts);
      }
    }
  }

  /** A hook that sets what is missing: defaults failed, and yet the batch is sent. */
  lemma CompletingHookHidesError(m: Mutation, given: Fields)
    requires ConstantsGiven(given) && CreatedAt !in given && m.fields == map[]
    ensures var s := Setup([m], [[Hook(n => Complete(Str("")), None, (n, ok) => ok)]], AcceptAll(), None);
            Defaulted(m.fields, given, m.fields, false) && s.Valid() && s.PlanOf().Sent()
  {
    var hooks := [Hook(n => Complete(Str("")), None, (n, ok) => ok)];
    var s := Setup([m], [hooks], AcceptAll(), None);
    InComputed(CreatedAt);
    CompleteIs(Str(""));
    assert hooks[1..] == [];
    assert OwnAfter(hooks, m) == OwnAfter([], Complete(Str(""))) == Complete(Str(""));
    ChecksExactly(s.Checked(0).fields, s.accepts);
    assert s.PlanOf().checks[0];
  }

  /** The check of one builder behind its hooks: it passes if and only if the hooks
      set every required column that defaults left out, keep the other ones, and
      the validators accept; and defaults left none out if and only if it ended
      without error and name, platform and type were set. */
  lemma ChecksBehindHooks(draft: Fields, given: Fields, m: Mutation, ok: bool, stack: seq<Hook>,
                          accepts: (Column, Value) -> bool)
    requires Defaulted(draft, given, m.fields, ok)
    requires Name !in given && Platform !in given && Type !in given
    ensures var own := OwnFields(stack, m);
            Checks(own, accepts) <==>
              && (forall c :: IsRequired(c) && c !in m.fields ==> c in own)
              && (forall c :: IsRequired(c) && c in m.fields ==> c in own)
              && ValidatedOk(own, accepts)
    ensures RequiredSet(m.fields) <==> ok && Name in draft && Platform in draft && Type in draft
  {
    ChecksExactly(OwnFields(stack, m), accepts);
    ChecksAfterDefaults(draft, given, m.fields, ok, AcceptAll());
    ChecksExactly(m.fields, AcceptAll());
  }
}
