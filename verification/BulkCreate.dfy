/** AccountCreateBulk.Save: a chain of mutators, one per builder, each wrapped
    in its hooks, that ends in one batch insert
    (backend/ent/account_create.go:2386-2443). */
module BulkCreate {
  import opened Wrappers
  import opened AccountRow

  /** A hook may change the mutation it was given, in place; it calls its next
      mutator exactly once, with that mutation or another one, such as a copy; and
      it may turn success into an error and an error into success: `judges` says
      whether it succeeds, from the mutation it was given and its next's success. */
  datatype Hook = Hook(edits: Mutation -> Mutation, swaps: Option<Mutation -> Mutation>,
                       judges: (Mutation, bool) -> bool)

  /** What a hook hands on. */
  function HandedOn(h: Hook, m: Mutation): Mutation {
    if h.swaps.Some? then h.swaps.value(h.edits(m)) else h.edits(m)
  }

  /** The mutation that reaches the innermost mutator of a stack of hooks. */
  function Passed(hooks: seq<Hook>, m: Mutation): Mutation {
    if hooks == [] then m else Passed(hooks[1..], HandedOn(hooks[0], m))
  }

  /** The builder's own mutation by then: changed in place by the hooks that were
      given it. */
  function OwnAfter(hooks: seq<Hook>, m: Mutation): Mutation {
    if hooks == [] then m
    else if hooks[0].swaps.Some? then hooks[0].edits(m)
    else OwnAfter(hooks[1..], hooks[0].edits(m))
  }

  /** What a hook makes of success and of an error in one run. */
  datatype Verdict = Verdict(onOk: bool, onErr: bool)

  /** The verdicts of a stack of hooks that is given `m`. */
  function VerdictsOf(hooks: seq<Hook>, m: Mutation): (vs: seq<Verdict>)
    ensures |vs| == |hooks|
  {
    if hooks == [] then []
    else [Verdict(hooks[0].judges(m, true), hooks[0].judges(m, false))] + VerdictsOf(hooks[1..], HandedOn(hooks[0], m))
  }

  /** What the outermost hook returns when the innermost mutator returned `ok`. */
  function Returned(verdicts: seq<Verdict>, ok: bool): bool {
    if verdicts == [] then ok
    else if Returned(verdicts[1..], ok) then verdicts[0].onOk else verdicts[0].onErr
  }

  /** All that decides the fate of a bulk save: which checks pass, the verdicts of
      the hooks, and whether the database accepts the batch. */
  datatype Plan = Plan(checks: seq<bool>, verdicts: seq<seq<Verdict>>, answered: bool) {
    ghost predicate Valid() {
      |checks| == |verdicts|
    }

    /** Mutator `i` is called at all. */
    ghost predicate Reached(i: nat)
      requires i <= |checks|
    {
      forall j :: 0 <= j < i ==> checks[j]
    }

    /** The innermost mutator `i`, once called, returns without error. */
    ghost predicate InnerOk(i: nat)
      requires Valid() && i < |checks|
      decreases |checks| - i
    {
      checks[i] && if i + 1 < |checks| then Returned(verdicts[i + 1], InnerOk(i + 1)) else answered
    }

    /** Mutation `i` ends up marked done. */
    ghost predicate Done(i: nat)
      requires Valid() && i < |checks|
    {
      Reached(i) && InnerOk(i)
    }

    /** The batch reaches the database. */
    ghost predicate Sent() {
      |checks| > 0 && Reached(|checks|)
    }

    ghost predicate SaveOk()
      requires Valid()
    {
      |checks| == 0 || Returned(verdicts[0], InnerOk(0))
    }

    /** Save reports success exactly when everything was sent, accepted and
        marked done; otherwise nothing is marked done. */
    ghost predicate AllOrNothing()
      requires Valid()
    {
      if SaveOk() then (|checks| > 0 ==> Sent() && answered) && forall i :: 0 <= i < |checks| ==> Done(i)
      else forall i :: 0 <= i < |checks| ==> !Done(i)
    }
  }

  // ------------------------------------------------------------------- the save

  /** A bulk save once defaults have been filled in: the mutations of the
      builders, their hooks, the validators, and the database's answer to the
      batch: an error, or for each spec the id it was given, if any. */
  datatype Setup = Setup(mutations: seq<Mutation>, hooks: seq<seq<Hook>>,
                         accepts: (Column, Value) -> bool, answer: Option<seq<Option<int>>>) {
    ghost predicate Valid() {
      && |hooks| == |mutations|
      && (answer.Some? ==> |answer.value| == |mutations|)
    }

    ghost function PlanOf(): (p: Plan)
      requires Valid()
      ensures p.Valid() && |p.checks| == |mutations| && p.answered == answer.Some?
      ensures forall i :: 0 <= i < |mutations| ==> p.checks[i] == Checks(Checked(i).fields, accepts)
      ensures forall i :: 0 <= i < |mutations| ==> p.verdicts[i] == VerdictsOf(hooks[i], mutations[i])
    {
      Plan(seq(|mutations|, i requires 0 <= i < |mutations| => Checks(Checked(i).fields, accepts)),
           seq(|mutations|, i requires 0 <= i < |mutations| => VerdictsOf(hooks[i], mutations[i])), answer.Some?)
    }

    /** The mutation builder `i` checks: its own, as its hooks have left it. */
    ghost function Checked(i: nat): Mutation
      requires Valid() && i < |mutations|
    {
      OwnAfter(hooks[i], mutations[i])
    }

    /** The mutation that builder `i` is handed, describes and marks done. */
    ghost function Handed(i: nat): Mutation
      requires Valid() && i < |mutations|
    {
      Passed(hooks[i], mutations[i])
    }

    /** The spec that builder `i` contributes to the batch. */
    ghost function FinalSpec(i: nat): Spec
      requires Valid() && i < |mutations|
    {
      SpecOf(Handed(i))
    }

    ghost function Batch(): (b: seq<Spec>)
      requires Valid()
      ensures |b| == |mutations| && forall i :: 0 <= i < |b| ==> b[i] == FinalSpec(i)
    {
      seq(|mutations|, i requires 0 <= i < |mutations| => FinalSpec(i))
    }

    /** The node of builder `i` after an accepted batch: its id, if the
        database gave one, is the one of its own spec. */
    ghost function FinalNode(i: nat): Fields
      requires Valid() && i < |mutations| && answer.Some?
    {
      var node := NodeOf(Handed(i));
      if answer.value[i].Some? then node[Id := Int(answer.value[i].value)] else node
    }
  }

  lemma SamePrefix<T>(a: seq<T>, b: seq<T>, i: nat)
    requires i < |a| && i < |b| && a[..i + 1] == b[..i + 1]
    ensures a[i] == b[i] && a[..i] == b[..i]
  {
    assert a[..i + 1][i] == a[i] && b[..i + 1][i] == b[i];
    assert a[..i + 1][..i] == a[..i] && b[..i + 1][..i] == b[..i];
  }

  /** A failed check ends the chain there. */
  lemma StopsAt(p: Plan, i: nat)
    requires p.Valid() && i < |p.checks| && !p.checks[i]
    ensures !p.Sent() && !p.InnerOk(i)
    ensures forall j :: i <= j < |p.checks| ==> !p.Done(j)
  {
    forall j | i < j <= |p.checks| ensures !p.Reached(j) {}
  }

  /** The slices the closures of Save share. */
  class Chain {
    const setup: Setup
    /** The mutation each builder holds. */
    var mutations: seq<Mutation>
    var specs: seq<Option<Spec>>
    var nodes: seq<Fields>
    /** specs[i].ID.Value, which the batch insert fills. */
    var given: seq<Option<int>>
    /** Whether the mutation that was handed to the builder is marked done. */
    var done: seq<bool>
    var batches: seq<seq<Spec>>

    constructor (setup: Setup)
      requires setup.Valid()
      ensures this.setup == setup && Before(0) && batches == []
    {
      this.setup := setup;
      var n := |setup.mutations|;
      mutations := setup.mutations;
      specs, nodes := seq(n, _ => None), seq(n, _ => map[]);
      given, done, batches := seq(n, _ => None), seq(n, _ => false), [];
    }

    ghost predicate Shaped()
      reads this
    {
      setup.Valid() && |specs| == |nodes| == |given| == |done| == |mutations| == |setup.mutations|
    }

    /** The state around the hooks of builder `i`: the specs before it stand,
        nothing from it on is done, later mutations are as they were. */
    ghost predicate Around(i: nat)
      reads this
    {
      && Shaped() && i <= |setup.mutations|
      && (forall j :: 0 <= j < i ==> specs[j] == Some(setup.FinalSpec(j)))
      && (forall j :: i <= j < |setup.mutations| ==> !done[j])
      && (forall j :: i < j < |setup.mutations| ==> mutations[j] == setup.mutations[j])
    }

    /** The state in front of them. */
    ghost predicate Before(i: nat)
      reads this
    {
      Around(i) && (i < |setup.mutations| ==> mutations[i] == setup.mutations[i])
    }

    /** What hook `h` is given: the builder's own mutation, or the one a hook
        before it handed on. */
    function Current(i: nat, handed: Option<Mutation>): Mutation
      requires i < |mutations|
      reads this
    {
      if handed.Some? then handed.value else mutations[i]
    }

    /** In front of hook `h` of builder `i`. */
    ghost predicate Reaching(i: nat, h: nat, handed: Option<Mutation>)
      reads this
    {
      && Around(i) && i < |setup.mutations| && h <= |setup.hooks[i]|
      && Passed(setup.hooks[i][h..], Current(i, handed)) == setup.Handed(i)
      && VerdictsOf(setup.hooks[i][h..], Current(i, handed)) == setup.PlanOf().verdicts[i][h..]
      && (if handed.Some? then mutations[i] else OwnAfter(setup.hooks[i][h..], mutations[i])) == setup.Checked(i)
    }

    /** The state behind mutator `i`: what it and the mutators it called did. */
    ghost predicate Behind(i: nat, sent: seq<seq<Spec>>)
      reads this
    {
      var p := if Shaped() then setup.PlanOf() else Plan([], [], false);
      && Shaped() && i <= |setup.mutations|
      && (forall j :: i <= j < |setup.mutations| ==> done[j] == p.Done(j))
      && (p.Sent() && p.answered ==> given == setup.answer.value)
      && (p.Sent() && p.answered ==> forall j :: i <= j < |setup.mutations| && done[j] ==> nodes[j] == setup.FinalNode(j))
      && batches == sent + if p.Sent() then [setup.Batch()] else []
    }

    /** Hook `h` of builder `i` changes the mutation it was given, in place, and
        picks the one to hand on. */
    method CallHook(i: nat, h: nat, handed: Option<Mutation>) returns (next: Option<Mutation>)
      requires Reaching(i, h, handed) && h < |setup.hooks[i]|
      modifies this`mutations
      ensures Reaching(i, h + 1, next)
      ensures var given := old(Current(i, handed));
              setup.PlanOf().verdicts[i][h] == Verdict(setup.hooks[i][h].judges(given, true), setup.hooks[i][h].judges(given, false))
    {
      ghost var verdicts := setup.PlanOf().verdicts[i];
      assert verdicts[h..][0] == verdicts[h] && verdicts[h..][1..] == verdicts[h + 1..];
      var hook := setup.hooks[i][h];
      assert setup.hooks[i][h..][0] == hook && setup.hooks[i][h..][1..] == setup.hooks[i][h + 1..];
      next := handed;
      var edited := hook.edits(Current(i, handed));
      if handed.Some? {
        next := Some(edited);
      } else {
        mutations := mutations[i := edited];
      }
      if hook.swaps.Some? {
        next := Some(hook.swaps.value(edited));
      }
    }

    /** Hook `h` of builder `i` is called; behind the last hook stands the mutator
        itself. */
    method Mutate(i: nat, h: nat, handed: Option<Mutation>) returns (ok: bool)
      requires Reaching(i, h, handed)
      requires setup.PlanOf().Reached(i)
      modifies this
      decreases |setup.mutations| - i, |setup.hooks[i]| - h + 1, 0
      ensures Behind(i, old(batches))
      ensures ok == Returned(setup.PlanOf().verdicts[i][h..], setup.PlanOf().InnerOk(i))
      ensures done[..i] == old(done[..i]) && nodes[..i] == old(nodes[..i]) && specs[..i] == old(specs[..i])
      ensures given == old(given) || (setup.PlanOf().Sent() && setup.answer.Some?)
    {
      var hooks := setup.hooks[i];
      ghost var verdicts := setup.PlanOf().verdicts[i];
      if h < |hooks| {
        assert verdicts[h..][0] == verdicts[h] && verdicts[h..][1..] == verdicts[h + 1..];
        var given := Current(i, handed);
        var next := CallHook(i, h, handed);
        var inner := Mutate(i, h + 1, next);
        return hooks[h].judges(given, inner);
      }
      assert hooks[h..] == [] && verdicts[h..] == [];
      ok := Inner(i, Current(i, handed));
    }

    /** sqlgraph.BatchCreate with all specs. */
    method SendBatch() returns (ok: bool)
      requires Before(|setup.mutations|)
      modifies this`batches, this`given
      ensures Shaped() && batches == old(batches) + [setup.Batch()]
      ensures ok <==> setup.answer.Some?
      ensures given == if ok then setup.answer.value else old(given)
    {
      var complete := specs;
      var batch := seq(|complete|, j requires 0 <= j < |complete| && complete[j].Some? => complete[j].value);
      assert batch == setup.Batch();
      batches := batches + [batch];
      ok := setup.answer.Some?;
      if ok {
        given := setup.answer.value;
      }
    }

    /** What follows behind mutator `i`: the next mutator, or the database. */
    method Rest(i: nat) returns (ok: bool)
      requires Before(i + 1) && i < |setup.mutations|
      requires setup.PlanOf().Reached(i + 1)
      modifies this
      decreases |setup.mutations| - i, 0, 0
      ensures Behind(i + 1, old(batches))
      ensures ok == if i + 1 < |setup.mutations|
                    then Returned(setup.PlanOf().verdicts[i + 1], setup.PlanOf().InnerOk(i + 1)) else setup.answer.Some?
      ensures done[..i + 1] == old(done[..i + 1]) && nodes[..i + 1] == old(nodes[..i + 1])
      ensures specs[..i + 1] == old(specs[..i + 1])
      ensures given == old(given) || (setup.PlanOf().Sent() && setup.answer.Some?)
    {
      if i < |setup.mutations| - 1 {
        assert setup.hooks[i + 1][0..] == setup.hooks[i + 1];
        assert setup.PlanOf().verdicts[i + 1][0..] == setup.PlanOf().verdicts[i + 1];
        ok := Mutate(i + 1, 0, None);
      } else {
        ok := SendBatch();
      }
    }

    /** The mutator of builder `i`. */
    method Inner(i: nat, m: Mutation) returns (ok: bool)
      requires Around(i) && i < |setup.mutations|
      requires setup.PlanOf().Reached(i)
      requires mutations[i] == setup.Checked(i) && m == setup.Handed(i)
      modifies this
      decreases |setup.mutations| - i, 0, 1
      ensures Behind(i, old(batches))
      ensures ok == setup.PlanOf().InnerOk(i)
      ensures done[..i] == old(done[..i]) && nodes[..i] == old(nodes[..i]) && specs[..i] == old(specs[..i])
      ensures given == old(given) || (setup.PlanOf().Sent() && setup.answer.Some?)
    {
      if !Checks(mutations[i].fields, setup.accepts) {
        StopsAt(setup.PlanOf(), i);
        return false;
      }
      Describe(i, m);
      ghost var described, undone, specified := nodes, done, specs;
      ok := Rest(i);
      SamePrefix(nodes, described, i);
      SamePrefix(done, undone, i);
      SamePrefix(specs, specified, i);
      if ok {
        Finish(i);
      }
      assert done[i] == ok == setup.PlanOf().Done(i);
    }

    /** builder.mutation = mutation; nodes[i], specs[i] = builder.createSpec() */
    method Describe(i: nat, m: Mutation)
      requires Around(i) && i < |setup.mutations| && m == setup.Handed(i)
      modifies this`mutations, this`nodes, this`specs
      ensures Before(i + 1)
      ensures nodes[..i] == old(nodes[..i]) && specs[..i] == old(specs[..i])
      ensures nodes[i] == NodeOf(setup.Handed(i)) && mutations[i] == m
    {
      mutations := mutations[i := m];
      var node, spec := CreateSpec(m);
      nodes, specs := nodes[i := node], specs[i := Some(spec)];
    }

    /** The mutation takes its id from its own spec, if there is one, and is done. */
    method Finish(i: nat)
      requires Shaped() && i < |setup.mutations|
      requires nodes[i] == NodeOf(setup.Handed(i))
      modifies this`nodes, this`done
      ensures Shaped() && done == old(done)[i := true]
      ensures nodes == old(nodes)[i := nodes[i]]
      ensures setup.answer.Some? && given == setup.answer.value ==> nodes[i] == setup.FinalNode(i)
    {
      if given[i].Some? {
        nodes := nodes[i := nodes[i][Id := Int(given[i].value)]];
      }
      done := done[i := true];
    }
  }

  /** A builder's mutation after defaults; the error of defaults is dropped. */
  ghost predicate Prepared(draft: Mutation, m: Mutation, given: Fields) {
    && m == draft.(fields := m.fields)
    && exists ok :: Defaulted(draft.fields, given, m.fields, ok)
  }

  method Save(drafts: seq<Mutation>, hooks: seq<seq<Hook>>, accepts: (Column, Value) -> bool, given: Fields,
              answer: Option<seq<Option<int>>>)
    returns (ok: bool, chain: Chain)
    requires |hooks| == |drafts| && (answer.Some? ==> |answer.value| == |drafts|)
    requires forall c :: c in CONSTANT ==> c in given
    ensures chain.setup.Valid() && chain.setup.hooks == hooks && chain.setup.answer == answer
    ensures chain.setup.accepts == accepts && |chain.setup.mutations| == |drafts|
    ensures forall i :: 0 <= i < |drafts| ==> Prepared(drafts[i], chain.setup.mutations[i], given)
    ensures chain.Behind(0, [])
    ensures ok == chain.setup.PlanOf().SaveOk()
  {
    var ms: seq<Mutation> := [];
    for i := 0 to |drafts|
      invariant |ms| == i
      invariant forall j :: 0 <= j < i ==> Prepared(drafts[j], ms[j], given)
    {
      var fields, complete := Defaults(drafts[i].fields, given);
      ms := ms + [drafts[i].(fields := fields)];
    }
    chain := new Chain(Setup(ms, hooks, accepts, answer));
    ok := true;
    if |ms| > 0 {
      assert hooks[0][0..] == hooks[0];
      assert chain.setup.PlanOf().verdicts[0][0..] == chain.setup.PlanOf().verdicts[0];
      ok := chain.Mutate(0, 0, None);
    }
  }

  // ----------------------------------------------------------------- all or nothing

  /** The stack returns an error exactly when the mutator inside it did. */
  predicate Transparent(verdicts: seq<Verdict>) {
    Returned(verdicts, true) && !Returned(verdicts, false)
  }

  ghost predicate AllTransparent(p: Plan) {
    forall i :: 0 <= i < |p.verdicts| ==> Transparent(p.verdicts[i])
  }

  lemma TransparentReturns(verdicts: seq<Verdict>, ok: bool)
    requires Transparent(verdicts)
    ensures Returned(verdicts, ok) == ok
  {}

  /** Behind transparent hooks, a mutator succeeds exactly when it and all later
      checks pass and the database accepts the batch. */
  lemma {:induction false} InnerOkExactly(p: Plan, i: nat)
    requires p.Valid() && AllTransparent(p) && i < |p.checks|
    ensures p.InnerOk(i) <==> (forall j :: i <= j < |p.checks| ==> p.checks[j]) && p.answered
    decreases |p.checks| - i
  {
    if i + 1 < |p.checks| {
      InnerOkExactly(p, i + 1);
      TransparentReturns(p.verdicts[i + 1], p.InnerOk(i + 1));
    }
  }

  /** With transparent hooks a bulk save is all or nothing, and it succeeds
      exactly when every check passes and the database accepts. */
  lemma TransparentIsAllOrNothing(p: Plan)
    requires p.Valid() && AllTransparent(p)
    ensures p.AllOrNothing()
    ensures |p.checks| > 0 ==> (p.SaveOk() <==> p.Sent() && p.answered)
  {
    if |p.checks| > 0 {
      InnerOkExactly(p, 0);
      TransparentReturns(p.verdicts[0], p.InnerOk(0));
      forall i | 0 <= i < |p.checks| ensures p.Done(i) <==> p.Sent() && p.answered {
        InnerOkExactly(p, i);
        if p.Done(i) {
          forall j | 0 <= j < |p.checks| ensures p.checks[j] {}
        }
      }
    }
  }

  /** All checks pass, and the database's answer is as given. */
  function AllPass(verdicts: seq<seq<Verdict>>, answered: bool): Plan {
    Plan(seq(|verdicts|, _ => true), verdicts, answered)
  }

  lemma SameBelow(p: Plan, i: nat, j: nat)
    requires p.Valid() && i <= j < |p.checks|
    requires forall k :: 0 <= k < |p.checks| ==> p.checks[k]
    requires p.AllOrNothing()
    ensures p.InnerOk(i) == p.InnerOk(j)
  {
    assert p.Done(i) == p.SaveOk() && p.Done(j) == p.SaveOk();
  }

  /** If passed checks always lead to all or nothing, no stack changes the outcome. */
  lemma AllOrNothingIsTransparent(verdicts: seq<seq<Verdict>>, answered: bool, i: nat)
    requires i < |verdicts| && AllPass(verdicts, answered).AllOrNothing()
    ensures Returned(verdicts[i], answered) == answered
  {
    var p := AllPass(verdicts, answered);
    var n := |verdicts|;
    SameBelow(p, i, n - 1);
    assert p.InnerOk(n - 1) == answered;
    if i > 0 {
      SameBelow(p, i - 1, n - 1);
    } else {
      assert p.Done(0) == p.SaveOk();
    }
  }

  /** Exactly when: for given verdicts, a bulk save is all or nothing whatever the
      checks and the database say, if and only if every builder's stack returns
      an error exactly when its mutator did. */
  lemma AllOrNothingExactly(verdicts: seq<seq<Verdict>>)
    ensures (forall p: Plan :: p.Valid() && p.verdicts == verdicts ==> p.AllOrNothing()) <==>
            (forall i :: 0 <= i < |verdicts| ==> Transparent(verdicts[i]))
  {
    if forall i :: 0 <= i < |verdicts| ==> Transparent(verdicts[i]) {
      forall p: Plan | p.Valid() && p.verdicts == verdicts ensures p.AllOrNothing() {
        TransparentIsAllOrNothing(p);
      }
    }
    if forall p: Plan :: p.Valid() && p.verdicts == verdicts ==> p.AllOrNothing() {
      forall i | 0 <= i < |verdicts| ensures Transparent(verdicts[i]) {
        assert AllPass(verdicts, true).Valid() && AllPass(verdicts, false).Valid();
        AllOrNothingIsTransparent(verdicts, true, i);
        AllOrNothingIsTransparent(verdicts, false, i);
      }
    }
  }

  /** A hook that fails after its mutator succeeded: the batch is in the
      database and the last mutation is done, yet Save reports an error. */
  lemma LateFailureIsNotAtomic()
    ensures var late := [Verdict(false, false)];
            var p := Plan([true, true], [[], late], true);
            p.Valid() && p.Sent() && !p.SaveOk() && p.Done(1) && !p.Done(0)
  {
    var late := [Verdict(false, false)];
    var p := Plan([true, true], [[], late], true);
    assert late[1..] == [] && Returned([], true);
    assert p.InnerOk(1) && !Returned(p.verdicts[1], true);
    assert !p.InnerOk(0);
  }
}
