/** The check of a resolved publication plan against the phase contract
    (architecture/tools/validate_package.py, `publication_binding_diagnostics`). */
module PublicationPlan {
  import opened Wrappers
  import opened Sequences

  datatype PlanField = Operation | PriorTargetPolicy | PublisherTransform | MayCreateContent

  const PLAN_FIELDS: set<PlanField> := {Operation, PriorTargetPolicy, PublisherTransform, MayCreateContent}

  datatype Target = CurrentSlot(slotId: string, recordType: string) | Collection(fields: map<string, string>)

  /** A binding of the contract; every field of `PLAN_FIELDS` is there. */
  datatype Binding = Binding(id: string, modes: set<string>, field: PlanField -> string, outputIds: set<string>,
                             components: map<string, string>, sourceInputs: set<string>, target: Target)

  datatype Mapping = Mapping(contractOutput: string, output: string, component: Option<string>)
  datatype InputMapping = InputMapping(contractInput: string, resolution: string, inputId: Option<string>)

  datatype Item = Item(bindingId: string, field: PlanField -> string, outputs: seq<Mapping>, inputs: seq<InputMapping>,
                       target: map<string, string>)

  /** What the plan was resolved against. */
  datatype Basis = Basis(outputs: map<string, set<string>>, boundInputs: map<string, string>,
                         expectedTargets: map<string, (string, string)>)

  datatype Diagnostic =
    | Duplicate(id: string) | Missing(id: string) | ModeInapplicable(id: string) | Unknown(id: string)
    | FieldMismatch(id: string, field: PlanField) | OutputMappingMismatch(id: string)
    | InputDuplicate(id: string) | InputSetMismatch(id: string) | ResolutionMismatch(id: string, input: string)
    | CurrentTargetMismatch(id: string) | CollectionTargetMismatch(id: string)

  // ---------------------------------------------------------------- one plan entry and its binding

  function Lookup<K, V>(m: map<K, V>, k: K): Option<V> {
    if k in m then Some(m[k]) else None
  }

  function OutputsOf(basis: Basis, output: string): set<string> {
    if output in basis.outputs then basis.outputs[output] else {}
  }

  /** The output mappings a binding calls for. */
  function ExpectedOutputs(b: Binding, basis: Basis): set<Mapping> {
    set c, o | c in b.outputIds && o in OutputsOf(basis, c) :: Mapping(c, o, Lookup(b.components, c))
  }

  function Elements<T(!new)>(s: seq<T>): (r: set<T>)
    ensures forall x :: x in r <==> x in s
  {
    set x | x in s
  }

  function InputsOf(p: Item): (r: set<string>)
    ensures forall x :: x in r <==> exists i :: 0 <= i < |p.inputs| && p.inputs[i].contractInput == x
  {
    set i | 0 <= i < |p.inputs| :: p.inputs[i].contractInput
  }

  function InputName(m: InputMapping): string {
    m.contractInput
  }

  /** The last mapping of an input, which is the one the checker looks at. */
  function LastFor(inputs: seq<InputMapping>, name: string): (r: InputMapping)
    requires exists i :: 0 <= i < |inputs| && inputs[i].contractInput == name
    ensures r in inputs && r.contractInput == name
  {
    var last := |inputs| - 1;
    if inputs[last].contractInput == name then inputs[last] else LastFor(inputs[..last], name)
  }

  predicate Resolved(m: InputMapping, basis: Basis) {
    match Lookup(basis.boundInputs, m.contractInput)
    case None => m.resolution == "absent"
    case Some(frozen) => m.resolution == "frozen_input" && m.inputId == Some(frozen)
  }

  predicate TargetMatches(b: Binding, p: Item, basis: Basis) {
    match b.target
    case CurrentSlot(slot, record) =>
      && Lookup(p.target, "kind") == Some("current_slot") && "expected_target_id" in p.target
      && Lookup(basis.expectedTargets, p.target["expected_target_id"]) == Some((slot, record))
    case Collection(fields) => forall k | k in fields :: Lookup(p.target, k) == Some(fields[k])
  }

  /** What each message about a paired entry claims. */
  ghost predicate PairIssue(b: Binding, p: Item, basis: Basis, d: Diagnostic) {
    FieldIssue(b, p, d) || ShapeIssue(b, p, basis, d) || ResolutionIssue(b, p, basis, d)
  }

  ghost predicate FieldIssue(b: Binding, p: Item, d: Diagnostic) {
    d.FieldMismatch? && d.id == b.id && p.field(d.field) != b.field(d.field)
  }

  ghost predicate ResolutionIssue(b: Binding, p: Item, basis: Basis, d: Diagnostic) {
    d.ResolutionMismatch? && d.id == b.id && d.input in InputsOf(p) && !Resolved(LastFor(p.inputs, d.input), basis)
  }

  ghost predicate ShapeIssue(b: Binding, p: Item, basis: Basis, d: Diagnostic) {
    d.id == b.id
    && match d
       case OutputMappingMismatch(_) => Elements(p.outputs) != ExpectedOutputs(b, basis)
       case InputDuplicate(_) => !DistinctBy(p.inputs, InputName)
       case InputSetMismatch(_) => InputsOf(p) != b.sourceInputs
       case CurrentTargetMismatch(_) => b.target.CurrentSlot? && !TargetMatches(b, p, basis)
       case CollectionTargetMismatch(_) => b.target.Collection? && !TargetMatches(b, p, basis)
       case _ => false
  }

  /** An output of the run for one of the binding's contract outputs, under its component's name. */
  ghost predicate AskedOutput(b: Binding, basis: Basis, m: Mapping) {
    && m.contractOutput in b.outputIds && m.contractOutput in basis.outputs && m.output in basis.outputs[m.contractOutput]
    && m.component == if m.contractOutput in b.components then Some(b.components[m.contractOutput]) else None
  }

  /** An input that was bound is taken as it was frozen, any other is absent. */
  ghost predicate AskedInput(basis: Basis, m: InputMapping) {
    if m.contractInput in basis.boundInputs
    then m.resolution == "frozen_input" && m.inputId == Some(basis.boundInputs[m.contractInput])
    else m.resolution == "absent"
  }

  /** The target of the entry is a current slot the plan was resolved for, or has the fields asked for. */
  ghost predicate AskedTarget(b: Binding, basis: Basis, target: map<string, string>) {
    match b.target
    case CurrentSlot(slot, record) =>
      && "kind" in target && target["kind"] == "current_slot" && "expected_target_id" in target
      && target["expected_target_id"] in basis.expectedTargets
      && basis.expectedTargets[target["expected_target_id"]] == (slot, record)
    case Collection(fields) => forall k | k in fields :: k in target && target[k] == fields[k]
  }

  /** The entry is what the binding asks for: every plan field, exactly the outputs of the run, each
      source input once and no other, and the target. */
  ghost predicate Paired(b: Binding, p: Item, basis: Basis) {
    && (forall f :: p.field(f) == b.field(f))
    && (forall m :: m in p.outputs <==> AskedOutput(b, basis, m))
    && (forall i, j | 0 <= i < j < |p.inputs| :: p.inputs[i].contractInput != p.inputs[j].contractInput)
    && (forall x :: x in b.sourceInputs <==> exists i :: 0 <= i < |p.inputs| && p.inputs[i].contractInput == x)
    && (forall m | m in p.inputs :: AskedInput(basis, m)) && AskedTarget(b, basis, p.target)
  }

  /** The checker's sets and tables say the same. */
  lemma PairedByTables(b: Binding, p: Item, basis: Basis)
    ensures Paired(b, p, basis) <==>
      && (forall f :: p.field(f) == b.field(f)) && Elements(p.outputs) == ExpectedOutputs(b, basis)
      && DistinctBy(p.inputs, InputName) && InputsOf(p) == b.sourceInputs
      && (forall m | m in p.inputs :: Resolved(m, basis)) && TargetMatches(b, p, basis)
  {
    OutputsAsAsked(b, p, basis);
    assert AskedTarget(b, basis, p.target) <==> TargetMatches(b, p, basis);
    assert forall m :: AskedInput(basis, m) <==> Resolved(m, basis);
    hide ExpectedOutputs, AskedOutput, AskedTarget, TargetMatches, AskedInput, Resolved;
    if DistinctBy(p.inputs, InputName) {
      forall i, j | 0 <= i < j < |p.inputs| ensures p.inputs[i].contractInput != p.inputs[j].contractInput {
        assert InputName(p.inputs[i]) != InputName(p.inputs[j]);
      }
    }
  }

  lemma OutputsAsAsked(b: Binding, p: Item, basis: Basis)
    ensures (forall m :: m in p.outputs <==> AskedOutput(b, basis, m)) <==> Elements(p.outputs) == ExpectedOutputs(b, basis)
  {
    forall m ensures m in ExpectedOutputs(b, basis) <==> AskedOutput(b, basis, m) {
      if AskedOutput(b, basis, m) {
        assert m == Mapping(m.contractOutput, m.output, Lookup(b.components, m.contractOutput));
        assert m.contractOutput in b.outputIds && m.output in OutputsOf(basis, m.contractOutput);
      }
    }
    if forall m :: m in p.outputs <==> AskedOutput(b, basis, m) {
      assert Elements(p.outputs) == ExpectedOutputs(b, basis);
    }
    if Elements(p.outputs) == ExpectedOutputs(b, basis) {
      forall m ensures m in p.outputs <==> AskedOutput(b, basis, m) { assert m in Elements(p.outputs) <==> m in p.outputs; }
    }
  }

  lemma AllFields(f: PlanField)
    ensures f in PLAN_FIELDS
  {
    match f
    case _ =>
  }

  method CheckFields(b: Binding, p: Item) returns (ds: seq<Diagnostic>)
    ensures forall d :: d in ds <==> FieldIssue(b, p, d)
  {
    ds := [];
    var fields := PLAN_FIELDS;
    forall f: PlanField ensures f in PLAN_FIELDS { AllFields(f); }
    while fields != {}
      invariant fields <= PLAN_FIELDS
      invariant forall d :: d in ds <==>
        d.FieldMismatch? && d.id == b.id && d.field !in fields && p.field(d.field) != b.field(d.field)
      decreases |fields|
    {
      var f :| f in fields;
      fields := fields - {f};
      if p.field(f) != b.field(f) { ds := ds + [FieldMismatch(b.id, f)]; }
    }
  }

  /** The dictionary of the source mappings; a repeated input keeps its last mapping. */
  function Table(inputs: seq<InputMapping>): map<string, InputMapping> {
    if inputs == [] then map[]
    else
      var last := |inputs| - 1;
      Table(inputs[..last])[inputs[last].contractInput := inputs[last]]
  }

  /** Its size tells whether an input repeats. */
  method InputTable(p: Item) returns (table: map<string, InputMapping>)
    ensures table.Keys == InputsOf(p)
    ensures forall k | k in table :: table[k] == LastFor(p.inputs, k)
    ensures |table| == |p.inputs| <==> DistinctBy(p.inputs, InputName)
  {
    table := map[];
    var i := 0;
    while i < |p.inputs|
      invariant 0 <= i <= |p.inputs| && table == Table(p.inputs[..i])
    {
      assert p.inputs[..i + 1][..i] == p.inputs[..i];
      table := table[p.inputs[i].contractInput := p.inputs[i]];
      i := i + 1;
    }
    assert p.inputs[..i] == p.inputs;
    TableEntries(p.inputs);
    TableSize(p.inputs);
    forall k ensures k in table <==> k in InputsOf(p) {}
  }

  lemma {:induction false} TableEntries(inputs: seq<InputMapping>)
    ensures forall k :: k in Table(inputs) <==> exists i :: 0 <= i < |inputs| && inputs[i].contractInput == k
    ensures forall k | k in Table(inputs) :: Table(inputs)[k] == LastFor(inputs, k)
  {
    if inputs != [] {
      var last := |inputs| - 1;
      TableEntries(inputs[..last]);
      forall k ensures k in Table(inputs) <==> exists i :: 0 <= i < |inputs| && inputs[i].contractInput == k {
        if i :| 0 <= i < last && inputs[i].contractInput == k { assert inputs[..last][i].contractInput == k; }
      }
    }
  }

  lemma {:induction false} TableSize(inputs: seq<InputMapping>)
    ensures |Table(inputs)| <= |inputs|
    ensures |Table(inputs)| == |inputs| <==> DistinctBy(inputs, InputName)
  {
    if inputs != [] {
      var last := |inputs| - 1;
      var before := Table(inputs[..last]);
      TableSize(inputs[..last]);
      TableEntries(inputs[..last]);
      DistinctOneMore(inputs, last);
      assert inputs[..last + 1] == inputs;
      assert (inputs[last].contractInput in before) <==> exists j :: 0 <= j < last && inputs[j].contractInput == inputs[last].contractInput by {
        if j :| 0 <= j < last && inputs[j].contractInput == inputs[last].contractInput {
          assert inputs[..last][j].contractInput == inputs[last].contractInput;
        }
      }
      SizeAfter(before, inputs[last].contractInput, inputs[last]);
    }
  }

  lemma DistinctOneMore(inputs: seq<InputMapping>, i: nat)
    requires i < |inputs|
    ensures DistinctBy(inputs[..i + 1], InputName) <==>
      DistinctBy(inputs[..i], InputName) && forall j | 0 <= j < i :: inputs[j].contractInput != inputs[i].contractInput
  {
  }

  lemma SizeAfter(table: map<string, InputMapping>, k: string, m: InputMapping)
    ensures |table[k := m]| == if k in table then |table| else |table| + 1
  {
  }

  method CheckResolutions(b: Binding, p: Item, basis: Basis, table: map<string, InputMapping>) returns (ds: seq<Diagnostic>)
    requires table.Keys == InputsOf(p) && forall k | k in table :: table[k] == LastFor(p.inputs, k)
    ensures forall d :: d in ds <==> ResolutionIssue(b, p, basis, d)
  {
    ds := [];
    var names := table.Keys;
    while names != {}
      invariant names <= table.Keys
      invariant forall d :: d in ds <==>
        d.ResolutionMismatch? && d.id == b.id && d.input in table && d.input !in names && !Resolved(table[d.input], basis)
      decreases |names|
    {
      var n :| n in names;
      names := names - {n};
      if !Resolved(table[n], basis) { ds := ds + [ResolutionMismatch(b.id, n)]; }
    }
  }

  /** Outputs, inputs and target. */
  method CheckShape(b: Binding, p: Item, basis: Basis, table: map<string, InputMapping>) returns (ds: seq<Diagnostic>)
    requires table.Keys == InputsOf(p) && (|table| == |p.inputs| <==> DistinctBy(p.inputs, InputName))
    ensures forall d :: d in ds <==> ShapeIssue(b, p, basis, d)
  {
    ds := [];
    if Elements(p.outputs) != ExpectedOutputs(b, basis) { ds := ds + [OutputMappingMismatch(b.id)]; }
    if |table| != |p.inputs| { ds := ds + [InputDuplicate(b.id)]; }
    if table.Keys != b.sourceInputs { ds := ds + [InputSetMismatch(b.id)]; }
    if !TargetMatches(b, p, basis) {
      ds := ds + [if b.target.CurrentSlot? then CurrentTargetMismatch(b.id) else CollectionTargetMismatch(b.id)];
    }
  }

  /** The checks of one entry: exactly its issues are reported. */
  method CheckPair(b: Binding, p: Item, basis: Basis) returns (ds: seq<Diagnostic>)
    ensures forall d :: d in ds <==> PairIssue(b, p, basis, d)
  {
    var fields := CheckFields(b, p);
    var table := InputTable(p);
    var shape := CheckShape(b, p, basis, table);
    var resolutions := CheckResolutions(b, p, basis, table);
    ds := fields + shape + resolutions;
  }

  /** No issue is reported exactly when the entry is what the binding asks for. */
  lemma PairedIffNoIssue(b: Binding, p: Item, basis: Basis)
    ensures Paired(b, p, basis) <==> forall d :: !PairIssue(b, p, basis, d)
  {
    var id := b.id;
    PairedByTables(b, p, basis);
    hide Paired;
    if forall d :: !PairIssue(b, p, basis, d) {
      forall f ensures p.field(f) == b.field(f) { assert !PairIssue(b, p, basis, FieldMismatch(id, f)); }
      assert !PairIssue(b, p, basis, OutputMappingMismatch(id)) && !PairIssue(b, p, basis, InputDuplicate(id));
      assert !PairIssue(b, p, basis, InputSetMismatch(id));
      assert !PairIssue(b, p, basis, CurrentTargetMismatch(id)) && !PairIssue(b, p, basis, CollectionTargetMismatch(id));
      forall m | m in p.inputs ensures Resolved(m, basis) {
        var i :| 0 <= i < |p.inputs| && p.inputs[i] == m;
        assert m.contractInput in InputsOf(p);
        assert !PairIssue(b, p, basis, ResolutionMismatch(id, m.contractInput));
        OnlyOne(p.inputs, m, LastFor(p.inputs, m.contractInput));
      }
    }
  }

  lemma OnlyOne(inputs: seq<InputMapping>, m: InputMapping, n: InputMapping)
    requires DistinctBy(inputs, InputName) && m in inputs && n in inputs && m.contractInput == n.contractInput
    ensures m == n
  {
  }

  // ---------------------------------------------------------------- the whole plan

  /** The bindings by id; a repeated id keeps its last binding. */
  function All(contract: seq<Binding>): (r: map<string, Binding>)
    ensures forall k | k in r :: r[k].id == k
  {
    if contract == [] then map[]
    else
      var last := |contract| - 1;
      All(contract[..last])[contract[last].id := contract[last]]
  }

  function Applicable(contract: seq<Binding>, mode: string): (r: map<string, Binding>)
    ensures forall k | k in r :: r[k].id == k
  {
    map k | k in All(contract) && mode in All(contract)[k].modes :: All(contract)[k]
  }

  function BindingId(p: Item): string {
    p.bindingId
  }

  /** The entries for one binding, in order. */
  function Having(plan: seq<Item>, id: string): seq<Item> {
    if plan == [] then []
    else
      var last := |plan| - 1;
      Having(plan[..last], id) + (if plan[last].bindingId == id then [plan[last]] else [])
  }

  /** `plans_by_id`. */
  method GroupById(plan: seq<Item>) returns (groups: map<string, seq<Item>>)
    ensures forall id :: id in groups <==> Having(plan, id) != []
    ensures forall id | id in groups :: groups[id] == Having(plan, id)
  {
    groups := map[];
    var i := 0;
    while i < |plan|
      invariant 0 <= i <= |plan|
      invariant forall id :: id in groups <==> Having(plan[..i], id) != []
      invariant forall id | id in groups :: groups[id] == Having(plan[..i], id)
    {
      var id := plan[i].bindingId;
      assert plan[..i + 1][..i] == plan[..i];
      groups := groups[id := (if id in groups then groups[id] else []) + [plan[i]]];
      i := i + 1;
    }
    assert plan[..i] == plan;
  }

  /** What each message of the checker claims. */
  ghost predicate Issue(contract: seq<Binding>, mode: string, plan: seq<Item>, basis: Basis, d: Diagnostic) {
    CorrespondenceIssue(All(contract), Applicable(contract, mode), plan, d)
    || (d.id in Applicable(contract, mode) && Having(plan, d.id) != []
        && PairIssue(Applicable(contract, mode)[d.id], Having(plan, d.id)[0], basis, d))
  }

  ghost predicate CorrespondenceIssue(all: map<string, Binding>, applicable: map<string, Binding>, plan: seq<Item>, d: Diagnostic) {
    match d
    case Duplicate(id) => |Having(plan, id)| > 1
    case Missing(id) => id in applicable && Having(plan, id) == []
    case ModeInapplicable(id) => Having(plan, id) != [] && id !in applicable && id in all
    case Unknown(id) => Having(plan, id) != [] && id !in applicable && id !in all
    case _ => false
  }

  ghost predicate IdIssue(all: map<string, Binding>, applicable: map<string, Binding>, groups: map<string, seq<Item>>,
                          id: string, d: Diagnostic) {
    d.id == id
    && match d
       case Duplicate(_) => id in groups && |groups[id]| > 1
       case Missing(_) => id in applicable && id !in groups
       case ModeInapplicable(_) => id in groups && id !in applicable && id in all
       case Unknown(_) => id in groups && id !in applicable && id !in all
       case _ => false
  }

  /** The messages about one binding id. */
  method CheckId(all: map<string, Binding>, applicable: map<string, Binding>, groups: map<string, seq<Item>>, id: string)
    returns (ds: seq<Diagnostic>)
    requires id in applicable.Keys + groups.Keys && forall k | k in groups :: groups[k] != []
    ensures forall d :: d in ds <==> IdIssue(all, applicable, groups, id, d)
  {
    ds := [];
    if id in groups && |groups[id]| > 1 { ds := ds + [Duplicate(id)]; }
    if id in applicable && id !in groups { ds := ds + [Missing(id)]; }
    if id in groups && id !in applicable { ds := ds + [if id in all then ModeInapplicable(id) else Unknown(id)]; }
  }

  lemma IdIssues(all: map<string, Binding>, applicable: map<string, Binding>, plan: seq<Item>, groups: map<string, seq<Item>>, id: string)
    requires id in groups <==> Having(plan, id) != []
    requires id in groups ==> groups[id] == Having(plan, id)
    ensures forall d :: IdIssue(all, applicable, groups, id, d) <==> d.id == id && CorrespondenceIssue(all, applicable, plan, d)
  {
  }

  method CheckCorrespondence(all: map<string, Binding>, applicable: map<string, Binding>, plan: seq<Item>, groups: map<string, seq<Item>>)
    returns (ds: seq<Diagnostic>)
    requires forall id :: id in groups <==> Having(plan, id) != []
    requires forall id | id in groups :: groups[id] == Having(plan, id)
    ensures forall d :: d in ds <==> CorrespondenceIssue(all, applicable, plan, d)
  {
    ds := [];
    var ids := applicable.Keys + groups.Keys;
    while ids != {}
      invariant ids <= applicable.Keys + groups.Keys
      invariant forall d :: d in ds <==>
        CorrespondenceIssue(all, applicable, plan, d) && d.id in applicable.Keys + groups.Keys && d.id !in ids
      decreases |ids|
    {
      var id :| id in ids;
      ids := ids - {id};
      var more := CheckId(all, applicable, groups, id);
      IdIssues(all, applicable, plan, groups, id);
      ds := ds + more;
    }
  }

  method CheckPairs(applicable: map<string, Binding>, basis: Basis, groups: map<string, seq<Item>>) returns (ds: seq<Diagnostic>)
    requires forall k | k in groups :: groups[k] != []
    requires forall k | k in applicable :: applicable[k].id == k
    ensures forall d :: d in ds <==>
      d.id in applicable && d.id in groups && PairIssue(applicable[d.id], groups[d.id][0], basis, d)
  {
    ds := [];
    var ids := applicable.Keys * groups.Keys;
    while ids != {}
      invariant ids <= applicable.Keys * groups.Keys
      invariant forall d :: d in ds <==>
        d.id in applicable && d.id in groups && d.id !in ids && PairIssue(applicable[d.id], groups[d.id][0], basis, d)
      decreases |ids|
    {
      var id :| id in ids;
      ids := ids - {id};
      var more := CheckPair(applicable[id], groups[id][0], basis);
      ds := ds + more;
    }
  }

  /** `publication_binding_diagnostics`: a message is reported exactly when what it claims is so,
      and none is reported exactly for a valid plan. */
  method PublicationBindingDiagnostics(contract: seq<Binding>, mode: string, plan: seq<Item>, basis: Basis)
    returns (ds: seq<Diagnostic>)
    ensures forall d :: d in ds <==> Issue(contract, mode, plan, basis, d)
    ensures ds == [] <==> Valid(contract, mode, plan, basis)
  {
    var all, applicable := All(contract), Applicable(contract, mode);
    var groups := GroupById(plan);
    var correspondence := CheckCorrespondence(all, applicable, plan, groups);
    var pairs := CheckPairs(applicable, basis, groups);
    ds := correspondence + pairs;
    NoIssueIffMatched(contract, mode, plan, basis);
    MatchedIffValid(contract, mode, plan, basis);
    if ds != [] { assert ds[0] in ds; }
  }

  /** The last binding of its id, and it applies in the mode. */
  ghost predicate Applies(contract: seq<Binding>, mode: string, i: int) {
    0 <= i < |contract| && mode in contract[i].modes && forall j | i < j < |contract| :: contract[j].id != contract[i].id
  }

  /** Entries and applicable bindings are in one-to-one correspondence, and each entry is what its
      binding asks for. */
  ghost predicate Valid(contract: seq<Binding>, mode: string, plan: seq<Item>, basis: Basis) {
    && (forall i, j | 0 <= i < j < |plan| :: plan[i].bindingId != plan[j].bindingId)
    && (forall i | Applies(contract, mode, i) :: exists p :: p in plan && p.bindingId == contract[i].id)
    && forall p | p in plan :: Answers(contract, mode, p, basis)
  }

  ghost predicate Answers(contract: seq<Binding>, mode: string, p: Item, basis: Basis) {
    exists i :: Applies(contract, mode, i) && contract[i].id == p.bindingId && Paired(contract[i], p, basis)
  }

  lemma {:induction false} AllMeaning(contract: seq<Binding>, i: nat)
    requires i < |contract| && forall j | i < j < |contract| :: contract[j].id != contract[i].id
    ensures contract[i].id in All(contract) && All(contract)[contract[i].id] == contract[i]
    decreases |contract|
  {
    var last := |contract| - 1;
    if i < last { AllMeaning(contract[..last], i); }
  }

  lemma {:induction false} AllIsListed(contract: seq<Binding>, id: string) returns (i: nat)
    requires id in All(contract)
    ensures i < |contract| && contract[i] == All(contract)[id] && forall j | i < j < |contract| :: contract[j].id != contract[i].id
    decreases |contract|
  {
    var last := |contract| - 1;
    if contract[last].id == id {
      i := last;
    } else {
      i := AllIsListed(contract[..last], id);
      assert contract[..last][i] == contract[i];
      assert forall j | i < j < last :: contract[..last][j] == contract[j];
    }
  }

  /** The table of applicable bindings holds, for each id, the last binding of the contract. */
  lemma ApplicableMeaning(contract: seq<Binding>, mode: string, id: string)
    ensures id in Applicable(contract, mode) <==> exists i :: Applies(contract, mode, i) && contract[i].id == id
    ensures forall i | Applies(contract, mode, i) && contract[i].id == id :: Applicable(contract, mode)[id] == contract[i]
  {
    if id in Applicable(contract, mode) {
      var i := AllIsListed(contract, id);
      assert Applies(contract, mode, i);
    }
    forall i | Applies(contract, mode, i) && contract[i].id == id
      ensures id in Applicable(contract, mode) && Applicable(contract, mode)[id] == contract[i]
    {
      AllMeaning(contract, i);
    }
  }

  lemma MatchedIffValid(contract: seq<Binding>, mode: string, plan: seq<Item>, basis: Basis)
    ensures Matched(contract, mode, plan, basis) <==> Valid(contract, mode, plan, basis)
  {
    var applicable := Applicable(contract, mode);
    forall id: string
      ensures id in applicable <==> exists i :: Applies(contract, mode, i) && contract[i].id == id
      ensures forall i | Applies(contract, mode, i) && contract[i].id == id :: applicable[id] == contract[i]
    {
      ApplicableMeaning(contract, mode, id);
    }
    hide Applicable, Paired;
    if Matched(contract, mode, plan, basis) {
      forall i, j | 0 <= i < j < |plan| ensures plan[i].bindingId != plan[j].bindingId { assert BindingId(plan[i]) != BindingId(plan[j]); }
      forall p | p in plan ensures Answers(contract, mode, p, basis) {
        var i :| Applies(contract, mode, i) && contract[i].id == p.bindingId;
        assert applicable[p.bindingId] == contract[i];
      }
      forall i | Applies(contract, mode, i) ensures exists p :: p in plan && p.bindingId == contract[i].id {
        assert contract[i].id in applicable;
      }
    }
    if Valid(contract, mode, plan, basis) {
      assert DistinctBy(plan, BindingId);
      forall id | id in applicable ensures exists p :: p in plan && p.bindingId == id {
        var i :| Applies(contract, mode, i) && contract[i].id == id;
      }
      forall p | p in plan ensures p.bindingId in applicable && Paired(applicable[p.bindingId], p, basis) {
        assert Answers(contract, mode, p, basis);
        var i :| Applies(contract, mode, i) && contract[i].id == p.bindingId && Paired(contract[i], p, basis);
        assert applicable[p.bindingId] == contract[i];
      }
    }
  }

  /** The same over the table of the applicable bindings. */
  ghost predicate Matched(contract: seq<Binding>, mode: string, plan: seq<Item>, basis: Basis) {
    var applicable := Applicable(contract, mode);
    && DistinctBy(plan, BindingId)
    && (forall id | id in applicable :: exists p :: p in plan && p.bindingId == id)
    && forall p | p in plan :: p.bindingId in applicable && Paired(applicable[p.bindingId], p, basis)
  }

  lemma {:induction false} HavingMembers(plan: seq<Item>, id: string)
    ensures forall p :: p in Having(plan, id) <==> p in plan && p.bindingId == id
  {
    if plan != [] {
      var last := |plan| - 1;
      HavingMembers(plan[..last], id);
      assert plan == plan[..last] + [plan[last]];
    }
  }

  lemma DistinctFront(plan: seq<Item>)
    requires plan != [] && DistinctBy(plan, BindingId)
    ensures DistinctBy(plan[..|plan| - 1], BindingId) && Having(plan[..|plan| - 1], plan[|plan| - 1].bindingId) == []
  {
    var last := |plan| - 1;
    var front := plan[..last];
    forall i, j | 0 <= i < j < last ensures BindingId(front[i]) != BindingId(front[j]) {
      assert BindingId(plan[i]) != BindingId(plan[j]);
    }
    var id := plan[last].bindingId;
    forall i | 0 <= i < last ensures front[i].bindingId != id {
      assert BindingId(plan[i]) != BindingId(plan[last]);
    }
    HavingNone(front, id);
  }

  lemma {:induction false} HavingNone(plan: seq<Item>, id: string)
    requires forall i | 0 <= i < |plan| :: plan[i].bindingId != id
    ensures Having(plan, id) == []
  {
    if plan != [] { HavingNone(plan[..|plan| - 1], id); }
  }

  lemma {:induction false} DistinctMeansOne(plan: seq<Item>, id: string)
    requires DistinctBy(plan, BindingId)
    ensures |Having(plan, id)| <= 1
  {
    if plan != [] {
      DistinctFront(plan);
      DistinctMeansOne(plan[..|plan| - 1], id);
    }
  }

  lemma {:induction false} OneMeansDistinct(plan: seq<Item>)
    requires forall id :: |Having(plan, id)| <= 1
    ensures DistinctBy(plan, BindingId)
  {
    if plan != [] {
      var last := |plan| - 1;
      var front := plan[..last];
      forall id ensures |Having(front, id)| <= 1 { assert |Having(plan, id)| <= 1; }
      OneMeansDistinct(front);
      assert |Having(plan, plan[last].bindingId)| <= 1;
      HavingMembers(front, plan[last].bindingId);
      forall i, j | 0 <= i < j < |plan| ensures BindingId(plan[i]) != BindingId(plan[j]) {
        if j < last { assert BindingId(front[i]) != BindingId(front[j]); } else { assert front[i] in front; }
      }
    }
  }

  lemma NoIssueIffMatched(contract: seq<Binding>, mode: string, plan: seq<Item>, basis: Basis)
    ensures Matched(contract, mode, plan, basis) <==> forall d :: !Issue(contract, mode, plan, basis, d)
  {
    if forall d :: !Issue(contract, mode, plan, basis, d) { NoIssueMeansMatched(contract, mode, plan, basis); }
    if Matched(contract, mode, plan, basis) { MatchedMeansNoIssue(contract, mode, plan, basis); }
  }

  lemma NoIssueMeansMatched(contract: seq<Binding>, mode: string, plan: seq<Item>, basis: Basis)
    requires forall d :: !Issue(contract, mode, plan, basis, d)
    ensures Matched(contract, mode, plan, basis)
  {
    var applicable := Applicable(contract, mode);
    forall id ensures |Having(plan, id)| <= 1 { assert !Issue(contract, mode, plan, basis, Duplicate(id)); }
    OneMeansDistinct(plan);
    forall id | id in applicable ensures exists p :: p in plan && p.bindingId == id {
      assert !Issue(contract, mode, plan, basis, Missing(id));
      HavingMembers(plan, id);
      assert Having(plan, id)[0] in Having(plan, id);
    }
    forall p | p in plan ensures p.bindingId in applicable && Paired(applicable[p.bindingId], p, basis) {
      var id := p.bindingId;
      HavingMembers(plan, id);
      assert p in Having(plan, id) && |Having(plan, id)| <= 1;
      assert Having(plan, id)[0] == p;
      assert !Issue(contract, mode, plan, basis, ModeInapplicable(id)) && !Issue(contract, mode, plan, basis, Unknown(id));
      forall d ensures !PairIssue(applicable[id], p, basis, d) {
        assert !Issue(contract, mode, plan, basis, d);
      }
      PairedIffNoIssue(applicable[id], p, basis);
    }
  }

  lemma MatchedMeansNoIssue(contract: seq<Binding>, mode: string, plan: seq<Item>, basis: Basis)
    requires Matched(contract, mode, plan, basis)
    ensures forall d :: !Issue(contract, mode, plan, basis, d)
  {
    forall d ensures !Issue(contract, mode, plan, basis, d) {
      DistinctMeansOne(plan, d.id);
      HavingMembers(plan, d.id);
      NoneMissing(contract, mode, plan, basis, d.id);
      if Having(plan, d.id) != [] { NoPairIssue(contract, mode, plan, basis, d); }
    }
  }

  lemma NoneMissing(contract: seq<Binding>, mode: string, plan: seq<Item>, basis: Basis, id: string)
    requires Matched(contract, mode, plan, basis)
    ensures id in Applicable(contract, mode) <==> Having(plan, id) != []
  {
    HavingMembers(plan, id);
    if id in Applicable(contract, mode) {
      var p :| p in plan && p.bindingId == id;
      assert p in Having(plan, id);
    }
    if Having(plan, id) != [] { assert Having(plan, id)[0] in Having(plan, id); }
  }

  lemma NoPairIssue(contract: seq<Binding>, mode: string, plan: seq<Item>, basis: Basis, d: Diagnostic)
    requires Matched(contract, mode, plan, basis) && Having(plan, d.id) != []
    ensures d.id in Applicable(contract, mode)
    ensures !PairIssue(Applicable(contract, mode)[d.id], Having(plan, d.id)[0], basis, d)
  {
    HavingMembers(plan, d.id);
    var p := Having(plan, d.id)[0];
    assert p in Having(plan, d.id);
    PairedIffNoIssue(Applicable(contract, mode)[d.id], p, basis);
  }

  /** The verdict does not depend on the order of the plan. */
  lemma VerdictIgnoresOrder(contract: seq<Binding>, mode: string, a: seq<Item>, b: seq<Item>, basis: Basis)
    requires multiset(a) == multiset(b)
    ensures Valid(contract, mode, a, basis) <==> Valid(contract, mode, b, basis)
  {
    MatchedIffValid(contract, mode, a, basis);
    MatchedIffValid(contract, mode, b, basis);
    hide Valid, Paired, Applicable;
    forall p ensures p in a <==> p in b { assert p in multiset(a) <==> p in multiset(b); }
    if DistinctBy(a, BindingId) { DistinctIsOrderFree(a, b, BindingId); }
    if DistinctBy(b, BindingId) { DistinctIsOrderFree(b, a, BindingId); }
  }
}
