/** Method records, the method catalog, and what one lifecycle command makes of them
    (src/model_forge/application/method_lifecycle.py, `change`). */
module MethodCatalog {
  import opened Wrappers

  type Fields = map<string, string>

  /** The identity object of a method; `stableId` is absent when the key is. */
  datatype Identity = Identity(stableId: Option<string>, rest: string)

  /** A JSON object with the fields the command looks at; `identity` is absent when it is not an
      object, `state` when there is no lifecycle state. */
  datatype Doc = Doc(identity: Option<Identity>, state: Option<string>, fields: Fields)

  /** An item of a list in the catalog: an object, a list that `dict` turns into one (no element at
      all, or only pairs), or anything else. */
  datatype Item = Dict(doc: Doc) | Pairs(doc: Doc) | NotADict

  /** `methods` and `projections` are absent when they are not lists. */
  datatype Catalog = Catalog(methods: Option<seq<Item>>, methodCount: Option<nat>, activeCount: Option<nat>,
                             projections: Option<seq<Item>>, fields: Fields)

  datatype ChangeError =
    | BadTarget | NoMethod | NoCatalog | IdentityMismatch | AlreadyThere | IllegalChange | NoMethodList
    | NotExactlyOne | IdentityDisagrees | StateDisagrees | ItemNotADict

  /** A missing lifecycle state reads as proposed. */
  function StateOf(d: Doc): string {
    if d.state.Some? then d.state.value else "proposed"
  }

  predicate Names(i: Item, id: string) {
    i.Dict? && i.doc.identity.Some? && i.doc.identity.value.stableId == Some(id)
  }

  predicate LegalChange(prior: string, target: string) {
    (prior == "active" && target == "retired") || (prior == "retired" && target == "active")
    || (prior == "proposed" && target == "active")
  }

  /** The positions of the entries that name the method. */
  function Matching(items: seq<Item>, id: string): (r: seq<nat>)
    ensures forall k | 0 <= k < |r| :: r[k] < |items|
    ensures forall i :: i in r <==> 0 <= i < |items| && Names(items[i], id)
  {
    if items == [] then []
    else
      var last := |items| - 1;
      Matching(items[..last], id) + (if Names(items[last], id) then [last] else [])
  }

  predicate AllDicts(items: seq<Item>) {
    forall i | 0 <= i < |items| :: items[i].Dict?
  }

  predicate Convertible(items: seq<Item>) {
    forall i | 0 <= i < |items| :: !items[i].NotADict?
  }

  /** `dict(item)` for every item. */
  function Converted(items: seq<Item>): (r: seq<Item>)
    requires Convertible(items)
    ensures AllDicts(r) && |r| == |items| && forall i | 0 <= i < |r| :: r[i] == Dict(items[i].doc)
  {
    seq(|items|, i requires 0 <= i < |items| => Dict(items[i].doc))
  }

  function ActiveCount(items: seq<Item>): nat
    requires AllDicts(items)
  {
    if items == [] then 0
    else
      var last := |items| - 1;
      ActiveCount(items[..last]) + (if StateOf(items[last].doc) != "retired" then 1 else 0)
  }

  /** The projections after the change: matching objects get the new state, other objects stay,
      everything else is dropped. */
  function Projected(items: seq<Item>, id: string, target: string): seq<Item> {
    if items == [] then []
    else
      var rest := Projected(items[1..], id, target);
      if !items[0].Dict? then rest
      else if Names(items[0], id) then [Dict(items[0].doc.(state := Some(target)))] + rest
      else [items[0]] + rest
  }

  /** The new method record and catalog, or why the command is refused.  `stamp` are the
      publication fields of the new generations. */
  function Change(method_: Option<Doc>, catalog: Option<Catalog>, id: string, target: string,
                  stamp: Fields, catalogStamp: Fields): (r: Result<(Doc, Catalog), ChangeError>)
  {
    if target != "active" && target != "retired" then Err(BadTarget)
    else if method_.None? then Err(NoMethod)
    else if catalog.None? then Err(NoCatalog)
    else
      var m, c := method_.value, catalog.value;
      if !Names(Dict(m), id) then Err(IdentityMismatch)
      else if !LegalChange(StateOf(m), target) then Err(if StateOf(m) == target then AlreadyThere else IllegalChange)
      else if c.methods.None? then Err(NoMethodList)
      else
        var items := c.methods.value;
        var found := Matching(items, id);
        if |found| != 1 then Err(NotExactlyOne)
        else if items[found[0]].doc.identity != m.identity then Err(IdentityDisagrees)
        else if StateOf(items[found[0]].doc) != StateOf(m) then Err(StateDisagrees)
        else
          var m' := m.(state := Some(target), fields := m.fields + stamp);
          var items' := items[found[0] := Dict(m')];
          if !Convertible(items') then Err(ItemNotADict)
          else
            var entries := Converted(items');
            Ok((m', Catalog(Some(entries), Some(|entries|), Some(ActiveCount(entries)),
                            if c.projections.Some? then Some(Projected(c.projections.value, id, target)) else None,
                            c.fields + catalogStamp)))
  }

  // ---------------------------------------------------------------- what a change means

  /** Exactly one entry names the method, and it has the record's identity and state. */
  ghost predicate Agree(m: Doc, c: Catalog, id: string) {
    c.methods.Some? && exists i :: EntryAt(c.methods.value, id, i) && AgreeOn(m, c.methods.value[i].doc)
  }

  ghost predicate EntryAt(items: seq<Item>, id: string, i: int) {
    0 <= i < |items| && Names(items[i], id) && forall j | 0 <= j < |items| && Names(items[j], id) :: j == i
  }

  predicate AgreeOn(m: Doc, e: Doc) {
    e.identity == m.identity && StateOf(e) == StateOf(m)
  }

  /** An entry that is no object and does not count as naming the method, but that `dict` turns into
      an object naming it. */
  ghost predicate Hidden(c: Catalog, id: string) {
    c.methods.Some? && exists i :: 0 <= i < |c.methods.value| && HiddenAt(c.methods.value, id, i)
  }

  predicate HiddenAt(items: seq<Item>, id: string, i: nat)
    requires i < |items|
  {
    items[i].Pairs? && Names(Dict(items[i].doc), id)
  }

  /** The positions that are not retired. */
  function ActiveSet(items: seq<Item>): set<nat>
    requires AllDicts(items)
  {
    set i | 0 <= i < |items| && StateOf(items[i].doc) != "retired"
  }

  ghost predicate CountsRight(c: Catalog) {
    c.methods.Some? && AllDicts(c.methods.value) && c.methodCount == Some(|c.methods.value|)
    && c.activeCount == Some(|ActiveSet(c.methods.value)|)
  }

  lemma {:induction false} OneMatchIsEntry(items: seq<Item>, id: string)
    ensures |Matching(items, id)| == 1 <==> exists i :: EntryAt(items, id, i)
    ensures |Matching(items, id)| == 1 ==> EntryAt(items, id, Matching(items, id)[0])
  {
    var found := Matching(items, id);
    MatchingDistinct(items, id);
    assert |found| > 1 ==> found[0] != found[1];
    if |found| == 1 {
      assert found == [found[0]] && found[0] in found;
      forall j | 0 <= j < |items| && Names(items[j], id) ensures j == found[0] { assert j in found; }
      assert EntryAt(items, id, found[0]);
    }
    if exists i :: EntryAt(items, id, i) {
      var i :| EntryAt(items, id, i);
      assert i in found;
      forall k | 0 <= k < |found| ensures found[k] == i { assert found[k] in found; }
    }
  }

  lemma {:induction false} MatchingDistinct(items: seq<Item>, id: string)
    ensures forall a, b | 0 <= a < b < |Matching(items, id)| :: Matching(items, id)[a] != Matching(items, id)[b]
  {
    if items != [] {
      MatchingDistinct(items[..|items| - 1], id);
    }
  }

  lemma ActiveSetStep(items: seq<Item>)
    requires AllDicts(items) && items != []
    ensures var last := |items| - 1;
      ActiveSet(items) == ActiveSet(items[..last]) + (if StateOf(items[last].doc) != "retired" then {last} else {})
  {
    var before := items[..|items| - 1];
    assert forall i | 0 <= i < |before| :: before[i] == items[i];
  }

  lemma {:induction false} ActiveCountIsRecount(items: seq<Item>)
    requires AllDicts(items)
    ensures ActiveCount(items) == |ActiveSet(items)|
  {
    if items != [] {
      ActiveCountIsRecount(items[..|items| - 1]);
      ActiveSetStep(items);
    }
  }

  /** The entries a command leaves: the method's own, and the objects of all the others. */
  lemma ChangeEntries(m: Doc, c: Catalog, id: string, target: string, stamp: Fields, catalogStamp: Fields) returns (at: nat)
    requires Change(Some(m), Some(c), id, target, stamp, catalogStamp).Ok?
    ensures c.methods.Some? && EntryAt(c.methods.value, id, at) && AgreeOn(m, c.methods.value[at].doc)
    ensures var (m', c') := Change(Some(m), Some(c), id, target, stamp, catalogStamp).value;
      var items := c.methods.value;
      && c'.methods.Some? && |c'.methods.value| == |items| && AllDicts(c'.methods.value) && c'.methods.value[at] == Dict(m')
      && forall i | 0 <= i < |items| && i != at :: !items[i].NotADict? && c'.methods.value[i] == Dict(items[i].doc)
  {
    var items := c.methods.value;
    OneMatchIsEntry(items, id);
    at := Matching(items, id)[0];
    var (m', c') := Change(Some(m), Some(c), id, target, stamp, catalogStamp).value;
    forall i | 0 <= i < |items| && i != at ensures !items[i].NotADict? && c'.methods.value[i] == Dict(items[i].doc) {
      assert items[at := Dict(m')][i] == items[i];
    }
  }

  lemma AgreesUnlessHidden(items: seq<Item>, entries: seq<Item>, id: string, at: nat)
    requires |entries| == |items| && EntryAt(items, id, at) && Names(entries[at], id)
    requires forall i | 0 <= i < |items| && i != at :: !items[i].NotADict? && entries[i] == Dict(items[i].doc)
    ensures (exists i :: EntryAt(entries, id, i)) <==> !exists i :: 0 <= i < |items| && HiddenAt(items, id, i)
    ensures forall i | EntryAt(entries, id, i) :: i == at
  {
    forall i | 0 <= i < |items| && i != at ensures Names(entries[i], id) <==> HiddenAt(items, id, i) {
      assert entries[i] == Dict(items[i].doc) && !Names(items[i], id);
    }
    if !exists i :: 0 <= i < |items| && HiddenAt(items, id, i) { assert EntryAt(entries, id, at); }
  }

  /** A command that is not refused moves exactly one method, legally; every other entry is what it
      was, or the object it turned into, and both counts are right.  Afterwards record and catalog
      agree exactly when no entry turned into another one that names the method. */
  lemma ChangeMeaning(m: Doc, c: Catalog, id: string, target: string, stamp: Fields, catalogStamp: Fields)
    requires Change(Some(m), Some(c), id, target, stamp, catalogStamp).Ok?
    ensures var (m', c') := Change(Some(m), Some(c), id, target, stamp, catalogStamp).value;
      && Agree(m, c, id) && (Agree(m', c', id) <==> !Hidden(c, id)) && !Hidden(c', id)
      && m'.identity == m.identity && m'.state == Some(target)
      && m'.fields == m.fields + stamp && c'.fields == c.fields + catalogStamp
      && (StateOf(m), target) in {("active", "retired"), ("retired", "active"), ("proposed", "active")} && CountsRight(c')
      && c'.projections == (if c.projections.Some? then Some(Projected(c.projections.value, id, target)) else None)
      && c'.methods.Some? && |c'.methods.value| == |c.methods.value|
      && (forall i | 0 <= i < |c.methods.value| ::
            if Names(c.methods.value[i], id) then c'.methods.value[i] == Dict(m')
            else !c.methods.value[i].NotADict? && c'.methods.value[i] == Dict(c.methods.value[i].doc))
  {
    var at := ChangeEntries(m, c, id, target, stamp, catalogStamp);
    var (m', c') := Change(Some(m), Some(c), id, target, stamp, catalogStamp).value;
    LegalIff(StateOf(m), target);
    ActiveCountIsRecount(c'.methods.value);
    assert Names(c'.methods.value[at], id) && AgreeOn(m', c'.methods.value[at].doc);
    AgreesUnlessHidden(c.methods.value, c'.methods.value, id, at);
  }

  lemma LegalIff(prior: string, target: string)
    ensures LegalChange(prior, target) <==> (prior, target) in {("active", "retired"), ("retired", "active"), ("proposed", "active")}
  {
  }

  /** The command is refused exactly when record and catalog do not agree, the change is not
      legal, or `dict` cannot make an object of another entry of the catalog. */
  lemma ChangeRefusedIff(m: Doc, c: Catalog, id: string, target: string, stamp: Fields, catalogStamp: Fields)
    ensures Change(Some(m), Some(c), id, target, stamp, catalogStamp).Ok? <==>
      && Names(Dict(m), id) && Agree(m, c, id)
      && (StateOf(m), target) in {("active", "retired"), ("retired", "active"), ("proposed", "active")}
      && forall i | 0 <= i < |c.methods.value| :: !c.methods.value[i].NotADict?
  {
    RefusedByTable(m, c, id, target, stamp, catalogStamp);
    LegalIff(StateOf(m), target);
    hide Change, LegalChange;
  }

  lemma RefusedByTable(m: Doc, c: Catalog, id: string, target: string, stamp: Fields, catalogStamp: Fields)
    ensures Change(Some(m), Some(c), id, target, stamp, catalogStamp).Ok? <==>
      && Names(Dict(m), id) && Agree(m, c, id) && LegalChange(StateOf(m), target)
      && Convertible(c.methods.value)
  {
    if c.methods.Some? {
      var items := c.methods.value;
      OneMatchIsEntry(items, id);
      if |Matching(items, id)| == 1 {
        var at := Matching(items, id)[0];
        assert EntryAt(items, id, at);
        var m' := m.(state := Some(target), fields := m.fields + stamp);
        var items' := items[at := Dict(m')];
        assert Convertible(items') <==> Convertible(items) by {
          if Convertible(items') {
            forall i | 0 <= i < |items| ensures !items[i].NotADict? {
              if i != at { assert items'[i] == items[i]; }
            }
          }
        }
        if Agree(m, c, id) {
          var i :| EntryAt(items, id, i) && AgreeOn(m, items[i].doc);
          assert i == at;
        }
      }
    }
  }

  /** A catalog in which that happens: the record's own fields again, written as a list of pairs. */
  lemma PairsBreakAgreement(m: Doc, id: string, target: string, stamp: Fields, catalogStamp: Fields)
    requires Names(Dict(m), id) && LegalChange(StateOf(m), target)
    ensures var c := Catalog(Some([Dict(m), Pairs(m)]), None, None, None, map[]);
      var r := Change(Some(m), Some(c), id, target, stamp, catalogStamp);
      Agree(m, c, id) && r.Ok? && !Agree(r.value.0, r.value.1, id)
  {
    var c := Catalog(Some([Dict(m), Pairs(m)]), None, None, None, map[]);
    assert EntryAt(c.methods.value, id, 0) && AgreeOn(m, c.methods.value[0].doc);
    assert HiddenAt(c.methods.value, id, 1);
    RefusedByTable(m, c, id, target, stamp, catalogStamp);
    ChangeMeaning(m, c, id, target, stamp, catalogStamp);
  }

  /** Another method's record agrees with the catalog exactly when it did before and no entry
      turned into another one that names that method. */
  lemma ChangeLeavesOthersAgreeing(m: Doc, c: Catalog, id: string, target: string, stamp: Fields, catalogStamp: Fields,
                                   other: string, n: Doc)
    requires Change(Some(m), Some(c), id, target, stamp, catalogStamp).Ok? && other != id
    ensures var after := Change(Some(m), Some(c), id, target, stamp, catalogStamp).value.1;
      && (!Hidden(c, other) ==> (Agree(n, c, other) <==> Agree(n, after, other)))
      && (Hidden(c, other) && Agree(n, c, other) ==> !Agree(n, after, other))
      && !Hidden(after, other)
  {
    ChangeMeaning(m, c, id, target, stamp, catalogStamp);
    var items := c.methods.value;
    var items' := Change(Some(m), Some(c), id, target, stamp, catalogStamp).value.1.methods.value;
    assert Names(Dict(m), id);
    if Hidden(c, other) {
      var k :| 0 <= k < |items| && HiddenAt(items, other, k);
      assert Names(items'[k], other);
      if i :| EntryAt(items, other, i) { assert i != k && Names(items'[i], other); }
    } else {
      SameEntries(items, items', id, other);
      if i :| EntryAt(items, other, i) && AgreeOn(n, items[i].doc) { assert EntryAt(items', other, i); }
      if i :| EntryAt(items', other, i) && AgreeOn(n, items'[i].doc) { assert EntryAt(items, other, i); }
    }
  }

  lemma SameEntries(items: seq<Item>, items': seq<Item>, id: string, other: string)
    requires |items| == |items'| && id != other
    requires forall i | 0 <= i < |items| ::
      (Names(items[i], id) && Names(items'[i], id))
      || (!items[i].NotADict? && items'[i] == Dict(items[i].doc) && !HiddenAt(items, other, i))
    ensures forall i :: EntryAt(items, other, i) <==> EntryAt(items', other, i)
    ensures forall i | EntryAt(items, other, i) :: items[i] == items'[i]
  {
    assert forall i | 0 <= i < |items| :: Names(items[i], other) <==> Names(items'[i], other);
  }

  /** In the projections every object is kept in order, with the new state exactly where it names
      the method. */
  lemma {:induction false} ProjectedAt(items: seq<Item>, id: string, target: string, k: nat)
    requires AllDicts(items) && k < |items|
    ensures |Projected(items, id, target)| == |items|
    ensures Projected(items, id, target)[k] ==
      if Names(items[k], id) then Dict(items[k].doc.(state := Some(target))) else items[k]
    decreases |items|
  {
    if |items| > 1 { ProjectedAt(items[1..], id, target, if k > 0 then k - 1 else 0); }
  }

  /** The items that are objects, in order. */
  function Dicts(items: seq<Item>): (r: seq<Item>)
    ensures AllDicts(r)
  {
    if items == [] then [] else (if items[0].Dict? then [items[0]] else []) + Dicts(items[1..])
  }

  /** Everything in the projections that is not an object is dropped, and nothing else. */
  lemma {:induction false} ProjectedDropsTheRest(items: seq<Item>, id: string, target: string)
    ensures Projected(items, id, target) == Projected(Dicts(items), id, target)
    ensures |Projected(items, id, target)| == |Dicts(items)|
    decreases |items|
  {
    if items != [] {
      ProjectedDropsTheRest(items[1..], id, target);
      if items[0].Dict? {
        assert Dicts(items)[1..] == Dicts(items[1..]);
      } else {
        assert Dicts(items) == Dicts(items[1..]);
      }
    }
  }
}
