/** The deterministic reducer of the method catalog: the prior index and the method records of a
    Phase 2 run become the next index (src/model_forge/harness/index_reducers.py). */
module MethodIndex {
  import opened Wrappers
  import opened Sequences
  import opened MethodCatalog

  const FORMAT := "model-forge.method-catalog-index"
  const VERSION := "1.0.0"

  datatype IndexError = NotAnObject | WrongFormat | NoItems | NoStableId

  /** An object with a stable id. */
  predicate Keyed(i: Item) {
    i.Dict? && i.doc.identity.Some? && i.doc.identity.value.stableId.Some?
  }

  /** `_method_key`. */
  function KeyOf(i: Item): string
    requires Keyed(i)
  {
    i.doc.identity.value.stableId.value
  }

  predicate AllKeyed(items: seq<Item>) {
    forall i | 0 <= i < |items| :: Keyed(items[i])
  }

  predicate HasFormat(c: Catalog) {
    "format" in c.fields && c.fields["format"] == FORMAT && "format_version" in c.fields && c.fields["format_version"] == VERSION
  }

  /** `_prior_items`. */
  function PriorItems(prior: Option<Catalog>): Result<seq<Item>, IndexError> {
    if prior.None? then Ok([])
    else if !HasFormat(prior.value) then Err(WrongFormat)
    else if prior.value.methods.None? then Err(NoItems)
    else if !AllDicts(prior.value.methods.value) then Err(NotAnObject)
    else Ok(prior.value.methods.value)
  }

  /** The items by key; the last of a key wins. */
  function Merged(items: seq<Item>): map<string, Doc>
    requires AllKeyed(items)
  {
    if items == [] then map[]
    else
      var last := |items| - 1;
      Merged(items[..last])[KeyOf(items[last]) := items[last].doc]
  }

  /** The keys, in the order of their first items. */
  function Keys(items: seq<Item>): (r: seq<string>)
    requires AllKeyed(items)
    ensures forall k :: k in r <==> k in Merged(items)
    ensures DistinctBy(r, Itself)
  {
    if items == [] then []
    else
      var last := |items| - 1;
      var before, key := Keys(items[..last]), KeyOf(items[last]);
      if key in before then before else before + [key]
  }

  function SortedKeys(items: seq<Item>): (r: seq<string>)
    requires AllKeyed(items)
    ensures forall i | 0 <= i < |r| :: r[i] in Merged(items)
  {
    SortedMembers(Keys(items), TextLess);
    var r := SortedBy(Keys(items), TextLess);
    assert forall i | 0 <= i < |r| :: r[i] in Keys(items);
    r
  }

  function Entries(items: seq<Item>): (r: seq<Item>)
    requires AllKeyed(items)
    ensures AllDicts(r)
  {
    var keys := SortedKeys(items);
    seq(|keys|, i requires 0 <= i < |keys| => Dict(Merged(items)[keys[i]]))
  }

  function TextAt(f: Fields, key: string, missing: string): string {
    if key in f then f[key] else missing
  }

  /** The projection of an entry. */
  function ViewOf(i: Item): Item {
    if !Keyed(i) then i
    else Dict(Doc(i.doc.identity, Some(StateOf(i.doc)),
                  map["title" := TextAt(i.doc.fields, "title", KeyOf(i)), "summary" := TextAt(i.doc.fields, "summary", "")]))
  }

  const HEADER: Fields := map["format" := FORMAT, "format_version" := VERSION, "record_type" := "method_catalog"]

  function CatalogOf(entries: seq<Item>): Catalog
    requires AllDicts(entries)
  {
    Catalog(Some(entries), Some(|entries|), Some(ActiveCount(entries)), Some(Mapped(entries, ViewOf)), HEADER)
  }

  /** `_method_catalog`, with the check that `prepare_index_transforms` makes of the records. */
  function Index(prior: Option<Catalog>, changes: seq<Item>): Result<Catalog, IndexError> {
    if !AllDicts(changes) then Err(NotAnObject)
    else
      var items :- PriorItems(prior);
      if !AllKeyed(items + changes) then Err(NoStableId) else Ok(CatalogOf(Entries(items + changes)))
  }

  // ---------------------------------------------------------------- the two loops

  method Merge(merged: map<string, Doc>, items: seq<Item>) returns (r: Result<map<string, Doc>, IndexError>)
    ensures r.Ok? <==> AllKeyed(items)
    ensures r.Ok? ==> r.value == merged + Merged(items)
    ensures r.Err? ==> r.error == NoStableId
  {
    var result := merged;
    var i := 0;
    while i < |items|
      invariant 0 <= i <= |items| && AllKeyed(items[..i]) && result == merged + Merged(items[..i])
    {
      if !Keyed(items[i]) { return Err(NoStableId); }
      assert items[..i + 1][..i] == items[..i];
      result := result[KeyOf(items[i]) := items[i].doc];
      i := i + 1;
    }
    assert items[..i] == items;
    r := Ok(result);
  }

  method ListEntries(merged: map<string, Doc>, ghost items: seq<Item>, keys: seq<string>) returns (entries: seq<Item>)
    requires AllKeyed(items) && merged == Merged(items) && keys == SortedKeys(items)
    ensures entries == Entries(items)
  {
    hide Merged, SortedKeys;
    entries := [];
    var i := 0;
    while i < |keys|
      invariant 0 <= i <= |keys| && entries == Entries(items)[..i]
    {
      entries := entries + [Dict(merged[keys[i]])];
      i := i + 1;
    }
  }

  /** The reducer as it runs: the prior items are merged first, then the changes. */
  method Reduce(prior: Option<Catalog>, changes: seq<Item>) returns (r: Result<Catalog, IndexError>)
    ensures r == Index(prior, changes)
  {
    hide Merged, SortedKeys, Entries, PriorItems, CatalogOf, AllKeyed;
    if !AllDicts(changes) { return Err(NotAnObject); }
    var items :- PriorItems(prior);
    KeyedParts(items, changes);
    MergeNothing(items);
    var merged :- Merge(map[], items);
    merged :- Merge(merged, changes);
    MergedOver(items, changes);
    var entries := ListEntries(merged, items + changes, SortedKeys(items + changes));
    r := Ok(CatalogOf(entries));
  }

  lemma MergeNothing(items: seq<Item>)
    ensures AllKeyed(items) ==> map[] + Merged(items) == Merged(items)
  {
  }

  lemma KeyedParts(a: seq<Item>, b: seq<Item>)
    ensures AllKeyed(a + b) <==> AllKeyed(a) && AllKeyed(b)
  {
    if AllKeyed(a + b) {
      forall i | 0 <= i < |a| ensures Keyed(a[i]) { assert (a + b)[i] == a[i]; }
      forall i | 0 <= i < |b| ensures Keyed(b[i]) { assert (a + b)[|a| + i] == b[i]; }
    }
  }

  lemma MergedNext(items: seq<Item>)
    requires AllKeyed(items) && items != []
    ensures var n := |items| - 1;
      AllKeyed(items[..n]) && Merged(items) == Merged(items[..n])[KeyOf(items[n]) := items[n].doc]
  {
  }

  lemma {:induction false} MergedOver(a: seq<Item>, b: seq<Item>)
    requires AllKeyed(a) && AllKeyed(b)
    ensures AllKeyed(a + b) && Merged(a + b) == Merged(a) + Merged(b)
    decreases |b|
  {
    KeyedParts(a, b);
    if b == [] {
      assert a + b == a;
    } else {
      var n := |b| - 1;
      KeyedParts(b[..n], [b[n]]);
      KeyedParts(a, b[..n]);
      MergedOver(a, b[..n]);
      assert (a + b)[..|a| + n] == a + b[..n] && (a + b)[|a| + n] == b[n];
      MergedNext(a + b);
      MergedNext(b);
    }
  }

  // ---------------------------------------------------------------- what the index means

  /** A key is there exactly when some item has it, and then with an item that has it. */
  lemma {:induction false} MergedMeaning(items: seq<Item>, id: string)
    requires AllKeyed(items)
    ensures id in Merged(items) <==> exists k :: 0 <= k < |items| && Names(items[k], id)
    ensures id in Merged(items) ==> Names(Dict(Merged(items)[id]), id)
  {
    if items != [] {
      var n := |items| - 1;
      MergedMeaning(items[..n], id);
      if exists k :: 0 <= k < |items| && Names(items[k], id) {
        var k :| 0 <= k < |items| && Names(items[k], id);
        assert k < n ==> items[..n][k] == items[k];
      }
      if k :| 0 <= k < n && Names(items[..n][k], id) { assert items[k] == items[..n][k]; }
      assert Names(items[n], id) <==> KeyOf(items[n]) == id;
    }
  }

  /** It is the last item that has it. */
  lemma {:induction false} LastItemWins(items: seq<Item>, k: nat)
    requires AllKeyed(items) && k < |items| && forall j | k < j < |items| :: KeyOf(items[j]) != KeyOf(items[k])
    ensures KeyOf(items[k]) in Merged(items) && Merged(items)[KeyOf(items[k])] == items[k].doc
    decreases |items|
  {
    var n := |items| - 1;
    if k < n {
      assert items[..n][k] == items[k] && forall j | k < j < n :: items[..n][j] == items[j];
      LastItemWins(items[..n], k);
    }
  }

  lemma KeysAscend(items: seq<Item>)
    requires AllKeyed(items)
    ensures forall i, j | 0 <= i < j < |SortedKeys(items)| :: TextLess(SortedKeys(items)[i], SortedKeys(items)[j])
    ensures forall k :: k in SortedKeys(items) <==> k in Merged(items)
  {
    var keys, r := Keys(items), SortedKeys(items);
    TextsOrdered(keys);
    SortedAscending(keys, TextLess, keys);
    SortedMembers(keys, TextLess);
    DistinctIsOrderFree(keys, r, Itself);
    forall i, j | 0 <= i < j < |r| ensures TextLess(r[i], r[j]) {
      assert Itself(r[i]) != Itself(r[j]);
      TextTotal(r[i], r[j]);
    }
  }

  /** The entries ascend by key, so each key has one; it is there exactly when some item has the key. */
  lemma EntriesMeaning(items: seq<Item>, id: string)
    requires AllKeyed(items)
    ensures AllKeyed(Entries(items))
    ensures forall i, j | 0 <= i < j < |Entries(items)| :: TextLess(KeyOf(Entries(items)[i]), KeyOf(Entries(items)[j]))
    ensures (exists i :: EntryAt(Entries(items), id, i)) <==> id in Merged(items)
    ensures forall i | EntryAt(Entries(items), id, i) :: Entries(items)[i] == Dict(Merged(items)[id])
    ensures id !in Merged(items) ==> forall i | 0 <= i < |Entries(items)| :: !Names(Entries(items)[i], id)
  {
    var keys, entries := SortedKeys(items), Entries(items);
    KeysAscend(items);
    forall i | 0 <= i < |keys| ensures Keyed(entries[i]) && KeyOf(entries[i]) == keys[i] {
      MergedMeaning(items, keys[i]);
    }
    if id in Merged(items) {
      var i :| 0 <= i < |keys| && keys[i] == id;
      forall j | 0 <= j < |keys| && Names(entries[j], id) ensures j == i {
        if j < i { TextAsymmetric(keys[j], keys[i]); }
        if i < j { TextAsymmetric(keys[i], keys[j]); }
      }
      assert EntryAt(entries, id, i);
    }
  }

  /** The reducer refuses exactly an index of another format, or one without a list, and any item, of
      the index or of the run, that is no object with a stable id. */
  lemma IndexRefusedIff(prior: Option<Catalog>, changes: seq<Item>)
    ensures Index(prior, changes).Ok? <==>
      AllKeyed(changes) && (prior.Some? ==> HasFormat(prior.value) && prior.value.methods.Some? && AllKeyed(prior.value.methods.value))
  {
    if prior.Some? && prior.value.methods.Some? { KeyedParts(prior.value.methods.value, changes); }
    KeyedParts([], changes);
  }

  function ItemsOf(prior: Option<Catalog>): seq<Item> {
    if prior.Some? && prior.value.methods.Some? then prior.value.methods.value else []
  }

  lemma IndexIsEntries(prior: Option<Catalog>, changes: seq<Item>)
    requires Index(prior, changes).Ok?
    ensures AllKeyed(ItemsOf(prior)) && AllKeyed(changes) && AllKeyed(ItemsOf(prior) + changes)
    ensures Index(prior, changes).value == CatalogOf(Entries(ItemsOf(prior) + changes))
    ensures Merged(ItemsOf(prior) + changes) == Merged(ItemsOf(prior)) + Merged(changes)
  {
    IndexRefusedIff(prior, changes);
    KeyedParts(ItemsOf(prior), changes);
    MergedOver(ItemsOf(prior), changes);
  }

  /** The next index: its entries are objects in the order of their keys, one for each key, the
      record of the run if it has one and else the prior entry; its counts are right, it can be
      reduced again, and no entry of it is hidden. */
  lemma IndexMeaning(prior: Option<Catalog>, changes: seq<Item>, id: string)
    requires Index(prior, changes).Ok?
    ensures var c := Index(prior, changes).value;
      && c.methods.Some? && AllKeyed(c.methods.value) && CountsRight(c) && HasFormat(c) && !Hidden(c, id)
      && (forall i, j | 0 <= i < j < |c.methods.value| :: TextLess(KeyOf(c.methods.value[i]), KeyOf(c.methods.value[j])))
      && AllKeyed(ItemsOf(prior)) && AllKeyed(changes)
      && ((exists i :: EntryAt(c.methods.value, id, i)) <==> id in Merged(ItemsOf(prior)) || id in Merged(changes))
      && (id !in Merged(ItemsOf(prior)) && id !in Merged(changes) ==>
            forall i | 0 <= i < |c.methods.value| :: !Names(c.methods.value[i], id))
      && (forall i | EntryAt(c.methods.value, id, i) ::
            c.methods.value[i] == Dict(if id in Merged(changes) then Merged(changes)[id] else Merged(ItemsOf(prior))[id]))
  {
    IndexIsEntries(prior, changes);
    var items := ItemsOf(prior) + changes;
    EntriesMeaning(items, id);
    CatalogMeaning(Entries(items), id);
    MergedOfBoth(ItemsOf(prior), changes, id);
    hide *;
  }

  /** The projections of the next index follow its entries: identity and state of the entry, its title
      or else its stable id, its summary or else none. */
  lemma ProjectionsMeaning(prior: Option<Catalog>, changes: seq<Item>, i: nat)
    requires Index(prior, changes).Ok? && Index(prior, changes).value.methods.Some?
    ensures var c := Index(prior, changes).value;
      && c.projections.Some? && |c.projections.value| == |c.methods.value|
      && (i < |c.methods.value| ==> AllKeyed(c.methods.value) && Projects(c.projections.value[i], c.methods.value[i].doc))
  {
    IndexMeaning(prior, changes, "");
    IndexIsEntries(prior, changes);
    var entries := Entries(ItemsOf(prior) + changes);
    CatalogMeaning(entries, "");
    assert CatalogOf(entries).projections == Some(Mapped(entries, ViewOf));
    if i < |entries| { ViewProjects(entries[i]); }
    hide *;
  }

  lemma ViewProjects(i: Item)
    requires Keyed(i)
    ensures Projects(ViewOf(i), i.doc)
  {
  }

  predicate Projects(view: Item, d: Doc) {
    && view.Dict? && view.doc.identity == d.identity && d.identity.Some?
    && view.doc.state == Some(if d.state.Some? then d.state.value else "proposed")
    && view.doc.fields.Keys == {"title", "summary"}
    && (if "title" in d.fields then view.doc.fields["title"] == d.fields["title"]
        else d.identity.value.stableId == Some(view.doc.fields["title"]))
    && view.doc.fields["summary"] == if "summary" in d.fields then d.fields["summary"] else ""
  }

  lemma CatalogMeaning(entries: seq<Item>, id: string)
    requires AllDicts(entries)
    ensures var c := CatalogOf(entries);
      c.methods == Some(entries) && CountsRight(c) && HasFormat(c) && !Hidden(c, id)
  {
    ActiveCountIsRecount(entries);
  }

  lemma MergedOfBoth(a: seq<Item>, b: seq<Item>, id: string)
    requires AllKeyed(a) && AllKeyed(b)
    ensures AllKeyed(a + b)
    ensures id in Merged(a + b) <==> id in Merged(a) || id in Merged(b)
    ensures id in Merged(a + b) ==> Merged(a + b)[id] == if id in Merged(b) then Merged(b)[id] else Merged(a)[id]
  {
    MergedOver(a, b);
  }

  /** Neither writer of the catalog stores anything but objects, so no entry of theirs can turn into
      another one. */
  lemma WritersStoreObjects(prior: Option<Catalog>, changes: seq<Item>, m: Doc, c: Catalog, id: string, target: string,
                            stamp: Fields, catalogStamp: Fields)
    ensures Index(prior, changes).Ok? ==>
      Index(prior, changes).value.methods.Some? && AllDicts(Index(prior, changes).value.methods.value)
    ensures var r := Change(Some(m), Some(c), id, target, stamp, catalogStamp);
      r.Ok? ==> r.value.1.methods.Some? && AllDicts(r.value.1.methods.value)
  {
    if Change(Some(m), Some(c), id, target, stamp, catalogStamp).Ok? {
      ChangeMeaning(m, c, id, target, stamp, catalogStamp);
    }
  }

  // ---------------------------------------------------------------- records and entries

  /** A record published with the index agrees with it, and a record that is not part of the run
      agrees with it when it agreed before. */
  lemma IndexAgrees(prior: Option<Catalog>, changes: seq<Item>, m: Doc, id: string)
    requires Index(prior, changes).Ok?
    ensures AllKeyed(changes)
    ensures var c := Index(prior, changes).value;
      && (id in Merged(changes) ==> (Agree(m, c, id) <==> AgreeOn(m, Merged(changes)[id])))
      && (id !in Merged(changes) && prior.Some? && Agree(m, prior.value, id) ==> Agree(m, c, id))
  {
    IndexMeaning(prior, changes, id);
    var c := Index(prior, changes).value;
    if id in Merged(changes) {
      var i :| EntryAt(c.methods.value, id, i);
      if AgreeOn(m, Merged(changes)[id]) { assert AgreeOn(m, c.methods.value[i].doc); }
    } else if prior.Some? && Agree(m, prior.value, id) {
      var items := prior.value.methods.value;
      var j :| EntryAt(items, id, j) && AgreeOn(m, items[j].doc);
      MergedMeaning(items, id);
      forall k | j < k < |items| ensures KeyOf(items[k]) != KeyOf(items[j]) { assert !Names(items[k], id); }
      LastItemWins(items, j);
      var i :| EntryAt(c.methods.value, id, i);
      assert AgreeOn(m, c.methods.value[i].doc);
    }
  }
}
