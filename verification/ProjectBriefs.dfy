/** The values of a project brief: what a request makes of them, and when it is refused
    (src/model_forge/application/project_commands.py). */
module ProjectBriefs {
  import opened Wrappers
  import opened Sequences
  import Instructions

  datatype Value = Text(text: string) | Items(items: seq<string>) | Null

  /** The scientific fields of a brief, and all others. */
  datatype Key = ResearchQuestion | Domains | IntendedUse | Scope | DecisionCriteria | Constraints | Other(name: string)

  const SCIENTIFIC: set<Key> := {ResearchQuestion, Domains, IntendedUse, Scope, DecisionCriteria, Constraints}

  type Fields = map<Key, Value>

  datatype Creation = Creation(question: string, domains: seq<string>, use: string, scope: Option<string>,
                               criteria: seq<string>, constraints: seq<string>)

  /** `None` for a field that is not in the request, `Some(None)` for one that is null there. */
  datatype Update = Update(question: Option<Option<string>>, domains: Option<Option<seq<string>>>,
                           use: Option<Option<string>>, scope: Option<Option<string>>,
                           criteria: Option<Option<seq<string>>>, constraints: Option<Option<seq<string>>>)

  datatype BriefError = BlankEntry | DuplicateEntry | NothingChanges

  // ---------------------------------------------------------------- single values

  /** `_optional_text`: a blank text is no text. */
  function OptionalText(value: Option<string>): Value {
    if value.None? || Instructions.Strip(value.value) == "" then Null else Text(Instructions.Strip(value.value))
  }

  function Stripped(values: seq<string>): (r: seq<string>)
    ensures |r| == |values| && forall i | 0 <= i < |r| :: r[i] == Instructions.Strip(values[i])
  {
    seq(|values|, i requires 0 <= i < |values| => Instructions.Strip(values[i]))
  }

  /** `_text_items`. */
  function TextItems(values: seq<string>): Result<seq<string>, BriefError> {
    var items := Stripped(values);
    if "" in items then Err(BlankEntry)
    else if |set i | i in items| != |items| then Err(DuplicateEntry)
    else Ok(items)
  }

  /** No entry is blank and no two entries are the same text. */
  ghost predicate Listable(values: seq<string>) {
    && (forall i | 0 <= i < |values| :: Instructions.Strip(values[i]) != "")
    && forall i, j | 0 <= i < j < |values| :: Instructions.Strip(values[i]) != Instructions.Strip(values[j])
  }

  lemma {:induction false} SetOfDistinct(items: seq<string>)
    ensures |set i | i in items| <= |items|
    ensures |set i | i in items| == |items| <==> DistinctBy(items, Itself)
  {
    if items != [] {
      var n := |items| - 1;
      var before, last := items[..n], items[n];
      SetOfDistinct(before);
      assert items == before + [last];
      assert (set i | i in items) == (set i | i in before) + {last};
      if last in before {
        var k :| 0 <= k < n && before[k] == last;
        assert Itself(items[k]) == Itself(items[n]);
      } else {
        assert DistinctBy(before, Itself) ==> DistinctBy(items, Itself);
      }
      if DistinctBy(items, Itself) {
        forall i, j | 0 <= i < j < n ensures Itself(before[i]) != Itself(before[j]) {
          assert Itself(items[i]) != Itself(items[j]);
        }
      }
    }
  }

  /** A list is accepted exactly when it is listable, and then it is its entries, trimmed. */
  lemma TextItemsMeaning(values: seq<string>)
    ensures TextItems(values).Ok? <==> Listable(values)
    ensures TextItems(values).Ok? ==> TextItems(values).value == Stripped(values)
    ensures TextItems(values) == Err(BlankEntry) <==> exists i :: 0 <= i < |values| && Instructions.Strip(values[i]) == ""
  {
    var items := Stripped(values);
    SetOfDistinct(items);
    if DistinctBy(items, Itself) {
      forall i, j | 0 <= i < j < |values| ensures items[i] != items[j] { assert Itself(items[i]) != Itself(items[j]); }
    } else {
      var i, j :| 0 <= i < j < |items| && Itself(items[i]) == Itself(items[j]);
      assert Instructions.Strip(values[i]) == Instructions.Strip(values[j]);
    }
  }

  // ---------------------------------------------------------------- a new brief

  /** `create`: everything is trimmed but the domains. */
  function Created(c: Creation): Result<Fields, BriefError> {
    var criteria :- TextItems(c.criteria);
    var constraints :- TextItems(c.constraints);
    Ok(map[ResearchQuestion := Text(Instructions.Strip(c.question)), Domains := Items(c.domains),
           IntendedUse := Text(Instructions.Strip(c.use)), Scope := OptionalText(c.scope),
           DecisionCriteria := Items(criteria), Constraints := Items(constraints)])
  }

  /** A creation is accepted exactly when its criteria and constraints are listable.  The texts are
      trimmed, a blank scope is none, and the domains are taken as they are. */
  lemma CreatedMeaning(c: Creation)
    ensures Created(c).Ok? <==> Listable(c.criteria) && Listable(c.constraints)
    ensures Created(c).Ok? ==>
      var f := Created(c).value;
      && f.Keys == SCIENTIFIC && f[Domains] == Items(c.domains)
      && f[DecisionCriteria] == Items(Stripped(c.criteria)) && f[Constraints] == Items(Stripped(c.constraints))
      && f[ResearchQuestion] == Text(Instructions.Strip(c.question)) && f[IntendedUse] == Text(Instructions.Strip(c.use))
      && (if c.scope.None? || Instructions.Strip(c.scope.value) == "" then f[Scope] == Null
          else f[Scope] == Text(Instructions.Strip(c.scope.value)))
  {
    TextItemsMeaning(c.criteria);
    TextItemsMeaning(c.constraints);
  }

  // ---------------------------------------------------------------- an update

  /** `str(value).strip()`: a null is written as the word `None`. */
  function TextOf(value: Option<string>): Value {
    Text(Instructions.Strip(if value.Some? then value.value else "None"))
  }

  function ListOf(value: Option<seq<string>>): seq<string> {
    if value.Some? then value.value else []
  }

  function WantedText(value: Option<Option<string>>): Option<Value> {
    if value.Some? then Some(TextOf(value.value)) else None
  }

  function WantedList(value: Option<Option<seq<string>>>): Option<Value> {
    if value.Some? then Some(Items(Stripped(ListOf(value.value)))) else None
  }

  /** What the request makes of a field, if it is in the request. */
  function Wanted(u: Update, key: Key): Option<Value> {
    match key
    case ResearchQuestion => WantedText(u.question)
    case Domains => WantedList(u.domains)
    case IntendedUse => WantedText(u.use)
    case Scope => if u.scope.Some? then Some(OptionalText(u.scope.value)) else None
    case DecisionCriteria => WantedList(u.criteria)
    case Constraints => WantedList(u.constraints)
    case Other(_) => None
  }

  /** The first list of the request that is refused decides the error. */
  function ListError(u: Update): Option<BriefError> {
    if Refuses(u.domains) then Some(TextItems(ListOf(u.domains.value)).error)
    else if Refuses(u.criteria) then Some(TextItems(ListOf(u.criteria.value)).error)
    else if Refuses(u.constraints) then Some(TextItems(ListOf(u.constraints.value)).error)
    else None
  }

  predicate Refuses(value: Option<Option<seq<string>>>) {
    value.Some? && TextItems(ListOf(value.value)).Err?
  }

  /** `dict.get`: a missing field reads as null. */
  function Get(f: Fields, key: Key): Value {
    if key in f then f[key] else Null
  }

  function Changes(u: Update): Fields {
    map key | key in SCIENTIFIC && Wanted(u, key).Some? :: Wanted(u, key).value
  }

  function Texts(stamp: map<string, string>): Fields {
    map name | name in stamp :: Other(name) := Text(stamp[name])
  }

  predicate SameScience(a: Fields, b: Fields) {
    forall key | key in SCIENTIFIC :: Get(a, key) == Get(b, key)
  }

  /** The brief after an update: the fields of the request, then those every publication stamps. */
  function Revised(prior: Fields, u: Update, stamp: map<string, string>): Result<Fields, BriefError> {
    if ListError(u).Some? then Err(ListError(u).value)
    else if SameScience(prior + Changes(u), prior) then Err(NothingChanges)
    else Ok(prior + Changes(u) + Texts(stamp))
  }

  /** The changes of the first fields. */
  function Part(prior: Fields, u: Update, keys: set<Key>): Fields {
    prior + map key | key in keys && Wanted(u, key).Some? :: Wanted(u, key).value
  }

  lemma OneMorePart(prior: Fields, u: Update, keys: set<Key>, key: Key)
    requires key !in keys
    ensures Part(prior, u, keys + {key}) ==
      if Wanted(u, key).Some? then Part(prior, u, keys)[key := Wanted(u, key).value] else Part(prior, u, keys)
  {
  }

  lemma AllParts(prior: Fields, u: Update)
    ensures Part(prior, u, {}) == prior
    ensures Part(prior, u, {ResearchQuestion} + {Domains} + {IntendedUse} + {Scope} + {DecisionCriteria} + {Constraints})
         == prior + Changes(u)
  {
    assert {ResearchQuestion} + {Domains} + {IntendedUse} + {Scope} + {DecisionCriteria} + {Constraints} == SCIENTIFIC;
  }

  /** The six steps, one field each, leave what the request wants. */
  lemma FieldByField(prior: Fields, u: Update)
    returns (a: Fields, b: Fields, c: Fields, d: Fields, e: Fields)
    ensures a == Put(prior, u, ResearchQuestion) && b == Put(a, u, Domains) && c == Put(b, u, IntendedUse)
    ensures d == Put(c, u, Scope) && e == Put(d, u, DecisionCriteria)
    ensures Put(e, u, Constraints) == prior + Changes(u)
  {
    AllParts(prior, u);
    OneMorePart(prior, u, {}, ResearchQuestion);
    assert {} + {ResearchQuestion} == {ResearchQuestion};
    OneMorePart(prior, u, {ResearchQuestion}, Domains);
    OneMorePart(prior, u, {ResearchQuestion} + {Domains}, IntendedUse);
    OneMorePart(prior, u, {ResearchQuestion} + {Domains} + {IntendedUse}, Scope);
    OneMorePart(prior, u, {ResearchQuestion} + {Domains} + {IntendedUse} + {Scope}, DecisionCriteria);
    OneMorePart(prior, u, {ResearchQuestion} + {Domains} + {IntendedUse} + {Scope} + {DecisionCriteria}, Constraints);
    hide Wanted, Part, Changes;
    a := Put(prior, u, ResearchQuestion);
    b := Put(a, u, Domains);
    c := Put(b, u, IntendedUse);
    d := Put(c, u, Scope);
    e := Put(d, u, DecisionCriteria);
  }

  function Put(brief: Fields, u: Update, key: Key): Fields {
    if Wanted(u, key).Some? then brief[key := Wanted(u, key).value] else brief
  }

  method PutList(brief: Fields, key: Key, value: Option<Option<seq<string>>>) returns (r: Result<Fields, BriefError>)
    ensures r.Err? <==> Refuses(value)
    ensures r.Err? ==> r.error == TextItems(ListOf(value.value)).error
    ensures r.Ok? ==> r.value == if WantedList(value).Some? then brief[key := WantedList(value).value] else brief
  {
    if value.None? { return Ok(brief); }
    var items := TextItems(ListOf(value.value));
    if items.Err? { return Err(items.error); }
    r := Ok(brief[key := Items(items.value)]);
  }

  method PutText(brief: Fields, key: Key, value: Option<Option<string>>) returns (r: Fields)
    ensures r == if WantedText(value).Some? then brief[key := WantedText(value).value] else brief
  {
    r := if value.Some? then brief[key := TextOf(value.value)] else brief;
  }

  /** The replacement of `update`, field by field. */
  method Replacement(prior: Fields, u: Update) returns (r: Result<Fields, BriefError>)
    ensures r.Err? <==> ListError(u).Some?
    ensures r == if r.Err? then Err(ListError(u).value) else Ok(prior + Changes(u))
  {
    ghost var a, b, c, d, e := FieldByField(prior, u);
    hide TextItems, Changes, Stripped, WantedText, WantedList, Refuses;
    var replacement := PutText(prior, ResearchQuestion, u.question);
    r := PutList(replacement, Domains, u.domains);
    if r.Err? { return; }
    replacement := PutText(r.value, IntendedUse, u.use);
    assert replacement == c;
    if u.scope.Some? { replacement := replacement[Scope := OptionalText(u.scope.value)]; }
    assert replacement == d;
    r := PutList(replacement, DecisionCriteria, u.criteria);
    if r.Err? { return; }
    assert r.value == e;
    r := PutList(r.value, Constraints, u.constraints);
  }

  /** `update`. */
  method Revise(prior: Fields, u: Update, stamp: map<string, string>) returns (r: Result<Fields, BriefError>)
    ensures r == Revised(prior, u, stamp)
  {
    hide TextItems, Changes, SameScience, Texts, ListError;
    var replacement :- Replacement(prior, u);
    if SameScience(replacement, prior) { return Err(NothingChanges); }
    r := Ok(replacement + Texts(stamp));
  }

  ghost predicate ListsFine(u: Update) {
    && (u.domains.Some? ==> Listable(ListOf(u.domains.value)))
    && (u.criteria.Some? ==> Listable(ListOf(u.criteria.value)))
    && (u.constraints.Some? ==> Listable(ListOf(u.constraints.value)))
  }

  /** An update is accepted exactly when its lists are listable and it changes some scientific
      field; then every field that the publication does not stamp is the requested one, trimmed, or
      the prior one. */
  lemma RevisedMeaning(prior: Fields, u: Update, stamp: map<string, string>, key: Key)
    ensures Revised(prior, u, stamp).Ok? <==>
      ListsFine(u) && exists k :: k in SCIENTIFIC && Wanted(u, k).Some? && Wanted(u, k).value != Get(prior, k)
    ensures Revised(prior, u, stamp).Ok? ==>
      var after := Revised(prior, u, stamp).value;
      if key.Other? && key.name in stamp then key in after && after[key] == Text(stamp[key.name])
      else if Wanted(u, key).Some? then key in after && after[key] == Wanted(u, key).value
      else (key in after <==> key in prior) && (key in prior ==> after[key] == prior[key])
  {
    ListErrorMeaning(u);
    forall k | k in SCIENTIFIC
      ensures Get(prior + Changes(u), k) != Get(prior, k) <==> Wanted(u, k).Some? && Wanted(u, k).value != Get(prior, k)
    {
    }
  }

  /** The list is the one in the request, trimmed, or none for a null. */
  ghost predicate AskedList(after: Fields, key: Key, value: Option<Option<seq<string>>>) {
    value.Some? ==>
      key in after && after[key].Items? && |after[key].items| == (if value.value.Some? then |value.value.value| else 0)
      && forall i | 0 <= i < |after[key].items| :: after[key].items[i] == Instructions.Strip(value.value.value[i])
  }

  /** What an accepted update makes of each scientific field in the request. */
  lemma RequestedFields(prior: Fields, u: Update, stamp: map<string, string>)
    requires Revised(prior, u, stamp).Ok?
    ensures var after := Revised(prior, u, stamp).value;
      && AskedList(after, Domains, u.domains) && AskedList(after, DecisionCriteria, u.criteria)
      && AskedList(after, Constraints, u.constraints)
      && (u.question.Some? && u.question.value.Some? ==>
            Get(after, ResearchQuestion) == Text(Instructions.Strip(u.question.value.value)))
      && (u.use.Some? && u.use.value.Some? ==> Get(after, IntendedUse) == Text(Instructions.Strip(u.use.value.value)))
      && (u.scope.Some? ==>
            if u.scope.value.None? || Instructions.Strip(u.scope.value.value) == "" then Get(after, Scope) == Null
            else Get(after, Scope) == Text(Instructions.Strip(u.scope.value.value)))
  {
    RevisedMeaning(prior, u, stamp, ResearchQuestion);
    RevisedMeaning(prior, u, stamp, Domains);
    RevisedMeaning(prior, u, stamp, IntendedUse);
    RevisedMeaning(prior, u, stamp, Scope);
    RevisedMeaning(prior, u, stamp, DecisionCriteria);
    RevisedMeaning(prior, u, stamp, Constraints);
    hide Revised;
  }

  lemma ListErrorMeaning(u: Update)
    ensures ListError(u).None? <==> ListsFine(u)
  {
    if u.domains.Some? { TextItemsMeaning(ListOf(u.domains.value)); }
    if u.criteria.Some? { TextItemsMeaning(ListOf(u.criteria.value)); }
    if u.constraints.Some? { TextItemsMeaning(ListOf(u.constraints.value)); }
  }

  /** What a request asks a text to be: what it was, no text, or the text given, trimmed. */
  function AskedText(prior: Value, value: Option<Option<string>>): Value {
    match value
    case None => prior
    case Some(None) => Null
    case Some(Some(text)) => Text(Instructions.Strip(text))
  }

  lemma NoneIsTrimmed()
    ensures TextOf(None) == Text("None")
  {
    assert Instructions.Strip("None") == "None";
  }

  /** An accepted update leaves each of its two required texts as it was asked exactly when the
      request does not make that text null: a null is published as the word `None`. */
  lemma TextsAsAskedIff(prior: Fields, u: Update, stamp: map<string, string>)
    requires Revised(prior, u, stamp).Ok?
    ensures var after := Revised(prior, u, stamp).value;
      && (Get(after, ResearchQuestion) == AskedText(Get(prior, ResearchQuestion), u.question) <==> u.question != Some(None))
      && (Get(after, IntendedUse) == AskedText(Get(prior, IntendedUse), u.use) <==> u.use != Some(None))
      && (u.question == Some(None) ==> Get(after, ResearchQuestion) == Text("None"))
      && (u.use == Some(None) ==> Get(after, IntendedUse) == Text("None"))
  {
    RevisedMeaning(prior, u, stamp, ResearchQuestion);
    RevisedMeaning(prior, u, stamp, IntendedUse);
    NoneIsTrimmed();
  }

  /** Such updates are accepted: either text can be replaced by the word `None` with nothing else in
      the request. */
  lemma NullTextIsTheWordNone(prior: Fields, stamp: map<string, string>)
    ensures Get(prior, ResearchQuestion) != Text("None") ==>
      var r := Revised(prior, Update(Some(None), None, None, None, None, None), stamp);
      r.Ok? && Get(r.value, ResearchQuestion) == Text("None")
    ensures Get(prior, IntendedUse) != Text("None") ==>
      var r := Revised(prior, Update(None, None, Some(None), None, None, None), stamp);
      r.Ok? && Get(r.value, IntendedUse) == Text("None")
  {
    var question, use := Update(Some(None), None, None, None, None, None), Update(None, None, Some(None), None, None, None);
    NoneIsTrimmed();
    RevisedMeaning(prior, question, stamp, ResearchQuestion);
    RevisedMeaning(prior, use, stamp, IntendedUse);
    assert Wanted(question, ResearchQuestion) == Some(Text("None")) && Wanted(use, IntendedUse) == Some(Text("None"));
  }
}
