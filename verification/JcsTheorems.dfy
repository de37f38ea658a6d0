/** Round trip, injectivity and key order of the canonicaliser. */
module JcsTheorems {
  import opened Wrappers
  import opened Sequences
  import opened Jcs
  import opened JsonParser

  // ---------------------------------------------------------------- key order

  lemma {:induction false} ByteOrderIsUnitOrder(a: seq<Unit16>, b: seq<Unit16>)
    ensures LexLess(BigEndian(a), BigEndian(b)) <==> LexLess(a, b)
  {
    if a != [] && b != [] {
      ByteOrderIsUnitOrder(a[1..], b[1..]);
      var x, y := BigEndian(a), BigEndian(b);
      assert x[1..][1..] == BigEndian(a[1..]) && y[1..][1..] == BigEndian(b[1..]);
    }
  }

  lemma {:induction false} LexIrreflexive(a: seq<int>)
    ensures !LexLess(a, a)
  {
    if a != [] { LexIrreflexive(a[1..]); }
  }

  lemma {:induction false} LexTransitive(a: seq<int>, b: seq<int>, c: seq<int>)
    requires LexLess(a, b) && LexLess(b, c)
    ensures LexLess(a, c)
  {
    if a != [] && a[0] == b[0] == c[0] { LexTransitive(a[1..], b[1..], c[1..]); }
  }

  lemma {:induction false} LexTotal(a: seq<int>, b: seq<int>)
    ensures LexLess(a, b) || a == b || LexLess(b, a)
  {
    if a != [] && b != [] && a[0] == b[0] {
      LexTotal(a[1..], b[1..]);
      assert a == [a[0]] + a[1..] && b == [b[0]] + b[1..];
    }
  }

  lemma {:induction false} BigEndianInjective(a: seq<Unit16>, b: seq<Unit16>)
    requires BigEndian(a) == BigEndian(b)
    ensures a == b
  {
    if a != [] && b != [] {
      var x, y := BigEndian(a), BigEndian(b);
      assert x[2..] == BigEndian(a[1..]) && y[2..] == BigEndian(b[1..]);
      assert x[0] == a[0] / 0x100 && x[1] == a[0] % 0x100 && y[0] == b[0] / 0x100 && y[1] == b[0] % 0x100;
      BigEndianInjective(a[1..], b[1..]);
      assert a == [a[0]] + a[1..] && b == [b[0]] + b[1..];
    }
  }

  lemma {:induction false} Utf16Injective(s: Text, t: Text)
    requires ScalarText(s) && ScalarText(t) && Utf16(s) == Utf16(t)
    ensures s == t
  {
    if s != [] && t != [] {
      var x, y := Utf16(s), Utf16(t);
      var n, m := |Utf16Char(s[0])|, |Utf16Char(t[0])|;
      assert IsScalar(s[0]) && IsScalar(t[0]);
      assert x[0] == Utf16Char(s[0])[0] && y[0] == Utf16Char(t[0])[0];
      if n == 2 { assert x[1] == Utf16Char(s[0])[1]; }
      if m == 2 { assert y[1] == Utf16Char(t[0])[1]; }
      assert s[0] == t[0];
      assert x[n..] == Utf16(s[1..]) && y[m..] == Utf16(t[1..]);
      Utf16Injective(s[1..], t[1..]);
      assert s == [s[0]] + s[1..] && t == [t[0]] + t[1..];
    }
  }

  lemma KeyTotal(a: Text, b: Text)
    requires ScalarText(a) && ScalarText(b)
    ensures KeyLess(a, b) || a == b || KeyLess(b, a)
  {
    LexTotal(SortKey(a), SortKey(b));
    if SortKey(a) == SortKey(b) {
      BigEndianInjective(Utf16(a), Utf16(b));
      Utf16Injective(a, b);
    }
  }

  /** Code-unit order differs from code-point order, so the UTF-16 key is not redundant. */
  lemma CodePointOrderDiffers()
    ensures LexLess([0xE000], [0x1_0000]) && KeyLess([0x1_0000], [0xE000])
  {
  }

  // ---------------------------------------------------------------- supported values

  /** A dictionary holds each key once. */
  ghost predicate DistinctKeys(ms: seq<Member>) {
    forall i, j | 0 <= i < j < |ms| :: ms[i].key != ms[j].key
  }

  /** A value Python can build: every dictionary in it has distinct keys. */
  ghost predicate PythonValue(v: Json)
    decreases v
  {
    match v
    case Arr(items) => forall x | x in items :: PythonValue(x)
    case Obj(members) => DistinctKeys(members) && forall m | m in members :: PythonValue(m.value)
    case _ => true
  }

  /** The domain RFC 8785 canonicalisation is promised for by the source. */
  ghost predicate Supported(v: Json)
    decreases v
  {
    match v
    case Null => true
    case Bool(_) => true
    case Int(n) => -MAX_SAFE_INTEGER <= n <= MAX_SAFE_INTEGER
    case Float(_) => false
    case Str(s) => ScalarText(s)
    case Arr(items) => forall x | x in items :: Supported(x)
    case Obj(members) =>
      forall m | m in members :: m.key.TextKey? && ScalarText(m.key.text) && Supported(m.value)
    case Unsupported => false
  }

  function Meaning(v: Json): Value
    requires Supported(v)
    decreases v
  {
    match v
    case Null => VNull
    case Bool(flag) => VBool(flag)
    case Int(n) => VInt(n)
    case Str(s) => VStr(s)
    case Arr(items) => VArr(MeaningItems(items))
    case Obj(members) => VObj(MeaningMembers(members))
  }

  function MeaningItems(items: seq<Json>): (r: seq<Value>)
    requires forall x | x in items :: Supported(x)
    ensures |r| == |items|
    decreases items
  {
    if items == [] then [] else [Meaning(items[0])] + MeaningItems(items[1..])
  }

  /** Later members override earlier ones, as in a dictionary display. */
  function MeaningMembers(ms: seq<Member>): map<Text, Value>
    requires forall m | m in ms :: m.key.TextKey? && Supported(m.value)
    decreases ms
  {
    if ms == [] then map[]
    else
      var m := ms[0];
      assert m in ms && m.value < m;
      map[m.key.text := Meaning(m.value)] + MeaningMembers(ms[1..])
  }

  lemma {:induction false} MeaningLookup(ms: seq<Member>, m: Member)
    requires forall x | x in ms :: x.key.TextKey? && Supported(x.value)
    requires DistinctKeys(ms) && m in ms
    ensures m.key.text in MeaningMembers(ms) && MeaningMembers(ms)[m.key.text] == Meaning(m.value)
  {
    if ms[0] != m {
      MeaningLookup(ms[1..], m);
    } else if m.key.text in MeaningMembers(ms[1..]) {
      MeaningKeys(ms[1..], m.key.text);
    }
  }

  lemma {:induction false} MeaningKeys(ms: seq<Member>, k: Text)
    requires forall x | x in ms :: x.key.TextKey? && Supported(x.value)
    ensures k in MeaningMembers(ms) <==> exists m :: m in ms && m.key.text == k
  {
    if ms != [] {
      MeaningKeys(ms[1..], k);
      if exists m :: m in ms && m.key.text == k {
        var m :| m in ms && m.key.text == k;
        assert m == ms[0] || m in ms[1..];
      }
    }
  }

  lemma {:induction false} MeaningItemsAt(items: seq<Json>, i: nat)
    requires forall x | x in items :: Supported(x)
    requires i < |items|
    ensures MeaningItems(items)[i] == Meaning(items[i])
  {
    if i > 0 { MeaningItemsAt(items[1..], i - 1); }
  }

  // ---------------------------------------------------------------- sorting

  ghost predicate Ascending(ms: seq<Member>)
    requires AllTextKeys(ms)
  {
    forall i, j | 0 <= i < j < |ms| :: KeyLess(ms[i].key.text, ms[j].key.text)
  }

  lemma SortedSame(ms: seq<Member>)
    requires AllTextKeys(ms)
    ensures forall m :: m in Sorted(ms) <==> m in ms
  {
    assert forall m :: m in Sorted(ms) <==> m in multiset(Sorted(ms));
  }

  lemma KeyOrder(a: Text, b: Text, c: Text)
    requires ScalarText(a) && ScalarText(b) && ScalarText(c) && KeyLess(a, c)
    ensures KeyLess(a, b) || KeyLess(b, c)
  {
    KeyTotal(b, c);
    if KeyLess(c, b) { LexTransitive(SortKey(a), SortKey(c), SortKey(b)); }
  }

  function KeyOf(m: Member): Key {
    m.key
  }

  lemma SortedAscend(ms: seq<Member>)
    requires AllTextKeys(ms) && AllScalarKeys(ms) && DistinctKeys(ms)
    ensures Ascending(Sorted(ms))
  {
    forall m, n | m in ms && n in ms ensures !(KeyBefore(m, n) && KeyBefore(n, m)) {
      KeyAsymmetric(m.key.text, n.key.text);
    }
    forall l, m, n | l in ms && m in ms && n in ms && KeyBefore(l, n) ensures KeyBefore(l, m) || KeyBefore(m, n) {
      KeyOrder(l.key.text, m.key.text, n.key.text);
    }
    SortedAscending(ms, KeyBefore, ms);
    var s := Sorted(ms);
    DistinctIsOrderFree(ms, s, KeyOf);
    forall i, j | 0 <= i < j < |s| ensures KeyLess(s[i].key.text, s[j].key.text) {
      assert s[i] in ms && s[j] in ms && KeyOf(s[i]) != KeyOf(s[j]);
      KeyTotal(s[i].key.text, s[j].key.text);
      assert !KeyBefore(s[j], s[i]);
    }
  }

  /** RFC 8785 section 3.2.3: member names ascend strictly in UTF-16 code units. */
  lemma MembersInUnitOrder(ms: seq<Member>, i: nat, j: nat)
    requires AllTextKeys(ms) && AllScalarKeys(ms) && DistinctKeys(ms)
    requires i < j < |Sorted(ms)|
    ensures LexLess(Utf16(Sorted(ms)[i].key.text), Utf16(Sorted(ms)[j].key.text))
    ensures multiset(Sorted(ms)) == multiset(ms)
  {
    SortedAscend(ms);
    assert KeyLess(Sorted(ms)[i].key.text, Sorted(ms)[j].key.text);
    ByteOrderIsUnitOrder(Utf16(Sorted(ms)[i].key.text), Utf16(Sorted(ms)[j].key.text));
  }

  lemma KeyAsymmetric(a: Text, b: Text)
    ensures !(KeyLess(a, b) && KeyLess(b, a))
  {
    if KeyLess(a, b) && KeyLess(b, a) {
      LexTransitive(SortKey(a), SortKey(b), SortKey(a));
      LexIrreflexive(SortKey(a));
    }
  }

  function Keys(ms: seq<Member>): (r: seq<Text>)
    requires AllTextKeys(ms)
    ensures |r| == |ms| && forall i | 0 <= i < |ms| :: r[i] == ms[i].key.text
  {
    seq(|ms|, i requires 0 <= i < |ms| => ms[i].key.text)
  }

  ghost predicate AscendingTexts(ks: seq<Text>) {
    forall i, j | 0 <= i < j < |ks| :: KeyLess(ks[i], ks[j])
  }

  lemma HasElement(ks: seq<Text>)
    ensures ks == [] || exists k :: k in ks
  {
    if ks != [] { assert ks[0] in ks; }
  }

  /** Two ascending key lists with the same elements are equal. */
  lemma {:induction false} AscendingUnique(a: seq<Text>, b: seq<Text>)
    requires AscendingTexts(a) && AscendingTexts(b)
    requires forall k :: k in a <==> k in b
    ensures a == b
  {
    if a == [] || b == [] {
      HasElement(a);
      HasElement(b);
    } else {
      assert a[0] in b && b[0] in a;
      var i :| 0 <= i < |b| && b[i] == a[0];
      var j :| 0 <= j < |a| && a[j] == b[0];
      KeyAsymmetric(a[0], b[0]);
      assert a[0] == b[0];
      forall k ensures k in a[1..] <==> k in b[1..] {
        KeyAsymmetric(a[0], a[0]);
        assert k in a[1..] ==> k != a[0];
        assert k in b[1..] ==> k != a[0];
        assert k in a <==> k == a[0] || k in a[1..];
        assert k in b <==> k == b[0] || k in b[1..];
      }
      AscendingUnique(a[1..], b[1..]);
      assert a == [a[0]] + a[1..] && b == [b[0]] + b[1..];
    }
  }

  // ---------------------------------------------------------------- which values serialise

  lemma {:induction false} SerializesExactlySupported(v: Json)
    ensures Serialize(v).Ok? <==> Supported(v)
    decreases v
  {
    match v
    case Arr(items) => ItemsExactlySupported(items);
    case Obj(members) => ObjectExactlySupported(v);
    case _ =>
  }

  lemma GoodKeys(ms: seq<Member>)
    ensures (forall m | m in ms :: m.key.TextKey? && ScalarText(m.key.text)) <==> AllTextKeys(ms) && AllScalarKeys(ms)
  {
  }

  lemma {:induction false} ObjectExactlySupported(v: Json)
    requires v.Obj?
    ensures Serialize(v).Ok? <==> Supported(v)
    decreases v, 1
  {
    GoodKeys(v.members);
    if AllTextKeys(v.members) && AllScalarKeys(v.members) {
      SortedSame(v.members);
      MembersExactlySupported(v, Sorted(v.members));
    }
  }

  lemma {:induction false} ItemsExactlySupported(items: seq<Json>)
    ensures SerializeItems(items).Ok? <==> forall x | x in items :: Supported(x)
    decreases items
  {
    if items != [] {
      SerializesExactlySupported(items[0]);
      ItemsExactlySupported(items[1..]);
      assert items == [items[0]] + items[1..];
    }
  }

  lemma {:induction false} MembersExactlySupported(owner: Json, ms: seq<Member>)
    requires AllTextKeys(ms) && forall m | m in ms :: m.value < owner
    ensures SerializeMembers(owner, ms).Ok? <==> forall m | m in ms :: Supported(m.value)
    decreases owner, 0, |ms|
  {
    if ms != [] {
      SerializesExactlySupported(ms[0].value);
      MembersExactlySupported(owner, ms[1..]);
      assert ms == [ms[0]] + ms[1..];
    }
  }

  /** An array fails with the error of its first item that fails. */
  lemma {:induction false} ArrayFailsFirst(items: seq<Json>, i: nat)
    requires i < |items| && Serialize(items[i]).Err? && forall k | 0 <= k < i :: Serialize(items[k]).Ok?
    ensures SerializeItems(items) == Err(Serialize(items[i]).error)
    ensures Serialize(Arr(items)) == Err(Serialize(items[i]).error)
    decreases |items|
  {
    if i > 0 {
      forall k | 0 <= k < i - 1 ensures Serialize(items[1..][k]).Ok? { assert items[1..][k] == items[k + 1]; }
      ArrayFailsFirst(items[1..], i - 1);
    }
  }

  /** An object fails for a key that is not text before it looks at any key, for a lone surrogate
      in a key before it looks at any value, and otherwise for the first value in key order. */
  lemma ObjectFailsInOrder(ms: seq<Member>)
    ensures !AllTextKeys(ms) ==> Serialize(Obj(ms)) == Err(NonTextKey)
    ensures AllTextKeys(ms) && !AllScalarKeys(ms) ==> Serialize(Obj(ms)) == Err(InvalidUnicode)
    ensures AllTextKeys(ms) && AllScalarKeys(ms) ==>
      forall i | FirstFailure(Sorted(ms), i) :: Serialize(Obj(ms)) == Err(Serialize(Sorted(ms)[i].value).error)
  {
    if AllTextKeys(ms) && AllScalarKeys(ms) {
      SortedSame(ms);
      forall i | FirstFailure(Sorted(ms), i) ensures Serialize(Obj(ms)) == Err(Serialize(Sorted(ms)[i].value).error) {
        MembersFailFirst(Obj(ms), Sorted(ms), i);
      }
    }
  }

  ghost predicate FirstFailure(ms: seq<Member>, i: int) {
    0 <= i < |ms| && Serialize(ms[i].value).Err? && forall k | 0 <= k < i :: Serialize(ms[k].value).Ok?
  }

  lemma {:induction false} MembersFailFirst(owner: Json, ms: seq<Member>, i: int)
    requires AllTextKeys(ms) && (forall m | m in ms :: m.value < owner) && FirstFailure(ms, i)
    ensures SerializeMembers(owner, ms) == Err(Serialize(ms[i].value).error)
    decreases |ms|
  {
    if i > 0 {
      forall k | 0 <= k < i - 1 ensures Serialize(ms[1..][k].value).Ok? { assert ms[1..][k] == ms[k + 1]; }
      MembersFailFirst(owner, ms[1..], i - 1);
    }
  }

  // ---------------------------------------------------------------- round trip

  lemma {:induction false} DigitsRoundTrip(n: nat, rest: Text)
    ensures DigitText(n) != [] && IsDigit(DigitText(n)[0]) && (n > 0 ==> DigitText(n)[0] != ZERO)
    ensures ParseDigits(DigitText(n) + rest, 0) == ParseDigits(rest, n)
  {
    if n >= 10 {
      var last := [ZERO + n % 10];
      DigitsRoundTrip(n / 10, last + rest);
      assert DigitText(n) + rest == DigitText(n / 10) + (last + rest);
      assert (last + rest)[1..] == rest;
    } else {
      assert (DigitText(n) + rest)[1..] == rest;
    }
  }

  lemma NaturalRoundTrip(n: nat, rest: Text)
    requires EndsNumber(rest)
    ensures ParseNatural(DigitText(n) + rest) == Some((n, rest))
  {
    DigitsRoundTrip(n, rest);
    var s := DigitText(n) + rest;
    assert s[0] == DigitText(n)[0];
    if n == 0 {
      assert s[1..] == rest;
    } else {
      FirstDigit(s);
      NumberEnds(rest, n);
    }
    NaturalHead(s, n, rest);
  }

  lemma NaturalHead(s: Text, n: nat, rest: Text)
    requires s != [] && IsDigit(s[0]) && EndsNumber(rest)
    requires if s[0] == ZERO then n == 0 && s[1..] == rest else ParseDigits(s[1..], s[0] - ZERO) == (n, rest)
    ensures ParseNatural(s) == Some((n, rest))
  {
  }

  lemma FirstDigit(s: Text)
    requires s != [] && IsDigit(s[0])
    ensures ParseDigits(s, 0) == ParseDigits(s[1..], s[0] - ZERO)
  {
  }

  lemma NumberEnds(rest: Text, n: nat)
    requires EndsNumber(rest)
    ensures ParseDigits(rest, n) == (n, rest)
  {
  }

  lemma IntegerRoundTrip(n: int, rest: Text)
    requires EndsNumber(rest)
    ensures ParseInteger(IntText(n) + rest) == Some((n, rest))
    ensures IntText(n) != [] && (IsDigit(IntText(n)[0]) || IntText(n)[0] == MINUS)
  {
    if n < 0 {
      NaturalRoundTrip(-n, rest);
      MinusHead(DigitText(-n) + rest, -n, rest);
      assert IntText(n) + rest == [MINUS] + (DigitText(-n) + rest);
    } else {
      NaturalRoundTrip(n, rest);
      DigitsRoundTrip(n, rest);
      assert (IntText(n) + rest)[0] == DigitText(n)[0];
    }
  }

  lemma MinusHead(s: Text, n: nat, rest: Text)
    requires ParseNatural(s) == Some((n, rest))
    ensures ParseInteger([MINUS] + s) == Some((0 - n, rest))
  {
    assert ([MINUS] + s)[1..] == s;
  }

  lemma CharRoundTrip(c: CodePoint, rest: Text)
    requires IsScalar(c)
    ensures ParseChar(EscapeChar(c) + rest) == Some((c, rest))
    ensures EscapeChar(c)[0] != QUOTE
  {
  }

  lemma {:induction false} CharsRoundTrip(s: Text, rest: Text)
    requires ScalarText(s)
    ensures ParseChars(Escape(s) + [QUOTE] + rest) == Some((s, rest))
  {
    if s == [] {
      assert Escape(s) + [QUOTE] + rest == [QUOTE] + rest;
    } else {
      var tail := Escape(s[1..]) + [QUOTE] + rest;
      assert IsScalar(s[0]);
      EscapeThenTail(s, rest);
      CharRoundTrip(s[0], tail);
      CharsRoundTrip(s[1..], rest);
      ParseOneChar(EscapeChar(s[0]) + tail, s[0], tail, s[1..], rest);
      assert s == [s[0]] + s[1..];
    }
  }

  lemma EscapeThenTail(s: Text, rest: Text)
    requires s != []
    ensures Escape(s) + [QUOTE] + rest == EscapeChar(s[0]) + (Escape(s[1..]) + [QUOTE] + rest)
    ensures (Escape(s) + [QUOTE] + rest)[0] == EscapeChar(s[0])[0]
  {
  }

  lemma ParseOneChar(s: Text, c: CodePoint, tail: Text, cs: Text, rest: Text)
    requires s != [] && s[0] != QUOTE && ParseChar(s) == Some((c, tail)) && ParseChars(tail) == Some((cs, rest))
    ensures ParseChars(s) == Some(([c] + cs, rest))
  {
  }

  lemma StringRoundTrip(s: Text, rest: Text)
    requires ScalarText(s)
    ensures ParseString(Quoted(s) + rest) == Some((s, rest))
  {
    CharsRoundTrip(s, rest);
    assert (Quoted(s) + rest)[1..] == Escape(s) + [QUOTE] + rest;
  }

  /** Of all the ways JSON can spell a character in a string, the serialiser takes the shortest,
      and no other is as short, except for the case of hexadecimal digits. */
  lemma EscapeIsShortest(c: CodePoint, e: Text, rest: Text)
    requires e != [] && e[0] != QUOTE && ParseChar(e) == Some((c, rest))
    ensures |EscapeChar(c)| + |rest| <= |e|
    ensures |EscapeChar(c)| + |rest| == |e| && |EscapeChar(c)| < 6 ==> e == EscapeChar(c) + rest
  {
    if e[0] != BACKSLASH {
      assert e == [e[0]] + e[1..];
    } else {
      assert e[..2] + e[2..] == e;
    }
  }

  lemma {:induction false} BodyIsShortest(t: Text, s: Text, rest: Text)
    requires ParseChars(t) == Some((s, rest))
    ensures |Escape(s)| + 1 + |rest| <= |t|
    decreases |t|
  {
    if t[0] != QUOTE {
      var p := ParseChar(t).value;
      EscapeIsShortest(p.0, t, p.1);
      BodyIsShortest(p.1, s[1..], rest);
      assert s[0] == p.0;
    }
  }

  /** A serialised string is the shortest string literal with its meaning. */
  lemma QuotedIsShortest(t: Text, s: Text, rest: Text)
    requires ParseString(t) == Some((s, rest))
    ensures |Quoted(s)| + |rest| <= |t|
  {
    BodyIsShortest(t[1..], s, rest);
  }

  /** The head character of a serialised value decides which parser branch is taken. */
  lemma ValueHead(v: Json)
    requires Serialize(v).Ok?
    ensures Serialize(v).value != []
    ensures !IsSpace(Serialize(v).value[0]) && Serialize(v).value[0] != RBRACKET
  {
    match v
    case Int(n) => IntegerRoundTrip(n, []);
    case _ =>
  }

  lemma ScalarRoundTrip(v: Json, rest: Text)
    requires !v.Arr? && !v.Obj? && Supported(v) && EndsNumber(rest)
    ensures Serialize(v).Ok? && ParseValue(Serialize(v).value + rest) == Some((Meaning(v), rest))
  {
    var text := Serialize(v).value;
    var s := text + rest;
    match v
    case Null => assert s[..4] == NULL && s[4..] == rest;
    case Bool(flag) =>
      if flag { assert s[..4] == TRUE && s[4..] == rest; } else { assert s[..5] == FALSE && s[5..] == rest; }
    case Int(n) =>
      IntegerRoundTrip(n, rest);
      assert s[0] == text[0];
    case Str(t) => StringRoundTrip(t, rest);
  }

  lemma ParseArray(body: Text, vs: seq<Value>, rest: Text)
    requires body != [] && !IsSpace(body[0]) && body[0] != RBRACKET
    requires ParseElements(body) == Some((vs, rest))
    ensures ParseValue([LBRACKET] + body) == Some((VArr(vs), rest))
  {
    assert ([LBRACKET] + body)[1..] == body;
  }

  lemma ParseObject(body: Text, m: map<Text, Value>, rest: Text)
    requires body != [] && !IsSpace(body[0]) && body[0] != RBRACE
    requires ParseMembers(body) == Some((m, rest))
    ensures ParseValue([LBRACE] + body) == Some((VObj(m), rest))
  {
    assert ([LBRACE] + body)[1..] == body;
  }

  lemma ParseOneElement(s: Text, v: Value, tail: Text, vs: seq<Value>, rest: Text)
    requires tail != [] && ParseValue(s) == Some((v, tail))
    requires (tail[0] == RBRACKET && tail[1..] == rest && vs == [])
          || (tail[0] == COMMA && ParseElements(tail[1..]) == Some((vs, rest)))
    ensures ParseElements(s) == Some(([v] + vs, rest))
  {
    assert [v] + [] == [v];
    assert SkipSpace(tail) == tail;
  }

  lemma ParseOneMember(s: Text, k: Text, colon: Text, v: Value, tail: Text, m: map<Text, Value>, rest: Text)
    requires s != [] && !IsSpace(s[0]) && ParseString(s) == Some((k, colon))
    requires colon != [] && colon[0] == COLON && tail != [] && ParseValue(colon[1..]) == Some((v, tail))
    requires (tail[0] == RBRACE && tail[1..] == rest && m == map[])
          || (tail[0] == COMMA && ParseMembers(tail[1..]) == Some((m, rest)))
    ensures ParseMembers(s) == Some((map[k := v] + m, rest))
  {
    assert map[k := v] + map[] == map[k := v];
    assert SkipSpace(tail) == tail && SkipSpace(colon) == colon;
  }

  /** Parsing undoes serialisation, whatever delimited text follows. */
  lemma {:induction false} ParseInvertsSerialize(v: Json, rest: Text)
    requires PythonValue(v) && Supported(v) && EndsNumber(rest)
    ensures Serialize(v).Ok?
    ensures ParseValue(Serialize(v).value + rest) == Some((Meaning(v), rest))
    decreases v
  {
    SerializesExactlySupported(v);
    var text := Serialize(v).value;
    match v
    case Arr(items) =>
      if items == [] {
        assert text + rest == [LBRACKET, RBRACKET] + rest;
        assert (text + rest)[1..] == [RBRACKET] + rest && ([RBRACKET] + rest)[1..] == rest;
      } else {
        ElementsRoundTrip(items, rest);
        var inner := Joined(SerializeItems(items).value);
        Bracketed(LBRACKET, inner, RBRACKET, rest);
        ParseArray(inner + [RBRACKET] + rest, MeaningItems(items), rest);
      }
    case Obj(members) => ObjectRoundTrip(v, rest);
    case _ => ScalarRoundTrip(v, rest);
  }

  lemma EmptyObject(rest: Text)
    ensures ParseValue([LBRACE, RBRACE] + rest) == Some((VObj(map[]), rest))
  {
    assert ([LBRACE, RBRACE] + rest)[1..] == [RBRACE] + rest && ([RBRACE] + rest)[1..] == rest;
  }

  lemma ObjectText(v: Json)
    requires v.Obj? && Serialize(v).Ok?
    ensures AllTextKeys(v.members) && AllScalarKeys(v.members)
    ensures forall m | m in Sorted(v.members) :: m.value < v
    ensures SerializeMembers(v, Sorted(v.members)).Ok?
    ensures Serialize(v).value == [LBRACE] + Joined(SerializeMembers(v, Sorted(v.members)).value) + [RBRACE]
  {
    assert forall m | m in Sorted(v.members) :: m in v.members;
  }

  ghost predicate GoodMembers(owner: Json, ms: seq<Member>) {
    forall m | m in ms ::
      m.key.TextKey? && m.value < owner && ScalarText(m.key.text) && PythonValue(m.value) && Supported(m.value)
  }

  lemma SortedGood(v: Json)
    requires v.Obj? && PythonValue(v) && Supported(v)
    ensures AllTextKeys(v.members) && GoodMembers(v, Sorted(v.members))
    ensures Meaning(v) == VObj(MeaningMembers(Sorted(v.members)))
    ensures Sorted(v.members) == [] ==> v.members == []
  {
    SortedSame(v.members);
    SortedMeaning(v.members);
    HasMember(v.members);
  }

  lemma {:induction false} ObjectRoundTrip(v: Json, rest: Text)
    requires v.Obj? && PythonValue(v) && Supported(v)
    ensures Serialize(v).Ok? && ParseValue(Serialize(v).value + rest) == Some((Meaning(v), rest))
    decreases v, 1
  {
    SerializesExactlySupported(v);
    ObjectText(v);
    SortedGood(v);
    var ms := Sorted(v.members);
    var text := Serialize(v).value + rest;
    if ms == [] {
      assert text == [LBRACE, RBRACE] + rest;
      EmptyObject(rest);
    } else {
      MembersRoundTrip(v, ms, rest);
      var inner := Joined(SerializeMembers(v, ms).value);
      Bracketed(LBRACE, inner, RBRACE, rest);
      ParseObject(inner + [RBRACE] + rest, MeaningMembers(ms), rest);
    }
  }

  lemma Bracketed(open: CodePoint, inner: Text, close: CodePoint, rest: Text)
    ensures ([open] + inner + [close]) + rest == [open] + (inner + [close] + rest)
  {
  }

  lemma HasMember(ms: seq<Member>)
    ensures ms == [] || exists m :: m in ms
  {
    if ms != [] { assert ms[0] in ms; }
  }

  lemma {:induction false} ElementsRoundTrip(items: seq<Json>, rest: Text)
    requires items != [] && forall x | x in items :: PythonValue(x) && Supported(x)
    ensures SerializeItems(items).Ok?
    ensures var s := Joined(SerializeItems(items).value) + [RBRACKET] + rest;
      s != [] && !IsSpace(s[0]) && s[0] != RBRACKET && ParseElements(s) == Some((MeaningItems(items), rest))
    decreases items, 1
  {
    ItemsExactlySupported(items);
    var parts := SerializeItems(items).value;
    var s := Joined(parts) + [RBRACKET] + rest;
    ValueHead(items[0]);
    assert parts[0] == Serialize(items[0]).value;
    var tail := if |items| == 1 then [RBRACKET] + rest else [COMMA] + (Joined(parts[1..]) + [RBRACKET] + rest);
    assert s == parts[0] + tail;
    assert s[0] == parts[0][0];
    ParseInvertsSerialize(items[0], tail);
    if |items| == 1 {
      assert tail[1..] == rest;
      ParseOneElement(s, Meaning(items[0]), tail, [], rest);
    } else {
      ElementsRoundTrip(items[1..], rest);
      assert parts[1..] == SerializeItems(items[1..]).value;
      assert tail[1..] == Joined(parts[1..]) + [RBRACKET] + rest;
      ParseOneElement(s, Meaning(items[0]), tail, MeaningItems(items[1..]), rest);
    }
  }

  /** The text after the first member's value. */
  function MembersTail(parts: seq<Text>, rest: Text): Text
    requires parts != []
  {
    if |parts| == 1 then [RBRACE] + rest else [COMMA] + (Joined(parts[1..]) + [RBRACE] + rest)
  }

  lemma JoinedHead(parts: seq<Text>, rest: Text)
    requires parts != []
    ensures Joined(parts) + [RBRACE] + rest == parts[0] + MembersTail(parts, rest)
  {
  }

  lemma SerializeMembersStep(owner: Json, ms: seq<Member>)
    requires ms != [] && AllTextKeys(ms) && forall m | m in ms :: m.value < owner
    requires SerializeMembers(owner, ms).Ok?
    ensures Serialize(ms[0].value).Ok? && SerializeMembers(owner, ms[1..]).Ok?
    ensures SerializeMembers(owner, ms).value[0] == Quoted(ms[0].key.text) + [COLON] + Serialize(ms[0].value).value
    ensures SerializeMembers(owner, ms).value[1..] == SerializeMembers(owner, ms[1..]).value
  {
  }

  lemma FirstMember(owner: Json, ms: seq<Member>, rest: Text) returns (colon: Text)
    requires ms != [] && GoodMembers(owner, ms) && SerializeMembers(owner, ms).Ok?
    ensures Serialize(ms[0].value).Ok?
    ensures colon != [] && colon[0] == COLON
    ensures var parts := SerializeMembers(owner, ms).value;
      var s := Joined(parts) + [RBRACE] + rest;
      s != [] && s[0] == QUOTE && ParseString(s) == Some((ms[0].key.text, colon)) &&
      colon[1..] == Serialize(ms[0].value).value + MembersTail(parts, rest)
  {
    SerializeMembersStep(owner, ms);
    var parts, key := SerializeMembers(owner, ms).value, ms[0].key.text;
    assert ms[0] in ms;
    JoinedHead(parts, rest);
    var value, tail := Serialize(ms[0].value).value, MembersTail(parts, rest);
    colon := [COLON] + (value + tail);
    KeyThenColon(Quoted(key), value, tail);
    StringRoundTrip(key, colon);
    QuotedHead(key, colon);
  }

  lemma KeyThenColon(key: Text, value: Text, tail: Text)
    ensures (key + [COLON] + value) + tail == key + ([COLON] + (value + tail))
    ensures ([COLON] + (value + tail))[1..] == value + tail
  {
  }

  lemma QuotedHead(key: Text, rest: Text)
    ensures Quoted(key) + rest != [] && (Quoted(key) + rest)[0] == QUOTE
  {
  }

  lemma {:induction false} MembersRoundTrip(owner: Json, ms: seq<Member>, rest: Text)
    requires ms != [] && GoodMembers(owner, ms)
    ensures SerializeMembers(owner, ms).Ok?
    ensures var s := Joined(SerializeMembers(owner, ms).value) + [RBRACE] + rest;
      s != [] && s[0] == QUOTE && ParseMembers(s) == Some((MeaningMembers(ms), rest))
    decreases owner, 0, |ms|
  {
    MembersExactlySupported(owner, ms);
    var parts, key, value := SerializeMembers(owner, ms).value, ms[0].key.text, ms[0].value;
    var s := Joined(parts) + [RBRACE] + rest;
    var colon := FirstMember(owner, ms, rest);
    var tail := MembersTail(parts, rest);
    assert ms[0] in ms;
    ParseInvertsSerialize(value, tail);
    if |ms| == 1 {
      ParseOneMember(s, key, colon, Meaning(value), tail, map[], rest);
    } else {
      SerializeMembersStep(owner, ms);
      MembersRoundTrip(owner, ms[1..], rest);
      assert tail[1..] == Joined(parts[1..]) + [RBRACE] + rest;
      ParseOneMember(s, key, colon, Meaning(value), tail, MeaningMembers(ms[1..]), rest);
    }
  }

  /** Sorting members does not change what the object means. */
  lemma SortedMeaning(ms: seq<Member>)
    requires DistinctKeys(ms)
    requires forall m | m in ms :: m.key.TextKey? && ScalarText(m.key.text) && Supported(m.value)
    ensures AllTextKeys(ms)
    ensures forall m | m in Sorted(ms) :: m in ms
    ensures MeaningMembers(Sorted(ms)) == MeaningMembers(ms)
  {
    SortedSame(ms);
    SortedDistinct(ms);
    var a, b := MeaningMembers(Sorted(ms)), MeaningMembers(ms);
    forall k ensures k in a <==> k in b {
      MeaningKeys(ms, k);
      MeaningKeys(Sorted(ms), k);
    }
    forall k | k in a ensures a[k] == b[k] {
      MeaningKeys(ms, k);
      var m :| m in ms && m.key.text == k;
      MeaningLookup(ms, m);
      MeaningLookup(Sorted(ms), m);
    }
  }

  lemma SortedDistinct(ms: seq<Member>)
    requires AllTextKeys(ms) && AllScalarKeys(ms) && DistinctKeys(ms)
    ensures DistinctKeys(Sorted(ms))
  {
    SortedAscend(ms);
    var s := Sorted(ms);
    forall i, j | 0 <= i < j < |s| ensures s[i].key != s[j].key {
      KeyAsymmetric(s[i].key.text, s[j].key.text);
    }
  }

  // ---------------------------------------------------------------- canonical form

  lemma {:induction false} Utf8Injective(s: Text, t: Text)
    requires Utf8(s) == Utf8(t)
    ensures s == t
  {
    if s != [] && t != [] {
      var x, y := Utf8Char(s[0]), Utf8Char(t[0]);
      assert x[0] == Utf8(s)[0] && y[0] == Utf8(t)[0];
      assert |x| == |y|;
      assert x == Utf8(s)[..|x|] && y == Utf8(t)[..|y|];
      Utf8CharInjective(s[0], t[0]);
      assert Utf8(s)[|x|..] == Utf8(s[1..]) && Utf8(t)[|y|..] == Utf8(t[1..]);
      Utf8Injective(s[1..], t[1..]);
      assert s == [s[0]] + s[1..] && t == [t[0]] + t[1..];
    }
  }

  lemma Utf8CharInjective(c: CodePoint, d: CodePoint)
    requires Utf8Char(c) == Utf8Char(d)
    ensures c == d
  {
  }

  lemma {:induction false} SameMeaningSameText(v: Json, w: Json)
    requires PythonValue(v) && Supported(v) && PythonValue(w) && Supported(w)
    requires Meaning(v) == Meaning(w)
    ensures Serialize(v) == Serialize(w)
    decreases v, 2
  {
    match v
    case Arr(items) => ItemsSameText(items, w.items);
    case Obj(members) => ObjectsSameText(v, w);
    case _ =>
  }

  lemma {:induction false} ItemsSameText(a: seq<Json>, b: seq<Json>)
    requires forall x | x in a :: PythonValue(x) && Supported(x)
    requires forall x | x in b :: PythonValue(x) && Supported(x)
    requires MeaningItems(a) == MeaningItems(b)
    ensures SerializeItems(a) == SerializeItems(b)
    decreases a, 2
  {
    if a != [] {
      assert MeaningItems(a)[0] == MeaningItems(b)[0] && MeaningItems(a)[1..] == MeaningItems(b)[1..];
      SameMeaningSameText(a[0], b[0]);
      ItemsSameText(a[1..], b[1..]);
    }
  }

  lemma SameMembersInOrder(v: Json, w: Json)
    requires v.Obj? && w.Obj?
    requires PythonValue(v) && Supported(v) && PythonValue(w) && Supported(w)
    requires Meaning(v) == Meaning(w)
    ensures AllTextKeys(v.members) && AllTextKeys(w.members)
    ensures GoodMembers(v, Sorted(v.members)) && GoodMembers(w, Sorted(w.members))
    ensures var a, b := Sorted(v.members), Sorted(w.members);
      |a| == |b| && forall i | 0 <= i < |a| :: a[i].key == b[i].key && Meaning(a[i].value) == Meaning(b[i].value)
  {
    ObjectParts(v);
    ObjectParts(w);
    var a, b := Sorted(v.members), Sorted(w.members);
    SameKeysInOrder(v.members, w.members);
    forall i | 0 <= i < |a| ensures Meaning(a[i].value) == Meaning(b[i].value) {
      SameMeaningAt(v, a, w, b, i);
    }
  }

  /** What is known of the members of a supported object, before and after sorting. */
  lemma ObjectParts(v: Json)
    requires v.Obj? && PythonValue(v) && Supported(v)
    ensures DistinctKeys(v.members) && AllTextKeys(v.members) && GoodMembers(v, v.members)
    ensures GoodMembers(v, Sorted(v.members)) && DistinctKeys(Sorted(v.members))
    ensures Meaning(v) == VObj(MeaningMembers(v.members)) == VObj(MeaningMembers(Sorted(v.members)))
  {
    SortedGood(v);
    GoodKeys(v.members);
    SortedDistinct(v.members);
    SortedMeaning(v.members);
  }

  lemma SameMeaningAt(v: Json, a: seq<Member>, w: Json, b: seq<Member>, i: nat)
    requires GoodMembers(v, a) && GoodMembers(w, b) && DistinctKeys(a) && DistinctKeys(b)
    requires MeaningMembers(a) == MeaningMembers(b) && i < |a| && i < |b| && a[i].key == b[i].key
    ensures Meaning(a[i].value) == Meaning(b[i].value)
  {
    MeaningLookup(a, a[i]);
    MeaningLookup(b, b[i]);
  }

  lemma {:induction false} ObjectsSameText(v: Json, w: Json)
    requires v.Obj? && w.Obj?
    requires PythonValue(v) && Supported(v) && PythonValue(w) && Supported(w)
    requires Meaning(v) == Meaning(w)
    ensures Serialize(v) == Serialize(w)
    decreases v, 1
  {
    SerializesExactlySupported(v);
    SerializesExactlySupported(w);
    SameMembersInOrder(v, w);
    MembersSameText(v, Sorted(v.members), w, Sorted(w.members));
    ObjectText(v);
    ObjectText(w);
  }

  lemma SameKeysInOrder(ms: seq<Member>, ns: seq<Member>)
    requires DistinctKeys(ms) && DistinctKeys(ns)
    requires forall m | m in ms :: m.key.TextKey? && ScalarText(m.key.text) && Supported(m.value)
    requires forall m | m in ns :: m.key.TextKey? && ScalarText(m.key.text) && Supported(m.value)
    requires MeaningMembers(ms) == MeaningMembers(ns)
    ensures AllTextKeys(ms) && AllTextKeys(ns) && |Sorted(ms)| == |Sorted(ns)|
    ensures forall i | 0 <= i < |Sorted(ms)| :: Sorted(ms)[i].key == Sorted(ns)[i].key
  {
    SortedKeysAscend(ms);
    SortedKeysAscend(ns);
    var a, b := Keys(Sorted(ms)), Keys(Sorted(ns));
    SameKeySets(ms, ns);
    AscendingUnique(a, b);
    forall i | 0 <= i < |a| ensures Sorted(ms)[i].key == Sorted(ns)[i].key {
      assert a[i] == b[i];
    }
  }

  lemma SameKeySets(ms: seq<Member>, ns: seq<Member>)
    requires forall m | m in ms :: m.key.TextKey? && Supported(m.value)
    requires forall m | m in ns :: m.key.TextKey? && Supported(m.value)
    requires MeaningMembers(ms) == MeaningMembers(ns)
    ensures AllTextKeys(ms) && AllTextKeys(ns)
    ensures forall k :: k in Keys(Sorted(ms)) <==> k in Keys(Sorted(ns))
  {
    forall k ensures AllTextKeys(ms) && AllTextKeys(ns) && (k in Keys(Sorted(ms)) <==> k in Keys(Sorted(ns))) {
      KeysAreMeaningKeys(ms, k);
      KeysAreMeaningKeys(ns, k);
    }
  }

  lemma SortedKeysAscend(ms: seq<Member>)
    requires DistinctKeys(ms)
    requires forall m | m in ms :: m.key.TextKey? && ScalarText(m.key.text)
    ensures AllTextKeys(ms) && AscendingTexts(Keys(Sorted(ms)))
  {
    GoodKeys(ms);
    SortedAscend(ms);
  }

  lemma KeysAreMeaningKeys(ms: seq<Member>, k: Text)
    requires forall m | m in ms :: m.key.TextKey? && Supported(m.value)
    ensures AllTextKeys(ms) && (k in Keys(Sorted(ms)) <==> k in MeaningMembers(ms))
  {
    SortedSame(ms);
    MeaningKeys(ms, k);
    KeyMembers(Sorted(ms), k);
  }

  lemma KeyMembers(r: seq<Member>, k: Text)
    requires AllTextKeys(r)
    ensures k in Keys(r) <==> exists m :: m in r && m.key.text == k
  {
  }

  lemma {:induction false} MembersSameText(v: Json, a: seq<Member>, w: Json, b: seq<Member>)
    requires GoodMembers(v, a) && GoodMembers(w, b) && |a| == |b|
    requires forall i | 0 <= i < |a| :: a[i].key == b[i].key && Meaning(a[i].value) == Meaning(b[i].value)
    ensures SerializeMembers(v, a) == SerializeMembers(w, b)
    decreases v, 0, |a|
  {
    if a != [] {
      SameMeaningSameText(a[0].value, b[0].value);
      MembersSameText(v, a[1..], w, b[1..]);
    }
  }

  /** Canonical bytes identify a value up to the order of object members, and nothing less. */
  lemma CanonicalFormIsMeaning(v: Json, w: Json)
    requires PythonValue(v) && PythonValue(w)
    ensures Canonicalize(v).Ok? <==> Supported(v)
    ensures Supported(v) && Supported(w) ==>
      (Canonicalize(v) == Canonicalize(w) <==> Meaning(v) == Meaning(w))
  {
    SerializesExactlySupported(v);
    SerializesExactlySupported(w);
    if Supported(v) && Supported(w) {
      if Meaning(v) == Meaning(w) { SameMeaningSameText(v, w); }
      if Canonicalize(v) == Canonicalize(w) {
        Utf8Injective(Serialize(v).value, Serialize(w).value);
        ParseInvertsSerialize(v, []);
        ParseInvertsSerialize(w, []);
      }
    }
  }
}
