/** The restricted RFC 8785 canonicaliser (architecture/tools/jcs.py).

    Python text is a sequence of code points, which may include lone surrogates; a Python
    dictionary is a sequence of members in insertion order with pairwise distinct keys. */
module Jcs {
  import opened Wrappers
  import opened Sequences

  type CodePoint = c: int | 0 <= c < 0x110000
  type Unit16 = u: int | 0 <= u < 0x1_0000
  type Byte = b: int | 0 <= b < 0x100
  type Text = seq<CodePoint>

  const MAX_SAFE_INTEGER := 9_007_199_254_740_991

  datatype Json =
    | Null
    | Bool(flag: bool)
    | Int(n: int)
    | Float(r: real)
    | Str(text: Text)
    | Arr(items: seq<Json>)
    | Obj(members: seq<Member>)
    | Unsupported

  datatype Member = Member(key: Key, value: Json)
  datatype Key = TextKey(text: Text) | OtherKey

  datatype JcsError = UnsupportedNumber | InvalidUnicode | NonTextKey | UnsupportedType

  /** What a Python value means: `==` on dictionaries ignores insertion order. */
  datatype Value =
    | VNull
    | VBool(flag: bool)
    | VInt(n: int)
    | VStr(text: Text)
    | VArr(items: seq<Value>)
    | VObj(members: map<Text, Value>)

  // ---------------------------------------------------------------- characters

  const QUOTE: CodePoint := 0x22
  const COMMA: CodePoint := 0x2C
  const MINUS: CodePoint := 0x2D
  const COLON: CodePoint := 0x3A
  const LBRACKET: CodePoint := 0x5B
  const BACKSLASH: CodePoint := 0x5C
  const RBRACKET: CodePoint := 0x5D
  const LBRACE: CodePoint := 0x7B
  const RBRACE: CodePoint := 0x7D
  const ZERO: CodePoint := 0x30
  const NULL: Text := [0x6E, 0x75, 0x6C, 0x6C]
  const TRUE: Text := [0x74, 0x72, 0x75, 0x65]
  const FALSE: Text := [0x66, 0x61, 0x6C, 0x73, 0x65]

  predicate IsScalar(c: CodePoint) {
    !(0xD800 <= c <= 0xDFFF)
  }

  predicate ScalarText(s: Text) {
    forall i | 0 <= i < |s| :: IsScalar(s[i])
  }

  // ---------------------------------------------------------------- sort key

  function Utf16Char(c: CodePoint): seq<Unit16> {
    if c < 0x1_0000 then [c]
    else [0xD800 + (c - 0x1_0000) / 0x400, 0xDC00 + (c - 0x1_0000) % 0x400]
  }

  function Utf16(s: Text): seq<Unit16> {
    if s == [] then [] else Utf16Char(s[0]) + Utf16(s[1..])
  }

  function BigEndian(units: seq<Unit16>): seq<Byte> {
    if units == [] then [] else [units[0] / 0x100, units[0] % 0x100] + BigEndian(units[1..])
  }

  /** The sort key of the source: the bytes of the UTF-16-BE encoding. */
  function SortKey(s: Text): seq<Byte> {
    BigEndian(Utf16(s))
  }

  predicate LexLess(a: seq<int>, b: seq<int>) {
    b != [] && (a == [] || a[0] < b[0] || (a[0] == b[0] && LexLess(a[1..], b[1..])))
  }

  predicate KeyLess(a: Text, b: Text) {
    LexLess(SortKey(a), SortKey(b))
  }

  // ---------------------------------------------------------------- serialiser

  function DigitText(n: nat): Text {
    if n < 10 then [ZERO + n] else DigitText(n / 10) + [ZERO + n % 10]
  }

  function IntText(n: int): Text {
    if n < 0 then [MINUS] + DigitText(-n) else DigitText(n)
  }

  function HexDigit(d: nat): CodePoint
    requires d < 16
  {
    if d < 10 then ZERO + d else 0x61 + d - 10
  }

  /** One character as `json.dumps(..., ensure_ascii=False)` writes it inside a string. */
  function EscapeChar(c: CodePoint): Text {
    if c == QUOTE then [BACKSLASH, QUOTE]
    else if c == BACKSLASH then [BACKSLASH, BACKSLASH]
    else if c == 0x08 then [BACKSLASH, 0x62]
    else if c == 0x0C then [BACKSLASH, 0x66]
    else if c == 0x0A then [BACKSLASH, 0x6E]
    else if c == 0x0D then [BACKSLASH, 0x72]
    else if c == 0x09 then [BACKSLASH, 0x74]
    else if c < 0x20 then [BACKSLASH, 0x75, ZERO, ZERO, HexDigit(c / 16), HexDigit(c % 16)]
    else [c]
  }

  function Escape(s: Text): Text {
    if s == [] then [] else EscapeChar(s[0]) + Escape(s[1..])
  }

  function Quoted(s: Text): Text {
    [QUOTE] + Escape(s) + [QUOTE]
  }

  function Joined(parts: seq<Text>): Text {
    if parts == [] then []
    else if |parts| == 1 then parts[0]
    else parts[0] + [COMMA] + Joined(parts[1..])
  }

  predicate AllTextKeys(ms: seq<Member>) {
    forall i | 0 <= i < |ms| :: ms[i].key.TextKey?
  }

  predicate AllScalarKeys(ms: seq<Member>)
    requires AllTextKeys(ms)
  {
    forall i | 0 <= i < |ms| :: ScalarText(ms[i].key.text)
  }

  predicate KeyBefore(m: Member, n: Member) {
    m.key.TextKey? && n.key.TextKey? && KeyLess(m.key.text, n.key.text)
  }

  function Sorted(ms: seq<Member>): (r: seq<Member>)
    requires AllTextKeys(ms)
    ensures AllTextKeys(r)
    ensures multiset(r) == multiset(ms)
    ensures forall m | m in r :: m in ms
  {
    SortedMembers(ms, KeyBefore);
    var r := SortedBy(ms, KeyBefore);
    assert forall i | 0 <= i < |r| :: r[i] in ms;
    r
  }

  function Serialize(v: Json): Result<Text, JcsError>
    decreases v
  {
    match v
    case Null => Ok(NULL)
    case Bool(flag) => Ok(if flag then TRUE else FALSE)
    case Str(s) => if ScalarText(s) then Ok(Quoted(s)) else Err(InvalidUnicode)
    case Int(n) =>
      if -MAX_SAFE_INTEGER <= n <= MAX_SAFE_INTEGER then Ok(IntText(n)) else Err(UnsupportedNumber)
    case Float(_) => Err(UnsupportedNumber)
    case Arr(items) =>
      var parts :- SerializeItems(items);
      Ok([LBRACKET] + Joined(parts) + [RBRACKET])
    case Obj(members) =>
      if !AllTextKeys(members) then Err(NonTextKey)
      else if !AllScalarKeys(members) then Err(InvalidUnicode)
      else
        var parts :- SerializeMembers(v, Sorted(members));
        Ok([LBRACE] + Joined(parts) + [RBRACE])
    case Unsupported => Err(UnsupportedType)
  }

  function SerializeItems(items: seq<Json>): (r: Result<seq<Text>, JcsError>)
    ensures r.Ok? ==> |r.value| == |items|
    decreases items
  {
    if items == [] then Ok([])
    else
      var part :- Serialize(items[0]);
      var rest :- SerializeItems(items[1..]);
      Ok([part] + rest)
  }

  function SerializeMembers(owner: Json, ms: seq<Member>): (r: Result<seq<Text>, JcsError>)
    requires AllTextKeys(ms)
    requires forall m | m in ms :: m.value < owner
    ensures r.Ok? ==> |r.value| == |ms|
    decreases owner, 0, |ms|
  {
    if ms == [] then Ok([])
    else
      var part :- Serialize(ms[0].value);
      var rest :- SerializeMembers(owner, ms[1..]);
      Ok([Quoted(ms[0].key.text) + [COLON] + part] + rest)
  }

  // ---------------------------------------------------------------- canonical bytes

  function Utf8Char(c: CodePoint): (r: seq<Byte>)
    ensures r != []
  {
    if c < 0x80 then [c]
    else if c < 0x800 then [0xC0 + c / 0x40, 0x80 + c % 0x40]
    else if c < 0x1_0000 then [0xE0 + c / 0x40 / 0x40, 0x80 + c / 0x40 % 0x40, 0x80 + c % 0x40]
    else [0xF0 + c / 0x40 / 0x40 / 0x40, 0x80 + c / 0x40 / 0x40 % 0x40, 0x80 + c / 0x40 % 0x40, 0x80 + c % 0x40]
  }

  function Utf8(s: Text): seq<Byte> {
    if s == [] then [] else Utf8Char(s[0]) + Utf8(s[1..])
  }

  function Canonicalize(v: Json): Result<seq<Byte>, JcsError> {
    var text :- Serialize(v);
    Ok(Utf8(text))
  }
}
