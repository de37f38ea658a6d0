/** A parser for JSON text (RFC 8259) with integer numbers, written independently of the
    serialiser.  Objects become maps in which the last duplicate member wins. */
module JsonParser {
  import opened Wrappers
  import opened Jcs

  predicate IsSpace(c: CodePoint) {
    c == 0x20 || c == 0x09 || c == 0x0A || c == 0x0D
  }

  function SkipSpace(s: Text): (r: Text)
    ensures |r| <= |s|
  {
    if s != [] && IsSpace(s[0]) then SkipSpace(s[1..]) else s
  }

  predicate IsDigit(c: CodePoint) {
    ZERO <= c <= ZERO + 9
  }

  function HexValue(c: CodePoint): (d: Option<nat>)
    ensures d.Some? ==> d.value < 16
  {
    if IsDigit(c) then Some(c - ZERO)
    else if 0x61 <= c <= 0x66 then Some(c - 0x61 + 10)
    else if 0x41 <= c <= 0x46 then Some(c - 0x41 + 10)
    else None
  }

  /** One character of a string body; `\u` stands for one UTF-16 code unit. */
  function ParseChar(s: Text): (p: Option<(CodePoint, Text)>)
    ensures p.Some? ==> |p.value.1| < |s|
  {
    if s == [] then None
    else if s[0] != BACKSLASH then
      if s[0] < 0x20 || !IsScalar(s[0]) then None else Some((s[0], s[1..]))
    else if |s| < 2 then None
    else if s[1] == QUOTE || s[1] == BACKSLASH || s[1] == 0x2F then Some((s[1], s[2..]))
    else if s[1] == 0x62 then Some((0x08, s[2..]))
    else if s[1] == 0x66 then Some((0x0C, s[2..]))
    else if s[1] == 0x6E then Some((0x0A, s[2..]))
    else if s[1] == 0x72 then Some((0x0D, s[2..]))
    else if s[1] == 0x74 then Some((0x09, s[2..]))
    else if s[1] == 0x75 && |s| >= 6 then
      match (HexValue(s[2]), HexValue(s[3]), HexValue(s[4]), HexValue(s[5]))
      case (Some(a), Some(b), Some(c), Some(d)) =>
        Some((((a * 16 + b) * 16 + c) * 16 + d, s[6..]))
      case _ => None
    else None
  }

  /** The rest of a string after its opening quotation mark. */
  function ParseChars(s: Text): (p: Option<(Text, Text)>)
    ensures p.Some? ==> |p.value.1| < |s|
    decreases |s|
  {
    if s == [] then None
    else if s[0] == QUOTE then Some(([], s[1..]))
    else
      match ParseChar(s)
      case None => None
      case Some((c, r)) =>
        match ParseChars(r)
        case None => None
        case Some((cs, r')) => Some(([c] + cs, r'))
  }

  function ParseString(s: Text): (p: Option<(Text, Text)>)
    ensures p.Some? ==> |p.value.1| < |s|
  {
    if s != [] && s[0] == QUOTE then ParseChars(s[1..]) else None
  }

  /** Consumes the longest run of digits, most significant first. */
  function ParseDigits(s: Text, acc: nat): (p: (nat, Text))
    ensures |p.1| <= |s|
  {
    if s != [] && IsDigit(s[0]) then ParseDigits(s[1..], acc * 10 + (s[0] - ZERO)) else (acc, s)
  }

  /** A fraction or an exponent may not follow: the canonical subset has integers only. */
  predicate EndsNumber(s: Text) {
    s == [] || !(IsDigit(s[0]) || s[0] == 0x2E || s[0] == 0x45 || s[0] == 0x65)
  }

  function ParseNatural(s: Text): (p: Option<(nat, Text)>)
    ensures p.Some? ==> |p.value.1| < |s|
  {
    if s == [] || !IsDigit(s[0]) then None
    else
      var (n, r) := if s[0] == ZERO then (0, s[1..]) else ParseDigits(s[1..], s[0] - ZERO);
      if EndsNumber(r) then Some((n, r)) else None
  }

  function ParseInteger(s: Text): (p: Option<(int, Text)>)
    ensures p.Some? ==> |p.value.1| < |s|
  {
    if s != [] && s[0] == MINUS then
      match ParseNatural(s[1..])
      case None => None
      case Some((n, r)) =>
        var magnitude: int := n;
        Some((-magnitude, r))
    else
      match ParseNatural(s)
      case None => None
      case Some((n, r)) => Some((n, r))
  }

  function ParseWord(s: Text, word: Text, v: Value): (p: Option<(Value, Text)>)
    requires word != []
    ensures p.Some? ==> |p.value.1| < |s|
  {
    if |word| <= |s| && s[..|word|] == word then Some((v, s[|word|..])) else None
  }

  /** A literal, a string or a number at the head of `s`. */
  function ParseAtom(s: Text): (p: Option<(Value, Text)>)
    requires s != []
    ensures p.Some? ==> |p.value.1| < |s|
  {
    if s[0] == NULL[0] then ParseWord(s, NULL, VNull)
    else if s[0] == TRUE[0] then ParseWord(s, TRUE, VBool(true))
    else if s[0] == FALSE[0] then ParseWord(s, FALSE, VBool(false))
    else if s[0] == QUOTE then
      match ParseString(s)
      case None => None
      case Some((t, r)) => Some((VStr(t), r))
    else
      match ParseInteger(s)
      case None => None
      case Some((n, r)) => Some((VInt(n), r))
  }

  function ParseValue(text: Text): (p: Option<(Value, Text)>)
    ensures p.Some? ==> |p.value.1| < |text|
    decreases |text|, 0
  {
    var s := SkipSpace(text);
    if s == [] then None
    else if s[0] == LBRACKET then ParseArrayBody(s[1..])
    else if s[0] == LBRACE then ParseObjectBody(s[1..])
    else ParseAtom(s)
  }

  /** The rest of an array after its opening bracket. */
  function ParseArrayBody(s: Text): (p: Option<(Value, Text)>)
    ensures p.Some? ==> |p.value.1| < |s|
    decreases |s|, 2
  {
    var after := SkipSpace(s);
    if after != [] && after[0] == RBRACKET then Some((VArr([]), after[1..]))
    else
      match ParseElements(s)
      case None => None
      case Some((vs, r)) => Some((VArr(vs), r))
  }

  /** The rest of an object after its opening brace. */
  function ParseObjectBody(s: Text): (p: Option<(Value, Text)>)
    ensures p.Some? ==> |p.value.1| < |s|
    decreases |s|, 2
  {
    var after := SkipSpace(s);
    if after != [] && after[0] == RBRACE then Some((VObj(map[]), after[1..]))
    else
      match ParseMembers(s)
      case None => None
      case Some((m, r)) => Some((VObj(m), r))
  }

  /** One or more array elements up to and including the closing bracket. */
  function ParseElements(s: Text): (p: Option<(seq<Value>, Text)>)
    ensures p.Some? ==> |p.value.1| < |s|
    decreases |s|, 1
  {
    match ParseValue(s)
    case None => None
    case Some((v, r0)) =>
      var r := SkipSpace(r0);
      if r == [] then None
      else if r[0] == RBRACKET then Some(([v], r[1..]))
      else if r[0] != COMMA then None
      else
        match ParseElements(r[1..])
        case None => None
        case Some((vs, r')) => Some(([v] + vs, r'))
  }

  /** One or more object members up to and including the closing brace. */
  function ParseMembers(s: Text): (p: Option<(map<Text, Value>, Text)>)
    ensures p.Some? ==> |p.value.1| < |s|
    decreases |s|, 1
  {
    match ParseString(SkipSpace(s))
    case None => None
    case Some((k, r0)) =>
      var r1 := SkipSpace(r0);
      if r1 == [] || r1[0] != COLON then None
      else
        match ParseValue(r1[1..])
        case None => None
        case Some((v, r2)) =>
          var r := SkipSpace(r2);
          if r == [] then None
          else if r[0] == RBRACE then Some((map[k := v], r[1..]))
          else if r[0] != COMMA then None
          else
            match ParseMembers(r[1..])
            case None => None
            case Some((m, r')) => Some((map[k := v] + m, r'))
  }
}
