/** `json.loads` as CPython's C scanner performs it: a recursive-descent
    reader of RFC 8259 text with Python's extensions (`NaN`, `Infinity`,
    `-Infinity`) and its `strict` switch for raw control characters inside
    strings. Each reader takes the whole document and an index, and returns
    the value read with the index just past it, or the error Python raises
    with its position. */
module JsonDecode {
  import opened Results
  import opened Chars
  import opened JsonValue

  /** The messages `json.JSONDecodeError` carries. */
  datatype ErrorKind =
    | ExpectingValue
    | ExtraData
    | ExpectingPropertyName
    | ExpectingColon
    | ExpectingComma
    | UnterminatedString
    | InvalidControlCharacter
    | InvalidEscape
    | InvalidUnicodeEscape
    | UnexpectedBom
      /** `int()` refusing a literal of more than `MaxIntDigits` digits: a
          plain `ValueError`, not a `json.JSONDecodeError`. */
    | IntTooLong(digits: nat)

  /** The most decimal digits `int()` converts: the default of
      `sys.set_int_max_str_digits`, in force since CPython 3.11. */
  const MaxIntDigits: nat := 4300

  /** A `json.JSONDecodeError` (or, for `IntTooLong`, the `ValueError` the
      scanner lets through): what went wrong, and the index in the document. */
  datatype DecodeError = DecodeError(kind: ErrorKind, pos: nat)

  /** A value read from the document, and the index just past it. */
  datatype Parsed<+T> = Parsed(v: T, next: nat)

  /** The character just before index `n` of `s` is `c`: a value that
      ends at `n` was closed by `c`. */
  predicate EndsWith(s: string, n: nat, c: char) {
    0 < n <= |s| && s[n - 1] == c
  }

  /** The index of the first non-whitespace character at or after `i`. */
  function SkipWs(s: string, i: nat): (r: nat)
    requires i <= |s|
    ensures i <= r <= |s|
    ensures r == |s| || !IsJsonSpace(s[r])
    decreases |s| - i
  {
    if i < |s| && IsJsonSpace(s[i]) then SkipWs(s, i + 1) else i
  }

  /** The index of the first non-digit at or after `i`. */
  function DigitsEnd(s: string, i: nat): (r: nat)
    requires i <= |s|
    ensures i <= r <= |s|
    ensures r == |s| || !IsDigit(s[r])
    decreases |s| - i
  {
    if i < |s| && IsDigit(s[i]) then DigitsEnd(s, i + 1) else i
  }

  /** Everything `DigitsEnd` skips is a digit. */
  lemma {:induction false} DigitsEndDigits(s: string, i: nat)
    requires i <= |s|
    ensures forall k :: i <= k < DigitsEnd(s, i) ==> IsDigit(s[k])
    decreases |s| - i
  {
    if i < |s| && IsDigit(s[i]) {
      DigitsEndDigits(s, i + 1);
    }
  }

  /** The value of the four hexadecimal digits at `i`, if they are four. */
  function Hex4(s: string, i: nat): (r: Option<nat>)
    requires i + 4 <= |s|
    ensures r.Some? ==> r.value < 0x10000
  {
    if IsHexDigit(s[i]) && IsHexDigit(s[i + 1]) && IsHexDigit(s[i + 2]) && IsHexDigit(s[i + 3]) then
      Some(((HexDigitValue(s[i]) * 16 + HexDigitValue(s[i + 1])) * 16 + HexDigitValue(s[i + 2])) * 16
           + HexDigitValue(s[i + 3]))
    else None
  }

  /** The character of a code point; a lone surrogate, which a Python `str`
      can hold but a Dafny `char` cannot, becomes U+FFFD. */
  function CodePoint(n: nat): (c: char)
    requires n < 0x11_0000
    ensures !(0xD800 <= n < 0xE000) ==> c as int == n
  {
    if 0xD800 <= n < 0xE000 then '\U{FFFD}' else n as char
  }

  /** The character a one-letter backslash escape stands for. */
  function SimpleEscape(c: char): Option<char> {
    match c
    case '"' => Some('"')
    case '\\' => Some('\\')
    case '/' => Some('/')
    case 'b' => Some('\U{8}')
    case 'f' => Some('\U{c}')
    case 'n' => Some('\n')
    case 'r' => Some('\r')
    case 't' => Some('\t')
    case _ => None
  }

  /** The escape whose letter is at `j` (just past the backslash). A `\u`
      escape needs four hex digits and one more character after them; a high
      surrogate directly followed by a `\u` low surrogate is joined with it. */
  function ParseEscape(s: string, j: nat, begin: nat): (r: Result<Parsed<char>, DecodeError>)
    requires 0 < j <= |s| && begin < j
    ensures r.Ok? ==> j < r.value.next <= |s|
    ensures r.Err? ==> begin <= r.error.pos <= |s|
    ensures r.Ok? && s[j] != 'u' ==> r.value.next == j + 1 && SimpleEscape(s[j]) == Some(r.value.v)
    ensures r.Ok? && s[j] == 'u' ==> r.value.next == j + 5 || r.value.next == j + 11
    ensures j < |s| && s[j] != 'u' && SimpleEscape(s[j]).None? ==> r == Err(DecodeError(InvalidEscape, j - 1))
  {
    if j == |s| then Err(DecodeError(UnterminatedString, begin))
    else if s[j] == 'u' then
      if j + 5 >= |s| then Err(DecodeError(InvalidUnicodeEscape, j))
      else match Hex4(s, j + 1)
        case None => Err(DecodeError(InvalidUnicodeEscape, j))
        case Some(hi) =>
          var e := j + 5;
          if 0xD800 <= hi < 0xDC00 && e + 6 < |s| && s[e] == '\\' && s[e + 1] == 'u' then
            match Hex4(s, e + 2)
            case None => Err(DecodeError(InvalidUnicodeEscape, e + 1))
            case Some(lo) =>
              if 0xDC00 <= lo < 0xE000 then
                Ok(Parsed(CodePoint(0x10000 + (hi - 0xD800) * 0x400 + (lo - 0xDC00)), e + 6))
              else Ok(Parsed(CodePoint(hi), e))
          else Ok(Parsed(CodePoint(hi), e))
    else match SimpleEscape(s[j])
      case Some(c) => Ok(Parsed(c, j + 1))
      case None => Err(DecodeError(InvalidEscape, j - 1))
  }

  /** The rest of a string literal from `i` up to and including its closing
      quote; `begin` is the opening quote. `lax` is `json.loads(strict=False)`,
      which lets raw control characters through. */
  function ParseStringBody(s: string, i: nat, begin: nat, lax: bool): (r: Result<Parsed<string>, DecodeError>)
    requires begin < i <= |s|
    ensures r.Ok? ==> i < r.value.next <= |s|
    ensures r.Ok? ==> EndsWith(s, r.value.next, '"') && |r.value.v| < r.value.next - i
    ensures r.Err? ==> begin <= r.error.pos <= |s|
    decreases |s| - i
  {
    if i == |s| then Err(DecodeError(UnterminatedString, begin))
    else if s[i] == '"' then Ok(Parsed("", i + 1))
    else if s[i] == '\\' then
      var esc :- ParseEscape(s, i + 1, begin);
      var rest :- ParseStringBody(s, esc.next, begin, lax);
      Ok(Parsed([esc.v] + rest.v, rest.next))
    else if s[i] < ' ' && !lax then Err(DecodeError(InvalidControlCharacter, i))
    else
      var rest :- ParseStringBody(s, i + 1, begin, lax);
      Ok(Parsed([s[i]] + rest.v, rest.next))
  }

  /** The index after an optional exponent at `f`: an `e`/`E`, an optional
      sign and at least one digit; without a digit nothing is consumed. */
  function ExponentEnd(s: string, f: nat): (r: nat)
    requires f <= |s|
    ensures f <= r <= |s|
  {
    if f + 1 < |s| && (s[f] == 'e' || s[f] == 'E') then
      var g := if s[f + 1] == '+' || s[f + 1] == '-' then f + 2 else f + 1;
      var h := DigitsEnd(s, g);
      if h > g then h else f
    else f
  }

  /** Neither a fraction nor an exponent follows the digits that end at
      `k`, so the number is an integer. */
  predicate IntegerEndsAt(s: string, k: nat)
    requires k <= |s|
  {
    !(k + 1 < |s| && s[k] == '.' && IsDigit(s[k + 1])) && ExponentEnd(s, k) == k
  }

  /** A number whose integer part is `s[start..k]` (an optional minus, then
      the digits `s[d..k]`): an optional fraction and exponent follow. With
      neither, the whole lexeme goes to `int()`, which refuses more than
      `MaxIntDigits` digits. */
  function NumberTail(s: string, start: nat, d: nat, k: nat): (r: Result<Parsed<Json>, DecodeError>)
    requires start <= d < k <= |s|
    requires forall m :: d <= m < k ==> IsDigit(s[m])
    ensures r.Ok? ==> r.value.next > start && (r.value.v.Int? || r.value.v.Float?)
    ensures r.Ok? && r.value.v.Int? ==> k - d <= MaxIntDigits && r.value.next == k
    ensures r.Err? ==> r.error == DecodeError(IntTooLong(k - d), start) && k - d > MaxIntDigits
    ensures IntegerEndsAt(s, k) && k - d > MaxIntDigits ==> r == Err(DecodeError(IntTooLong(k - d), start))
    ensures IntegerEndsAt(s, k) && k - d <= MaxIntDigits ==>
      r.Ok? && r.value.next == k && AllDigits(s[d..k]) &&
      r.value.v == Int(if d == start then DigitsValue(s[d..k]) as int else -(DigitsValue(s[d..k]) as int))
    ensures !IntegerEndsAt(s, k) ==> r.Ok? && k < r.value.next <= |s| && r.value.v == Float(s[start..r.value.next])
  {
    var f := if k + 1 < |s| && s[k] == '.' && IsDigit(s[k + 1]) then DigitsEnd(s, k + 2) else k;
    var e := ExponentEnd(s, f);
    if e == k then
      if k - d > MaxIntDigits then Err(DecodeError(IntTooLong(k - d), start))
      else
        var magnitude: int := DigitsValue(s[d..k]);
        Ok(Parsed(Int(if d > start then -magnitude else magnitude), k))
    else Ok(Parsed(Float(s[start..e]), e))
  }

  /** A number at `i`: `-?(0|[1-9][0-9]*)` then the tail; anything else is
      "Expecting value" at `i`. */
  function ParseNumber(s: string, i: nat): (r: Result<Parsed<Json>, DecodeError>)
    requires i < |s|
    ensures r.Ok? ==> i < r.value.next <= |s|
    ensures r.Ok? ==> r.value.v.Int? || r.value.v.Float?
    ensures r.Err? ==> r.error.pos == i
    ensures r.Err? ==> r.error.kind == ExpectingValue || (r.error.kind.IntTooLong? && r.error.kind.digits > MaxIntDigits)
    ensures s[i] != '-' && !IsDigit(s[i]) ==> r == Err(DecodeError(ExpectingValue, i))
  {
    var d := if s[i] == '-' then i + 1 else i;
    if d == |s| then Err(DecodeError(ExpectingValue, i))
    else if s[d] == '0' then NumberTail(s, i, d, d + 1)
    else if '1' <= s[d] <= '9' then
      DigitsEndDigits(s, d + 1);
      NumberTail(s, i, d, DigitsEnd(s, d + 1))
    else Err(DecodeError(ExpectingValue, i))
  }

  /** A name `scan_once` recognises and the value it stands for. */
  datatype Literal = Literal(word: string, value: Json)

  /** The names `scan_once` recognises, in the order it tries them. */
  const Literals: seq<Literal> := [
    Literal("null", Null), Literal("true", Bool(true)), Literal("false", Bool(false)),
    Literal("NaN", Float("NaN")), Literal("Infinity", Float("Infinity")),
    Literal("-Infinity", Float("-Infinity"))]

  /** The first of `lits` whose word occurs at `i`. */
  function MatchLiteral(s: string, i: nat, lits: seq<Literal>): (r: Option<Literal>)
    requires forall k :: 0 <= k < |lits| ==> |lits[k].word| > 0
    ensures r.Some? ==> |r.value.word| > 0 && HasAt(s, i, r.value.word) && r.value in lits
  {
    if |lits| == 0 then None
    else if HasAt(s, i, lits[0].word) then Some(lits[0])
    else MatchLiteral(s, i, lits[1..])
  }

  /** CPython's `scan_once`: one value starting exactly at `i`. */
  function ParseValue(s: string, i: nat, lax: bool): (r: Result<Parsed<Json>, DecodeError>)
    requires i <= |s|
    ensures r.Ok? ==> i < r.value.next <= |s|
    ensures r.Err? ==> r.error.pos <= |s|
    ensures i == |s| ==> r == Err(DecodeError(ExpectingValue, i))
    ensures r.Ok? && r.value.v.Str? ==> s[i] == '"' && EndsWith(s, r.value.next, '"')
    ensures r.Ok? && r.value.v.Obj? ==> s[i] == '{' && EndsWith(s, r.value.next, '}') && DistinctKeys(r.value.v.members)
    ensures r.Ok? && r.value.v.Arr? ==> s[i] == '[' && EndsWith(s, r.value.next, ']')
    decreases |s| - i, 0
  {
    if i == |s| then Err(DecodeError(ExpectingValue, i))
    else if s[i] == '"' then
      var str :- ParseStringBody(s, i + 1, i, lax);
      Ok(Parsed(Str(str.v), str.next))
    else if s[i] == '{' then ParseObject(s, i + 1, lax)
    else if s[i] == '[' then ParseArray(s, i + 1, lax)
    else
      match MatchLiteral(s, i, Literals)
      case Some(lit) => Ok(Parsed(lit.value, i + |lit.word|))
      case None => ParseNumber(s, i)
  }

  /** An array whose `[` is just before `i`. */
  function ParseArray(s: string, i: nat, lax: bool): (r: Result<Parsed<Json>, DecodeError>)
    requires 0 < i <= |s|
    ensures r.Ok? ==> i < r.value.next <= |s|
    ensures r.Ok? ==> r.value.v.Arr? && EndsWith(s, r.value.next, ']')
    ensures r.Err? ==> r.error.pos <= |s|
    decreases |s| - i, 2
  {
    var j := SkipWs(s, i);
    if j < |s| && s[j] == ']' then Ok(Parsed(Arr([]), j + 1))
    else
      var items :- ParseItems(s, j, lax);
      Ok(Parsed(Arr(items.v), items.next))
  }

  /** The elements of a non-empty array from the element at `i` up to and
      including the closing `]`. */
  function ParseItems(s: string, i: nat, lax: bool): (r: Result<Parsed<seq<Json>>, DecodeError>)
    requires i <= |s|
    ensures r.Ok? ==> i < r.value.next <= |s|
    ensures r.Ok? ==> EndsWith(s, r.value.next, ']')
    ensures r.Err? ==> r.error.pos <= |s|
    decreases |s| - i, 1
  {
    match ParseValue(s, i, lax)
    case Err(e) => Err(e)
    case Ok(item) =>
      var rest := ItemsNext(s, SkipWs(s, item.next), item.v, lax);
      rest
  }

  /** The rest of an array after its element `item`, whose trailing
      whitespace ends at `k`: a `]` closes it, a `,` leads to the next one. */
  function ItemsNext(s: string, k: nat, item: Json, lax: bool): (r: Result<Parsed<seq<Json>>, DecodeError>)
    requires k <= |s|
    ensures r.Ok? ==> k < r.value.next <= |s|
    ensures r.Ok? ==> EndsWith(s, r.value.next, ']')
    ensures r.Err? ==> r.error.pos <= |s|
    decreases |s| - k, 0
  {
    if k < |s| && s[k] == ']' then Ok(Parsed([item], k + 1))
    else if k == |s| || s[k] != ',' then Err(DecodeError(ExpectingComma, k))
    else
      var rest :- ParseItems(s, SkipWs(s, k + 1), lax);
      Ok(Parsed([item] + rest.v, rest.next))
  }

  /** An object whose `{` is just before `i`; its pairs become a dict. */
  function ParseObject(s: string, i: nat, lax: bool): (r: Result<Parsed<Json>, DecodeError>)
    requires 0 < i <= |s|
    ensures r.Ok? ==> i < r.value.next <= |s|
    ensures r.Ok? ==> r.value.v.Obj? && EndsWith(s, r.value.next, '}') && DistinctKeys(r.value.v.members)
    ensures r.Err? ==> r.error.pos <= |s|
    decreases |s| - i, 2
  {
    var j := SkipWs(s, i);
    if j < |s| && s[j] == '}' then Ok(Parsed(Obj([]), j + 1))
    else
      var pairs :- ParseMembers(s, j, lax);
      Ok(Parsed(Obj(FromPairs(pairs.v)), pairs.next))
  }

  /** The `"key": value` pairs of a non-empty object, in document order (a
      repeated key is kept here and resolved by `FromPairs`), from the key
      at `i` up to and including the closing `}`. */
  function ParseMembers(s: string, i: nat, lax: bool): (r: Result<Parsed<seq<Member>>, DecodeError>)
    requires i <= |s|
    ensures r.Ok? ==> i < r.value.next <= |s|
    ensures r.Ok? ==> EndsWith(s, r.value.next, '}')
    ensures r.Err? ==> r.error.pos <= |s|
    decreases |s| - i, 1
  {
    if i == |s| || s[i] != '"' then Err(DecodeError(ExpectingPropertyName, i))
    else
      var key :- ParseStringBody(s, i + 1, i, lax);
      MemberValue(s, SkipWs(s, key.next), key.v, lax)
  }

  /** The rest of a pair after its key `key`, whose trailing whitespace ends
      at `j`: a `:`, the value, and what follows the pair. */
  function MemberValue(s: string, j: nat, key: string, lax: bool): (r: Result<Parsed<seq<Member>>, DecodeError>)
    requires j <= |s|
    ensures r.Ok? ==> j < r.value.next <= |s|
    ensures r.Ok? ==> EndsWith(s, r.value.next, '}')
    ensures r.Err? ==> r.error.pos <= |s|
    decreases |s| - j, 1
  {
    if j == |s| || s[j] != ':' then Err(DecodeError(ExpectingColon, j))
    else
      match ParseValue(s, SkipWs(s, j + 1), lax)
      case Err(e) => Err(e)
      case Ok(val) => MembersNext(s, SkipWs(s, val.next), Member(key, val.v), lax)
  }

  /** The rest of an object after its pair `member`, whose trailing
      whitespace ends at `k`: a `}` closes it, a `,` leads to the next pair. */
  function MembersNext(s: string, k: nat, member: Member, lax: bool): (r: Result<Parsed<seq<Member>>, DecodeError>)
    requires k <= |s|
    ensures r.Ok? ==> k < r.value.next <= |s|
    ensures r.Ok? ==> EndsWith(s, r.value.next, '}')
    ensures r.Err? ==> r.error.pos <= |s|
    decreases |s| - k, 0
  {
    if k < |s| && s[k] == '}' then Ok(Parsed([member], k + 1))
    else if k == |s| || s[k] != ',' then Err(DecodeError(ExpectingComma, k))
    else
      var rest :- ParseMembers(s, SkipWs(s, k + 1), lax);
      Ok(Parsed([member] + rest.v, rest.next))
  }

  /** `json.loads(s, strict=not lax)`: a byte-order mark is refused, then one
      value surrounded by optional whitespace must make up the whole text. */
  function Decode(s: string, lax: bool): (r: Result<Json, DecodeError>)
    ensures r.Err? ==> r.error.pos <= |s|
    ensures |s| > 0 && s[0] == '\U{FEFF}' ==> r == Err(DecodeError(UnexpectedBom, 0))
    ensures r.Ok? && r.value.Obj? ==> DistinctKeys(r.value.members)
  {
    if |s| > 0 && s[0] == '\U{FEFF}' then Err(DecodeError(UnexpectedBom, 0))
    else
      var top :- ParseValue(s, SkipWs(s, 0), lax);
      var e := SkipWs(s, top.next);
      if e == |s| then Ok(top.v) else Err(DecodeError(ExtraData, e))
  }

  /** The message text of each kind, as `json.decoder` (and, for
      `IntTooLong`, `int()`) words it. */
  function Describe(k: ErrorKind): string {
    match k
    case ExpectingValue => "Expecting value"
    case ExtraData => "Extra data"
    case ExpectingPropertyName => "Expecting property name enclosed in double quotes"
    case ExpectingColon => "Expecting ':' delimiter"
    case ExpectingComma => "Expecting ',' delimiter"
    case UnterminatedString => "Unterminated string starting at"
    case InvalidControlCharacter => "Invalid control character at"
    case InvalidEscape => "Invalid \\escape"
    case InvalidUnicodeEscape => "Invalid \\uXXXX escape"
    case UnexpectedBom => "Unexpected UTF-8 BOM (decode using utf-8-sig)"
    case IntTooLong(n) =>
      "Exceeds the limit (" + NatToString(MaxIntDigits) + " digits) for integer string conversion: value has "
      + NatToString(n) + " digits; use sys.set_int_max_str_digits() to increase the limit"
  }

  /** `doc.count('\n', 0, pos)`. */
  function CountNewlines(doc: string): (n: nat)
    ensures n <= |doc|
  {
    if |doc| == 0 then 0
    else CountNewlines(doc[..|doc| - 1]) + (if doc[|doc| - 1] == '\n' then 1 else 0)
  }

  /** `doc.rindex('\n', 0, len(doc))`, or `None` when there is no newline. */
  function LastNewline(doc: string): (r: Option<nat>)
    ensures r.Some? ==> r.value < |doc| && doc[r.value] == '\n'
    ensures r.Some? ==> forall k :: r.value < k < |doc| ==> doc[k] != '\n'
    ensures r.None? <==> CountNewlines(doc) == 0
  {
    if |doc| == 0 then None
    else if doc[|doc| - 1] == '\n' then Some(|doc| - 1)
    else LastNewline(doc[..|doc| - 1])
  }

  /** `str(JSONDecodeError)`: the message, then the 1-based line and column
      and the 0-based index of the error in the decoded document. */
  function Render(e: DecodeError, doc: string): (m: string)
    requires e.pos <= |doc|
    ensures |Describe(e.kind)| <= |m| && m[..|Describe(e.kind)|] == Describe(e.kind)
    ensures CountNewlines(doc[..e.pos]) == 0 ==>
      m == Describe(e.kind) + ": line 1 column " + NatToString(e.pos + 1) + " (char " + NatToString(e.pos) + ")"
  {
    var before := doc[..e.pos];
    var line := CountNewlines(before) + 1;
    var column := match LastNewline(before)
      case None => e.pos + 1
      case Some(nl) => e.pos - nl;
    Describe(e.kind) + ": line " + NatToString(line) + " column " + NatToString(column)
      + " (char " + NatToString(e.pos) + ")"
  }
}
