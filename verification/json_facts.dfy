/** Facts about the decoder as a whole: what its `lax` switch changes, and
    which texts it refuses outright. */
module JsonFacts {
  import opened Results
  import opened Chars
  import opened JsonValue
  import opened JsonDecode

  /** A string body read with control characters refused is read the same
      way when they are allowed. */
  lemma {:induction false} StringLax(s: string, i: nat, begin: nat)
    requires begin < i <= |s|
    requires ParseStringBody(s, i, begin, false).Ok?
    ensures ParseStringBody(s, i, begin, true) == ParseStringBody(s, i, begin, false)
    decreases |s| - i
  {
    if s[i] == '\\' {
      var esc := ParseEscape(s, i + 1, begin);
      StringLax(s, esc.value.next, begin);
    } else if s[i] != '"' {
      StringLax(s, i + 1, begin);
    }
  }

  /** A value read strictly is read the same way laxly. */
  lemma {:induction false} ValueLax(s: string, i: nat)
    requires i <= |s|
    requires ParseValue(s, i, false).Ok?
    ensures ParseValue(s, i, true) == ParseValue(s, i, false)
    decreases |s| - i, 0
  {
    if s[i] == '"' {
      StringLax(s, i + 1, i);
    } else if s[i] == '{' {
      ObjectLax(s, i + 1);
    } else if s[i] == '[' {
      ArrayLax(s, i + 1);
    }
  }

  /** An array read strictly is read the same way laxly. */
  lemma {:induction false} ArrayLax(s: string, i: nat)
    requires 0 < i <= |s|
    requires ParseArray(s, i, false).Ok?
    ensures ParseArray(s, i, true) == ParseArray(s, i, false)
    decreases |s| - i, 2
  {
    var j := SkipWs(s, i);
    if !(j < |s| && s[j] == ']') {
      ItemsLax(s, j);
    }
  }

  /** Array elements read strictly are read the same way laxly. */
  lemma {:induction false} ItemsLax(s: string, i: nat)
    requires i <= |s|
    requires ParseItems(s, i, false).Ok?
    ensures ParseItems(s, i, true) == ParseItems(s, i, false)
    decreases |s| - i, 1
  {
    ValueLax(s, i);
    var item := ParseValue(s, i, false).value;
    ItemsNextLax(s, SkipWs(s, item.next), item.v);
  }

  /** The rest of an array read strictly is read the same way laxly. */
  lemma {:induction false} ItemsNextLax(s: string, k: nat, item: Json)
    requires k <= |s|
    requires ItemsNext(s, k, item, false).Ok?
    ensures ItemsNext(s, k, item, true) == ItemsNext(s, k, item, false)
    decreases |s| - k, 0
  {
    if s[k] != ']' {
      ItemsLax(s, SkipWs(s, k + 1));
    }
  }

  /** An object read strictly is read the same way laxly. */
  lemma {:induction false} ObjectLax(s: string, i: nat)
    requires 0 < i <= |s|
    requires ParseObject(s, i, false).Ok?
    ensures ParseObject(s, i, true) == ParseObject(s, i, false)
    decreases |s| - i, 2
  {
    var j := SkipWs(s, i);
    if !(j < |s| && s[j] == '}') {
      MembersLax(s, j);
    }
  }

  /** Object members read strictly are read the same way laxly. */
  lemma {:induction false} MembersLax(s: string, i: nat)
    requires i <= |s|
    requires ParseMembers(s, i, false).Ok?
    ensures ParseMembers(s, i, true) == ParseMembers(s, i, false)
    decreases |s| - i, 1
  {
    StringLax(s, i + 1, i);
    var key := ParseStringBody(s, i + 1, i, false).value;
    MemberValueLax(s, SkipWs(s, key.next), key.v);
  }

  /** The rest of a pair read strictly is read the same way laxly. */
  lemma {:induction false} MemberValueLax(s: string, j: nat, key: string)
    requires j <= |s|
    requires MemberValue(s, j, key, false).Ok?
    ensures MemberValue(s, j, key, true) == MemberValue(s, j, key, false)
    decreases |s| - j, 1
  {
    ValueLax(s, SkipWs(s, j + 1));
    var val := ParseValue(s, SkipWs(s, j + 1), false).value;
    MembersNextLax(s, SkipWs(s, val.next), Member(key, val.v));
  }

  /** The rest of an object read strictly is read the same way laxly. */
  lemma {:induction false} MembersNextLax(s: string, k: nat, member: Member)
    requires k <= |s|
    requires MembersNext(s, k, member, false).Ok?
    ensures MembersNext(s, k, member, true) == MembersNext(s, k, member, false)
    decreases |s| - k, 0
  {
    if s[k] != '}' {
      MembersLax(s, SkipWs(s, k + 1));
    }
  }

  /** A pair whose colon is at `j` and whose value reads as `v` up to `n`,
      where no whitespace follows, goes on with what follows the value. */
  lemma MemberValueIs(s: string, j: nat, key: string, lax: bool, v: Json, n: nat)
    requires j < |s| && s[j] == ':'
    requires ParseValue(s, SkipWs(s, j + 1), lax) == Ok(Parsed(v, n))
    requires n <= |s| && SkipWs(s, n) == n
    ensures MemberValue(s, j, key, lax) == MembersNext(s, n, Member(key, v), lax)
  {
  }

  /** `json.loads(s, strict=True)` succeeding means `json.loads(s,
      strict=False)` returns the same value. */
  lemma DecodeLax(s: string)
    requires Decode(s, false).Ok?
    ensures Decode(s, true) == Decode(s, false)
  {
    ValueLax(s, SkipWs(s, 0));
  }

  /** A character that can begin a value `scan_once` reads: a quote, a
      bracket, a minus sign, a digit, or the first letter of a name it
      knows. */
  predicate StartsValue(c: char) {
    c == '"' || c == '{' || c == '[' || c == '-' || IsDigit(c)
    || c == 'n' || c == 't' || c == 'f' || c == 'N' || c == 'I'
  }

  /** No name in `lits` occurs at `i`. */
  lemma {:induction false} MatchNone(s: string, i: nat, lits: seq<Literal>)
    requires forall k :: 0 <= k < |lits| ==> |lits[k].word| > 0 && !HasAt(s, i, lits[k].word)
    ensures MatchLiteral(s, i, lits) == None
  {
    if |lits| > 0 {
      MatchNone(s, i, lits[1..]);
    }
  }

  /** A character that cannot begin a value is "Expecting value" right
      there. */
  lemma ValueRefused(s: string, i: nat, lax: bool)
    requires i < |s| && !StartsValue(s[i])
    ensures ParseValue(s, i, lax) == Err(DecodeError(ExpectingValue, i))
  {
    var lits := Literals;
    forall k | 0 <= k < |lits|
      ensures |lits[k].word| > 0 && !HasAt(s, i, lits[k].word)
    {
      assert lits[k].word[0] != s[i];
    }
    MatchNone(s, i, lits);
  }

  /** `json.loads` refuses a text that is only whitespace, or whose first
      non-whitespace character cannot begin a value. */
  lemma DecodeRefused(s: string, lax: bool)
    requires var j := SkipWs(s, 0); j == |s| || !StartsValue(s[j])
    ensures Decode(s, lax).Err?
  {
    var j := SkipWs(s, 0);
    if j < |s| && !(|s| > 0 && s[0] == '\U{FEFF}') {
      ValueRefused(s, j, lax);
    }
  }

  /** No quote and no backslash: nothing that ends a string literal or
      starts an escape. */
  predicate Unquoted(w: string) {
    forall k :: 0 <= k < |w| ==> w[k] != '"' && w[k] != '\\'
  }

  /** No raw control character. */
  predicate NoControl(w: string) {
    forall k :: 0 <= k < |w| ==> w[k] >= ' '
  }

  /** Characters a string literal can hold as they are, without an escape,
      when the scanner is `lax` about control characters or not. */
  predicate Readable(w: string, lax: bool) {
    Unquoted(w) && (lax || NoControl(w))
  }

  /** Characters a string literal can hold as they are in either mode. */
  predicate Unescaped(w: string) {
    Unquoted(w) && NoControl(w)
  }

  /** A string body of readable characters reads back as itself. */
  lemma {:induction false} PlainString(s: string, i: nat, begin: nat, lax: bool, w: string)
    requires begin < i && i + |w| < |s| && s[i..i + |w|] == w && s[i + |w|] == '"'
    requires Readable(w, lax)
    ensures ParseStringBody(s, i, begin, lax) == Ok(Parsed(w, i + |w| + 1))
    decreases |w|
  {
    if |w| > 0 {
      assert s[i] == w[0];
      assert s[i + 1..i + 1 + |w[1..]|] == w[1..];
      PlainString(s, i + 1, begin, lax, w[1..]);
      assert s[i] != '"' && s[i] != '\\' && (lax || s[i] >= ' ');
      assert [w[0]] + w[1..] == w;
    } else {
      assert s[i] == '"';
    }
  }

  /** Without `lax`, a string body stops at its first raw control character,
      here just after the unescaped run `w`. */
  lemma {:induction false} ControlStops(s: string, i: nat, begin: nat, w: string)
    requires begin < i && i + |w| < |s| && s[i..i + |w|] == w && s[i + |w|] < ' '
    requires Unescaped(w)
    ensures ParseStringBody(s, i, begin, false) == Err(DecodeError(InvalidControlCharacter, i + |w|))
    decreases |w|
  {
    if |w| > 0 {
      assert s[i] == w[0];
      assert s[i + 1..i + 1 + |w[1..]|] == w[1..];
      ControlStops(s, i + 1, begin, w[1..]);
    }
  }

  /** A run of digits up to the end of the text is read to its end. */
  lemma {:induction false} DigitsEndAll(s: string, i: nat)
    requires i <= |s|
    requires forall k :: i <= k < |s| ==> IsDigit(s[k])
    ensures DigitsEnd(s, i) == |s|
    decreases |s| - i
  {
    if i < |s| {
      DigitsEndAll(s, i + 1);
    }
  }

  /** A value starting with a digit is a number. */
  lemma DigitValueIsNumber(s: string, i: nat, lax: bool)
    requires i < |s| && IsDigit(s[i])
    ensures ParseValue(s, i, lax) == ParseNumber(s, i)
  {
    var lits := Literals;
    forall k | 0 <= k < |lits|
      ensures |lits[k].word| > 0 && !HasAt(s, i, lits[k].word)
    {
      assert lits[k].word[0] != s[i];
    }
    MatchNone(s, i, lits);
  }

  /** A numeral without a leading zero is read whole, as one integer
      lexeme. */
  lemma NumeralWhole(ds: string)
    requires |ds| > 0 && AllDigits(ds) && (ds[0] != '0' || |ds| == 1)
    ensures ParseNumber(ds, 0) == NumberTail(ds, 0, 0, |ds|)
  {
    DigitsEndAll(ds, 1);
  }

  /** An integer lexeme that ends the text is converted by `int()`. */
  lemma NumeralTail(ds: string)
    requires |ds| > 0 && AllDigits(ds)
    ensures NumberTail(ds, 0, 0, |ds|) ==
      if |ds| > MaxIntDigits then Err(DecodeError(IntTooLong(|ds|), 0))
      else Ok(Parsed(Int(DigitsValue(ds)), |ds|))
  {
    assert ds[0..|ds|] == ds;
  }

  /** A text that starts with its value decodes to what that value reads as,
      when it runs to the end, and fails with its error when it fails. */
  lemma DecodeFromStart(s: string, lax: bool)
    requires |s| > 0 && s[0] != '\U{FEFF}' && !IsJsonSpace(s[0])
    ensures ParseValue(s, 0, lax).Err? ==> Decode(s, lax) == Err(ParseValue(s, 0, lax).error)
    ensures ParseValue(s, 0, lax).Ok? && ParseValue(s, 0, lax).value.next == |s| ==>
      Decode(s, lax) == Ok(ParseValue(s, 0, lax).value.v)
  {
    assert SkipWs(s, 0) == 0;
  }

  /** A decimal numeral without a leading zero decodes to its value when
      `int()` accepts its length, and to `int()`'s error otherwise. */
  lemma DigitsDecode(ds: string, lax: bool)
    requires |ds| > 0 && AllDigits(ds) && (ds[0] != '0' || |ds| == 1)
    ensures |ds| <= MaxIntDigits ==> Decode(ds, lax) == Ok(Int(DigitsValue(ds)))
    ensures |ds| > MaxIntDigits ==> Decode(ds, lax) == Err(DecodeError(IntTooLong(|ds|), 0))
  {
    DecodeFromStart(ds, lax);
    DigitValueIsNumber(ds, 0, lax);
    NumeralWhole(ds);
    NumeralTail(ds);
  }

  /** `json.loads(str(n)) == n` for every natural number `int()` accepts. */
  lemma NatRoundTrip(n: nat, lax: bool)
    requires |NatToString(n)| <= MaxIntDigits
    ensures Decode(NatToString(n), lax) == Ok(Int(n))
  {
    DigitsDecode(NatToString(n), lax);
  }

  /** `json.loads(json.dumps(w)) == w` for a string `json.dumps` writes
      without escapes: it only adds the quotes. */
  lemma StringRoundTrip(w: string, lax: bool)
    requires Unescaped(w)
    ensures Decode("\"" + w + "\"", lax) == Ok(Str(w))
  {
    var s := "\"" + w + "\"";
    assert s[1..1 + |w|] == w;
    PlainString(s, 1, 0, lax, w);
    assert SkipWs(s, 0) == 0;
  }
  /** A pair whose value fails fails with the value's error. */
  lemma MemberValueFails(s: string, j: nat, key: string, lax: bool)
    requires j < |s| && s[j] == ':'
    requires ParseValue(s, SkipWs(s, j + 1), lax).Err?
    ensures MemberValue(s, j, key, lax) == Err(ParseValue(s, SkipWs(s, j + 1), lax).error)
  {
  }

  /** `[1]` at `i` reads as the one-element list. */
  lemma ArrayOfOne(s: string, i: nat, lax: bool)
    requires i + 3 <= |s| && s[i] == '[' && s[i + 1] == '1' && s[i + 2] == ']'
    ensures ParseValue(s, i, lax) == Ok(Parsed(Arr([Int(1)]), i + 3))
  {
    OneItem(s, i + 1, lax);
    assert SkipWs(s, i + 1) == i + 1;
    assert ParseArray(s, i + 1, lax) == Ok(Parsed(Arr([Int(1)]), i + 3));
  }

  /** The items `1]` of an array. */
  lemma OneItem(s: string, i: nat, lax: bool)
    requires i + 2 <= |s| && s[i] == '1' && s[i + 1] == ']'
    ensures ParseItems(s, i, lax) == Ok(Parsed([Int(1)], i + 2))
  {
    OneValue(s, i, lax);
    assert SkipWs(s, i + 1) == i + 1;
    assert ItemsNext(s, i + 1, Int(1), lax) == Ok(Parsed([Int(1)], i + 2));
  }

  /** The digit `1` followed by a non-digit is the number one. */
  lemma OneValue(s: string, i: nat, lax: bool)
    requires i + 2 <= |s| && s[i] == '1' && s[i + 1] == ']'
    ensures ParseValue(s, i, lax) == Ok(Parsed(Int(1), i + 1))
  {
    DigitValueIsNumber(s, i, lax);
    assert s[i..i + 1] == "1";
    assert DigitsValue("1") == 1;
    assert ParseNumber(s, i) == Ok(Parsed(Int(1), i + 1));
  }


  /** `[1]` decodes to the one-element list. */
  lemma DecodeOne(s: string, lax: bool)
    requires s == "[1]"
    ensures Decode(s, lax) == Ok(Arr([Int(1)]))
  {
    assert s[0] == '[' && s[1] == '1' && s[2] == ']';
    ArrayOfOne(s, 0, lax);
    DecodeFromStart(s, lax);
  }
}
