/** The two output parsers: `JSONOutputParser.parse`, which pulls a JSON
    value out of free model text (fence step, embedded step, decode, and in
    lenient mode one repaired re-decode), and `LangChainOutputParser.parse`,
    which turns whatever a LangChain parser returned into a dict. */
module OutputParser {
  import opened Results
  import opened Chars
  import opened JsonValue
  import opened JsonDecode
  import opened JsonFacts
  import opened Extract
  import opened Repair

  /** Which `ValueError` was raised: one of the parser's two, or the
      scanner's own, which neither `except json.JSONDecodeError` clause
      catches and which therefore leaves `parse` as it is. */
  datatype Mode = Strict | Lenient | Unwrapped

  /** A `ValueError` from `JSONOutputParser.parse`: the mode that raised it,
      the error it reports and the document that error is about. */
  datatype ParseFailure = ParseFailure(mode: Mode, cause: DecodeError, doc: string)

  /** `JSONOutputParser(strict).parse(text)`. The first decode uses
      `json.loads(text, strict=strict)`; the re-decode after the repair uses
      the default, which refuses raw control characters. An over-long
      integer ends the call from either decode, with no repair after it. */
  function Parse(text: string, strict: bool): (r: Result<Json, ParseFailure>)
    ensures r.Err? ==> r.error.cause.pos <= |r.error.doc|
    ensures r.Err? ==> (r.error.mode == Unwrapped <==> r.error.cause.kind.IntTooLong?)
    ensures r.Err? && r.error.mode != Unwrapped ==>
      r.error.mode == (if strict then Strict else Lenient) && r.error.doc == WorkingText(text)
    ensures r.Err? && r.error.mode == Unwrapped ==>
      r.error.doc == WorkingText(text) || (!strict && r.error.doc == RepairText(WorkingText(text)))
    ensures r.Err? && r.error.mode == Strict ==> Decode(WorkingText(text), false) == Err(r.error.cause)
    ensures r.Err? && r.error.mode == Unwrapped ==>
      (Decode(WorkingText(text), !strict) == Err(r.error.cause) && r.error.doc == WorkingText(text)) ||
      (!strict && Decode(WorkingText(text), true).Err? && !Decode(WorkingText(text), true).error.kind.IntTooLong? &&
       Decode(RepairText(WorkingText(text)), false) == Err(r.error.cause) && r.error.doc == RepairText(WorkingText(text)))
    ensures r.Err? && r.error.mode == Lenient ==> Decode(WorkingText(text), true) == Err(r.error.cause)
    ensures r.Ok? ==>
      Decode(WorkingText(text), !strict) == Ok(r.value) ||
      (!strict && Decode(WorkingText(text), true).Err? && Decode(RepairText(WorkingText(text)), false) == Ok(r.value))
  {
    var t := WorkingText(text);
    match Decode(t, !strict)
    case Ok(v) => Ok(v)
    case Err(e) =>
      if e.kind.IntTooLong? then Err(ParseFailure(Unwrapped, e, t))
      else if strict then Err(ParseFailure(Strict, e, t))
      else match Decode(RepairText(t), false)
        case Ok(v) => Ok(v)
        case Err(e') =>
          if e'.kind.IntTooLong? then Err(ParseFailure(Unwrapped, e', RepairText(t)))
          else Err(ParseFailure(Lenient, e, t))
  }

  const StrictPrefix: string := "Failed to parse JSON: "
  const LenientPrefix: string := "Failed to parse JSON output: "

  /** `str(ValueError)`: the mode's prefix, then `str(JSONDecodeError)`; an
      unwrapped error keeps its own text, with neither prefix nor position. */
  function Message(f: ParseFailure): (m: string)
    requires f.cause.pos <= |f.doc|
    ensures f.mode == Strict ==> |StrictPrefix| <= |m| && m[..|StrictPrefix|] == StrictPrefix
    ensures f.mode == Strict ==> m[|StrictPrefix|..] == Render(f.cause, f.doc)
    ensures f.mode == Lenient ==> |LenientPrefix| <= |m| && m[..|LenientPrefix|] == LenientPrefix
    ensures f.mode == Lenient ==> m[|LenientPrefix|..] == Render(f.cause, f.doc)
    ensures f.mode == Unwrapped ==> m == Describe(f.cause.kind)
  {
    match f.mode
    case Strict => StrictPrefix + Render(f.cause, f.doc)
    case Lenient => LenientPrefix + Render(f.cause, f.doc)
    case Unwrapped => Describe(f.cause.kind)
  }

  /** The two messages cannot be confused: a strict and a lenient failure
      never produce the same text. */
  lemma MessagesDiffer(f: ParseFailure, g: ParseFailure)
    requires f.cause.pos <= |f.doc| && g.cause.pos <= |g.doc|
    requires f.mode == Strict && g.mode == Lenient
    ensures Message(f) != Message(g)
  {
    var m, n := Message(f), Message(g);
    assert m[20] == StrictPrefix[20] == ':';
    assert n[20] == LenientPrefix[20] == ' ';
  }

  /** Whatever a strict parser returns, a lenient one returns too: a text
      that decodes strictly is never repaired, and allowing control
      characters does not change a value that had none. */
  lemma StrictImpliesLenient(text: string)
    requires Parse(text, true).Ok?
    ensures Parse(text, false) == Parse(text, true)
  {
    DecodeLax(WorkingText(text));
  }

  /** A strict parser fails exactly when the working text does not decode:
      no repair is tried. */
  lemma StrictNeverRepairs(text: string)
    ensures Parse(text, true).Ok? <==> Decode(WorkingText(text), false).Ok?
  {
  }

  /** A lenient parser fails with its own message only when both the first
      decode and the repaired re-decode fail, and it reports the FIRST
      decode's error. */
  lemma LenientReportsFirstError(text: string)
    requires Parse(text, false).Err? && Parse(text, false).error.mode == Lenient
    ensures Decode(WorkingText(text), true) == Err(Parse(text, false).error.cause)
    ensures Decode(RepairText(WorkingText(text)), false).Err?
  {
  }

  /** A lenient parser returns the first decode's value when there is one,
      and the repaired re-decode's value when the first decode failed with
      a `JSONDecodeError`. */
  lemma LenientSucceeds(text: string, v: Json)
    requires Decode(WorkingText(text), true) == Ok(v) ||
      (Decode(WorkingText(text), true).Err? && !Decode(WorkingText(text), true).error.kind.IntTooLong?
       && Decode(RepairText(WorkingText(text)), false) == Ok(v))
    ensures Parse(text, false) == Ok(v)
  {
  }

  /** An over-long integer in the working text ends the call in either
      mode: no repair is tried and the scanner's error leaves unwrapped. */
  lemma IntLimitSkipsRepair(text: string, strict: bool)
    requires Decode(WorkingText(text), !strict).Err?
    requires Decode(WorkingText(text), !strict).error.kind.IntTooLong?
    ensures Parse(text, strict) == Err(ParseFailure(Unwrapped, Decode(WorkingText(text), !strict).error, WorkingText(text)))
  {
  }

  /** An over-long integer met only by the re-decode after the repair also
      ends the call unwrapped, with the re-decode's own error about the
      repaired text. */
  lemma RepairLimitEscapes(text: string)
    requires Decode(WorkingText(text), true).Err?
    requires !Decode(WorkingText(text), true).error.kind.IntTooLong?
    requires Decode(RepairText(WorkingText(text)), false).Err?
    requires Decode(RepairText(WorkingText(text)), false).error.kind.IntTooLong?
    ensures Parse(text, false) == Err(ParseFailure(Unwrapped, Decode(RepairText(WorkingText(text)), false).error, RepairText(WorkingText(text))))
  {
  }

  /** No backtick and no bracket of either kind. */
  predicate Unbracketed(text: string) {
    forall k :: 0 <= k < |text| ==>
      text[k] != '`' && !IsOpener(text[k]) && text[k] != '}' && text[k] != ']'
  }

  /** Neither regex step touches an unbracketed text. */
  lemma UnbracketedKept(text: string)
    requires Unbracketed(text)
    ensures WorkingText(text) == text
  {
    NoTicksNoFence(text);
    EmbeddedNone(text);
  }

  /** Nor does the repair. */
  lemma UnbracketedNotRepaired(text: string)
    requires Unbracketed(text)
    ensures RepairText(text) == text
  {
    DropCommasAbsent(text, '}');
    DropCommasAbsent(text, ']');
  }

  /** An unbracketed text that is blank or starts with a character no JSON
      value starts with fails in both modes. */
  lemma ProseRefused(text: string, strict: bool)
    requires Unbracketed(text)
    requires var j := SkipWs(text, 0); j == |text| || !StartsValue(text[j])
    ensures Parse(text, strict).Err?
  {
    UnbracketedKept(text);
    UnbracketedNotRepaired(text);
    DecodeRefused(text, !strict);
    DecodeRefused(text, false);
  }

  /** Empty input fails in both modes. */
  lemma EmptyRefused(strict: bool)
    ensures Parse("", strict).Err?
  {
    ProseRefused("", strict);
  }

  /** Prose fails in both modes. */
  lemma SentenceRefused(text: string, strict: bool)
    requires text == "This is not JSON at all"
    ensures Parse(text, strict).Err?
    ensures Parse(text, true) == Err(ParseFailure(Strict, DecodeError(ExpectingValue, 0), text))
    ensures Parse(text, false) == Err(ParseFailure(Lenient, DecodeError(ExpectingValue, 0), text))
    ensures var m := Message(Parse(text, false).error);
      |LenientPrefix| <= |m| && m[..|LenientPrefix|] == LenientPrefix
  {
    assert SkipWs(text, 0) == 0 && text[0] == 'T';
    ProseRefused(text, strict);
    UnbracketedKept(text);
    UnbracketedNotRepaired(text);
    SentenceDecode(text, true);
    SentenceDecode(text, false);
  }

  /** The sentence is refused at its first character by either decode. */
  lemma SentenceDecode(text: string, lax: bool)
    requires text == "This is not JSON at all"
    ensures Decode(text, lax) == Err(DecodeError(ExpectingValue, 0))
  {
    assert SkipWs(text, 0) == 0 && text[0] == 'T';
    ValueRefused(text, 0, lax);
  }

  /** The text `{"k": "v"` of a dict with one string entry, up to its
      closing brace. */
  function EntryText(k: string, v: string): string {
    "{\"" + k + "\": \"" + v + "\""
  }

  /** A value that starts with a quote is the string that follows it. */
  lemma StringValue(s: string, i: nat, lax: bool)
    requires i < |s| && s[i] == '"'
    ensures ParseValue(s, i, lax) ==
      match ParseStringBody(s, i + 1, i, lax)
      case Ok(str) => Ok(Parsed(Str(str.v), str.next))
      case Err(e) => Err(e)
  {
  }

  /** The key of an entry reads back. */
  lemma EntryKey(k: string, v: string, tail: string, lax: bool)
    requires Readable(k, lax)
    ensures ParseStringBody(EntryText(k, v) + tail, 2, 1, lax) == Ok(Parsed(k, |k| + 3))
  {
    var s := EntryText(k, v) + tail;
    assert s[2..2 + |k|] == k;
    PlainString(s, 2, 1, lax, k);
  }

  /** The value of an entry reads back. */
  lemma EntryValue(k: string, v: string, tail: string, lax: bool)
    requires Readable(v, lax)
    ensures ParseValue(EntryText(k, v) + tail, |k| + 5, lax) == Ok(Parsed(Str(v), |k| + |v| + 7))
  {
    var s := EntryText(k, v) + tail;
    assert s[|k| + 6..|k| + 6 + |v|] == v;
    PlainString(s, |k| + 6, |k| + 5, lax, v);
    StringValue(s, |k| + 5, lax);
  }

  /** Where the whitespace skips inside an entry stop. */
  lemma EntrySpaces(k: string, v: string, tail: string)
    requires |tail| > 0 && !IsJsonSpace(tail[0])
    ensures var s := EntryText(k, v) + tail;
      s[1] == '"' && SkipWs(s, 1) == 1 &&
      SkipWs(s, |k| + 3) == |k| + 3 && s[|k| + 3] == ':' &&
      SkipWs(s, |k| + 4) == |k| + 5 &&
      SkipWs(s, |k| + |v| + 7) == |k| + |v| + 7 && s[|k| + |v| + 7] == tail[0]
  {
    var s := EntryText(k, v) + tail;
    assert s[|k| + 4] == ' ' && s[|k| + 5] == '"';
  }

  /** Past the key of an entry comes the rest of its pair. */
  lemma EntryKeyRead(k: string, v: string, tail: string, lax: bool)
    requires Readable(k, lax)
    requires |tail| > 0 && !IsJsonSpace(tail[0])
    ensures ParseMembers(EntryText(k, v) + tail, 1, lax) == MemberValue(EntryText(k, v) + tail, |k| + 3, k, lax)
  {
    EntryKey(k, v, tail, lax);
    EntrySpaces(k, v, tail);
  }

  /** Past the value of an entry, once it reads back, comes what follows
      the pair. */
  lemma EntryValueRead(k: string, v: string, tail: string, lax: bool)
    requires |tail| > 0 && !IsJsonSpace(tail[0])
    requires ParseValue(EntryText(k, v) + tail, |k| + 5, lax) == Ok(Parsed(Str(v), |k| + |v| + 7))
    ensures var s := EntryText(k, v) + tail;
      MemberValue(s, |k| + 3, k, lax) == MembersNext(s, |k| + |v| + 7, Member(k, Str(v)), lax)
  {
    var s := EntryText(k, v) + tail;
    EntrySpaces(k, v, tail);
    MemberValueIs(s, |k| + 3, k, lax, Str(v), |k| + |v| + 7);
  }

  /** `{"k": "v"}` holds exactly one pair. */
  lemma OneEntryMembers(k: string, v: string, lax: bool)
    requires Readable(k, lax) && Readable(v, lax)
    ensures ParseMembers(EntryText(k, v) + "}", 1, lax) == Ok(Parsed([Member(k, Str(v))], |k| + |v| + 8))
  {
    EntryKeyRead(k, v, "}", lax);
    EntryValue(k, v, "}", lax);
    EntryValueRead(k, v, "}", lax);
    EntrySpaces(k, v, "}");
  }

  /** `{"k": "v",}` has no property name after its comma. */
  lemma TrailingEntryMembers(k: string, v: string, lax: bool)
    requires Readable(k, lax) && Readable(v, lax)
    ensures ParseMembers(EntryText(k, v) + ",}", 1, lax) == Err(DecodeError(ExpectingPropertyName, |k| + |v| + 8))
  {
    var s := EntryText(k, v) + ",}";
    var n := |k| + |v| + 7;
    EntryKeyRead(k, v, ",}", lax);
    EntryValue(k, v, ",}", lax);
    EntryValueRead(k, v, ",}", lax);
    EntrySpaces(k, v, ",}");
    assert s[n + 1] == '}' && SkipWs(s, n + 1) == n + 1;
  }

  /** `{"k": "v"}` reads back as its object. */
  lemma OneEntryObject(k: string, v: string, lax: bool)
    requires Readable(k, lax) && Readable(v, lax)
    ensures ParseObject(EntryText(k, v) + "}", 1, lax) == Ok(Parsed(Obj([Member(k, Str(v))]), |k| + |v| + 8))
  {
    var s := EntryText(k, v) + "}";
    var m := Member(k, Str(v));
    OneEntryMembers(k, v, lax);
    EntrySpaces(k, v, "}");
    FromPairsDistinct([m]);
    var pairs := ParseMembers(s, 1, lax);
    assert pairs.value.v == [m];
  }

  /** `{"k": "v"}` decodes, in either mode, to the dict it spells. */
  lemma OneEntryDecodes(k: string, v: string, lax: bool)
    requires Readable(k, lax) && Readable(v, lax)
    ensures Decode(EntryText(k, v) + "}", lax) == Ok(Obj([Member(k, Str(v))]))
  {
    var s := EntryText(k, v) + "}";
    OneEntryObject(k, v, lax);
    assert s[0] == '{' && SkipWs(s, 0) == 0;
  }

  /** `{"k": "v",}` does not decode, in either mode: a property name is
      expected where the `}` stands. */
  lemma TrailingEntryRefused(k: string, v: string, lax: bool)
    requires Readable(k, lax) && Readable(v, lax)
    ensures Decode(EntryText(k, v) + ",}", lax) == Err(DecodeError(ExpectingPropertyName, |k| + |v| + 8))
  {
    var s := EntryText(k, v) + ",}";
    TrailingEntryMembers(k, v, lax);
    EntrySpaces(k, v, ",}");
    assert ParseObject(s, 1, lax) == Err(DecodeError(ExpectingPropertyName, |k| + |v| + 8));
    assert s[0] == '{' && SkipWs(s, 0) == 0;
    assert ParseValue(s, 0, lax) == ParseObject(s, 1, lax);
  }

  /** Neither a comma nor a backtick. */
  predicate Plain(w: string) {
    forall i :: 0 <= i < |w| ==> w[i] != ',' && w[i] != '`'
  }

  /** An entry text with plain key and value has no comma or backtick. */
  lemma EntryPlain(k: string, v: string)
    requires Plain(k) && Plain(v)
    ensures Plain(EntryText(k, v))
  {
    var p := EntryText(k, v);
    forall i | 0 <= i < |p|
      ensures p[i] != ',' && p[i] != '`'
    {
      if 2 <= i < 2 + |k| {
        assert p[i] == k[i - 2];
      } else if |k| + 6 <= i < |k| + 6 + |v| {
        assert p[i] == v[i - |k| - 6];
      }
    }
  }

  /** Neither regex step touches `{"k": "v",}`. */
  lemma TrailingEntryKept(k: string, v: string)
    requires Plain(k) && Plain(v)
    ensures WorkingText(EntryText(k, v) + ",}") == EntryText(k, v) + ",}"
  {
    var t := EntryText(k, v) + ",}";
    EntryPlain(k, v);
    assert forall i :: 0 <= i < |t| ==> t[i] != '`';
    NoTicksNoFence(t);
    assert t[0] == '{' && SkipPySpace(t, 0) == 0;
  }

  /** The repair turns `{"k": "v",}` into `{"k": "v"}`. */
  lemma TrailingEntryRepaired(k: string, v: string)
    requires Plain(k) && Plain(v)
    ensures RepairText(EntryText(k, v) + ",}") == EntryText(k, v) + "}"
  {
    var p := EntryText(k, v);
    EntryPlain(k, v);
    CommaBeforeClose(p, "", '}');
    assert p + [',', '}'] + "" == p + ",}";
    assert p + ['}'] + DropCommas("", '}') == p + "}";
    DropCommasPrefix(p + "}", ']', |p| + 1);
    assert (p + "}")[..|p| + 1] == p + "}";
  }

  /** A dict with a trailing comma fails in strict mode, where no repair is
      tried, and yields the dict in lenient mode. */
  lemma TrailingCommaByMode(k: string, v: string)
    requires Unescaped(k) && Unescaped(v) && Plain(k) && Plain(v)
    ensures Parse(EntryText(k, v) + ",}", true).Err?
    ensures Parse(EntryText(k, v) + ",}", false) == Ok(Obj([Member(k, Str(v))]))
  {
    TrailingEntryKept(k, v);
    TrailingEntryRefused(k, v, false);
    TrailingEntryRefused(k, v, true);
    TrailingEntryRepaired(k, v);
    OneEntryDecodes(k, v, false);
  }

  /** `{"key": "value",}`: an error when strict, `{"key": "value"}` when
      lenient. */
  lemma TrailingCommaExample(text: string)
    requires text == "{\"key\": \"value\",}"
    ensures Parse(text, true).Err?
    ensures Parse(text, false) == Ok(Obj([Member("key", Str("value"))]))
  {
    assert text == EntryText("key", "value") + ",}";
    TrailingCommaByMode("key", "value");
  }

  /** A strict read of an entry's value stops at a raw control
      character. */
  lemma EntryValueControl(k: string, v: string, tail: string, j: nat)
    requires j < |v| && v[j] < ' ' && Unescaped(v[..j])
    ensures ParseStringBody(EntryText(k, v) + tail, |k| + 6, |k| + 5, false) ==
      Err(DecodeError(InvalidControlCharacter, |k| + 6 + j))
  {
    var s := EntryText(k, v) + tail;
    var w := v[..j];
    assert |w| == j;
    assert s[|k| + 6..|k| + 6 + j] == w;
    assert s[|k| + 6 + j] == v[j];
    ControlStops(s, |k| + 6, |k| + 5, w);
  }

  /** A raw control character at `j` in the value of `{"k": "v"}` stops a
      strict read there. */
  lemma EntryControlRefused(k: string, v: string, j: nat)
    requires Unescaped(k) && j < |v| && v[j] < ' ' && Unescaped(v[..j])
    ensures Decode(EntryText(k, v) + "}", false) == Err(DecodeError(InvalidControlCharacter, |k| + 6 + j))
  {
    var s := EntryText(k, v) + "}";
    var e := DecodeError(InvalidControlCharacter, |k| + 6 + j);
    EntryKeyRead(k, v, "}", false);
    EntrySpaces(k, v, "}");
    EntryValueControl(k, v, "}", j);
    StringValue(s, |k| + 5, false);
    MemberValueFails(s, |k| + 3, k, false);
    assert ParseObject(s, 1, false) == Err(e);
    assert s[0] == '{' && SkipWs(s, 0) == 0;
    assert ParseValue(s, 0, false) == ParseObject(s, 1, false);
  }

  /** The re-decode after the repair is strict about control characters
      even in lenient mode: `{"k": "v",}` with a raw control character in
      `v` is read by the first, lax decode up to its trailing comma, loses
      the comma to the repair, and is then refused; the error reported is
      the first decode's. */
  lemma ControlCharAfterRepair(k: string, v: string, j: nat)
    requires Unescaped(k) && Plain(k) && Plain(v) && Unquoted(v)
    requires j < |v| && v[j] < ' ' && Unescaped(v[..j])
    ensures Decode(EntryText(k, v) + "}", true) == Ok(Obj([Member(k, Str(v))]))
    ensures Parse(EntryText(k, v) + ",}", false) ==
      Err(ParseFailure(Lenient, DecodeError(ExpectingPropertyName, |k| + |v| + 8), EntryText(k, v) + ",}"))
  {
    TrailingEntryKept(k, v);
    TrailingEntryRefused(k, v, true);
    TrailingEntryRepaired(k, v);
    EntryControlRefused(k, v, j);
    OneEntryDecodes(k, v, true);
  }

  /** An integer of more than `MaxIntDigits` digits is refused in both
      modes with the `ValueError` of `int()`, which neither `except` clause
      catches: no repair is tried and the message is not prefixed. */
  lemma LongIntegerEscapes(ds: string, strict: bool)
    requires AllDigits(ds) && |ds| > MaxIntDigits && ds[0] != '0'
    ensures Parse(ds, strict) == Err(ParseFailure(Unwrapped, DecodeError(IntTooLong(|ds|), 0), ds))
    ensures Message(Parse(ds, strict).error) == Describe(IntTooLong(|ds|))
  {
    assert Unbracketed(ds);
    UnbracketedKept(ds);
    DigitsDecode(ds, !strict);
    IntLimitSkipsRepair(ds, strict);
  }

  /** `json.loads(json.dumps({"a": "```[1]```"}))` is the dict, but the
      parser returns `[1]`: the fence step finds the fence inside the
      string value. */
  lemma FenceInsideString(text: string, strict: bool)
    requires text == EntryText("a", "```[1]```") + "}"
    ensures Decode(text, !strict) == Ok(Obj([Member("a", Str("```[1]```"))]))
    ensures Parse(text, strict) == Ok(Arr([Int(1)]))
  {
    assert Unescaped("a") && Unescaped("```[1]```");
    OneEntryDecodes("a", "```[1]```", !strict);
    FenceEntryText(text);
    FenceInString(text);
    DecodeOne("[1]", !strict);
  }

  lemma FenceEntryText(text: string)
    requires text == EntryText("a", "```[1]```") + "}"
    ensures text == "{\"a\": \"```[1]```\"}"
  {
  }

  /** Neither regex step nor the repair touches `  [1] tail`. */
  lemma LeadingBracketKept(text: string)
    requires text == "  [1] tail"
    ensures WorkingText(text) == text && RepairText(text) == text
  {
    assert text[0] == ' ' && text[1] == ' ' && text[2] == '[';
    assert SkipPySpace(text, 2) == 2 && SkipPySpace(text, 1) == 2 && SkipPySpace(text, 0) == 2;
    BracketedKept(text);
    DropCommasPrefix(text, '}', |text|);
    DropCommasPrefix(text, ']', |text|);
    assert text[..|text|] == text && text[|text|..] == [];
    assert DropCommas(text, '}') == text;
  }

  /** `  [1] tail` is read up to its list and then refused for the prose
      after it. */
  lemma LeadingBracketDecode(text: string, lax: bool)
    requires text == "  [1] tail"
    ensures Decode(text, lax) == Err(DecodeError(ExtraData, 6))
  {
    assert text[0] == ' ' && text[1] == ' ' && text[2] == '[';
    assert SkipWs(text, 2) == 2 && SkipWs(text, 1) == 2 && SkipWs(text, 0) == 2;
    assert text[3] == '1' && text[4] == ']';
    ArrayOfOne(text, 2, lax);
    assert text[5] == ' ' && text[6] == 't';
    assert SkipWs(text, 5) == 6;
  }

  /** A text that starts with a bracket after some whitespace is decoded
      as it is: `  [1] tail` is not cut down to `[1]` and fails on its
      trailing prose in both modes. */
  lemma LeadingBracketRefused(text: string, strict: bool)
    requires text == "  [1] tail"
    ensures WorkingText(text) == text
    ensures Parse(text, strict) ==
      Err(ParseFailure(if strict then Strict else Lenient, DecodeError(ExtraData, 6), text))
  {
    LeadingBracketKept(text);
    LeadingBracketDecode(text, !strict);
    LeadingBracketDecode(text, false);
  }

  /** What a LangChain parser's `parse` can return, by the attributes
      `LangChainOutputParser.parse` tests. */
  datatype ParserOutput =
    | Dict(entries: seq<Member>)
      /** An object with a `dict()` method returning `converted`, and
          possibly a `__dict__` of its own. */
    | HasDictMethod(converted: seq<Member>, attributes: Option<seq<Member>>)
      /** An object without `dict()` whose `__dict__` is `fields`. */
    | HasFields(fields: seq<Member>)
      /** Anything else: a number, a string, a list, `None`. */
    | Scalar(value: Json)

  /** The dict `LangChainOutputParser.parse` makes of a parser's result. */
  function Normalise(out: ParserOutput): (d: seq<Member>)
    ensures out.Dict? ==> d == out.entries
    ensures out.HasDictMethod? ==> d == out.converted
    ensures out.HasFields? ==> d == out.fields
    ensures out.Scalar? ==> |d| == 1 && Lookup(d, "result") == Some(out.value)
  {
    match out
    case Dict(entries) => entries
    case HasDictMethod(converted, _) => converted
    case HasFields(fields) => fields
    case Scalar(value) => [Member("result", value)]
  }

  /** `LangChainOutputParser(parser).parse(text)`, with the wrapped
      parser's `parse` as a function that may raise. */
  function LangChainParse(parse: string -> Result<ParserOutput, string>, text: string): (r: Result<seq<Member>, string>)
    ensures parse(text).Err? <==> r.Err?
    ensures parse(text).Err? ==> r.error == parse(text).error
    ensures r.Ok? ==> r.value == Normalise(parse(text).value)
  {
    var out :- parse(text);
    Ok(Normalise(out))
  }

  /** A dict comes back unchanged, so normalising is idempotent: what it
      returns is a dict and is returned as it is. */
  lemma NormaliseIdempotent(out: ParserOutput)
    ensures Normalise(Dict(Normalise(out))) == Normalise(out)
  {
  }

  /** An object with a `dict()` method is converted by it, whatever its
      fields are. */
  lemma DictMethodWins(converted: seq<Member>, fields: seq<Member>)
    ensures Normalise(HasDictMethod(converted, Some(fields))) == converted
    ensures Normalise(HasDictMethod(converted, None)) == converted
  {
  }
}
