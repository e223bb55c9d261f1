/** The two regular-expression steps `JSONOutputParser.parse` runs before
    decoding: a fenced block ```` ```json … ``` ```` is cut out of the text,
    and otherwise the bracketed part of a text that does not start with a
    bracket is. Each regex search is written out as the match the
    backtracking engine finds first. */
module Extract {
  import opened Results
  import opened Chars

  /** A bracket that opens a JSON object or array. */
  predicate IsOpener(c: char) {
    c == '{' || c == '['
  }

  /** The bracket that closes what `c` opens. */
  function Closer(c: char): (r: char)
    requires IsOpener(c)
    ensures r == '}' || r == ']'
  {
    if c == '{' then '}' else ']'
  }

  /** `t` runs from an opening bracket to the closer of the same kind. */
  predicate Bracketed(t: string) {
    |t| >= 2 && IsOpener(t[0]) && t[|t| - 1] == Closer(t[0])
  }

  /** The slice `s[lo..hi]` of a text. */
  datatype Span = Span(lo: nat, hi: nat)

  /** The three backticks that open and close a fence. */
  const Ticks: string := "```"

  /** Where the body of a fence opening at `p` has to start: past the
      backticks, an optional `json` label and greedy whitespace. (Only the
      longest whitespace run can be followed by a bracket, and dropping the
      label leaves a `j` where the bracket should be.) */
  function BodyStart(s: string, p: nat): (b: nat)
    requires p + |Ticks| <= |s|
    ensures p + |Ticks| <= b <= |s|
  {
    SkipPySpace(s, if HasAt(s, p + 3, "json") then p + 7 else p + 3)
  }

  /** `s[e]` is the bracket `close` and, after optional whitespace, three
      backticks follow it: the fence can end here. */
  predicate ClosesFence(s: string, e: nat, close: char) {
    e < |s| && s[e] == close && HasAt(s, SkipPySpace(s, e + 1), Ticks)
  }

  /** The lazy `.*?`: the first index at or after `from` where the fence can
      end. */
  function FirstClose(s: string, from: nat, close: char): (r: Option<nat>)
    requires from <= |s|
    ensures r.Some? ==> from <= r.value && ClosesFence(s, r.value, close)
    ensures forall m :: from <= m < (if r.Some? then r.value else |s|) ==> !ClosesFence(s, m, close)
    decreases |s| - from
  {
    if from == |s| then None
    else if ClosesFence(s, from, close) then Some(from)
    else FirstClose(s, from + 1, close)
  }

  /** The body the fence pattern captures when its match starts exactly at
      `p`: a bracket at `BodyStart(s, p)` up to the first matching closer
      that is followed by the closing fence. */
  function FenceAt(s: string, p: nat): (r: Option<Span>)
    ensures r.Some? ==> HasAt(s, p, Ticks) && r.value.lo == BodyStart(s, p)
    ensures r.Some? ==> r.value.lo < r.value.hi <= |s| && IsOpener(s[r.value.lo])
    ensures r.Some? ==> ClosesFence(s, r.value.hi - 1, Closer(s[r.value.lo]))
    ensures r.Some? ==> forall m :: r.value.lo < m < r.value.hi - 1 ==> !ClosesFence(s, m, Closer(s[r.value.lo]))
  {
    if HasAt(s, p, Ticks) then
      var b := BodyStart(s, p);
      if b < |s| && IsOpener(s[b]) then
        match FirstClose(s, b + 1, Closer(s[b]))
        case Some(e) => Some(Span(b, e + 1))
        case None => None
      else None
    else None
  }

  /** `re.search` of the fence pattern from `p`: the leftmost start where
      the pattern matches. */
  function FindFence(s: string, p: nat): (r: Option<nat>)
    requires p <= |s|
    ensures r.Some? ==> p <= r.value < |s| && FenceAt(s, r.value).Some?
    ensures forall q :: p <= q < (if r.Some? then r.value else |s|) ==> FenceAt(s, q).None?
    decreases |s| - p
  {
    if p == |s| then None
    else if FenceAt(s, p).Some? then Some(p)
    else FindFence(s, p + 1)
  }

  /** The text after the fence step: the captured body when the pattern
      matches, the text itself otherwise. */
  function Fenced(text: string): (r: string)
    ensures FindFence(text, 0).None? ==> r == text
    ensures FindFence(text, 0).Some? ==> Bracketed(r) && |r| + |Ticks| <= |text|
  {
    match FindFence(text, 0)
    case Some(p) =>
      var body := FenceAt(text, p).value;
      text[body.lo..body.hi]
    case None => text
  }

  /** `text.strip().startswith(('{', '['))`. */
  predicate StartsWithOpener(text: string) {
    var j := SkipPySpace(text, 0);
    j < |text| && IsOpener(text[j])
  }

  /** The last index at or after `lo` that holds `c`: where the greedy `.*`
      followed by `c` stops. */
  function LastIndex(s: string, c: char, lo: nat): (r: Option<nat>)
    requires lo <= |s|
    ensures r.Some? ==> lo <= r.value < |s| && s[r.value] == c
    ensures forall m :: (if r.Some? then r.value + 1 else lo) <= m < |s| ==> s[m] != c
    decreases |s| - lo
  {
    if lo == |s| then None
    else match LastIndex(s, c, lo + 1)
      case Some(k) => Some(k)
      case None => if s[lo] == c then Some(lo) else None
  }

  /** The embedded pattern `(\{.*\}|\[.*\])` can start at `i`: an opener
      with a closer of its own kind somewhere after it. */
  predicate OpensEmbedded(s: string, i: nat) {
    i < |s| && IsOpener(s[i]) && exists m :: i < m < |s| && s[m] == Closer(s[i])
  }

  /** The leftmost index at or after `i` where the embedded pattern starts. */
  function FindEmbedded(s: string, i: nat): (r: Option<nat>)
    requires i <= |s|
    ensures r.Some? ==> i <= r.value && OpensEmbedded(s, r.value)
    ensures forall q :: i <= q < (if r.Some? then r.value else |s|) ==> !OpensEmbedded(s, q)
    decreases |s| - i
  {
    if i == |s| then None
    else if IsOpener(s[i]) && LastIndex(s, Closer(s[i]), i + 1).Some? then Some(i)
    else FindEmbedded(s, i + 1)
  }

  /** The embedded match: from the leftmost possible opener to the last
      closer of its kind. */
  function Embedded(s: string): (r: Option<Span>)
    ensures r.Some? ==> r.value.lo < r.value.hi <= |s| && Bracketed(s[r.value.lo..r.value.hi])
    ensures r.None? <==> forall q :: 0 <= q < |s| ==> !OpensEmbedded(s, q)
  {
    match FindEmbedded(s, 0)
    case Some(i) => Some(Span(i, LastIndex(s, Closer(s[i]), i + 1).value + 1))
    case None => None
  }

  /** The text after the embedded step, which only runs when `t` does not
      start with a bracket. */
  function EmbeddedStep(t: string): (r: string)
    ensures StartsWithOpener(t) ==> r == t
    ensures !StartsWithOpener(t) && (exists q :: 0 <= q < |t| && OpensEmbedded(t, q)) ==> Bracketed(r)
    ensures r == t || Bracketed(r)
    ensures |r| <= |t|
  {
    if StartsWithOpener(t) then t
    else match Embedded(t)
      case Some(span) => t[span.lo..span.hi]
      case None => t
  }

  /** The text `json.loads` is given: the fence step, then the embedded
      step. */
  function WorkingText(text: string): (r: string)
    ensures r == text || Bracketed(r)
    ensures |r| <= |text|
    ensures FindFence(text, 0).Some? ==> Bracketed(r)
  {
    EmbeddedStep(Fenced(text))
  }

  /** A text without a backtick has no fence, so the fence step leaves it
      as it is. */
  lemma NoTicksNoFence(text: string)
    requires forall k :: 0 <= k < |text| ==> text[k] != '`'
    ensures Fenced(text) == text
  {
    match FindFence(text, 0)
    case Some(p) =>
      assert false;
    case None =>
  }

  /** When the fence matches, the text `json.loads` sees is exactly the
      captured body, which starts with a bracket and ends with its closer;
      the embedded step does not run. */
  lemma FenceBodyKept(text: string)
    requires FindFence(text, 0).Some?
    ensures WorkingText(text) == Fenced(text)
    ensures var t := Fenced(text); |t| >= 2 && IsOpener(t[0]) && t[|t| - 1] == Closer(t[0])
  {
    var body := FenceAt(text, FindFence(text, 0).value).value;
    var t := text[body.lo..body.hi];
    assert t[0] == text[body.lo];
    assert t[|t| - 1] == text[body.hi - 1];
    assert SkipPySpace(t, 0) == 0;
  }

  /** The lazy search stops at `e` when `e` is the first place the fence
      can end. */
  lemma FirstCloseIs(s: string, from: nat, close: char, e: nat)
    requires from <= e && ClosesFence(s, e, close)
    requires forall m :: from <= m < e ==> !ClosesFence(s, m, close)
    ensures FirstClose(s, from, close) == Some(e)
  {
  }

  /** The fence search stops at `p` when the pattern matches there and
      nowhere to its left. */
  lemma FindFenceIs(s: string, p: nat)
    requires p < |s| && FenceAt(s, p).Some?
    requires forall q :: 0 <= q < p ==> FenceAt(s, q).None?
    ensures FindFence(s, 0) == Some(p)
  {
  }

  /** Without a fence match, the working text is what the embedded step
      makes of the text itself. */
  lemma NoFenceEmbedded(text: string)
    requires FindFence(text, 0).None?
    ensures WorkingText(text) == EmbeddedStep(text)
  {
  }

  /** The fence pattern, tried at `p`, captures `text[b..e + 1]` when `e`
      is the first place the body opened at `b` can end. */
  lemma FenceAtIs(text: string, p: nat, e: nat)
    requires HasAt(text, p, Ticks)
    requires var b := BodyStart(text, p); b < e < |text| && IsOpener(text[b])
    requires var b := BodyStart(text, p); ClosesFence(text, e, Closer(text[b]))
    requires var b := BodyStart(text, p); forall m :: b < m < e ==> !ClosesFence(text, m, Closer(text[b]))
    ensures FenceAt(text, p) == Some(Span(BodyStart(text, p), e + 1))
  {
    var b := BodyStart(text, p);
    FirstCloseIs(text, b + 1, Closer(text[b]), e);
  }

  /** The fence step characterised without the search: if three backticks
      at `p` open a body at `b == BodyStart(text, p)` whose first possible
      end is `e`, and no fence matches further left, the working text is
      `text[b..e + 1]`. */
  lemma FencePick(text: string, p: nat, e: nat)
    requires HasAt(text, p, Ticks)
    requires var b := BodyStart(text, p); b < e < |text| && IsOpener(text[b])
    requires var b := BodyStart(text, p); ClosesFence(text, e, Closer(text[b]))
    requires var b := BodyStart(text, p); forall m :: b < m < e ==> !ClosesFence(text, m, Closer(text[b]))
    requires forall q :: 0 <= q < p ==> FenceAt(text, q).None?
    ensures WorkingText(text) == text[BodyStart(text, p)..e + 1]
  {
    FenceAtIs(text, p, e);
    FindFenceIs(text, p);
    FenceBodyKept(text);
  }

  /** A text that has no opener followed by its own closer passes the
      embedded step unchanged. */
  lemma EmbeddedNone(text: string)
    requires forall i :: 0 <= i < |text| ==> !OpensEmbedded(text, i)
    ensures EmbeddedStep(text) == text
  {
    assert FindEmbedded(text, 0).None?;
  }

  /** The embedded search stops at `i` when the pattern can start there and
      nowhere to its left. */
  lemma FindEmbeddedIs(s: string, i: nat)
    requires OpensEmbedded(s, i)
    requires forall q :: 0 <= q < i ==> !OpensEmbedded(s, q)
    ensures FindEmbedded(s, 0) == Some(i)
  {
  }

  /** The backward search finds `k` when `k` holds `c` and nothing after it
      does. */
  lemma LastIndexIs(s: string, c: char, lo: nat, k: nat)
    requires lo <= k < |s| && s[k] == c
    requires forall m :: k < m < |s| ==> s[m] != c
    ensures LastIndex(s, c, lo) == Some(k)
  {
  }

  /** The embedded match is `text[i..k + 1]` when `i` is the leftmost
      opener with its own closer after it and `k` the last such closer. */
  lemma EmbeddedIs(text: string, i: nat, k: nat)
    requires OpensEmbedded(text, i)
    requires forall q :: 0 <= q < i ==> !OpensEmbedded(text, q)
    requires i < k < |text| && text[k] == Closer(text[i])
    requires forall m :: k < m < |text| ==> text[m] != text[k]
    ensures Embedded(text) == Some(Span(i, k + 1))
  {
    FindEmbeddedIs(text, i);
    LastIndexIs(text, Closer(text[i]), i + 1, k);
  }

  /** The embedded step characterised without the search: on a text that
      does not start with a bracket, with `i` the leftmost opener that has
      its own closer after it and `k` the last such closer, the result is
      `text[i..k + 1]`. */
  lemma EmbeddedPick(text: string, i: nat, k: nat)
    requires !StartsWithOpener(text)
    requires OpensEmbedded(text, i)
    requires forall q :: 0 <= q < i ==> !OpensEmbedded(text, q)
    requires i < k < |text| && text[k] == Closer(text[i])
    requires forall m :: k < m < |text| ==> text[m] != text[k]
    ensures EmbeddedStep(text) == text[i..k + 1]
  {
    EmbeddedIs(text, i, k);
  }

  /** A brace-delimited body with no inner closing brace and no backtick:
      what a model typically puts in a fence. */
  predicate SimpleBody(b: string) {
    |b| >= 2 && b[0] == '{' && b[|b| - 1] == '}'
    && (forall i :: 0 < i < |b| - 1 ==> b[i] != '}')
    && (forall i :: 0 <= i < |b| ==> b[i] != '`')
  }

  /** A reply holding one fence: prose without backticks, the fence with
      an optional `json` label and the body on lines of its own, then
      anything. */
  function FenceReply(pre: string, tag: string, b: string, post: string): string {
    pre + Ticks + tag + "\n" + b + "\n" + Ticks + post
  }

  /** Three backticks at `i`. */
  lemma TicksAt(s: string, i: nat)
    requires i + 3 <= |s| && s[i] == '`' && s[i + 1] == '`' && s[i + 2] == '`'
    ensures HasAt(s, i, Ticks)
  {
    assert HasAt(s, i + 3, Ticks[3..]);
    assert HasAt(s, i + 2, Ticks[2..]);
    assert HasAt(s, i + 1, Ticks[1..]);
  }

  /** The fence opening `"```" + tag + "\n"` is followed by the body. */
  lemma FenceOpening(text: string, pre: string, tag: string, b: string, post: string)
    requires tag == "json" || tag == ""
    requires SimpleBody(b) && text == FenceReply(pre, tag, b, post)
    ensures HasAt(text, |pre|, Ticks) && BodyStart(text, |pre|) == |pre| + |tag| + 4
  {
    var p := |pre|;
    var lo := p + |tag| + 4;
    assert text[p] == '`' && text[p + 1] == '`' && text[p + 2] == '`';
    TicksAt(text, p);
    if tag == "json" {
      assert text[p + 3..p + 7] == "json";
      assert text[p + 3] == 'j' && text[p + 4] == 's' && text[p + 5] == 'o' && text[p + 6] == 'n';
      assert HasAt(text, p + 3, "json");
    } else {
      assert text[p + 3] == '\n';
    }
    assert text[lo - 1] == '\n' && text[lo] == '{';
    assert SkipPySpace(text, lo) == lo;
    assert SkipPySpace(text, lo - 1) == lo;
  }

  /** The body's closing brace is followed by the closing fence, and no
      earlier character of the body can end the fence. */
  lemma FenceClosing(text: string, pre: string, tag: string, b: string, post: string)
    requires SimpleBody(b) && text == FenceReply(pre, tag, b, post)
    ensures var lo := |pre| + |tag| + 4; var e := lo + |b| - 1;
      ClosesFence(text, e, '}') && forall m :: lo < m < e ==> !ClosesFence(text, m, '}')
  {
    var lo := |pre| + |tag| + 4;
    var e := lo + |b| - 1;
    assert text[e] == b[|b| - 1] && text[e + 1] == '\n';
    assert SkipPySpace(text, e + 2) == e + 2 by {
      assert text[e + 2] == '`';
    }
    assert text[e + 2] == '`' && text[e + 3] == '`' && text[e + 4] == '`';
    TicksAt(text, e + 2);
    forall m | lo < m < e
      ensures !ClosesFence(text, m, '}')
    {
      assert text[m] == b[m - lo];
    }
  }

  /** Where the body sits in the reply. */
  lemma FenceSlice(text: string, pre: string, tag: string, b: string, post: string)
    requires SimpleBody(b) && text == FenceReply(pre, tag, b, post)
    ensures text[|pre| + |tag| + 4] == '{' && text[|pre| + |tag| + 4..|pre| + |tag| + |b| + 4] == b
  {
    var lo := |pre| + |tag| + 4;
    assert text[lo..lo + |b|] == b;
  }

  /** Nothing before the prose's end starts a fence. */
  lemma NoFenceInProse(text: string, pre: string, tag: string, b: string, post: string)
    requires (forall i :: 0 <= i < |pre| ==> pre[i] != '`') && text == FenceReply(pre, tag, b, post)
    ensures forall q :: 0 <= q < |pre| ==> FenceAt(text, q).None?
  {
    forall q | 0 <= q < |pre|
      ensures FenceAt(text, q).None?
    {
      assert text[q] == pre[q];
    }
  }

  /** In a reply with one fence, labelled `json` or not, after prose
      without backticks, the fence pattern captures the body `b`, whatever
      follows the fence. */
  lemma FenceCaptures(text: string, pre: string, tag: string, b: string, post: string)
    requires tag == "json" || tag == ""
    requires forall i :: 0 <= i < |pre| ==> pre[i] != '`'
    requires SimpleBody(b) && text == FenceReply(pre, tag, b, post)
    ensures WorkingText(text) == b
  {
    var lo := |pre| + |tag| + 4;
    var e := lo + |b| - 1;
    FenceOpening(text, pre, tag, b, post);
    FenceClosing(text, pre, tag, b, post);
    FenceSlice(text, pre, tag, b, post);
    NoFenceInProse(text, pre, tag, b, post);
    ObjectFencePick(text, |pre|, lo, e, b);
  }

  /** `FencePick` for a body `b` that opens with `{` at `lo` and whose
      first fence-closing `}` is at `e`. */
  lemma ObjectFencePick(text: string, p: nat, lo: nat, e: nat, b: string)
    requires HasAt(text, p, Ticks) && BodyStart(text, p) == lo
    requires lo < e < |text| && text[lo] == '{' && text[lo..e + 1] == b
    requires ClosesFence(text, e, '}') && forall m :: lo < m < e ==> !ClosesFence(text, m, '}')
    requires forall q :: 0 <= q < p ==> FenceAt(text, q).None?
    ensures WorkingText(text) == b
  {
    FencePick(text, p, e);
  }

  /** The embedded step takes the first bracketed part that closes, even
      when a JSON object follows it: `Note [see] {"a": 1}` gives `[see]`. */
  lemma BracketBeforeObject(text: string)
    requires text == "Note [see] {\"a\": 1}"
    ensures EmbeddedStep(text) == "[see]"
  {
    assert text[9] == ']';
    assert OpensEmbedded(text, 5);
    assert forall m :: 9 < m < |text| ==> text[m] != ']';
    assert SkipPySpace(text, 0) == 0;
    EmbeddedPick(text, 5, 9);
  }
  /** A text that starts with a bracket, after optional whitespace, passes
      the embedded step whole, whatever follows the bracket. */
  lemma OpenerKept(t: string)
    requires StartsWithOpener(t)
    ensures EmbeddedStep(t) == t
  {
  }

  /** Without a backtick such a text is what the decoder is given. */
  lemma BracketedKept(text: string)
    requires forall k :: 0 <= k < |text| ==> text[k] != '`'
    requires StartsWithOpener(text)
    ensures WorkingText(text) == text
  {
    NoTicksNoFence(text);
    OpenerKept(text);
  }
  /** In `{"a": "```[1]```"}` the fence opens at the backticks inside
      the string value and its body is the list between them. */
  lemma FenceInStringAt(text: string)
    requires text == "{\"a\": \"```[1]```\"}"
    ensures WorkingText(text) == text[10..13]
  {
    assert HasAt(text, 7, Ticks);
    assert !HasAt(text, 10, "json") && SkipPySpace(text, 10) == 10;
    assert BodyStart(text, 7) == 10;
    assert SkipPySpace(text, 13) == 13 && HasAt(text, 13, Ticks);
    assert ClosesFence(text, 12, ']');
    assert !ClosesFence(text, 11, ']');
    forall q | 0 <= q < 7
      ensures FenceAt(text, q).None?
    {
      assert text[q] != '`';
    }
    FencePick(text, 7, 12);
  }

  /** So the fence step takes the `[1]` out of the string value. */
  lemma FenceInString(text: string)
    requires text == "{\"a\": \"```[1]```\"}"
    ensures WorkingText(text) == "[1]"
  {
    FenceInStringAt(text);
    FenceInStringBody(text);
  }

  lemma FenceInStringBody(text: string)
    requires text == "{\"a\": \"```[1]```\"}"
    ensures text[10..13] == "[1]"
  {
  }
}
